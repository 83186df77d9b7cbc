/**
  `xal_dinodes_retrieve`: every live inode of the filesystem is copied into one array, and a map
  leads from its number to its place there.
 */
module XfsRetrieval {
  import opened Probing
  import opened XfsFormat
  import opened XfsGeometry
  import opened XfsInodeChunks

  /** The number that an inode carries. */
  function InoOf(b: seq<Byte>): nat
    requires |b| >= INO_OFFSET + 8
  {
    Be64(b[INO_OFFSET..INO_OFFSET + 8])
  }

  predicate AllSized(list: seq<seq<Byte>>, size: nat) {
    forall b :: b in list ==> |b| == size
  }

  /** The map that putting the inodes in order builds. */
  function Numbered(list: seq<seq<Byte>>, size: nat): map<nat, nat>
    requires AllSized(list, size) && size >= INO_OFFSET + 8
  {
    if list == [] then map[]
    else Numbered(list[..|list| - 1], size)[InoOf(list[|list| - 1]) := |list| - 1]
  }

  /** The map holds the number of every inode, and leads to an inode that carries it. */
  lemma {:induction false} NumberedLeads(list: seq<seq<Byte>>, size: nat)
    requires AllSized(list, size) && size >= INO_OFFSET + 8
    ensures forall k :: 0 <= k < |list| ==> InoOf(list[k]) in Numbered(list, size)
    ensures forall n :: n in Numbered(list, size) ==> Numbered(list, size)[n] < |list| && InoOf(list[Numbered(list, size)[n]]) == n
  {
    hide InoOf;
    if list != [] {
      var n := |list| - 1;
      NumberedLeads(list[..n], size);
      forall k | 0 <= k < |list| ensures InoOf(list[k]) in Numbered(list, size) {
        if k < n {
          assert list[..n][k] == list[k];
        }
      }
    }
  }

  lemma NumberedStep(list: seq<seq<Byte>>, b: seq<Byte>, size: nat)
    requires AllSized(list, size) && |b| == size && size >= INO_OFFSET + 8
    ensures AllSized(list + [b], size)
    ensures Numbered(list + [b], size) == Numbered(list, size)[InoOf(b) := |list|]
  {
    hide InoOf;
    assert (list + [b])[..|list|] == list;
  }

  // ----- The retrieved inodes are the live ones -------------------------------------------------

  /** `b` is the inode at place `ci` of the record's chunk, and is live. */
  predicate IsLive(img: seq<Byte>, g: Geometry, seqno: nat, r: Rec, ci: nat, b: seq<Byte>) {
    ChunkReadable(img, g, seqno, r) && ci < CHUNK && Live(r, ci) && b == InodeAt(img, g, seqno, r, ci)
  }

  lemma {:induction false} LiveOnes(img: seq<Byte>, g: Geometry, seqno: nat, r: Rec, n: nat)
    requires ChunkReadable(img, g, seqno, r) && n <= CHUNK
    ensures forall ci :: 0 <= ci < n && Live(r, ci) ==> InodeAt(img, g, seqno, r, ci) in LiveInodes(img, g, seqno, r, n)
    ensures forall b :: b in LiveInodes(img, g, seqno, r, n) ==> exists ci :: 0 <= ci < n && IsLive(img, g, seqno, r, ci, b)
  {
    hide InodeAt, Live, ChunkReadable;
    if n > 0 {
      LiveOnes(img, g, seqno, r, n - 1);
      var front, all := LiveInodes(img, g, seqno, r, n - 1), LiveInodes(img, g, seqno, r, n);
      forall b | b in all ensures exists ci :: 0 <= ci < n && IsLive(img, g, seqno, r, ci, b) {
        if b in front {
          var ci :| 0 <= ci < n - 1 && IsLive(img, g, seqno, r, ci, b);
        } else {
          assert IsLive(img, g, seqno, r, n - 1, b);
        }
      }
    }
  }

  ghost predicate FromRecs(img: seq<Byte>, g: Geometry, seqno: nat, rs: seq<Rec>, b: seq<Byte>) {
    exists r, ci: nat :: r in rs && IsLive(img, g, seqno, r, ci, b)
  }

  lemma {:induction false} RecOnes(img: seq<Byte>, g: Geometry, seqno: nat, rs: seq<Rec>)
    requires AllReadable(img, g, seqno, rs)
    ensures forall r, ci: nat, b :: r in rs && IsLive(img, g, seqno, r, ci, b) ==> b in RecInodes(img, g, seqno, rs)
    ensures forall b :: b in RecInodes(img, g, seqno, rs) ==> FromRecs(img, g, seqno, rs, b)
  {
    hide InodeAt, Live, ChunkReadable, LiveInodes;
    if rs != [] {
      var n := |rs| - 1;
      var front, last, all := RecInodes(img, g, seqno, rs[..n]), LiveInodes(img, g, seqno, rs[n], CHUNK), RecInodes(img, g, seqno, rs);
      RecOnes(img, g, seqno, rs[..n]);
      LiveOnes(img, g, seqno, rs[n], CHUNK);
      assert rs == rs[..n] + [rs[n]] && all == front + last;
      forall r, ci: nat, b | r in rs && IsLive(img, g, seqno, r, ci, b) ensures b in all {
        if r in rs[..n] {
          assert b in front;
        } else {
          assert r == rs[n] && b in last;
        }
      }
      forall b | b in all ensures FromRecs(img, g, seqno, rs, b) {
        if b in front {
          var r, ci :| r in rs[..n] && IsLive(img, g, seqno, r, ci, b);
        } else {
          var ci :| 0 <= ci < CHUNK && IsLive(img, g, seqno, rs[n], ci, b);
        }
      }
    }
  }

  /** The records of every allocation group. */
  type Groups = seq<seq<Rec>>

  predicate GroupsReadable(img: seq<Byte>, g: Geometry, ags: Groups) {
    forall s :: 0 <= s < |ags| ==> AllReadable(img, g, s, ags[s])
  }

  function GroupInodes(img: seq<Byte>, g: Geometry, ags: Groups): seq<seq<Byte>>
    requires GroupsReadable(img, g, ags)
  {
    if ags == [] then []
    else
      var n := |ags| - 1;
      GroupInodes(img, g, ags[..n]) + RecInodes(img, g, n, ags[n])
  }

  /** Inode `ci` of record `r` in group `s` is live. */
  predicate LiveAt(ags: Groups, s: nat, r: Rec, ci: nat) {
    s < |ags| && r in ags[s] && ci < CHUNK && Live(r, ci)
  }

  ghost predicate FromGroups(img: seq<Byte>, g: Geometry, ags: Groups, b: seq<Byte>) {
    exists s: nat, r, ci: nat :: LiveAt(ags, s, r, ci) && IsLive(img, g, s, r, ci, b)
  }

  lemma {:induction false} GroupOnes(img: seq<Byte>, g: Geometry, ags: Groups)
    requires GroupsReadable(img, g, ags)
    ensures forall s: nat, r, ci: nat, b :: LiveAt(ags, s, r, ci) && IsLive(img, g, s, r, ci, b) ==> b in GroupInodes(img, g, ags)
    ensures forall b :: b in GroupInodes(img, g, ags) ==> FromGroups(img, g, ags, b)
  {
    hide InodeAt, Live, ChunkReadable, RecInodes;
    if ags != [] {
      var n := |ags| - 1;
      GroupOnes(img, g, ags[..n]);
      RecOnes(img, g, n, ags[n]);
      var front, last, all := GroupInodes(img, g, ags[..n]), RecInodes(img, g, n, ags[n]), GroupInodes(img, g, ags);
      assert all == front + last;
      forall s: nat, r, ci: nat, b | LiveAt(ags, s, r, ci) && IsLive(img, g, s, r, ci, b) ensures b in all {
        if s < n {
          assert LiveAt(ags[..n], s, r, ci);
          assert b in front;
        } else {
          assert b in last;
        }
      }
      forall b | b in all ensures FromGroups(img, g, ags, b) {
        if b in front {
          var s, r, ci :| LiveAt(ags[..n], s, r, ci) && IsLive(img, g, s, r, ci, b);
          assert LiveAt(ags, s, r, ci);
        } else {
          var r, ci :| r in ags[n] && IsLive(img, g, n, r, ci, b);
          assert LiveAt(ags, n, r, ci);
        }
      }
    }
  }

  // ----- Exactness ------------------------------------------------------------------------------

  /** Chunks lie where the format puts them, and each live inode carries its own number. */
  ghost predicate WellNumbered(img: seq<Byte>, g: Geometry, ags: Groups)
    requires GroupsReadable(img, g, ags) && g.inodesize >= INO_OFFSET + 8
  {
    && (forall s, r :: 0 <= s < |ags| && r in ags[s] ==> ChunkInGroup(g, s, r))
    && (forall s: nat, r, ci: nat :: LiveAt(ags, s, r, ci) ==> CarriesNumber(img, g, s, r, ci))
  }

  ghost predicate CarriesNumber(img: seq<Byte>, g: Geometry, s: nat, r: Rec, ci: nat)
    requires g.inodesize >= INO_OFFSET + 8
  {
    ChunkReadable(img, g, s, r) && ci < CHUNK && InoOf(InodeAt(img, g, s, r, ci)) == Number(g, s, r, ci)
  }

  /** The inode with the given number is the bytes at the address of section 13.3.1. */
  predicate AtItsAddress(img: seq<Byte>, g: Geometry, n: nat, b: seq<Byte>) {
    InodeOffset(g, n) + g.inodesize <= |img| && b == img[InodeOffset(g, n)..InodeOffset(g, n) + g.inodesize]
  }

  lemma LiveAddress(img: seq<Byte>, g: Geometry, s: nat, r: Rec, ci: nat, b: seq<Byte>)
    requires Sane(g) && ChunkInGroup(g, s, r) && IsLive(img, g, s, r, ci, b)
    ensures AtItsAddress(img, g, Number(g, s, r, ci), b)
  {
    InodeAddress(g, s, r, ci);
    MulLe(ci + 1, CHUNK, g.inodesize);
    Distribute(ci, 1, g.inodesize);
    hide Pow2, Sane, InodeOffset, ChunkInGroup, ChunkOffset, Number, Live;
  }

  lemma RetrievedSized(img: seq<Byte>, g: Geometry, ags: Groups)
    requires GroupsReadable(img, g, ags)
    ensures AllSized(GroupInodes(img, g, ags), g.inodesize)
  {
    GroupOnes(img, g, ags);
    hide Live, ChunkReadable, GroupInodes, LiveAt;
    forall b | b in GroupInodes(img, g, ags) ensures |b| == g.inodesize {
      var s: nat, r, ci: nat :| LiveAt(ags, s, r, ci) && IsLive(img, g, s, r, ci, b);
    }
  }

  /** `n` is the number of a live inode. */
  ghost predicate LiveNumber(g: Geometry, ags: Groups, n: nat) {
    exists s: nat, r, ci: nat :: LiveAt(ags, s, r, ci) && Number(g, s, r, ci) == n
  }

  lemma KeyIsLive(img: seq<Byte>, g: Geometry, ags: Groups, b: seq<Byte>)
    requires Sane(g) && g.inodesize >= INO_OFFSET + 8 && GroupsReadable(img, g, ags) && WellNumbered(img, g, ags)
    requires b in GroupInodes(img, g, ags)
    ensures |b| == g.inodesize && LiveNumber(g, ags, InoOf(b)) && AtItsAddress(img, g, InoOf(b), b)
  {
    GroupOnes(img, g, ags);
    hide Live, ChunkReadable, GroupInodes, InoOf, Number, InodeAt, Sane, ChunkInGroup;
    var s: nat, r, ci: nat :| LiveAt(ags, s, r, ci) && IsLive(img, g, s, r, ci, b);
    assert CarriesNumber(img, g, s, r, ci);
    LiveAddress(img, g, s, r, ci, b);
  }

  lemma LiveIsKey(img: seq<Byte>, g: Geometry, ags: Groups, n: nat) returns (b: seq<Byte>)
    requires g.inodesize >= INO_OFFSET + 8 && GroupsReadable(img, g, ags) && WellNumbered(img, g, ags) && LiveNumber(g, ags, n)
    ensures b in GroupInodes(img, g, ags) && |b| == g.inodesize && InoOf(b) == n
  {
    GroupOnes(img, g, ags);
    hide Live, ChunkReadable, GroupInodes, InoOf, Number, ChunkInGroup;
    var s: nat, r, ci: nat :| LiveAt(ags, s, r, ci) && Number(g, s, r, ci) == n;
    assert CarriesNumber(img, g, s, r, ci);
    b := InodeAt(img, g, s, r, ci);
    assert IsLive(img, g, s, r, ci, b);
  }

  /**
    Over well-formed inode B+trees retrieval is exact: the map holds the numbers of exactly the
    inodes that are neither in a hole nor free, and leads to the bytes at their addresses.
   */
  lemma RetrievalExact(img: seq<Byte>, g: Geometry, ags: Groups, n: nat)
    requires Sane(g) && g.inodesize >= INO_OFFSET + 8
    requires GroupsReadable(img, g, ags) && WellNumbered(img, g, ags)
    ensures AllSized(GroupInodes(img, g, ags), g.inodesize)
    ensures var list := GroupInodes(img, g, ags);
            var m := Numbered(list, g.inodesize);
            && (n in m <==> LiveNumber(g, ags, n))
            && (n in m ==> m[n] < |list| && AtItsAddress(img, g, n, list[m[n]]))
  {
    RetrievedSized(img, g, ags);
    var list := GroupInodes(img, g, ags);
    NumberedLeads(list, g.inodesize);
    hide *;
    var m := Numbered(list, g.inodesize);
    if n in m {
      KeyIsLive(img, g, ags, list[m[n]]);
    }
    if LiveNumber(g, ags, n) {
      var b := LiveIsKey(img, g, ags, n);
      var k :| 0 <= k < |list| && list[k] == b;
    }
  }
}
