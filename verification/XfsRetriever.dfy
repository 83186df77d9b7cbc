/** The code that fills the array of inodes and its map, allocation group after allocation group. */
module XfsRetriever {
  import opened XfsFormat
  import opened XfsGeometry
  import opened XfsInodeChunks
  import opened XfsRetrieval
  import PoolMemory

  // ----- When a walk's inodes can be taken ------------------------------------------------------

  /** The array has room for `k` inodes from place `n` on, and the map gets memory for each. */
  ghost predicate Room(mayPut: nat -> bool, len: nat, n: nat, k: nat) {
    n + k <= len && forall i :: n <= i < n + k ==> mayPut(i)
  }

  /** Every record of the walk can be taken, and there is room for its inodes from place `n` on. */
  ghost predicate Fits(img: seq<Byte>, g: Geometry, mayPut: nat -> bool, len: nat, seqno: nat, w: Walk, n: nat)
    requires Sane(g)
  {
    w.err == 0 && AllTaken(img, g, seqno, w.recs) && Room(mayPut, len, n, |Taken(img, g, seqno, w.recs)|)
  }

  /** The live inodes of records that can all be taken. */
  function Taken(img: seq<Byte>, g: Geometry, seqno: nat, rs: seq<Rec>): seq<seq<Byte>>
    requires Sane(g) && AllTaken(img, g, seqno, rs)
  {
    TakenReadable(img, g, seqno, rs);
    RecInodes(img, g, seqno, rs)
  }

  lemma TakenReadable(img: seq<Byte>, g: Geometry, seqno: nat, rs: seq<Rec>)
    requires Sane(g) && AllTaken(img, g, seqno, rs)
    ensures AllReadable(img, g, seqno, rs)
  {
    hide Sane, ChunkErr, ChunkReadable, DecodeRelative;
    forall r | r in rs ensures ChunkReadable(img, g, seqno, r) {
      ChunkTaken(img, g, seqno, r);
    }
  }

  lemma RoomSplit(mayPut: nat -> bool, len: nat, n: nat, a: nat, b: nat)
    ensures Room(mayPut, len, n, a + b) <==> Room(mayPut, len, n, a) && Room(mayPut, len, n + a, b)
  {
  }

  lemma {:induction false} TakenConcat(img: seq<Byte>, g: Geometry, seqno: nat, a: seq<Rec>, b: seq<Rec>)
    requires Sane(g)
    ensures AllTaken(img, g, seqno, a + b) <==> AllTaken(img, g, seqno, a) && AllTaken(img, g, seqno, b)
    ensures AllTaken(img, g, seqno, a + b) ==> Taken(img, g, seqno, a + b) == Taken(img, g, seqno, a) + Taken(img, g, seqno, b)
    decreases |b|
  {
    hide Sane, ChunkErr, LiveInodes, ChunkReadable;
    forall r ensures r in a + b <==> r in a || r in b {
    }
    if b == [] {
      assert a + b == a;
    } else {
      var n := |b| - 1;
      assert (a + b)[..|a + b| - 1] == a + b[..n];
      TakenConcat(img, g, seqno, a, b[..n]);
    }
  }

  /** The records of one walk, and then those of another. */
  lemma FitsConcat(img: seq<Byte>, g: Geometry, mayPut: nat -> bool, len: nat, seqno: nat, a: seq<Rec>, b: Walk, n: nat)
    requires Sane(g)
    ensures var whole := Walk(a + b.recs, b.err);
            Fits(img, g, mayPut, len, seqno, whole, n) <==>
            && Fits(img, g, mayPut, len, seqno, Walk(a, 0), n)
            && Fits(img, g, mayPut, len, seqno, b, n + |Taken(img, g, seqno, a)|)
  {
    hide Sane, Room, AllTaken, Taken;
    TakenConcat(img, g, seqno, a, b.recs);
    if AllTaken(img, g, seqno, a + b.recs) {
      RoomSplit(mayPut, len, n, |Taken(img, g, seqno, a)|, |Taken(img, g, seqno, b.recs)|);
    }
  }

  lemma TakeOne(img: seq<Byte>, g: Geometry, seqno: nat, r: Rec)
    requires Sane(g)
    ensures AllTaken(img, g, seqno, [r]) <==> ChunkErr(img, g, seqno, r) == 0
    ensures ChunkErr(img, g, seqno, r) == 0 ==>
              ChunkReadable(img, g, seqno, r) && Taken(img, g, seqno, [r]) == LiveInodes(img, g, seqno, r, CHUNK)
    ensures AllAsserted(g, [r]) <==> Asserted(g, r)
  {
    hide Sane, ChunkErr, LiveInodes, ChunkReadable, Asserted;
    assert r in [r] && [r][..0] == [];
    if ChunkErr(img, g, seqno, r) == 0 {
      TakenReadable(img, g, seqno, [r]);
      assert RecInodes(img, g, seqno, [r]) == RecInodes(img, g, seqno, []) + LiveInodes(img, g, seqno, r, CHUNK);
    }
  }

  lemma TakeNone(img: seq<Byte>, g: Geometry, mayPut: nat -> bool, len: nat, seqno: nat, n: nat)
    requires Sane(g) && n <= len
    ensures AllTaken(img, g, seqno, []) && Taken(img, g, seqno, []) == [] && AllAsserted(g, [])
    ensures Fits(img, g, mayPut, len, seqno, Walk([], 0), n)
  {
    hide Sane;
  }

  lemma AssertedConcat(g: Geometry, a: seq<Rec>, b: seq<Rec>)
    ensures AllAsserted(g, a + b) <==> AllAsserted(g, a) && AllAsserted(g, b)
  {
    hide Asserted;
    forall r ensures r in a + b <==> r in a || r in b {
    }
  }

  // ----- Prefixes -------------------------------------------------------------------------------

  /** What the first `n` pointers lead to. */
  function PrefixWalk(img: seq<Byte>, g: Geometry, seqno: nat, ptrs: seq<nat>, n: nat, frames: nat): Walk
    requires Blocks(g) && n <= |ptrs|
  {
    WalkAll(img, g, seqno, ptrs[..n], frames)
  }

  lemma PrefixEnds(img: seq<Byte>, g: Geometry, seqno: nat, ptrs: seq<nat>, frames: nat)
    requires Blocks(g)
    ensures PrefixWalk(img, g, seqno, ptrs, 0, frames) == Walk([], 0)
    ensures PrefixWalk(img, g, seqno, ptrs, |ptrs|, frames) == WalkAll(img, g, seqno, ptrs, frames)
  {
    assert ptrs[..|ptrs|] == ptrs;
  }

  lemma PrefixNext(img: seq<Byte>, g: Geometry, seqno: nat, ptrs: seq<nat>, n: nat, frames: nat)
    requires Blocks(g) && n < |ptrs|
    requires PrefixWalk(img, g, seqno, ptrs, n, frames).err == 0
    ensures var front, last := PrefixWalk(img, g, seqno, ptrs, n, frames), WalkAt(img, g, seqno, ptrs[n], frames);
            PrefixWalk(img, g, seqno, ptrs, n + 1, frames) == Walk(front.recs + last.recs, last.err)
  {
    assert ptrs[..n + 1][..n] == ptrs[..n];
  }

  /** If the whole can be taken then so can every prefix, and a failed assertion in a prefix is one of the whole. */
  lemma {:induction false} PrefixPart(img: seq<Byte>, g: Geometry, mayPut: nat -> bool, len: nat, seqno: nat,
                                      ptrs: seq<nat>, n: nat, frames: nat, at: nat)
    requires Sane(g) && Blocks(g) && n <= |ptrs|
    ensures var part, whole := PrefixWalk(img, g, seqno, ptrs, n, frames), WalkAll(img, g, seqno, ptrs, frames);
            && (Fits(img, g, mayPut, len, seqno, whole, at) ==> Fits(img, g, mayPut, len, seqno, part, at))
            && (AllAsserted(g, whole.recs) ==> AllAsserted(g, part.recs))
    decreases |ptrs|
  {
    if n == |ptrs| {
      assert ptrs[..n] == ptrs;
    } else {
      var m := |ptrs| - 1;
      assert ptrs[..m][..n] == ptrs[..n];
      PrefixPart(img, g, mayPut, len, seqno, ptrs[..m], n, frames, at);
      hide Sane, WalkAt, AllTaken, AllAsserted, Taken, Room;
      var front := WalkAll(img, g, seqno, ptrs[..m], frames);
      if front.err == 0 {
        var last := WalkAt(img, g, seqno, ptrs[m], frames);
        FitsConcat(img, g, mayPut, len, seqno, front.recs, last, at);
        AssertedConcat(g, front.recs, last.recs);
      }
    }
  }

  lemma {:induction false} LeafPrefix(b: seq<Byte>, n: nat, k: nat)
    requires k <= n
    ensures LeafRecs(b, n)[..k] == LeafRecs(b, k) && (k < n ==> LeafRecs(b, n)[k] == RecAt(b, k))
    decreases n
  {
    hide RecAt;
    if k < n {
      LeafPrefix(b, n - 1, k);
    }
  }

  lemma RecsPart(img: seq<Byte>, g: Geometry, mayPut: nat -> bool, len: nat, seqno: nat, recs: seq<Rec>, k: nat, at: nat)
    requires Sane(g) && k <= |recs|
    ensures Fits(img, g, mayPut, len, seqno, Walk(recs, 0), at) ==> Fits(img, g, mayPut, len, seqno, Walk(recs[..k], 0), at)
    ensures AllAsserted(g, recs) ==> AllAsserted(g, recs[..k])
  {
    hide Sane, Fits, AllAsserted;
    assert recs == recs[..k] + recs[k..];
    FitsConcat(img, g, mayPut, len, seqno, recs[..k], Walk(recs[k..], 0), at);
    AssertedConcat(g, recs[..k], recs[k..]);
  }

  // ----- Chunks ---------------------------------------------------------------------------------

  /** The bytes at place `ci` of a chunk. */
  function PieceOf(chunk: seq<Byte>, size: nat, ci: nat): (b: seq<Byte>)
    requires |chunk| == CHUNK * size && ci < CHUNK
    ensures |b| == size
  {
    MulLe(ci + 1, CHUNK, size);
    Distribute(ci, 1, size);
    chunk[Times(ci, size)..Times(ci, size) + size]
  }

  lemma SliceOfSlice(s: seq<Byte>, at: nat, n: nat, lo: nat, size: nat)
    requires at + n <= |s| && lo + size <= n
    ensures s[at..at + n][lo..lo + size] == s[at + lo..at + lo + size]
  {
    var a, b := s[at..at + n][lo..lo + size], s[at + lo..at + lo + size];
    forall i | 0 <= i < size ensures a[i] == b[i] {
      assert a[i] == s[at..at + n][lo + i] && b[i] == s[at + lo + i];
    }
  }

  ghost predicate IsChunk(img: seq<Byte>, g: Geometry, seqno: nat, r: Rec, chunk: seq<Byte>) {
    && ChunkReadable(img, g, seqno, r) && |chunk| == CHUNK * g.inodesize
    && chunk == img[ChunkOffset(g, seqno, r)..ChunkOffset(g, seqno, r) + |chunk|]
  }

  lemma ChunkPiece(img: seq<Byte>, g: Geometry, seqno: nat, r: Rec, chunk: seq<Byte>, ci: nat)
    requires IsChunk(img, g, seqno, r, chunk) && ci < CHUNK
    ensures PieceOf(chunk, g.inodesize, ci) == InodeAt(img, g, seqno, r, ci)
  {
    MulLe(ci + 1, CHUNK, g.inodesize);
    Distribute(ci, 1, g.inodesize);
    var at, lo := ChunkOffset(g, seqno, r), Times(ci, g.inodesize);
    assert lo + g.inodesize <= |chunk| && at + |chunk| <= |img|;
    hide ChunkOffset, Times;
    SliceOfSlice(img, at, |chunk|, lo, g.inodesize);
  }

  lemma LiveStep(img: seq<Byte>, g: Geometry, seqno: nat, r: Rec, n: nat)
    requires ChunkReadable(img, g, seqno, r) && n < CHUNK
    ensures LiveInodes(img, g, seqno, r, 0) == []
    ensures LiveInodes(img, g, seqno, r, n + 1) ==
            LiveInodes(img, g, seqno, r, n) + if Live(r, n) then [InodeAt(img, g, seqno, r, n)] else []
  {
    hide InodeAt, ChunkReadable, Bit;
  }

  lemma {:induction false} LiveGrows(img: seq<Byte>, g: Geometry, seqno: nat, r: Rec, n: nat)
    requires ChunkReadable(img, g, seqno, r) && n <= CHUNK
    ensures |LiveInodes(img, g, seqno, r, n)| <= |LiveInodes(img, g, seqno, r, CHUNK)|
    decreases CHUNK - n
  {
    hide InodeAt, ChunkReadable, LiveInodes, Live;
    if n < CHUNK {
      LiveStep(img, g, seqno, r, n);
      LiveGrows(img, g, seqno, r, n + 1);
    }
  }

  lemma RoomForOne(mayPut: nat -> bool, len: nat, n: nat)
    ensures Room(mayPut, len, n, 1) <==> n < len && mayPut(n)
    ensures Room(mayPut, len, n, 0) <==> n <= len
  {
  }

  lemma RoomPart(mayPut: nat -> bool, len: nat, n: nat, a: nat, b: nat)
    requires a <= b
    ensures Room(mayPut, len, n, b) ==> Room(mayPut, len, n, a)
  {
  }

  lemma Regroup<T>(a: seq<T>, b: seq<T>, c: seq<T>)
    ensures (a + b) + c == a + (b + c)
  {
  }

  // ----- Allocation groups ----------------------------------------------------------------------

  /** `agi_root` and `agi_count` of an allocation group. */
  datatype Agi = Agi(root: nat, count: nat)

  /** `nallocated`: what the groups together say they have allocated. */
  function Counted(agis: seq<Agi>): nat {
    if agis == [] then 0 else Counted(agis[..|agis| - 1]) + agis[|agis| - 1].count
  }

  function GroupWalk(img: seq<Byte>, g: Geometry, agis: seq<Agi>, s: nat, frames: nat): Walk
    requires Blocks(g) && s < |agis|
  {
    WalkAt(img, g, s, agis[s].root, frames)
  }

  /** The trees of the first `n` groups are good and all their records can be taken. */
  ghost predicate GroupsOk(img: seq<Byte>, g: Geometry, agis: seq<Agi>, n: nat, frames: nat)
    requires Blocks(g) && n <= |agis|
  {
    forall s :: 0 <= s < n ==> GroupOk(img, g, agis, s, frames)
  }

  ghost predicate GroupOk(img: seq<Byte>, g: Geometry, agis: seq<Agi>, s: nat, frames: nat)
    requires Blocks(g) && s < |agis|
  {
    var w := GroupWalk(img, g, agis, s, frames);
    w.err == 0 && AllTaken(img, g, s, w.recs)
  }

  /** The records of the first `n` groups. */
  function Recs(img: seq<Byte>, g: Geometry, agis: seq<Agi>, n: nat, frames: nat): (ags: Groups)
    requires Blocks(g) && n <= |agis|
    ensures |ags| == n && forall s :: 0 <= s < n ==> ags[s] == GroupWalk(img, g, agis, s, frames).recs
  {
    seq(n, s requires 0 <= s < n => GroupWalk(img, g, agis, s, frames).recs)
  }

  lemma OkReadable(img: seq<Byte>, g: Geometry, agis: seq<Agi>, n: nat, frames: nat)
    requires Sane(g) && Blocks(g) && n <= |agis| && GroupsOk(img, g, agis, n, frames)
    ensures GroupsReadable(img, g, Recs(img, g, agis, n, frames))
  {
    hide Sane, GroupWalk, AllTaken, AllReadable;
    var ags := Recs(img, g, agis, n, frames);
    forall s | 0 <= s < |ags| ensures AllReadable(img, g, s, ags[s]) {
      assert GroupOk(img, g, agis, s, frames);
      TakenReadable(img, g, s, ags[s]);
    }
  }

  /** The live inodes of the first `n` groups. */
  ghost function GroupsTaken(img: seq<Byte>, g: Geometry, agis: seq<Agi>, n: nat, frames: nat): seq<seq<Byte>>
    requires Sane(g) && Blocks(g) && n <= |agis| && GroupsOk(img, g, agis, n, frames)
  {
    OkReadable(img, g, agis, n, frames);
    GroupInodes(img, g, Recs(img, g, agis, n, frames))
  }

  lemma GroupsTakenStep(img: seq<Byte>, g: Geometry, agis: seq<Agi>, n: nat, frames: nat)
    requires Sane(g) && Blocks(g) && n < |agis| && GroupsOk(img, g, agis, n, frames)
    requires GroupOk(img, g, agis, n, frames)
    ensures GroupsOk(img, g, agis, n + 1, frames)
    ensures GroupsTaken(img, g, agis, n + 1, frames) ==
            GroupsTaken(img, g, agis, n, frames) + Taken(img, g, n, GroupWalk(img, g, agis, n, frames).recs)
  {
    hide Sane, GroupWalk, AllTaken, AllReadable, RecInodes;
    OkReadable(img, g, agis, n + 1, frames);
    var ags := Recs(img, g, agis, n + 1, frames);
    assert ags[..n] == Recs(img, g, agis, n, frames);
  }

  /** The first `n` groups can be taken, and there is room for them. */
  ghost predicate GroupsFit(img: seq<Byte>, g: Geometry, mayPut: nat -> bool, len: nat, agis: seq<Agi>, n: nat, frames: nat)
    requires Sane(g) && Blocks(g) && n <= |agis|
  {
    GroupsOk(img, g, agis, n, frames) && Room(mayPut, len, 0, |GroupsTaken(img, g, agis, n, frames)|)
  }

  lemma GroupsFitStep(img: seq<Byte>, g: Geometry, mayPut: nat -> bool, len: nat, agis: seq<Agi>, n: nat, frames: nat)
    requires Sane(g) && Blocks(g) && n < |agis|
    ensures GroupsFit(img, g, mayPut, len, agis, n + 1, frames) <==>
            && GroupsFit(img, g, mayPut, len, agis, n, frames)
            && Fits(img, g, mayPut, len, n, GroupWalk(img, g, agis, n, frames), |GroupsTaken(img, g, agis, n, frames)|)
  {
    hide Sane, GroupWalk, AllTaken, Room, GroupsTaken, Taken;
    if GroupsOk(img, g, agis, n, frames) && GroupOk(img, g, agis, n, frames) {
      GroupsTakenStep(img, g, agis, n, frames);
      RoomSplit(mayPut, len, 0, |GroupsTaken(img, g, agis, n, frames)|,
                |Taken(img, g, n, GroupWalk(img, g, agis, n, frames).recs)|);
    }
  }

  lemma {:induction false} GroupsFitPart(img: seq<Byte>, g: Geometry, mayPut: nat -> bool, len: nat, agis: seq<Agi>, n: nat, frames: nat)
    requires Sane(g) && Blocks(g) && n <= |agis| && GroupsFit(img, g, mayPut, len, agis, |agis|, frames)
    ensures GroupsFit(img, g, mayPut, len, agis, n, frames)
    decreases |agis| - n
  {
    hide Sane, GroupsFit, Fits;
    if n < |agis| {
      GroupsFitPart(img, g, mayPut, len, agis, n + 1, frames);
      GroupsFitStep(img, g, mayPut, len, agis, n, frames);
    }
  }

  /** Each `agi_count` is what the group's tree says is allocated. */
  ghost predicate CountsRight(img: seq<Byte>, g: Geometry, agis: seq<Agi>, frames: nat)
    requires Blocks(g)
  {
    forall s :: 0 <= s < |agis| ==> agis[s].count == Allocated(GroupWalk(img, g, agis, s, frames).recs)
  }

  lemma {:induction false} CountsBound(img: seq<Byte>, g: Geometry, agis: seq<Agi>, n: nat, frames: nat)
    requires Sane(g) && Blocks(g) && n <= |agis| && GroupsOk(img, g, agis, n, frames) && CountsRight(img, g, agis, frames)
    ensures |GroupsTaken(img, g, agis, n, frames)| <= Counted(agis[..n])
  {
    hide Sane, GroupWalk, AllTaken, Allocated, RecInodes, GroupsTaken;
    if n == 0 {
      NoGroups(img, g, agis, frames);
    } else {
      assert GroupOk(img, g, agis, n - 1, frames);
      CountsBound(img, g, agis, n - 1, frames);
      GroupsTakenStep(img, g, agis, n - 1, frames);
      var recs := GroupWalk(img, g, agis, n - 1, frames).recs;
      TakenReadable(img, g, n - 1, recs);
      InodesAreAllocated(img, g, n - 1, recs);
      assert agis[..n][..n - 1] == agis[..n - 1] && agis[..n][n - 1] == agis[n - 1];
    }
  }

  lemma NoGroups(img: seq<Byte>, g: Geometry, agis: seq<Agi>, frames: nat)
    requires Sane(g) && Blocks(g)
    ensures GroupsOk(img, g, agis, 0, frames) && GroupsTaken(img, g, agis, 0, frames) == []
  {
    hide Sane;
  }

  /** If the counts are right then the array is never overrun: retrieval fails only for want of memory. */
  lemma CountsSuffice(img: seq<Byte>, g: Geometry, mayPut: nat -> bool, agis: seq<Agi>, frames: nat)
    requires Sane(g) && Blocks(g) && GroupsOk(img, g, agis, |agis|, frames) && CountsRight(img, g, agis, frames)
    ensures var n := |GroupsTaken(img, g, agis, |agis|, frames)|;
            && n <= Counted(agis)
            && (GroupsFit(img, g, mayPut, Counted(agis), agis, |agis|, frames) <==> forall i :: 0 <= i < n ==> mayPut(i))
  {
    hide Sane, GroupsOk, CountsRight, GroupsTaken;
    CountsBound(img, g, agis, |agis|, frames);
    assert agis[..|agis|] == agis;
  }

  // ----- The code -------------------------------------------------------------------------------

  class Retriever {
    const g: Geometry
    const img: seq<Byte>
    /** Whether the map gets the memory for the inode at each place. */
    const mayPut: nat -> bool
    const agis: seq<Agi>
    /** Room for as many inodes as the allocation groups say they have. */
    const dinodes: array<seq<Byte>>
    var dinodesMap: map<nat, nat>
    var index: nat

    ghost predicate Valid()
      reads this, dinodes
    {
      && Sane(g) && Blocks(g) && g.inodesize >= INO_OFFSET + 8 && dinodes.Length == Counted(agis)
      && index <= dinodes.Length && AllSized(dinodes[..index], g.inodesize)
      && dinodesMap == Numbered(dinodes[..index], g.inodesize)
    }

    constructor (g: Geometry, img: seq<Byte>, agis: seq<Agi>, mayPut: nat -> bool)
      requires Sane(g) && Blocks(g) && g.inodesize >= INO_OFFSET + 8
      ensures Valid() && this.g == g && this.img == img && this.agis == agis && this.mayPut == mayPut
      ensures fresh(dinodes) && index == 0
    {
      this.g, this.img, this.agis, this.mayPut := g, img, agis, mayPut;
      dinodes := new seq<Byte>[Counted(agis)](_ => []);
      dinodesMap, index := map[], 0;
    }

    method Put(b: seq<Byte>) returns (err: int)
      requires Valid() && |b| == g.inodesize
      modifies this, dinodes
      ensures Valid()
      ensures err == if old(index) == dinodes.Length then OUTSIDE else if mayPut(old(index)) then 0 else -EIO
      ensures dinodes[..index] == old(dinodes[..index]) + if err == 0 then [b] else []
    {
      ghost var list := dinodes[..index];
      NumberedStep(list, b, g.inodesize);
      hide Numbered, Sane, AllSized, InoOf;
      if index == dinodes.Length {
        return OUTSIDE;
      }
      dinodes[index] := b;
      if !mayPut(index) {
        assert dinodes[..index] == list;
        return -EIO;
      }
      assert dinodes[..index + 1] == list + [b];
      dinodesMap := dinodesMap[InoOf(b) := index];
      index := index + 1;
      return 0;
    }

    /** The body of the loop over the records of a leaf: one chunk is read, and its live inodes are put. */
    method RetrieveChunk(seqno: nat, r: Rec) returns (err: int)
      requires Valid()
      modifies this, dinodes
      ensures Valid() && Got(err, Walk([r], 0), seqno, old(dinodes[..index]))
      ensures ChunkErr(img, g, seqno, r) != 0 ==> err == ChunkErr(img, g, seqno, r) && dinodes[..index] == old(dinodes[..index])
    {
      ChunkSize(g);
      TakeOne(img, g, seqno, r);
      hide Sane, Numbered, AllSized, AllTaken, AllAsserted, Taken, InodeAt, Live, LiveInodes, ChunkOffset, ChunkBytes, DecodeRelative, Room;
      if DecodeRelative(g, r.startino).1 != 0 {
        return ABORT;
      }
      var at, nbytes := ChunkOffset(g, seqno, r), ChunkBytes(g);
      if nbytes >= BUF_NBYTES {
        return ABORT;
      }
      if nbytes == 0 {
        return OUTSIDE;
      }
      if !Readable(img, g, at, nbytes) {
        return ReadErr(g, at, nbytes);
      }
      err := TakeChunk(img[at..at + nbytes], seqno, r);
    }

    /** The live ones of the first `n` inodes of a chunk are behind `before`, and there was room for them. */
    ghost predicate Held(before: seq<seq<Byte>>, seqno: nat, r: Rec, n: nat)
      reads this, dinodes
    {
      && ChunkReadable(img, g, seqno, r) && n <= CHUNK && index <= dinodes.Length
      && dinodes[..index] == before + LiveInodes(img, g, seqno, r, n)
      && Room(mayPut, dinodes.Length, |before|, |LiveInodes(img, g, seqno, r, n)|)
    }

    /** The loop over the inodes of a chunk that has been read. */
    method TakeChunk(chunk: seq<Byte>, seqno: nat, r: Rec) returns (err: int)
      requires Valid() && IsChunk(img, g, seqno, r, chunk)
      modifies this, dinodes
      ensures Valid() && old(dinodes[..index]) <= dinodes[..index] && err != ABORT
      ensures err == 0 <==> Room(mayPut, dinodes.Length, old(index), |LiveInodes(img, g, seqno, r, CHUNK)|)
      ensures err == 0 ==> dinodes[..index] == old(dinodes[..index]) + LiveInodes(img, g, seqno, r, CHUNK)
    {
      ghost var before := dinodes[..index];
      NoneHeld(seqno, r, chunk);
      assert ChunkReadable(img, g, seqno, r);
      hide *;
      err := 0;
      for ci := 0 to CHUNK
        invariant err == 0 && Valid() && Held(before, seqno, r, ci) && index <= dinodes.Length
      {
        err := TakeInode(chunk, seqno, r, ci, before);
        if err != 0 {
          NoRoom(before, seqno, r, ci + 1);
          return;
        }
      }
      AllHeld(before, seqno, r);
    }

    lemma AllHeld(before: seq<seq<Byte>>, seqno: nat, r: Rec)
      requires Held(before, seqno, r, CHUNK)
      ensures ChunkReadable(img, g, seqno, r) && index <= dinodes.Length
      ensures dinodes[..index] == before + LiveInodes(img, g, seqno, r, CHUNK)
      ensures Room(mayPut, dinodes.Length, |before|, |LiveInodes(img, g, seqno, r, CHUNK)|)
    {
      hide ChunkReadable, LiveInodes, Room;
    }

    lemma NoneHeld(seqno: nat, r: Rec, chunk: seq<Byte>)
      requires Valid() && IsChunk(img, g, seqno, r, chunk)
      ensures Held(dinodes[..index], seqno, r, 0)
    {
      LiveStep(img, g, seqno, r, 0);
      RoomForOne(mayPut, dinodes.Length, index);
      hide Sane, Numbered, AllSized, Room, InodeAt, Counted;
    }

    lemma NoRoom(before: seq<seq<Byte>>, seqno: nat, r: Rec, n: nat)
      requires ChunkReadable(img, g, seqno, r) && n <= CHUNK
      requires !Room(mayPut, dinodes.Length, |before|, |LiveInodes(img, g, seqno, r, n)|)
      ensures !Room(mayPut, dinodes.Length, |before|, |LiveInodes(img, g, seqno, r, CHUNK)|)
    {
      hide ChunkReadable, LiveInodes, Room;
      LiveGrows(img, g, seqno, r, n);
      RoomPart(mayPut, dinodes.Length, |before|, |LiveInodes(img, g, seqno, r, n)|, |LiveInodes(img, g, seqno, r, CHUNK)|);
    }

    method TakeInode(chunk: seq<Byte>, seqno: nat, r: Rec, ci: nat, ghost before: seq<seq<Byte>>) returns (err: int)
      requires Valid() && IsChunk(img, g, seqno, r, chunk) && ci < CHUNK && Held(before, seqno, r, ci)
      modifies this, dinodes
      ensures Valid() && index <= dinodes.Length && before <= dinodes[..index] && err != ABORT && ChunkReadable(img, g, seqno, r)
      ensures err == 0 ==> Held(before, seqno, r, ci + 1)
      ensures err != 0 ==> !Room(mayPut, dinodes.Length, |before|, |LiveInodes(img, g, seqno, r, ci + 1)|)
    {
      LiveStep(img, g, seqno, r, ci);
      assert |chunk| == CHUNK * g.inodesize;
      ghost var front := LiveInodes(img, g, seqno, r, ci);
      hide Sane, Numbered, AllSized, InodeAt, Live, LiveInodes, IsChunk, ChunkReadable, PieceOf, Room;
      err := 0;
      if Live(r, ci) {
        ChunkPiece(img, g, seqno, r, chunk, ci);
        Regroup(before, front, [InodeAt(img, g, seqno, r, ci)]);
        RoomSplit(mayPut, dinodes.Length, |before|, |front|, 1);
        RoomForOne(mayPut, dinodes.Length, index);
        err := Put(PieceOf(chunk, g.inodesize, ci));
      }
    }

    /**
      What a call did that found the walk `w`: it kept what was there, it succeeded exactly if the walk
      fits, and then it appended the walk's inodes; it aborted only over an assertion of the source.
     */
    ghost predicate Got(err: int, w: Walk, seqno: nat, before: seq<seq<Byte>>)
      reads this, dinodes
      requires Valid()
    {
      && before <= dinodes[..index]
      && (err == 0 <==> Fits(img, g, mayPut, dinodes.Length, seqno, w, |before|))
      && (err == 0 ==> dinodes[..index] == before + Taken(img, g, seqno, w.recs))
      && (err == ABORT ==> !AllAsserted(g, w.recs))
    }

    /** `decode_iab3_leaf_records` */
    method RetrieveLeaf(seqno: nat, b: seq<Byte>, n: nat) returns (err: int)
      requires Valid()
      modifies this, dinodes
      ensures Valid() && Got(err, LeafWalk(b, n), seqno, old(dinodes[..index]))
    {
      hide Sane, Numbered, AllSized, LeafRecs, RecAt, Fits, Taken, AllAsserted;
      var m := Min(n, MAX_RECS);
      ghost var before, recs := dinodes[..index], LeafRecs(b, m);
      TakeNone(img, g, mayPut, dinodes.Length, seqno, index);
      err := 0;
      for reci := 0 to m
        invariant err == 0 && Valid() && Got(0, Walk(recs[..reci], 0), seqno, before)
      {
        LeafPrefix(b, m, reci);
        assert recs[..reci] + [recs[reci]] == recs[..reci + 1];
        err := TakeRec(seqno, RecAt(b, reci), recs[..reci], before);
        if err != 0 {
          RecsPart(img, g, mayPut, dinodes.Length, seqno, recs, reci + 1, |before|);
          NoFit(LeafWalk(b, n), recs, seqno, |before|);
          return;
        }
      }
      assert recs[..m] == recs;
      if n > MAX_RECS {
        NoFit(LeafWalk(b, n), recs, seqno, |before|);
        return OUTSIDE;
      }
    }

    /** A walk that ends in an overrun is not taken, nor is one whose records are not. */
    lemma NoFit(w: Walk, recs: seq<Rec>, seqno: nat, n: nat)
      requires Sane(g) && w.recs == recs && (w.err != 0 || !Fits(img, g, mayPut, dinodes.Length, seqno, Walk(recs, 0), n))
      ensures !Fits(img, g, mayPut, dinodes.Length, seqno, w, n)
    {
      hide Sane, AllTaken, Taken, Room;
    }

    /** One record after others. */
    method TakeRec(seqno: nat, r: Rec, ghost front: seq<Rec>, ghost before: seq<seq<Byte>>) returns (err: int)
      requires Valid() && Got(0, Walk(front, 0), seqno, before)
      modifies this, dinodes
      ensures Valid() && Got(err, Walk(front + [r], 0), seqno, before)
    {
      ghost var was := dinodes[..index];
      FrontTaken(seqno, Walk(front, 0), |before|);
      FitsConcat(img, g, mayPut, dinodes.Length, seqno, front, Walk([r], 0), |before|);
      TakenConcat(img, g, seqno, front, [r]);
      AssertedConcat(g, front, [r]);
      hide Sane, Numbered, AllSized, Fits, Taken, AllTaken, AllAsserted;
      err := RetrieveChunk(seqno, r);
      if err == 0 {
        FrontTaken(seqno, Walk(front + [r], 0), |before|);
        FrontTaken(seqno, Walk([r], 0), |was|);
        Regroup(before, Taken(img, g, seqno, front), Taken(img, g, seqno, [r]));
      }
    }

    lemma FrontTaken(seqno: nat, w: Walk, n: nat)
      requires Sane(g) && Fits(img, g, mayPut, dinodes.Length, seqno, w, n)
      ensures w.err == 0 && AllTaken(img, g, seqno, w.recs)
    {
    }

    /** `retrieve_dinodes_via_iab3`, with room for `frames` nested calls on the stack. */
    method Retrieve(seqno: nat, agbno: nat, frames: nat) returns (err: int)
      requires Valid()
      modifies this, dinodes
      ensures Valid() && Got(err, WalkAt(img, g, seqno, agbno, frames), seqno, old(dinodes[..index]))
      decreases frames, 0
    {
      hide Sane, Numbered, AllSized, AgbnoOffset, LeafWalk, NodeWalk, Taken, AllTaken, Room;
      if frames == 0 {
        return DEEP;
      }
      var ofz := AgbnoOffset(g, seqno, agbno);
      if !Readable(img, g, ofz, g.blocksize) {
        return ReadErr(g, ofz, g.blocksize);
      }
      var b := img[ofz..ofz + g.blocksize];
      if BlockMagic(b) != INOBT_MAGIC {
        return -EINVAL;
      }
      var level, n := BlockLevel(b), BlockRecs(b);
      if level == 1 {
        err := RetrieveNode(seqno, b, n, frames - 1);
      } else if level == 0 {
        err := RetrieveLeaf(seqno, b, n);
      } else {
        err := -EINVAL;
      }
    }

    /** `decode_iab3_node_records` */
    method RetrieveNode(seqno: nat, b: seq<Byte>, n: nat, frames: nat) returns (err: int)
      requires Valid() && |b| >= SHORT_HEADER
      modifies this, dinodes
      ensures Valid() && Got(err, NodeWalk(img, g, seqno, b, n, frames), seqno, old(dinodes[..index]))
      decreases frames, 2
    {
      hide Sane, Numbered, AllSized, WalkAll, PrefixWalk, Fits, Taken, AllAsserted;
      var m := Min(n, MAX_POINTERS);
      ghost var before, ptrs := dinodes[..index], BlockPointers(b, m);
      TakeNone(img, g, mayPut, dinodes.Length, seqno, index);
      PrefixEnds(img, g, seqno, ptrs, frames);
      ghost var w := WalkAll(img, g, seqno, ptrs, frames);
      err := 0;
      for rec := 0 to m
        invariant err == 0 && Valid() && Got(0, PrefixWalk(img, g, seqno, ptrs, rec, frames), seqno, before)
      {
        var blkno := BlockPointer(b, rec);
        err := RetrieveNext(seqno, blkno, ptrs, rec, frames, before);
        if err != 0 {
          PrefixPart(img, g, mayPut, dinodes.Length, seqno, ptrs, rec + 1, frames, |before|);
          CutFits(w, n, MAX_POINTERS, seqno, |before|);
          return;
        }
      }
      CutFits(w, n, MAX_POINTERS, seqno, |before|);
      if n > MAX_POINTERS {
        return OUTSIDE;
      }
    }

    lemma CutFits(w: Walk, n: nat, max: nat, seqno: nat, at: nat)
      requires Sane(g)
      ensures Fits(img, g, mayPut, dinodes.Length, seqno, Cut(w, n, max), at) <==>
              Fits(img, g, mayPut, dinodes.Length, seqno, w, at) && n <= max
      ensures Cut(w, n, max).recs == w.recs
    {
      hide Sane, AllTaken, Taken, Room;
    }

    /** One more pointer, after a prefix of them. */
    method RetrieveNext(seqno: nat, blkno: nat, ghost ptrs: seq<nat>, ghost rec: nat, frames: nat, ghost before: seq<seq<Byte>>)
      returns (err: int)
      requires Valid() && rec < |ptrs| && ptrs[rec] == blkno
      requires Got(0, PrefixWalk(img, g, seqno, ptrs, rec, frames), seqno, before)
      modifies this, dinodes
      ensures Valid() && Got(err, PrefixWalk(img, g, seqno, ptrs, rec + 1, frames), seqno, before)
      decreases frames, 1
    {
      ghost var was, front, last := dinodes[..index], PrefixWalk(img, g, seqno, ptrs, rec, frames), WalkAt(img, g, seqno, blkno, frames);
      FrontTaken(seqno, front, |before|);
      assert front == Walk(front.recs, 0);
      PrefixNext(img, g, seqno, ptrs, rec, frames);
      FitsConcat(img, g, mayPut, dinodes.Length, seqno, front.recs, last, |before|);
      TakenConcat(img, g, seqno, front.recs, last.recs);
      AssertedConcat(g, front.recs, last.recs);
      hide Sane, Numbered, AllSized, Fits, Taken, AllTaken, AllAsserted, PrefixWalk, WalkAt;
      err := Retrieve(seqno, blkno, frames);
      if err == 0 {
        FrontTaken(seqno, Walk(front.recs + last.recs, last.err), |before|);
        FrontTaken(seqno, last, |was|);
        Regroup(before, Taken(img, g, seqno, front.recs), Taken(img, g, seqno, last.recs));
      }
    }

    /**
      `xal_dinodes_retrieve`: the map and the array get memory or do not, and then the loop over the
      allocation groups.  It succeeds exactly if every group's tree is good, every chunk can be taken and
      there is room, and then holds their live inodes.
     */
    method RetrieveAll(frames: nat, mayInit: bool, mayAllocate: bool) returns (err: int)
      requires Valid() && index == 0
      modifies this, dinodes
      ensures Valid()
      ensures err == 0 <==> mayInit && mayAllocate && GroupsFit(img, g, mayPut, dinodes.Length, agis, |agis|, frames)
      ensures err == 0 ==> dinodes[..index] == GroupsTaken(img, g, agis, |agis|, frames)
      ensures err == ABORT ==> exists s :: 0 <= s < |agis| && !AllAsserted(g, GroupWalk(img, g, agis, s, frames).recs)
    {
      hide Sane, Numbered, AllSized, GroupWalk, Fits, Taken, AllAsserted, GroupsTaken, GroupsOk, Counted;
      NoGroups(img, g, agis, frames);
      RoomForOne(mayPut, dinodes.Length, 0);
      if !mayInit {
        return -EINVAL;
      }
      if !mayAllocate {
        return -PoolMemory.ENOMEM;
      }
      err := 0;
      for s := 0 to |agis|
        invariant err == 0 && Valid() && GroupsFit(img, g, mayPut, dinodes.Length, agis, s, frames)
        invariant dinodes[..index] == GroupsTaken(img, g, agis, s, frames)
      {
        GroupsFitStep(img, g, mayPut, dinodes.Length, agis, s, frames);
        err := RetrieveGroup(s, frames);
        if err != 0 {
          if GroupsFit(img, g, mayPut, dinodes.Length, agis, |agis|, frames) {
            GroupsFitPart(img, g, mayPut, dinodes.Length, agis, s + 1, frames);
          }
          return;
        }
      }
    }

    method RetrieveGroup(s: nat, frames: nat) returns (err: int)
      requires Valid() && s < |agis| && GroupsOk(img, g, agis, s, frames)
      requires dinodes[..index] == GroupsTaken(img, g, agis, s, frames)
      modifies this, dinodes
      ensures Valid()
      ensures err == 0 <==> Fits(img, g, mayPut, dinodes.Length, s, GroupWalk(img, g, agis, s, frames), old(index))
      ensures err == 0 ==> GroupsOk(img, g, agis, s + 1, frames) && dinodes[..index] == GroupsTaken(img, g, agis, s + 1, frames)
      ensures err == ABORT ==> !AllAsserted(g, GroupWalk(img, g, agis, s, frames).recs)
    {
      ghost var w := GroupWalk(img, g, agis, s, frames);
      assert w == WalkAt(img, g, s, agis[s].root, frames);
      hide Sane, Numbered, AllSized, GroupWalk, WalkAt, Fits, Taken, AllAsserted, GroupsTaken, GroupsOk, Counted, AllTaken;
      err := Retrieve(s, agis[s].root, frames);
      if err == 0 {
        FrontTaken(s, w, old(index));
        GroupsTakenStep(img, g, agis, s, frames);
      }
    }
  }
}
