/**
  Inodes in host format, and what it means for the two flat pools to hold a directory tree.

  `Encodes` follows the order in which the walk claims its slots: the entries of a directory are one
  contiguous span, followed by the descendants of its first entry, then those of its second, and so
  on.  Nothing is left over except the slots claimed for entries that turned out to be skipped.
 */
module Inodes {
  import opened Names
  import opened PoolMemory

  const FT_REG: nat := 1
  const FT_DIR: nat := 2
  const NONE: nat := UINT32_MAX

  datatype Extent = Extent(startOffset: nat, startBlock: nat, nblocks: nat, flag: nat)

  /** `content` is the union of the two spans: the dentries of a directory or the extents of a file. */
  datatype Inode = Inode(ino: nat, size: nat, content: Span, ftype: nat, name: string, namelen: nat, parent: nat)

  const ZERO_INODE: Inode := Inode(0, 0, Span(0, 0), 0, "", 0, 0)
  const ZERO_EXTENT: Extent := Extent(0, 0, 0, 0)

  /** An indexed tree.  `spare` counts the slots claimed for a directory and not used. */
  datatype Tree =
    | File(ino: nat, size: nat, extents: seq<Extent>)
    | Dir(ino: nat, size: nat, kids: seq<Kid>, spare: nat)

  datatype Kid = Kid(name: string, tree: Tree)

  /** Slots below the node itself. */
  function Slots(t: Tree): nat {
    match t
    case File(_, _, _) => 0
    case Dir(_, _, kids, spare) => |kids| + spare + KidSlots(kids)
  }

  function KidSlots(kids: seq<Kid>): nat {
    if kids == [] then 0 else KidSlots(kids[..|kids| - 1]) + Slots(kids[|kids| - 1].tree)
  }

  function Extents(t: Tree): nat {
    match t
    case File(_, _, extents) => |extents|
    case Dir(_, _, kids, _) => KidExtents(kids)
  }

  function KidExtents(kids: seq<Kid>): nat {
    if kids == [] then 0 else KidExtents(kids[..|kids| - 1]) + Extents(kids[|kids| - 1].tree)
  }

  ghost predicate SortedKids(kids: seq<Kid>) {
    forall j, k :: 0 <= j < k < |kids| ==> Less(kids[j].name, kids[k].name)
  }

  /** Slot `i` holds the node, its descendants start at slot `lo` and its extents at `elo`. */
  ghost predicate Encodes(pool: seq<Inode>, exts: seq<Extent>, i: nat, t: Tree, lo: nat, elo: nat)
    decreases t, 1
  {
    && i < lo && lo + Slots(t) <= |pool| && elo + Extents(t) <= |exts|
    && pool[i].ino == t.ino && pool[i].size == t.size
    && match t
       case File(_, _, extents) =>
         && pool[i].ftype == FT_REG
         && pool[i].content.count == |extents|
         && (extents != [] ==> pool[i].content.idx == elo && exts[elo..elo + |extents|] == extents)
       case Dir(_, _, kids, spare) =>
         && pool[i].ftype == FT_DIR
         && pool[i].content.count == |kids| && pool[i].content.idx <= lo && (kids != [] ==> pool[i].content.idx == lo)
         && SortedKids(kids)
         && (forall k :: lo + |kids| <= k < lo + |kids| + spare ==> pool[k] == ZERO_INODE)
         && KidsEncoded(pool, exts, i, lo, kids, lo + |kids| + spare, elo)
  }

  /** The first |kids| slots from `base` hold the entries of directory `p`. */
  ghost predicate KidsEncoded(pool: seq<Inode>, exts: seq<Extent>, p: nat, base: nat, kids: seq<Kid>, lo: nat, elo: nat)
    decreases kids, 0
  {
    kids == [] ||
    var n := |kids| - 1;
    && KidsEncoded(pool, exts, p, base, kids[..n], lo, elo)
    && base + n < lo
    && Encodes(pool, exts, base + n, kids[n].tree, lo + KidSlots(kids[..n]), elo + KidExtents(kids[..n]))
    && pool[base + n].name == kids[n].name && pool[base + n].namelen == |kids[n].name|
    && pool[base + n].parent == p
    && ValidName(kids[n].name)
  }

  // ----- An encoding depends on its own slots only ----------------------------------------------

  ghost predicate SameRange<T>(a: seq<T>, b: seq<T>, lo: nat, hi: nat) {
    hi <= |a| && hi <= |b| && forall k :: lo <= k < hi ==> a[k] == b[k]
  }

  lemma {:induction false} EncodesFrame(pool: seq<Inode>, exts: seq<Extent>, pool': seq<Inode>, exts': seq<Extent>,
                                        i: nat, t: Tree, lo: nat, elo: nat)
    requires Encodes(pool, exts, i, t, lo, elo)
    requires i < |pool'| && pool'[i] == pool[i]
    requires SameRange(pool, pool', lo, lo + Slots(t))
    requires SameRange(exts, exts', elo, elo + Extents(t))
    ensures Encodes(pool', exts', i, t, lo, elo)
    decreases t, 1
  {
    match t
    case File(_, _, extents) =>
      if extents != [] {
        assert exts'[elo..elo + |extents|] == exts[elo..elo + |extents|];
      }
    case Dir(_, _, kids, spare) =>
      KidsFrame(pool, exts, pool', exts', i, lo, kids, lo + |kids| + spare, elo);
  }

  lemma {:induction false} KidsFrame(pool: seq<Inode>, exts: seq<Extent>, pool': seq<Inode>, exts': seq<Extent>,
                                     p: nat, base: nat, kids: seq<Kid>, lo: nat, elo: nat)
    requires KidsEncoded(pool, exts, p, base, kids, lo, elo)
    requires base + |kids| <= lo
    requires SameRange(pool, pool', base, base + |kids|)
    requires SameRange(pool, pool', lo, lo + KidSlots(kids))
    requires SameRange(exts, exts', elo, elo + KidExtents(kids))
    ensures KidsEncoded(pool', exts', p, base, kids, lo, elo)
    decreases kids, 0
  {
    if kids != [] {
      var n := |kids| - 1;
      KidsFrame(pool, exts, pool', exts', p, base, kids[..n], lo, elo);
      EncodesFrame(pool, exts, pool', exts', base + n, kids[n].tree, lo + KidSlots(kids[..n]), elo + KidExtents(kids[..n]));
    }
  }

  // ----- Every slot of an encoding is well linked -----------------------------------------------

  /**
    What a reader may rely on at one slot: the span of a directory lies behind it and inside the
    pool, its entries name the directory as their parent, are directories or regular files and are
    strictly sorted by name.
   */
  ghost predicate SlotOk(pool: seq<Inode>, k: nat)
    requires k < |pool|
  {
    pool[k].ftype == FT_DIR ==>
      var s := pool[k].content;
      && s.idx + s.count <= |pool|
      && (s.count > 0 ==> k < s.idx)
      && (forall c :: s.idx <= c < s.idx + s.count ==>
            pool[c].parent == k && (pool[c].ftype == FT_DIR || pool[c].ftype == FT_REG))
      && (forall c, d :: s.idx <= c < d < s.idx + s.count ==> Less(pool[c].name, pool[d].name))
  }

  ghost predicate Linked(pool: seq<Inode>) {
    forall k :: 0 <= k < |pool| ==> SlotOk(pool, k)
  }

  ghost predicate RangeOk(pool: seq<Inode>, lo: nat, hi: nat) {
    hi <= |pool| && forall k :: lo <= k < hi ==> SlotOk(pool, k)
  }

  lemma {:induction false} EncodesLinked(pool: seq<Inode>, exts: seq<Extent>, i: nat, t: Tree, lo: nat, elo: nat)
    requires Encodes(pool, exts, i, t, lo, elo)
    ensures SlotOk(pool, i) && RangeOk(pool, lo, lo + Slots(t))
    decreases t, 1
  {
    match t
    case File(_, _, _) =>
    case Dir(_, _, kids, spare) =>
      KidsLinked(pool, exts, i, lo, kids, lo + |kids| + spare, elo);
  }

  lemma {:induction false} KidsLinked(pool: seq<Inode>, exts: seq<Extent>, p: nat, base: nat, kids: seq<Kid>, lo: nat, elo: nat)
    requires KidsEncoded(pool, exts, p, base, kids, lo, elo)
    requires base + |kids| <= lo <= |pool|
    ensures forall k :: base <= k < base + |kids| ==>
              && pool[k].parent == p && pool[k].name == kids[k - base].name
              && (pool[k].ftype == FT_DIR || pool[k].ftype == FT_REG)
    ensures RangeOk(pool, base, base + |kids|)
    ensures RangeOk(pool, lo, lo + KidSlots(kids))
    decreases kids, 0
  {
    if kids != [] {
      var n := |kids| - 1;
      var mid := lo + KidSlots(kids[..n]);
      KidsLinked(pool, exts, p, base, kids[..n], lo, elo);
      EncodesLinked(pool, exts, base + n, kids[n].tree, mid, elo + KidExtents(kids[..n]));
      assert lo + KidSlots(kids) == mid + Slots(kids[n].tree);
      forall k | base <= k < base + |kids|
        ensures && pool[k].parent == p && pool[k].name == kids[k - base].name
                && (pool[k].ftype == FT_DIR || pool[k].ftype == FT_REG)
      {
        if k < base + n {
          assert kids[..n][k - base] == kids[k - base];
        }
      }
    }
  }

  /** A pool that holds a tree and is zero elsewhere is well linked throughout. */
  lemma WholePoolLinked(pool: seq<Inode>, exts: seq<Extent>, t: Tree)
    requires Encodes(pool, exts, 0, t, 1, 0)
    requires forall k :: 1 + Slots(t) <= k < |pool| ==> pool[k] == ZERO_INODE
    ensures Linked(pool)
  {
    EncodesLinked(pool, exts, 0, t, 1, 0);
  }

  /** Two directories never share an entry slot. */
  lemma SpansDisjoint(pool: seq<Inode>, d: nat, e: nat, c: nat)
    requires Linked(pool) && d < |pool| && e < |pool| && c < |pool|
    requires pool[d].ftype == FT_DIR && pool[e].ftype == FT_DIR
    requires pool[d].content.idx <= c < pool[d].content.idx + pool[d].content.count
    requires pool[e].content.idx <= c < pool[e].content.idx + pool[e].content.count
    ensures d == e
  {
    assert SlotOk(pool, d) && SlotOk(pool, e);
    assert pool[c].parent == d && pool[c].parent == e;
  }

  // ----- Decoding -------------------------------------------------------------------------------

  /** The tree without its unused slots. */
  function Plain(t: Tree): Tree {
    match t
    case File(_, _, _) => t
    case Dir(ino, size, kids, _) => Dir(ino, size, PlainKids(kids), 0)
  }

  function PlainKids(kids: seq<Kid>): (r: seq<Kid>)
    ensures |r| == |kids|
  {
    if kids == [] then []
    else PlainKids(kids[..|kids| - 1]) + [Kid(kids[|kids| - 1].name, Plain(kids[|kids| - 1].tree))]
  }

  /** What the pools say is below slot `i`; nothing when a span does not lie behind its owner. */
  function Decode(pool: seq<Inode>, exts: seq<Extent>, i: nat): Option<Tree>
    decreases |pool| - i, 0
  {
    if i >= |pool| then None
    else
      var s := pool[i].content;
      if pool[i].ftype == FT_REG then
        if s.count == 0 then Some(File(pool[i].ino, pool[i].size, []))
        else if s.idx + s.count > |exts| then None
        else Some(File(pool[i].ino, pool[i].size, exts[s.idx..s.idx + s.count]))
      else if pool[i].ftype == FT_DIR then
        if s.count > 0 && s.idx <= i then None
        else
          var kids := DecodeKids(pool, exts, s.idx, s.count);
          if kids.None? then None else Some(Dir(pool[i].ino, pool[i].size, kids.value, 0))
      else None
  }

  function DecodeKids(pool: seq<Inode>, exts: seq<Extent>, base: nat, n: nat): Option<seq<Kid>>
    decreases if n == 0 then 0 else |pool| - base, n
  {
    if n == 0 then Some([])
    else if base + n > |pool| then None
    else
      var front := DecodeKids(pool, exts, base, n - 1);
      var last := Decode(pool, exts, base + n - 1);
      if front.None? || last.None? then None
      else Some(front.value + [Kid(pool[base + n - 1].name, last.value)])
  }

  /** The pools decode back to exactly the tree they encode. */
  lemma {:induction false} DecodeInvertsEncodes(pool: seq<Inode>, exts: seq<Extent>, i: nat, t: Tree, lo: nat, elo: nat)
    requires Encodes(pool, exts, i, t, lo, elo)
    ensures Decode(pool, exts, i) == Some(Plain(t))
    decreases t, 1
  {
    match t
    case File(_, _, _) =>
    case Dir(_, _, kids, spare) =>
      KidsDecode(pool, exts, i, lo, kids, lo + |kids| + spare, elo);
  }

  lemma {:induction false} KidsDecode(pool: seq<Inode>, exts: seq<Extent>, p: nat, base: nat, kids: seq<Kid>, lo: nat, elo: nat)
    requires KidsEncoded(pool, exts, p, base, kids, lo, elo)
    requires base + |kids| <= lo <= |pool|
    ensures DecodeKids(pool, exts, base, |kids|) == Some(PlainKids(kids))
    decreases kids, 0
  {
    if kids != [] {
      var n := |kids| - 1;
      KidsDecode(pool, exts, p, base, kids[..n], lo, elo);
      DecodeInvertsEncodes(pool, exts, base + n, kids[n].tree, lo + KidSlots(kids[..n]), elo + KidExtents(kids[..n]));
    }
  }

  // ----- Pre-order ------------------------------------------------------------------------------

  /** The slots below `i` in the order a walk visits them, each with its depth. */
  function PreOrder(pool: seq<Inode>, i: nat, depth: nat): seq<(nat, nat)>
    requires i < |pool|
    decreases |pool| - i, pool[i].content.count + 1
  {
    [(i, depth)] + (if pool[i].ftype == FT_DIR then PreOrderFrom(pool, i, 0, depth) else [])
  }

  /** The part of the pre-order of directory `i` that starts with its `j`-th entry. */
  function PreOrderFrom(pool: seq<Inode>, i: nat, j: nat, depth: nat): seq<(nat, nat)>
    requires i < |pool|
    decreases |pool| - i, if j < pool[i].content.count then pool[i].content.count - j else 0
  {
    var s := pool[i].content;
    if j >= s.count || s.idx + j <= i || s.idx + j >= |pool| then []
    else PreOrder(pool, s.idx + j, depth + 1) + PreOrderFrom(pool, i, j + 1, depth)
  }
}
