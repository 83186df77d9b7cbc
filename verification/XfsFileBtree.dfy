/**
  The B+tree extent list of a file (section 19.2): every block is read into one buffer, which the
  recursion overwrites, and the records of all leaves end up in one contiguous span of extents.

  `LeafOutcome`, `NodeOutcome` and `RootOutcome` say what the bytes of the device, whatever they are,
  mean to the reader; `Stored` is the layout that the format prescribes for a tree, and the two are
  shown to agree.
 */
module XfsFileBtree {
  import opened Inodes
  import opened XfsFormat
  import opened XfsGeometry

  const HEADER: nat := 72
  const BMAP_MAGIC: nat := 0x424d_4133
  const MAX_POINTERS: nat := BLOCK_MAX / 8

  /** The bytes of each block that `dev_read` reads, by device offset. */
  type Device = map<nat, seq<Byte>>

  /**
    What a read comes to.  `Outside`: the bytes claim more than there is, and the reader goes on
    behind the block, the inode or its array of pointers.  `Deep`: the nested calls exceed the stack.
   */
  datatype Outcome = Ok(recs: seq<Extent>) | Fail(err: int) | Outside | Deep

  // ----- What a block says ----------------------------------------------------------------------

  function Magic(b: seq<Byte>): nat
    requires |b| >= HEADER
  {
    Be32(b[..4])
  }

  function Level(b: seq<Byte>): nat
    requires |b| >= HEADER
  {
    Be16(b[4..6])
  }

  function NumRecs(b: seq<Byte>): nat
    requires |b| >= HEADER
  {
    Be16(b[6..8])
  }

  /** `btree_lblock_meta`: how many keys and pointers a block holds. */
  function MaxRecs(size: nat): nat
    requires size >= HEADER
  {
    (size - HEADER) / 16
  }

  /** `btree_lblock_meta`: where the pointers start, after room for all keys. */
  function PointersOfz(size: nat): (r: nat)
    requires size >= HEADER
    ensures r + 8 * MaxRecs(size) <= size
  {
    HEADER + MaxRecs(size) * 8
  }

  function RecordAt(b: seq<Byte>, i: nat): Extent
    requires |b| >= HEADER && i < MaxRecs(|b|)
  {
    ReadRecord(b[HEADER + 16 * i..HEADER + 16 * i + 16])
  }

  function Records(b: seq<Byte>, n: nat): (recs: seq<Extent>)
    requires |b| >= HEADER && n <= MaxRecs(|b|)
    ensures |recs| == n
  {
    if n == 0 then [] else Records(b, n - 1) + [RecordAt(b, n - 1)]
  }

  /** The pointers are copied into a cleared array of the largest size. */
  function PointerAt(b: seq<Byte>, i: nat): nat
    requires |b| >= HEADER
  {
    Be64(Padded(b, PointersOfz(|b|) + 8 * i, 8))
  }

  function Pointers(b: seq<Byte>, n: nat): (ps: seq<nat>)
    requires |b| >= HEADER
    ensures |ps| == n && forall i :: 0 <= i < n ==> ps[i] == PointerAt(b, i)
  {
    seq(n, i requires 0 <= i < n => PointerAt(b, i))
  }

  predicate Sized(dev: Device, size: nat) {
    size >= HEADER && forall ofz :: ofz in dev ==> |dev[ofz]| == size
  }

  // ----- What the reader makes of it ------------------------------------------------------------

  predicate GoodLeaf(dev: Device, g: Geometry, fsbno: nat)
    requires Sized(dev, g.blocksize)
  {
    var ofz := FsbnoOffset(g, fsbno);
    ofz in dev && Magic(dev[ofz]) == BMAP_MAGIC && Level(dev[ofz]) == 0
  }

  predicate GoodNode(dev: Device, g: Geometry, fsbno: nat)
    requires Sized(dev, g.blocksize)
  {
    var ofz := FsbnoOffset(g, fsbno);
    g.blocksize <= BLOCK_MAX && ofz in dev && Magic(dev[ofz]) == BMAP_MAGIC && Level(dev[ofz]) != 0
  }

  function LeafOutcome(dev: Device, g: Geometry, fsbno: nat): Outcome
    requires Sized(dev, g.blocksize)
  {
    if FsbnoOffset(g, fsbno) !in dev then Fail(ReadErr(g, FsbnoOffset(g, fsbno), g.blocksize))
    else if !GoodLeaf(dev, g, fsbno) then Fail(-EINVAL)
    else
      var b := dev[FsbnoOffset(g, fsbno)];
      if NumRecs(b) > MaxRecs(|b|) then Outside else Ok(Records(b, NumRecs(b)))
  }

  /** `frames` is how many more nested calls the stack holds. */
  function NodeOutcome(dev: Device, g: Geometry, fsbno: nat, frames: nat): Outcome
    requires Sized(dev, g.blocksize)
    decreases frames, 2, 0
  {
    if frames == 0 then Deep
    else if g.blocksize > BLOCK_MAX then Fail(-EINVAL)
    else if FsbnoOffset(g, fsbno) !in dev then Fail(ReadErr(g, FsbnoOffset(g, fsbno), g.blocksize))
    else if !GoodNode(dev, g, fsbno) then Fail(-EINVAL)
    else
      var b := dev[FsbnoOffset(g, fsbno)];
      ListOutcome(dev, g, Pointers(b, Min(NumRecs(b), MAX_POINTERS)), NumRecs(b), Level(b), frames - 1)
  }

  /** `n` pointers were claimed, of which `ptrs` are there. */
  function ListOutcome(dev: Device, g: Geometry, ptrs: seq<nat>, n: nat, level: nat, frames: nat): Outcome
    requires Sized(dev, g.blocksize)
    decreases frames, 3, |ptrs| + 1
  {
    var out := KidsOutcome(dev, g, ptrs, level, frames);
    if out.Ok? && n > |ptrs| then Outside else out
  }

  function ChildOutcome(dev: Device, g: Geometry, fsbno: nat, level: nat, frames: nat): Outcome
    requires Sized(dev, g.blocksize)
    decreases frames, 2, 1
  {
    if level == 1 then LeafOutcome(dev, g, fsbno) else NodeOutcome(dev, g, fsbno, frames)
  }

  /** The records below a list of pointers, in order, or the first outcome that is no success. */
  function KidsOutcome(dev: Device, g: Geometry, ptrs: seq<nat>, level: nat, frames: nat): Outcome
    requires Sized(dev, g.blocksize)
    decreases frames, 3, |ptrs|
  {
    if ptrs == [] then Ok([])
    else
      var n := |ptrs| - 1;
      var front := KidsOutcome(dev, g, ptrs[..n], level, frames);
      if !front.Ok? then front
      else
        var last := ChildOutcome(dev, g, ptrs[n], level, frames);
        if last.Ok? then Ok(front.recs + last.recs) else last
  }

  /** The outcome of the first `n` pointers. */
  function PrefixOutcome(dev: Device, g: Geometry, ptrs: seq<nat>, n: nat, level: nat, frames: nat): Outcome
    requires Sized(dev, g.blocksize) && n <= |ptrs|
  {
    KidsOutcome(dev, g, ptrs[..n], level, frames)
  }

  /** What follows a prefix can only add records, and what is no success stays. */
  lemma {:induction false} KidsPrefix(dev: Device, g: Geometry, ptrs: seq<nat>, level: nat, frames: nat, n: nat)
    requires Sized(dev, g.blocksize) && n <= |ptrs|
    ensures var part, whole := PrefixOutcome(dev, g, ptrs, n, level, frames), KidsOutcome(dev, g, ptrs, level, frames);
            && (!part.Ok? ==> whole == part)
            && (part.Ok? && whole.Ok? ==> |part.recs| <= |whole.recs|)
    decreases |ptrs|
  {
    if n == |ptrs| {
      assert ptrs[..n] == ptrs;
    } else {
      var m := |ptrs| - 1;
      assert ptrs[..m][..n] == ptrs[..n];
      KidsPrefix(dev, g, ptrs[..m], level, frames, n);
    }
  }

  lemma PrefixEnds(dev: Device, g: Geometry, ptrs: seq<nat>, level: nat, frames: nat)
    requires Sized(dev, g.blocksize)
    ensures PrefixOutcome(dev, g, ptrs, 0, level, frames) == Ok([])
    ensures PrefixOutcome(dev, g, ptrs, |ptrs|, level, frames) == KidsOutcome(dev, g, ptrs, level, frames)
  {
    assert ptrs[..0] == [] && ptrs[..|ptrs|] == ptrs;
  }

  lemma PrefixNext(dev: Device, g: Geometry, ptrs: seq<nat>, n: nat, level: nat, frames: nat)
    requires Sized(dev, g.blocksize) && n < |ptrs|
    requires PrefixOutcome(dev, g, ptrs, n, level, frames).Ok?
    ensures var front, child := PrefixOutcome(dev, g, ptrs, n, level, frames).recs, ChildOutcome(dev, g, ptrs[n], level, frames);
            PrefixOutcome(dev, g, ptrs, n + 1, level, frames) == if child.Ok? then Ok(front + child.recs) else child
  {
    assert ptrs[..n + 1][..n] == ptrs[..n];
  }

  // ----- The layout -----------------------------------------------------------------------------

  datatype Btree = Leaf(recs: seq<Extent>) | Node(keys: seq<nat>, ptrs: seq<nat>, kids: seq<Btree>)

  function Flatten(t: Btree): seq<Extent>
    decreases t, 0
  {
    match t
    case Leaf(recs) => recs
    case Node(_, _, kids) => FlattenAll(kids)
  }

  function FlattenAll(ts: seq<Btree>): seq<Extent>
    decreases ts
  {
    if ts == [] then [] else FlattenAll(ts[..|ts| - 1]) + Flatten(ts[|ts| - 1])
  }

  predicate HasHeader(b: seq<Byte>, level: nat, n: nat) {
    && |b| >= HEADER && level < 0x1_0000 && n < 0x1_0000
    && b[..4] == To32(BMAP_MAGIC) && b[4..6] == To16(level) && b[6..8] == To16(n)
  }

  predicate HoldsRecords(b: seq<Byte>, recs: seq<Extent>) {
    && |b| >= HEADER && |recs| <= MaxRecs(|b|)
    && forall i :: 0 <= i < |recs| ==> Packable(recs[i]) && b[HEADER + 16 * i..HEADER + 16 * i + 16] == RecordBytes(recs[i])
  }

  /** Numbers of 64 bits one after the other. */
  predicate HoldsNumbers(b: seq<Byte>, at: nat, ns: seq<nat>) {
    && at + 8 * |ns| <= |b|
    && forall i :: 0 <= i < |ns| ==> ns[i] < TWO64 && b[at + 8 * i..at + 8 * i + 8] == To64(ns[i])
  }

  /** The keys first, in room for as many as there can be, and then the pointers. */
  predicate HoldsEntries(b: seq<Byte>, keys: seq<nat>, ptrs: seq<nat>) {
    && |b| >= HEADER && |keys| == |ptrs| <= MaxRecs(|b|)
    && HoldsNumbers(b, HEADER, keys) && HoldsNumbers(b, PointersOfz(|b|), ptrs)
  }

  /** The device holds the tree at block `fsbno`, a child one level below its parent. */
  predicate Stored(dev: Device, g: Geometry, fsbno: nat, t: Btree, level: nat)
    requires Sized(dev, g.blocksize)
    decreases t, 1
  {
    && FsbnoOffset(g, fsbno) in dev
    && var b := dev[FsbnoOffset(g, fsbno)];
       match t
       case Leaf(recs) => level == 0 && HasHeader(b, 0, |recs|) && HoldsRecords(b, recs)
       case Node(keys, ptrs, kids) =>
         && level > 0 && |ptrs| == |kids| && HasHeader(b, level, |ptrs|) && HoldsEntries(b, keys, ptrs)
         && AllStored(dev, g, ptrs, kids, level - 1)
  }

  predicate AllStored(dev: Device, g: Geometry, ptrs: seq<nat>, kids: seq<Btree>, level: nat)
    requires Sized(dev, g.blocksize) && |ptrs| == |kids|
    decreases kids, 0
  {
    forall i :: 0 <= i < |kids| ==> Stored(dev, g, ptrs[i], kids[i], level)
  }

  lemma HeaderReads(b: seq<Byte>, level: nat, n: nat)
    requires HasHeader(b, level, n)
    ensures Magic(b) == BMAP_MAGIC && Level(b) == level && NumRecs(b) == n
  {
    Be32Inverts(BMAP_MAGIC);
    Be16Inverts(level);
    Be16Inverts(n);
  }

  lemma {:induction false} RecordsRead(b: seq<Byte>, recs: seq<Extent>, n: nat)
    requires HoldsRecords(b, recs) && n <= |recs|
    ensures Records(b, n) == recs[..n]
  {
    hide ReadRecord, RecordBytes, Packable;
    if n > 0 {
      RecordsRead(b, recs, n - 1);
      ReadRecordInverts(recs[n - 1]);
      assert recs[..n] == recs[..n - 1] + [recs[n - 1]];
    }
  }

  lemma PointersRead(b: seq<Byte>, keys: seq<nat>, ptrs: seq<nat>)
    requires HoldsEntries(b, keys, ptrs)
    ensures Pointers(b, |ptrs|) == ptrs
  {
    hide Be64, To64, Padded;
    forall i | 0 <= i < |ptrs| ensures PointerAt(b, i) == ptrs[i] {
      PaddedInside(b, PointersOfz(|b|) + 8 * i, 8);
      Be64Inverts(ptrs[i]);
    }
  }

  lemma LeafReads(dev: Device, g: Geometry, fsbno: nat, t: Btree)
    requires Sized(dev, g.blocksize) && t.Leaf? && Stored(dev, g, fsbno, t, 0)
    ensures LeafOutcome(dev, g, fsbno) == Ok(Flatten(t))
  {
    hide FsbnoOffset, Magic, Level, NumRecs;
    var b := dev[FsbnoOffset(g, fsbno)];
    HeaderReads(b, 0, |t.recs|);
    RecordsRead(b, t.recs, |t.recs|);
    assert t.recs[..|t.recs|] == t.recs;
  }

  /** Reading a stored tree, of any depth that the stack holds, gives its leaf records in order. */
  lemma {:induction false} NodeReads(dev: Device, g: Geometry, fsbno: nat, t: Btree, level: nat, frames: nat)
    requires Sized(dev, g.blocksize) && g.blocksize <= BLOCK_MAX && 0 < level <= frames && Stored(dev, g, fsbno, t, level)
    ensures NodeOutcome(dev, g, fsbno, frames) == Ok(Flatten(t))
    decreases t, 1
  {
    hide FsbnoOffset, Magic, Level, NumRecs, HoldsNumbers, HasHeader, PointerAt, MaxRecs;
    var b := dev[FsbnoOffset(g, fsbno)];
    HeaderReads(b, level, |t.ptrs|);
    PointersRead(b, t.keys, t.ptrs);
    FewPointers(|b|);
    KidsRead(dev, g, t.ptrs, t.kids, level, frames - 1);
  }

  /** A block has fewer pointers than the array. */
  lemma FewPointers(size: nat)
    requires HEADER <= size <= BLOCK_MAX
    ensures MaxRecs(size) <= MAX_POINTERS
  {
  }

  lemma {:induction false} ChildReads(dev: Device, g: Geometry, ptr: nat, t: Btree, level: nat, frames: nat)
    requires Sized(dev, g.blocksize) && g.blocksize <= BLOCK_MAX && 0 < level <= frames + 1 && Stored(dev, g, ptr, t, level - 1)
    ensures ChildOutcome(dev, g, ptr, level, frames) == Ok(Flatten(t))
    decreases t, 2
  {
    if level == 1 {
      LeafReads(dev, g, ptr, t);
    } else {
      NodeReads(dev, g, ptr, t, level - 1, frames);
    }
  }

  lemma {:induction false} KidsRead(dev: Device, g: Geometry, ptrs: seq<nat>, kids: seq<Btree>, level: nat, frames: nat)
    requires Sized(dev, g.blocksize) && g.blocksize <= BLOCK_MAX && |ptrs| == |kids| && 0 < level <= frames + 1
    requires AllStored(dev, g, ptrs, kids, level - 1)
    ensures KidsOutcome(dev, g, ptrs, level, frames) == Ok(FlattenAll(kids))
    decreases kids, 0
  {
    if kids != [] {
      hide Stored, ChildOutcome, Flatten;
      var n := |kids| - 1;
      KidsRead(dev, g, ptrs[..n], kids[..n], level, frames);
      ChildReads(dev, g, ptrs[n], kids[n], level, frames);
    }
  }

  // ----- Every well-formed device holds a tree --------------------------------------------------

  /** A good block of the given level, and below it good blocks of the next lower levels. */
  predicate WellLevelled(dev: Device, g: Geometry, fsbno: nat, level: nat)
    requires Sized(dev, g.blocksize)
    decreases level
  {
    && FsbnoOffset(g, fsbno) in dev
    && var b := dev[FsbnoOffset(g, fsbno)];
       && Magic(b) == BMAP_MAGIC && Level(b) == level && NumRecs(b) <= MaxRecs(|b|)
       && (level > 0 ==> forall i :: 0 <= i < NumRecs(b) ==> WellLevelled(dev, g, PointerAt(b, i), level - 1))
  }

  lemma HeaderIs(b: seq<Byte>)
    requires |b| >= HEADER && Magic(b) == BMAP_MAGIC
    ensures HasHeader(b, Level(b), NumRecs(b))
  {
    To32Inverts(b[..4]);
    To16Inverts(b[4..6]);
    To16Inverts(b[6..8]);
  }

  function Numbers(b: seq<Byte>, at: nat, n: nat): (ns: seq<nat>)
    requires at + 8 * n <= |b|
    ensures |ns| == n && forall i :: 0 <= i < n ==> ns[i] == Be64(b[at + 8 * i..at + 8 * i + 8])
  {
    seq(n, i requires 0 <= i < n => Be64(b[at + 8 * i..at + 8 * i + 8]))
  }

  lemma NumbersAre(b: seq<Byte>, at: nat, n: nat)
    requires at + 8 * n <= |b|
    ensures HoldsNumbers(b, at, Numbers(b, at, n))
  {
    hide Be64, To64;
    forall i | 0 <= i < n ensures Numbers(b, at, n)[i] < TWO64 && b[at + 8 * i..at + 8 * i + 8] == To64(Numbers(b, at, n)[i]) {
      To64Inverts(b[at + 8 * i..at + 8 * i + 8]);
    }
  }

  lemma {:induction false} RecordsAre(b: seq<Byte>, n: nat)
    requires |b| >= HEADER && n <= MaxRecs(|b|)
    ensures HoldsRecords(b, Records(b, n))
  {
    hide ReadRecord, RecordBytes, Packable;
    if n > 0 {
      RecordsAre(b, n - 1);
      RecordBytesInverts(b[HEADER + 16 * (n - 1)..HEADER + 16 * (n - 1) + 16]);
    }
  }

  lemma EntriesAre(b: seq<Byte>, n: nat)
    requires |b| >= HEADER && n <= MaxRecs(|b|)
    ensures HoldsEntries(b, Numbers(b, HEADER, n), Pointers(b, n))
  {
    hide Be64, To64, Padded;
    NumbersAre(b, HEADER, n);
    NumbersAre(b, PointersOfz(|b|), n);
    forall i | 0 <= i < n ensures PointerAt(b, i) == Numbers(b, PointersOfz(|b|), n)[i] {
      PaddedInside(b, PointersOfz(|b|) + 8 * i, 8);
    }
    assert Pointers(b, n) == Numbers(b, PointersOfz(|b|), n);
  }

  /** Such a device is the layout of a tree: each record and key re-packs to the bytes it came from. */
  lemma {:induction false} WellLevelledStored(dev: Device, g: Geometry, fsbno: nat, level: nat) returns (t: Btree)
    requires Sized(dev, g.blocksize) && WellLevelled(dev, g, fsbno, level)
    ensures Stored(dev, g, fsbno, t, level)
    decreases level, 1, 0
  {
    var b := dev[FsbnoOffset(g, fsbno)];
    HeaderIs(b);
    hide FsbnoOffset, HasHeader, HoldsEntries, HoldsRecords, Magic, PointerAt;
    if level == 0 {
      RecordsAre(b, NumRecs(b));
      t := Leaf(Records(b, NumRecs(b)));
    } else {
      EntriesAre(b, NumRecs(b));
      var kids := KidsStored(dev, g, Pointers(b, NumRecs(b)), level);
      t := Node(Numbers(b, HEADER, NumRecs(b)), Pointers(b, NumRecs(b)), kids);
    }
  }

  lemma {:induction false} KidsStored(dev: Device, g: Geometry, ptrs: seq<nat>, level: nat) returns (kids: seq<Btree>)
    requires Sized(dev, g.blocksize) && level > 0
    requires forall i :: 0 <= i < |ptrs| ==> WellLevelled(dev, g, ptrs[i], level - 1)
    ensures |kids| == |ptrs| && AllStored(dev, g, ptrs, kids, level - 1)
    decreases level, 0, |ptrs|
  {
    kids := [];
    if ptrs != [] {
      hide WellLevelled, Stored;
      var n := |ptrs| - 1;
      var front := KidsStored(dev, g, ptrs[..n], level);
      var last := WellLevelledStored(dev, g, ptrs[n], level - 1);
      kids := front + [last];
      forall i | 0 <= i < |kids| ensures Stored(dev, g, ptrs[i], kids[i], level - 1) {
        if i < n {
          assert ptrs[..n][i] == ptrs[i];
        }
      }
    }
  }

  lemma {:induction false} StoredWellLevelled(dev: Device, g: Geometry, fsbno: nat, t: Btree, level: nat)
    requires Sized(dev, g.blocksize) && Stored(dev, g, fsbno, t, level)
    ensures WellLevelled(dev, g, fsbno, level)
    decreases t
  {
    var b := dev[FsbnoOffset(g, fsbno)];
    HeaderReads(b, level, if t.Leaf? then |t.recs| else |t.ptrs|);
    if t.Node? {
      PointersRead(b, t.keys, t.ptrs);
      hide FsbnoOffset, Magic, Level, NumRecs, HoldsEntries, HasHeader;
      forall i | 0 <= i < |t.ptrs| ensures WellLevelled(dev, g, PointerAt(b, i), level - 1) {
        StoredWellLevelled(dev, g, t.ptrs[i], t.kids[i], level - 1);
      }
    }
  }

  /** Levels are not checked on the way down: a node that points to itself exhausts every stack. */
  lemma {:induction false} LoopIsDeep(dev: Device, g: Geometry, fsbno: nat, frames: nat)
    requires Sized(dev, g.blocksize) && GoodNode(dev, g, fsbno)
    requires var b := dev[FsbnoOffset(g, fsbno)]; Level(b) != 1 && NumRecs(b) > 0 && PointerAt(b, 0) == fsbno
    ensures NodeOutcome(dev, g, fsbno, frames) == Deep
  {
    if frames > 0 {
      LoopIsDeep(dev, g, fsbno, frames - 1);
      var b := dev[FsbnoOffset(g, fsbno)];
      var ptrs := Pointers(b, Min(NumRecs(b), MAX_POINTERS));
      PrefixEnds(dev, g, ptrs, Level(b), frames - 1);
      PrefixNext(dev, g, ptrs, 0, Level(b), frames - 1);
      KidsPrefix(dev, g, ptrs, Level(b), frames - 1, 1);
      hide Magic, NumRecs, FsbnoOffset, PointerAt, KidsOutcome, PrefixOutcome;
    }
  }

  // ----- Ordered trees --------------------------------------------------------------------------

  /** One extent after the other in the file, none of them empty. */
  ghost predicate Increasing(recs: seq<Extent>) {
    && (forall i :: 0 <= i < |recs| ==> recs[i].nblocks > 0)
    && (forall i, j :: 0 <= i < j < |recs| ==> recs[i].startOffset + recs[i].nblocks <= recs[j].startOffset)
  }

  ghost predicate Within(recs: seq<Extent>, lo: nat, hi: nat) {
    forall i :: 0 <= i < |recs| ==> lo <= recs[i].startOffset && recs[i].startOffset + recs[i].nblocks <= hi
  }

  /** The `i`-th child covers the offsets from its key up to the next one. */
  function Upper(keys: seq<nat>, i: nat, hi: nat): nat {
    if i + 1 < |keys| then keys[i + 1] else hi
  }

  /** Ordered keys: leaves are sorted, and children stay between their keys, in [lo, hi). */
  ghost predicate Ordered(t: Btree, lo: nat, hi: nat)
    decreases t, 1
  {
    match t
    case Leaf(recs) => Increasing(recs) && Within(recs, lo, hi)
    case Node(keys, _, kids) => |keys| == |kids| && KidsOrdered(keys, kids, lo, hi)
  }

  ghost predicate KidsOrdered(keys: seq<nat>, kids: seq<Btree>, lo: nat, hi: nat)
    requires |keys| == |kids|
    decreases kids, 0
  {
    && (forall i :: 0 <= i < |keys| ==> lo <= keys[i] <= Upper(keys, i, hi))
    && (forall i :: 0 <= i < |kids| ==> Ordered(kids[i], keys[i], Upper(keys, i, hi)))
  }

  lemma AppendIncreasing(a: seq<Extent>, b: seq<Extent>, lo: nat, mid: nat, hi: nat)
    requires Increasing(a) && Within(a, lo, mid) && Increasing(b) && Within(b, mid, hi) && lo <= mid <= hi
    ensures Increasing(a + b) && Within(a + b, lo, hi)
  {
  }

  /** Flattening an ordered tree of any depth gives increasing extents that do not overlap. */
  lemma {:induction false} FlattenIncreasing(t: Btree, lo: nat, hi: nat)
    requires Ordered(t, lo, hi) && lo <= hi
    ensures Increasing(Flatten(t)) && Within(Flatten(t), lo, hi)
    decreases t, 1
  {
    if t.Node? {
      KidsIncreasing(t.keys, t.kids, lo, hi);
    }
  }

  lemma {:induction false} KidsIncreasing(keys: seq<nat>, kids: seq<Btree>, lo: nat, hi: nat)
    requires |keys| == |kids| && KidsOrdered(keys, kids, lo, hi) && lo <= hi
    ensures Increasing(FlattenAll(kids)) && Within(FlattenAll(kids), lo, hi)
    decreases kids, 0
  {
    if kids != [] {
      var n := |kids| - 1;
      FrontOrdered(keys, kids, lo, hi);
      KidsIncreasing(keys[..n], kids[..n], lo, keys[n]);
      FlattenIncreasing(kids[n], keys[n], hi);
      hide Increasing, Within, Ordered, Flatten;
      AppendIncreasing(FlattenAll(kids[..n]), Flatten(kids[n]), lo, keys[n], hi);
    }
  }

  lemma FrontOrdered(keys: seq<nat>, kids: seq<Btree>, lo: nat, hi: nat)
    requires |keys| == |kids| > 0 && KidsOrdered(keys, kids, lo, hi)
    ensures var n := |kids| - 1;
            && KidsOrdered(keys[..n], kids[..n], lo, keys[n]) && Ordered(kids[n], keys[n], hi) && lo <= keys[n] <= hi
  {
    hide Ordered;
    var n := |kids| - 1;
    forall i | 0 <= i < n ensures Upper(keys[..n], i, keys[n]) == Upper(keys, i, hi) {
    }
    assert Upper(keys, n, hi) == hi;
  }

  lemma RecordsStep(b: seq<Byte>, n: nat)
    requires |b| >= HEADER && n < MaxRecs(|b|)
    ensures Records(b, n + 1) == Records(b, n) + [RecordAt(b, n)]
  {
  }

  // ----- The root in the inode ------------------------------------------------------------------

  const CORE: nat := 176

  /** Byte 82 of the inode: where the attribute fork starts, in units of 8 bytes after the core. */
  function Forkoff(dinode: seq<Byte>): nat
    requires |dinode| >= CORE + 16
  {
    dinode[82]
  }

  /** `btree_dinode_meta`, in 64-bit arithmetic: the offset of the pointers in an inode of `size` bytes. */
  function RootOfz(size: nat, forkoff: nat): nat {
    var attr := (size - (CORE + forkoff * 8)) % TWO64;
    var data := (size - CORE - attr) % TWO64;
    var mrecs := (data - 4) % TWO64 / 16;
    (CORE + 4 + mrecs * 8) % TWO64
  }

  /** The data fork ends where the attribute fork starts, or with the inode when there is none. */
  function DataFork(size: nat, forkoff: nat): nat
    requires CORE <= size
  {
    if forkoff > 0 then forkoff * 8 else size - CORE
  }

  /** The format's place for the pointers: after the level, the count and room for all keys. */
  function RootPointersOfz(size: nat, forkoff: nat): nat
    requires CORE + 16 <= size
  {
    CORE + 4 + (DataFork(size, forkoff) - 4) / 16 * 8
  }

  /** The library finds the root's pointers exactly in the inodes that have an attribute fork. */
  lemma RootOfzExact(size: nat, forkoff: nat)
    requires CORE + 16 <= size <= 65536 && CORE + forkoff * 8 <= size
    ensures RootOfz(size, forkoff) == RootPointersOfz(size, forkoff) <==> forkoff > 0
    ensures forkoff == 0 ==> RootOfz(size, forkoff) > size
  {
    var attr := size - (CORE + forkoff * 8);
    assert attr % TWO64 == attr;
    assert (size - CORE - attr) % TWO64 == forkoff * 8;
    if forkoff > 0 {
      assert (forkoff * 8 - 4) % TWO64 == forkoff * 8 - 4;
    } else {
      assert (0 - 4) % TWO64 == TWO64 - 4;
    }
  }

  function RootLevel(dinode: seq<Byte>): nat
    requires |dinode| >= CORE + 16
  {
    Be16(dinode[CORE..CORE + 2])
  }

  function RootNumRecs(dinode: seq<Byte>): nat
    requires |dinode| >= CORE + 16
  {
    Be16(dinode[CORE + 2..CORE + 4])
  }

  /** How many pointers from `ofz` on lie inside the inode. */
  function Room(size: nat, ofz: nat): (n: nat)
    ensures n > 0 ==> ofz + 8 * n <= size
  {
    if ofz > size then 0 else (size - ofz) / 8
  }

  /** The claimed pointers that are inside the inode. */
  function RootPointers(dinode: seq<Byte>): (ps: seq<nat>)
    requires |dinode| >= CORE + 16
    ensures |ps| <= RootNumRecs(dinode)
  {
    var ofz := RootOfz(|dinode|, Forkoff(dinode));
    var n := Min(RootNumRecs(dinode), Room(|dinode|, ofz));
    if n == 0 then [] else Numbers(dinode, ofz, n)
  }

  /** What `process_dinode_file_btree_root` makes of an inode. */
  function RootOutcome(dev: Device, g: Geometry, dinode: seq<Byte>, frames: nat): Outcome
    requires Sized(dev, g.blocksize) && |dinode| >= CORE + 16
  {
    if RootLevel(dinode) < 1 then Fail(-EINVAL)
    else ListOutcome(dev, g, RootPointers(dinode), RootNumRecs(dinode), RootLevel(dinode), frames)
  }

  /** An inode with an attribute fork that holds the root of the tree, and the device the rest. */
  predicate RootStored(dev: Device, g: Geometry, dinode: seq<Byte>, t: Btree, level: nat)
    requires Sized(dev, g.blocksize)
  {
    && CORE + 16 <= |dinode| <= 65536 && Forkoff(dinode) > 0 && CORE + Forkoff(dinode) * 8 <= |dinode|
    && t.Node? && 0 < level < 0x1_0000 && |t.keys| == |t.ptrs| == |t.kids| <= (Forkoff(dinode) * 8 - 4) / 16
    && dinode[CORE..CORE + 2] == To16(level) && dinode[CORE + 2..CORE + 4] == To16(|t.ptrs|)
    && HoldsNumbers(dinode, CORE + 4, t.keys)
    && HoldsNumbers(dinode, RootPointersOfz(|dinode|, Forkoff(dinode)), t.ptrs)
    && AllStored(dev, g, t.ptrs, t.kids, level - 1)
  }

  lemma NumbersRead(b: seq<Byte>, at: nat, ns: seq<nat>)
    requires HoldsNumbers(b, at, ns)
    ensures Numbers(b, at, |ns|) == ns
  {
    hide Be64, To64;
    forall i | 0 <= i < |ns| ensures Numbers(b, at, |ns|)[i] == ns[i] {
      Be64Inverts(ns[i]);
    }
  }

  /** Reading the root of a stored tree gives all leaf records of the tree in order. */
  lemma RootReads(dev: Device, g: Geometry, dinode: seq<Byte>, t: Btree, level: nat, frames: nat)
    requires Sized(dev, g.blocksize) && g.blocksize <= BLOCK_MAX && RootStored(dev, g, dinode, t, level) && level <= frames + 1
    ensures RootOutcome(dev, g, dinode, frames) == Ok(Flatten(t))
  {
    Be16Inverts(level);
    Be16Inverts(|t.ptrs|);
    var ofz := RootPointersOfz(|dinode|, Forkoff(dinode));
    RootOfzExact(|dinode|, Forkoff(dinode));
    NumbersRead(dinode, ofz, t.ptrs);
    assert RootPointers(dinode) == t.ptrs;
    KidsRead(dev, g, t.ptrs, t.kids, level, frames);
  }

  /** With ordered keys the extents that are read increase and do not overlap. */
  lemma RootIncreasing(dev: Device, g: Geometry, dinode: seq<Byte>, t: Btree, level: nat, frames: nat, lo: nat, hi: nat)
    requires Sized(dev, g.blocksize) && g.blocksize <= BLOCK_MAX && RootStored(dev, g, dinode, t, level) && level <= frames + 1
    requires Ordered(t, lo, hi) && lo <= hi
    ensures RootOutcome(dev, g, dinode, frames).Ok?
    ensures var recs := RootOutcome(dev, g, dinode, frames).recs; Increasing(recs) && Within(recs, lo, hi)
  {
    RootReads(dev, g, dinode, t, level, frames);
    FlattenIncreasing(t, lo, hi);
  }
}
