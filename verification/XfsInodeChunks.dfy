/**
  The inodes of an allocation group: the records of its inode B+tree, and the 64-inode chunks that
  they describe.  `Walk` is what the tree holds, block by block; the inodes of a record are those
  of its chunk that are neither in a hole nor free.
 */
module XfsInodeChunks {
  import opened Probing
  import opened XfsFormat
  import opened XfsGeometry

  const CHUNK: nat := 64
  const SHORT_HEADER: nat := 56
  const INOBT_MAGIC: nat := 0x4941_4233
  const INO_OFFSET: nat := 152

  /** An assertion of the source fails. */
  const ABORT: int := 3

  const MAX_RECS: nat := (BLOCK_MAX - SHORT_HEADER) / 16
  const MAX_POINTERS: nat := BLOCK_MAX / 4
  const BUF_NBYTES: nat := 131072

  type Ino32 = x: nat | x < U32

  datatype Rec = Rec(startino: Ino32, holemask: nat, free: nat)

  /** The records of a tree up to the first block that is refused, and the error that ended the walk. */
  datatype Walk = Walk(recs: seq<Rec>, err: int)

  // ----- Blocks ---------------------------------------------------------------------------------

  /** `xal_agbno_absolute_offset` */
  function AgbnoOffset(g: Geometry, seqno: nat, agbno: nat): nat {
    Times((Times(seqno, g.agblocks) + agbno) % U64, g.blocksize) % U64
  }

  predicate Readable(img: seq<Byte>, g: Geometry, ofz: nat, n: nat)
    ensures Readable(img, g, ofz, n) ==> ofz + n <= |img|
  {
    DevErr(g, |img|, ofz, n) == 0
  }

  function BlockAt(img: seq<Byte>, g: Geometry, seqno: nat, agbno: nat): (b: seq<Byte>)
    requires Readable(img, g, AgbnoOffset(g, seqno, agbno), g.blocksize)
    ensures |b| == g.blocksize
  {
    var ofz := AgbnoOffset(g, seqno, agbno);
    img[ofz..ofz + g.blocksize]
  }

  function BlockMagic(b: seq<Byte>): nat
    requires |b| >= SHORT_HEADER
  {
    Be32(b[..4])
  }

  function BlockLevel(b: seq<Byte>): nat
    requires |b| >= SHORT_HEADER
  {
    Be16(b[4..6])
  }

  function BlockRecs(b: seq<Byte>): nat
    requires |b| >= SHORT_HEADER
  {
    Be16(b[6..8])
  }

  /** startino, holemask, count, freecount, free; the buffer is cleared before the block is copied into it. */
  function RecAt(b: seq<Byte>, i: nat): Rec {
    var at := SHORT_HEADER + 16 * i;
    Rec(Be32(Padded(b, at, 4)), Be16(Padded(b, at + 4, 2)), Be64(Padded(b, at + 8, 8)))
  }

  function LeafRecs(b: seq<Byte>, n: nat): (rs: seq<Rec>)
    ensures |rs| == n
  {
    if n == 0 then [] else LeafRecs(b, n - 1) + [RecAt(b, n - 1)]
  }

  /** `btree_sblock_meta` */
  function PointersAt(size: nat): nat
    requires size >= SHORT_HEADER
  {
    SHORT_HEADER + (size - SHORT_HEADER) / 8 * 4
  }

  /** The pointers are copied into a cleared array of the largest size. */
  function BlockPointer(b: seq<Byte>, i: nat): nat
    requires |b| >= SHORT_HEADER
  {
    Be32(Padded(b, PointersAt(|b|) + 4 * i, 4))
  }

  function BlockPointers(b: seq<Byte>, n: nat): (ps: seq<nat>)
    requires |b| >= SHORT_HEADER
    ensures |ps| == n && forall i :: 0 <= i < n ==> ps[i] == BlockPointer(b, i)
  {
    seq(n, i requires 0 <= i < n => BlockPointer(b, i))
  }

  /** The walk, and then an overrun if there was more to go through than the memory holds. */
  function Cut(w: Walk, n: nat, max: nat): Walk {
    if w.err == 0 && n > max then Walk(w.recs, OUTSIDE) else w
  }

  function LeafWalk(b: seq<Byte>, n: nat): Walk {
    Cut(Walk(LeafRecs(b, Min(n, MAX_RECS)), 0), n, MAX_RECS)
  }

  predicate Blocks(g: Geometry) {
    SHORT_HEADER <= g.blocksize <= BLOCK_MAX
  }

  /** What `retrieve_dinodes_via_iab3` finds below a block, with room for `frames` nested calls on the stack. */
  function WalkAt(img: seq<Byte>, g: Geometry, seqno: nat, agbno: nat, frames: nat): Walk
    requires Blocks(g)
    decreases frames, 1, 0
  {
    if frames == 0 then Walk([], DEEP)
    else if !Readable(img, g, AgbnoOffset(g, seqno, agbno), g.blocksize) then
      Walk([], ReadErr(g, AgbnoOffset(g, seqno, agbno), g.blocksize))
    else
      var b := BlockAt(img, g, seqno, agbno);
      if BlockMagic(b) != INOBT_MAGIC then Walk([], -EINVAL)
      else if BlockLevel(b) == 0 then LeafWalk(b, BlockRecs(b))
      else if BlockLevel(b) == 1 then NodeWalk(img, g, seqno, b, BlockRecs(b), frames - 1)
      else Walk([], -EINVAL)
  }

  function NodeWalk(img: seq<Byte>, g: Geometry, seqno: nat, b: seq<Byte>, n: nat, frames: nat): Walk
    requires Blocks(g) && |b| >= SHORT_HEADER
    decreases frames, 3, 0
  {
    Cut(WalkAll(img, g, seqno, BlockPointers(b, Min(n, MAX_POINTERS)), frames), n, MAX_POINTERS)
  }

  function WalkAll(img: seq<Byte>, g: Geometry, seqno: nat, ptrs: seq<nat>, frames: nat): Walk
    requires Blocks(g)
    decreases frames, 2, |ptrs|
  {
    if ptrs == [] then Walk([], 0)
    else
      var n := |ptrs| - 1;
      var front := WalkAll(img, g, seqno, ptrs[..n], frames);
      if front.err != 0 then front
      else
        var last := WalkAt(img, g, seqno, ptrs[n], frames);
        Walk(front.recs + last.recs, last.err)
  }

  // ----- Chunks ---------------------------------------------------------------------------------

  predicate Bit(x: nat, k: nat) {
    Div(x, Pow2(k)) % 2 == 1
  }

  predicate InHole(r: Rec, ci: nat) {
    Bit(r.holemask, ci / 4)
  }

  predicate Live(r: Rec, ci: nat) {
    !InHole(r, ci) && !Bit(r.free, ci)
  }

  /** Where the chunk of a record starts on the device. */
  function ChunkOffset(g: Geometry, seqno: nat, r: Rec): nat {
    Times(DecodeRelative(g, r.startino).0, g.blocksize) + Times(Times(seqno, g.agblocks), g.blocksize)
  }

  function ChunkBytes(g: Geometry): nat {
    Times(Div(CHUNK, Pow2(g.inopblog)), g.blocksize)
  }

  /** The inode at place `ci` of a chunk. */
  function InodeAt(img: seq<Byte>, g: Geometry, seqno: nat, r: Rec, ci: nat): (b: seq<Byte>)
    requires ci < CHUNK && Readable(img, g, ChunkOffset(g, seqno, r), CHUNK * g.inodesize)
    ensures |b| == g.inodesize
  {
    MulLe(ci + 1, CHUNK, g.inodesize);
    Distribute(ci, 1, g.inodesize);
    var at := ChunkOffset(g, seqno, r) + Times(ci, g.inodesize);
    img[at..at + g.inodesize]
  }

  predicate ChunkReadable(img: seq<Byte>, g: Geometry, seqno: nat, r: Rec) {
    Readable(img, g, ChunkOffset(g, seqno, r), CHUNK * g.inodesize)
  }

  /** What the source asserts: the record's first inode starts a block, and the chunk is smaller than the buffer. */
  predicate Asserted(g: Geometry, r: Rec) {
    DecodeRelative(g, r.startino).1 == 0 && ChunkBytes(g) < BUF_NBYTES
  }

  /** How reading the chunk of a record ends; a read of no bytes asks the device for one block less than none. */
  function ChunkErr(img: seq<Byte>, g: Geometry, seqno: nat, r: Rec): int {
    if !Asserted(g, r) then ABORT
    else if ChunkBytes(g) == 0 then OUTSIDE
    else if !Readable(img, g, ChunkOffset(g, seqno, r), ChunkBytes(g)) then ReadErr(g, ChunkOffset(g, seqno, r), ChunkBytes(g))
    else 0
  }

  lemma ChunkSize(g: Geometry)
    requires Sane(g)
    ensures ChunkBytes(g) == if g.inopblog <= 6 then CHUNK * g.inodesize else 0
  {
    var a := Pow2(g.inopblog);
    var k := Div(CHUNK, a);
    assert g.blocksize == a * g.inodesize;
    if g.inopblog <= 6 {
      PowDivides(g.inopblog);
      hide Pow2, Div, Sane;
      Assoc(k, a, g.inodesize);
    } else {
      assert Pow2(7) == 128;
      PowGrows(7, g.inopblog);
      hide Pow2, Sane;
      assert k == 0;
    }
  }

  lemma {:induction false} PowGrows(a: nat, b: nat)
    requires a <= b
    ensures Pow2(a) <= Pow2(b)
  {
    if a < b {
      PowGrows(a, b - 1);
    }
  }

  /**
    A chunk is taken exactly if it can be read, starts a block, has at most 64 inodes to a block, and
    its inodes are smaller than 2048 bytes, which is the largest size that the format has.
   */
  lemma ChunkTaken(img: seq<Byte>, g: Geometry, seqno: nat, r: Rec)
    requires Sane(g)
    ensures ChunkErr(img, g, seqno, r) == 0 <==>
              && DecodeRelative(g, r.startino).1 == 0 && g.inopblog <= 6 && g.inodesize < 2048
              && ChunkReadable(img, g, seqno, r)
    ensures ChunkErr(img, g, seqno, r) == ABORT <==>
              DecodeRelative(g, r.startino).1 != 0 || (g.inopblog <= 6 && g.inodesize >= 2048)
  {
    ChunkSize(g);
    assert g.inodesize > 0;
    hide ChunkBytes, DecodeRelative, ChunkOffset, Sane;
  }

  /** A filesystem with 4096-byte blocks and 2048-byte inodes: no chunk is ever taken, and the process ends. */
  lemma LargeInodesAbort(img: seq<Byte>, seqno: nat, r: Rec)
    ensures var g := Geometry(1, 1024, 10, 4096, 1, 2048, 1048576, 512); Sane(g) && ChunkErr(img, g, seqno, r) == ABORT
  {
    var g := Geometry(1, 1024, 10, 4096, 1, 2048, 1048576, 512);
    assert Pow2(10) == 1024 && Pow2(1) == 2;
    assert Sane(g);
    ChunkTaken(img, g, seqno, r);
  }

  /** The live inodes among the first `n` of a chunk. */
  function LiveInodes(img: seq<Byte>, g: Geometry, seqno: nat, r: Rec, n: nat): seq<seq<Byte>>
    requires ChunkReadable(img, g, seqno, r) && n <= CHUNK
  {
    if n == 0 then []
    else LiveInodes(img, g, seqno, r, n - 1) + if Live(r, n - 1) then [InodeAt(img, g, seqno, r, n - 1)] else []
  }

  predicate AllTaken(img: seq<Byte>, g: Geometry, seqno: nat, rs: seq<Rec>) {
    forall r :: r in rs ==> ChunkErr(img, g, seqno, r) == 0
  }

  predicate AllAsserted(g: Geometry, rs: seq<Rec>) {
    forall r :: r in rs ==> Asserted(g, r)
  }

  predicate AllReadable(img: seq<Byte>, g: Geometry, seqno: nat, rs: seq<Rec>) {
    forall r :: r in rs ==> ChunkReadable(img, g, seqno, r)
  }

  /** The live inodes of a list of records, in order. */
  function RecInodes(img: seq<Byte>, g: Geometry, seqno: nat, rs: seq<Rec>): seq<seq<Byte>>
    requires AllReadable(img, g, seqno, rs)
  {
    if rs == [] then []
    else RecInodes(img, g, seqno, rs[..|rs| - 1]) + LiveInodes(img, g, seqno, rs[|rs| - 1], CHUNK)
  }

  /** How many inodes of the chunk are not in a hole. */
  function Outside(r: Rec, n: nat): nat {
    if n == 0 then 0 else Outside(r, n - 1) + if InHole(r, n - 1) then 0 else 1
  }

  /** The allocated inodes of the records: what `agi_count` counts. */
  function Allocated(rs: seq<Rec>): nat {
    if rs == [] then 0 else Allocated(rs[..|rs| - 1]) + Outside(rs[|rs| - 1], CHUNK)
  }

  lemma {:induction false} LiveAreAllocated(img: seq<Byte>, g: Geometry, seqno: nat, r: Rec, n: nat)
    requires ChunkReadable(img, g, seqno, r) && n <= CHUNK
    ensures |LiveInodes(img, g, seqno, r, n)| <= Outside(r, n)
  {
    hide InodeAt, InHole;
    if n > 0 {
      LiveAreAllocated(img, g, seqno, r, n - 1);
    }
  }

  /** There are no more live inodes than `agi_count` says are allocated. */
  lemma {:induction false} InodesAreAllocated(img: seq<Byte>, g: Geometry, seqno: nat, rs: seq<Rec>)
    requires AllReadable(img, g, seqno, rs)
    ensures |RecInodes(img, g, seqno, rs)| <= Allocated(rs)
  {
    if rs != [] {
      InodesAreAllocated(img, g, seqno, rs[..|rs| - 1]);
      LiveAreAllocated(img, g, seqno, rs[|rs| - 1], CHUNK);
    }
  }

  // ----- Addresses ------------------------------------------------------------------------------

  /** A record of the format: its chunk starts on a block and lies inside the allocation group. */
  predicate ChunkInGroup(g: Geometry, seqno: nat, r: Rec) {
    && seqno < g.agcount && g.inopblog <= 6
    && r.startino % Pow2(g.inopblog) == 0 && r.startino + CHUNK <= U32
    && Div(r.startino, Pow2(g.inopblog)) + Div(CHUNK, Pow2(g.inopblog)) <= g.agblocks
  }

  /** The number of the inode at place `ci` of the chunk. */
  function Number(g: Geometry, seqno: nat, r: Rec, ci: nat): nat {
    Times(seqno, Pow2(g.inopblog + g.agblklog)) + r.startino + ci
  }

  function PlaceOf(g: Geometry, seqno: nat, r: Rec, ci: nat): Place {
    Place(seqno, Div(r.startino, Pow2(g.inopblog)) + Div(ci, Pow2(g.inopblog)), ci % Pow2(g.inopblog))
  }

  lemma PowDivides(k: nat)
    requires k <= 6
    ensures Pow2(k) <= CHUNK && Div(CHUNK, Pow2(k)) >= 1 && Times(Div(CHUNK, Pow2(k)), Pow2(k)) == CHUNK
  {
    assert Pow2(6) == 64 && Pow2(5) == 32 && Pow2(4) == 16 && Pow2(3) == 8 && Pow2(2) == 4 && Pow2(1) == 2;
  }

  lemma QuotientBound(ci: nat, p: nat)
    requires p > 0 && ci < CHUNK && Times(Div(CHUNK, p), p) == CHUNK
    ensures Div(ci, p) < Div(CHUNK, p)
  {
    var q, k := Div(ci, p), Div(CHUNK, p);
    assert ci == q * p + ci % p;
    if q >= k {
      MulLe(k, q, p);
      assert false;
    }
  }

  lemma Remainder(x: nat, p: nat) returns (m: nat)
    requires p > 0
    ensures m == x % p && m < p && x == Times(Div(x, p), p) + m
  {
    m := x % p;
  }

  lemma SumOfParts(start: nat, ci: nat, a: nat)
    requires a > 0 && start % a == 0
    ensures Times(Div(start, a) + Div(ci, a), a) + ci % a == start + ci
  {
    var m := Remainder(start, a);
    var n := Remainder(ci, a);
    Distribute(Div(start, a), Div(ci, a), a);
  }

  /** The inode's place in section 13.3.1's terms. */
  lemma NumberIsEncoded(g: Geometry, seqno: nat, r: Rec, ci: nat)
    requires Sane(g) && ChunkInGroup(g, seqno, r) && ci < CHUNK
    ensures var p := PlaceOf(g, seqno, r, ci);
            ValidPlace(g, p) && Narrow(g, p) && Encode(g, p) == Number(g, seqno, r, ci)
  {
    var a := Pow2(g.inopblog);
    PowDivides(g.inopblog);
    QuotientBound(ci, a);
    SumOfParts(r.startino, ci, a);
    var m := Remainder(ci, a);
    hide Pow2, Div, Times, Sane;
  }

  /** The bytes copied for an inode are those at the address of its number. */
  lemma InodeAddress(g: Geometry, seqno: nat, r: Rec, ci: nat)
    requires Sane(g) && ChunkInGroup(g, seqno, r) && ci < CHUNK
    ensures ChunkOffset(g, seqno, r) + Times(ci, g.inodesize) == InodeOffset(g, Number(g, seqno, r, ci))
  {
    var p, a := PlaceOf(g, seqno, r, ci), Pow2(g.inopblog);
    assert g.blocksize == a * g.inodesize && r.startino < U32;
    NumberIsEncoded(g, seqno, r, ci);
    ChunkBlock(g, seqno, r);
    var m := Remainder(ci, a);
    hide Pow2, Div, Times, Sane, Encode, Number, ChunkInGroup, ValidPlace, Narrow, DecodeRelative, InodeOffset;
    InodeOffsetIsIndex(g, p);
    Positions(Times(seqno, g.agblocks), Div(r.startino, a), Div(ci, a), m, a, g.inodesize, g.blocksize);
    PositionsOfPlace(g, seqno, r, ci);
  }

  lemma PositionsOfPlace(g: Geometry, seqno: nat, r: Rec, ci: nat)
    ensures var a := Pow2(g.inopblog);
            InodeIndex(g, PlaceOf(g, seqno, r, ci)) ==
            Times(Times(seqno, g.agblocks) + (Div(r.startino, a) + Div(ci, a)), a) + ci % a
  {
    hide Pow2, Div, Times;
  }

  lemma Positions(x: nat, s: nat, q: nat, m: nat, a: nat, size: nat, block: nat)
    requires block == a * size
    ensures Times(s, block) + Times(x, block) + Times(Times(q, a) + m, size) == Times(Times(x + (s + q), a) + m, size)
  {
    Distribute(s, x, block);
    Assoc(s + x, a, size);
    Distribute((s + x) * a, q * a + m, size);
    Distribute(s + x, q, a);
  }

  /** The first block of the chunk. */
  lemma ChunkBlock(g: Geometry, seqno: nat, r: Rec)
    requires Sane(g) && ChunkInGroup(g, seqno, r)
    ensures DecodeRelative(g, r.startino) == (Div(r.startino, Pow2(g.inopblog)), 0)
  {
    PowDivides(g.inopblog);
    var s := Div(r.startino, Pow2(g.inopblog));
    assert s < Pow2(g.agblklog);
    hide Pow2, Div;
    SmallMod(s, Pow2(g.agblklog));
  }
}
