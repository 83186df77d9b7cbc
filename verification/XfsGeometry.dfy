/**
  XFS addresses: filesystem block numbers, inode numbers (section 13.3.1 of XFS Algorithms & Data
  Structures, 3rd Edition) and the device bytes they stand for.  Shifts and masks are written as
  division and remainder by powers of two; every 64-bit and 32-bit truncation is explicit.
 */
module XfsGeometry {
  import opened Probing
  import opened Inodes
  import opened XfsFormat

  const U32: nat := 0x1_0000_0000
  const U64: nat := 0x1_0000_0000_0000_0000
  const EXTENT_NOADDR: nat := 4
  const ENODATA: nat := 61

  /** `mdts` and `lba` are the device's: the most bytes that one read can ask for, and the size of its blocks. */
  datatype Geometry = Geometry(
    agcount: nat, agblocks: nat, agblklog: nat, blocksize: nat, inopblog: nat, inodesize: nat, mdts: nat, lba: nat)

  /** An allocation group fits its number's bits, inodes fill a block, and the device fits 64 bits. */
  predicate Sane(g: Geometry) {
    && g.agblklog <= 30 && 0 < g.agblocks <= Pow2(g.agblklog)
    && 0 < g.blocksize && 0 < g.inodesize && g.inopblog < 32 && g.blocksize == Pow2(g.inopblog) * g.inodesize
    && g.agcount <= U32 && g.agcount * g.agblocks * g.blocksize < U64
  }

  // ----- Reading the device ---------------------------------------------------------------------

  predicate Multiple(x: nat, unit: nat) {
    unit > 0 && x % unit == 0
  }

  /** How `dev_read` fails. */
  function ReadErr(g: Geometry, ofz: nat, n: nat): int {
    if n > g.mdts || !Multiple(n, g.lba) || !Multiple(ofz, g.lba) then -EINVAL else -EIO
  }

  /** `dev_read` of `n` bytes from `ofz` on, from a device of `size` bytes. */
  function DevErr(g: Geometry, size: nat, ofz: nat, n: nat): (err: int)
    ensures err == 0 ==> ofz + n <= size
  {
    if ReadErr(g, ofz, n) == -EINVAL || ofz + n > size then ReadErr(g, ofz, n) else 0
  }

  // ----- Arithmetic -----------------------------------------------------------------------------

  lemma DivMod(q: nat, r: nat, m: nat)
    requires r < m
    ensures (q * m + r) / m == q && (q * m + r) % m == r
  {
    var x := q * m + r;
    assert x == (x / m) * m + x % m;
    var d := q - x / m;
    assert d * m == x % m - r;
    if d >= 1 {
      MulLe(1, d, m);
    } else if d <= -1 {
      MulLe(d, -1, m);
    }
  }

  lemma MulLe(a: int, b: int, m: nat)
    requires a <= b
    ensures a * m <= b * m
  {
    assert (b - a) * m >= 0;
    assert (b - a) * m == b * m - a * m;
  }

  lemma Distribute(a: int, b: int, m: int)
    ensures (a + b) * m == a * m + b * m
  {
  }

  lemma Assoc(a: int, b: int, c: int)
    ensures a * b * c == a * (b * c)
  {
  }

  lemma {:induction false} PowAdd(a: nat, b: nat)
    ensures Pow2(a + b) == Pow2(a) * Pow2(b)
  {
    if a > 0 {
      PowAdd(a - 1, b);
      Assoc(2, Pow2(a - 1), Pow2(b));
      assert Pow2(a) == 2 * Pow2(a - 1) && Pow2(a + b) == 2 * Pow2(a - 1 + b);
    }
  }

  lemma Pow32()
    ensures Pow2(32) == U32
  {
    assert Pow2(8) == 256;
    PowAdd(8, 8);
    PowAdd(16, 16);
  }

  // ----- Filesystem blocks ----------------------------------------------------------------------

  function Div(x: nat, m: nat): nat
    requires m > 0
  {
    x / m
  }

  function Ag(g: Geometry, fsbno: nat): nat {
    Div(fsbno, Pow2(g.agblklog))
  }

  function Bno(g: Geometry, fsbno: nat): nat {
    fsbno % Pow2(g.agblklog)
  }

  function Times(a: nat, b: nat): nat {
    a * b
  }

  /** `xal_fsbno_offset` for the XFS backend. */
  function FsbnoOffset(g: Geometry, fsbno: nat): nat {
    Times((Times(Ag(g, fsbno), g.agblocks) % U64 + Bno(g, fsbno)) % U64, g.blocksize) % U64
  }

  predicate ValidBlock(g: Geometry, fsbno: nat) {
    Ag(g, fsbno) < g.agcount && Bno(g, fsbno) < g.agblocks
  }

  /** The position of a block on the device, counted in blocks. */
  function Position(g: Geometry, fsbno: nat): nat {
    Times(Ag(g, fsbno), g.agblocks) + Bno(g, fsbno)
  }

  lemma PositionBound(g: Geometry, fsbno: nat)
    requires Sane(g) && ValidBlock(g, fsbno)
    ensures Position(g, fsbno) + 1 <= g.agcount * g.agblocks
    ensures Position(g, fsbno) * g.blocksize + g.blocksize < U64
    ensures Position(g, fsbno) < U64
  {
    hide Ag, Bno, Pow2;
    var ag, p := Ag(g, fsbno), Position(g, fsbno);
    MulLe(ag + 1, g.agcount, g.agblocks);
    Distribute(ag, 1, g.agblocks);
    MulLe(p + 1, g.agcount * g.agblocks, g.blocksize);
    Distribute(p, 1, g.blocksize);
    MulLe(1, g.blocksize, p);
  }

  /** On valid blocks nothing wraps. */
  lemma OffsetIsPosition(g: Geometry, fsbno: nat)
    requires Sane(g) && ValidBlock(g, fsbno)
    ensures FsbnoOffset(g, fsbno) == Position(g, fsbno) * g.blocksize
  {
    PositionBound(g, fsbno);
    var t, p := Times(Ag(g, fsbno), g.agblocks), Position(g, fsbno);
    assert p == t + Bno(g, fsbno) && Times(p, g.blocksize) == p * g.blocksize;
    assert FsbnoOffset(g, fsbno) == Times((t % U64 + Bno(g, fsbno)) % U64, g.blocksize) % U64;
    hide Position, Pow2, Ag, Bno, Times, FsbnoOffset, Sane;
    SmallMod(t, U64);
    SmallMod(p, U64);
    SmallMod(Times(p, g.blocksize), U64);
  }

  lemma SmallMod(x: nat, m: nat)
    requires x < m
    ensures x % m == x
  {
  }

  lemma PositionIncreasing(g: Geometry, a: nat, b: nat)
    requires Sane(g) && ValidBlock(g, a) && ValidBlock(g, b) && a < b
    ensures Position(g, a) < Position(g, b)
  {
    var m := Pow2(g.agblklog);
    hide Pow2, Sane;
    var qa, qb := Ag(g, a), Ag(g, b);
    assert a == qa * m + a % m && b == qb * m + b % m;
    if qa == qb {
      assert a % m < b % m;
    } else if qa < qb {
      MulLe(qa + 1, qb, g.agblocks);
      Distribute(qa, 1, g.agblocks);
    } else {
      MulLe(qb + 1, qa, m);
      Distribute(qb, 1, m);
      assert false;
    }
  }

  /** Block offsets are aligned, and increase by at least a block: the byte ranges of distinct blocks are disjoint. */
  lemma OffsetsIncrease(g: Geometry, a: nat, b: nat)
    requires Sane(g) && ValidBlock(g, a) && ValidBlock(g, b) && a < b
    ensures FsbnoOffset(g, a) + g.blocksize <= FsbnoOffset(g, b)
    ensures FsbnoOffset(g, a) % g.blocksize == 0
    ensures FsbnoOffset(g, b) + g.blocksize <= g.agcount * g.agblocks * g.blocksize
  {
    OffsetIsPosition(g, a);
    OffsetIsPosition(g, b);
    PositionIncreasing(g, a, b);
    PositionBound(g, b);
    var pa, pb := Position(g, a), Position(g, b);
    assert g.blocksize > 0;
    hide *;
    MulLe(pa + 1, pb, g.blocksize);
    Distribute(pa, 1, g.blocksize);
    DivMod(pa, 0, g.blocksize);
    MulLe(pb + 1, g.agcount * g.agblocks, g.blocksize);
    Distribute(pb, 1, g.blocksize);
  }

  // ----- Extents in bytes -----------------------------------------------------------------------

  datatype Bytes = Bytes(startOffset: nat, startBlock: nat, size: nat) | NoAddress(error: nat)

  predicate HasAddress(e: Extent) {
    (e.flag / EXTENT_NOADDR) % 2 == 0
  }

  /** `xal_extent_in_bytes`. */
  function ExtentInBytes(g: Geometry, e: Extent): Bytes {
    if !HasAddress(e) then NoAddress(ENODATA)
    else Bytes((e.startOffset * g.blocksize) % U64, FsbnoOffset(g, e.startBlock), (e.nblocks * g.blocksize) % U64)
  }

  /** All of the extent lies in the allocation group of its first block. */
  predicate InOneGroup(g: Geometry, e: Extent) {
    Ag(g, e.startBlock) < g.agcount && Bno(g, e.startBlock) + e.nblocks <= g.agblocks
  }

  lemma BlockOfExtent(g: Geometry, e: Extent, f: nat)
    requires Sane(g) && InOneGroup(g, e) && e.startBlock <= f < e.startBlock + e.nblocks
    ensures ValidBlock(g, f) && Position(g, f) == Position(g, e.startBlock) + (f - e.startBlock)
  {
    var m := Pow2(g.agblklog);
    hide Pow2, Times;
    var q, r := e.startBlock / m, e.startBlock % m;
    assert e.startBlock == q * m + r;
    DivMod(q, r + (f - e.startBlock), m);
    assert f == q * m + (r + (f - e.startBlock));
  }

  predicate InRange(x: nat, start: nat, size: nat) {
    start <= x < start + size
  }

  /** Byte `x` belongs to block `fsbno`. */
  predicate InBlock(g: Geometry, x: nat, fsbno: nat) {
    InRange(x, FsbnoOffset(g, fsbno), g.blocksize)
  }

  lemma BlockBytes(g: Geometry, e: Extent, x: nat, f: nat)
    requires Sane(g) && InOneGroup(g, e) && e.startBlock <= f < e.startBlock + e.nblocks
    ensures InBlock(g, x, f) <==> InRange(x, Times(Position(g, e.startBlock) + (f - e.startBlock), g.blocksize), g.blocksize)
  {
    BlockOfExtent(g, e, f);
    OffsetIsPosition(g, f);
    hide Position, Sane, FsbnoOffset;
  }

  lemma ExtentSize(g: Geometry, e: Extent)
    requires Sane(g) && InOneGroup(g, e) && e.nblocks > 0 && HasAddress(e)
    ensures ExtentInBytes(g, e).startBlock == Times(Position(g, e.startBlock), g.blocksize)
    ensures ExtentInBytes(g, e).size == Times(e.nblocks, g.blocksize)
  {
    var last := e.startBlock + e.nblocks - 1;
    BlockOfExtent(g, e, e.startBlock);
    BlockOfExtent(g, e, last);
    OffsetIsPosition(g, e.startBlock);
    PositionBound(g, last);
    hide Position, Sane, FsbnoOffset, InOneGroup, ValidBlock, HasAddress;
    ByteCount(Position(g, e.startBlock), e.nblocks, g.blocksize);
  }

  /** The converted extent is exactly the bytes of its blocks. */
  lemma BytesAreBlocks(g: Geometry, e: Extent, x: nat)
    requires Sane(g) && InOneGroup(g, e) && e.nblocks > 0 && HasAddress(e)
    ensures var b := ExtentInBytes(g, e);
            InRange(x, b.startBlock, b.size) <==>
            exists f: nat :: e.startBlock <= f < e.startBlock + e.nblocks && InBlock(g, x, f)
  {
    var p, n, size, first := Position(g, e.startBlock), e.nblocks, g.blocksize, e.startBlock;
    ExtentSize(g, e);
    assert size > 0;
    forall f: nat | first <= f < first + n
      ensures InBlock(g, x, f) <==> InRange(x, Times(p + (f - first), size), size)
    {
      BlockBytes(g, e, x, f);
    }
    var b := ExtentInBytes(g, e);
    hide *;
    if InRange(x, b.startBlock, b.size) {
      var k := WhichBlock(p, n, size, x);
      assert InBlock(g, x, first + k);
    }
    forall f: nat | first <= f < first + n && InBlock(g, x, f) ensures InRange(x, b.startBlock, b.size) {
      OutsideBlock(p, n, size, x, f - first);
    }
  }

  lemma ByteCount(p: nat, n: nat, size: nat)
    requires n > 0 && (p + n - 1) * size + size < U64
    ensures (n * size) % U64 == Times(n, size)
  {
    Distribute(p + n - 1, 1, size);
    MulLe(n, p + n, size);
    SmallMod(n * size, U64);
  }

  lemma WhichBlock(p: nat, n: nat, size: nat, x: nat) returns (k: nat)
    requires size > 0 && InRange(x, Times(p, size), Times(n, size))
    ensures k < n && InRange(x, Times(p + k, size), size)
  {
    var y := x - p * size;
    k := y / size;
    assert y == k * size + y % size;
    if k >= n {
      MulLe(n, k, size);
      assert false;
    }
    Distribute(p, k, size);
  }

  lemma OutsideBlock(p: nat, n: nat, size: nat, x: nat, k: nat)
    requires k < n && InRange(x, Times(p + k, size), size)
    ensures InRange(x, Times(p, size), Times(n, size))
  {
    Distribute(p, k, size);
    MulLe(k + 1, n, size);
    Distribute(k, 1, size);
    MulLe(0, k, size);
  }

  // ----- Inode numbers --------------------------------------------------------------------------

  /** An allocation group, a block in it and an inode in that block. */
  datatype Place = Place(seqno: nat, agbno: nat, agbino: nat)

  predicate ValidPlace(g: Geometry, p: Place) {
    p.seqno < g.agcount && p.agbno < g.agblocks && p.agbino < Pow2(g.inopblog)
  }

  /** The part of an inode number that is relative to the allocation group. */
  function Relative(g: Geometry, p: Place): nat {
    Times(p.agbno, Pow2(g.inopblog)) + p.agbino
  }

  /** The inode number of a place, as section 13.3.1 lays it out. */
  function Encode(g: Geometry, p: Place): nat {
    Times(p.seqno, Pow2(g.inopblog + g.agblklog)) + Relative(g, p)
  }

  /** `xal_ino_decode_relative`, whose parameter is 32 bits wide: block, then inode in the block. */
  function DecodeRelative(g: Geometry, ino: nat): (nat, nat)
    requires ino < U32
  {
    (Div(ino, Pow2(g.inopblog)) % Pow2(g.agblklog), ino % Pow2(g.inopblog))
  }

  /** `xal_ino_decode_absolute`. */
  function Decode(g: Geometry, ino: nat): Place {
    var relative := DecodeRelative(g, ino % U32);
    Place(Div(ino, Pow2(g.inopblog + g.agblklog)) % U32, relative.0, relative.1)
  }

  /** `xal_ino_decode_absolute_offset`. */
  function InodeOffset(g: Geometry, ino: nat): nat {
    var p := Decode(g, ino);
    (Times((Times(p.seqno, g.agblocks) + p.agbno) % U64, g.blocksize) % U64 + Times(p.agbino, g.inodesize)) % U64
  }

  /** The inode numbers for which the 32-bit parameter keeps the relative part. */
  predicate Narrow(g: Geometry, p: Place) {
    Relative(g, p) < U32
  }

  lemma Below(n: nat, i: nat, a: nat, b: nat)
    requires n < b && i < a
    ensures Times(n, a) + i < a * b
  {
    MulLe(n + 1, b, a);
    Distribute(n, 1, a);
  }

  lemma RelativeBound(g: Geometry, p: Place)
    requires Sane(g) && ValidPlace(g, p)
    ensures Relative(g, p) < Pow2(g.inopblog + g.agblklog)
  {
    PowAdd(g.inopblog, g.agblklog);
    var a, b := Pow2(g.inopblog), Pow2(g.agblklog);
    assert p.agbno < b && p.agbino < a;
    hide Sane, Times, Pow2;
    Below(p.agbno, p.agbino, a, b);
  }

  lemma ModMultiple(q: nat, r: nat, m: nat)
    requires m > 0
    ensures (q * m + r) % m == r % m
  {
    var k := r / m;
    assert r == k * m + r % m;
    Distribute(q, k, m);
    DivMod(q + k, r % m, m);
  }

  /** The low bits of a number, when they cover all of the relative part. */
  lemma LowBits(s: nat, r: nat, m: nat, k: nat)
    requires r < m && k > 0
    ensures (s * m + r) % (m * k) == (s % k) * m + r
  {
    var q, c := s / k, s % k;
    assert s == q * k + c;
    calc {
      s * m;
      { Distribute(q * k, c, m); }
      q * k * m + c * m;
      { Assoc(q, k, m); }
      q * (m * k) + c * m;
    }
    MulLe(c + 1, k, m);
    Distribute(c, 1, m);
    DivMod(q, c * m + r, m * k);
  }

  lemma Fields(c: nat, n: nat, i: nat, a: nat, b: nat)
    requires i < a && n < b
    ensures var x := Times(c, a * b) + (Times(n, a) + i); x / a % b == n && x % a == i
  {
    var cb := c * b;
    assert c * (a * b) == cb * a by {
      Assoc(c, b, a);
    }
    Distribute(cb, n, a);
    DivMod(cb + n, i, a);
    DivMod(c, n, b);
  }

  /** A relative part that fits is decoded, whatever is left of the group number above it. */
  lemma DecodeFits(g: Geometry, p: Place, c: nat)
    requires Sane(g) && ValidPlace(g, p)
    ensures var x := Times(c, Pow2(g.inopblog + g.agblklog)) + Relative(g, p);
            x / Pow2(g.inopblog) % Pow2(g.agblklog) == p.agbno && x % Pow2(g.inopblog) == p.agbino
  {
    PowAdd(g.inopblog, g.agblklog);
    Fields(c, p.agbno, p.agbino, Pow2(g.inopblog), Pow2(g.agblklog));
    hide Pow2, Times;
  }

  lemma SeqnoDecodes(g: Geometry, p: Place)
    requires Sane(g) && ValidPlace(g, p)
    ensures Encode(g, p) / Pow2(g.inopblog + g.agblklog) % U32 == p.seqno
  {
    RelativeBound(g, p);
    DivMod(p.seqno, Relative(g, p), Pow2(g.inopblog + g.agblklog));
    SmallMod(p.seqno, U32);
  }

  lemma {:induction false} PowMono(a: nat, b: nat)
    requires a <= b
    ensures Pow2(a) <= Pow2(b)
  {
    PowAdd(a, b - a);
    MulLe(1, Pow2(b - a), Pow2(a));
  }

  lemma Truncated(s: nat, k: nat, r: nat)
    ensures (Times(s, U32 * k) + r) % U32 == r % U32
  {
    assert s * (U32 * k) == (s * k) * U32 by {
      Assoc(s, k, U32);
    }
    ModMultiple(s * k, r, U32);
  }

  /** A number truncated to 32 bits whose relative part does not fit loses the top of its block. */
  lemma DecodeLoses(g: Geometry, p: Place)
    requires Sane(g) && ValidPlace(g, p) && g.inopblog + g.agblklog > 32
    ensures Encode(g, p) % U32 == Relative(g, p) % U32
    ensures Relative(g, p) >= U32 ==> Decode(g, Encode(g, p)).agbno != p.agbno
  {
    var extra := g.inopblog + g.agblklog - 32;
    PowAdd(32, extra);
    Pow32();
    Truncated(p.seqno, Pow2(extra), Relative(g, p));
    PowAdd(g.inopblog, 32 - g.inopblog);
    var a, q, b := Pow2(g.inopblog), Pow2(32 - g.inopblog), Pow2(g.agblklog);
    assert a * q == U32;
    hide Pow2;
    if Relative(g, p) >= U32 {
      assert Relative(g, p) == p.agbno * a + p.agbino;
      LostBlock(p.agbno, p.agbino, a, q, b);
    }
  }

  lemma LostBlock(n: nat, i: nat, a: nat, q: nat, b: nat)
    requires i < a && n < b && a * q == U32 && n * a + i >= U32
    ensures (n * a + i) % U32 / a % b != n
  {
    var r := n * a + i;
    var t := r / U32;
    var low := r % U32;
    assert r == t * U32 + low;
    assert t >= 1;
    assert t * U32 == (t * q) * a by {
      Assoc(t, q, a);
    }
    var m := n - t * q;
    assert low == m * a + i by {
      assert m * a == n * a - (t * q) * a;
    }
    if m < 0 {
      MulLe(m, -1, a);
      assert false;
    }
    DivMod(m, i, a);
    MulLe(1, t, q);
    assert q >= 1;
    SmallMod(m, b);
  }

  /**
    Decoding inverts the layout exactly for the inode numbers whose relative part fits 32 bits;
    above that `xal_ino_decode_relative` drops bits of the block number.
   */
  lemma DecodeInvertsEncode(g: Geometry, p: Place)
    requires Sane(g) && ValidPlace(g, p)
    ensures Decode(g, Encode(g, p)) == p <==> Narrow(g, p)
  {
    SeqnoDecodes(g, p);
    if g.inopblog + g.agblklog <= 32 {
      RelativeBound(g, p);
      PowMono(g.inopblog + g.agblklog, 32);
      Pow32();
      PowAdd(g.inopblog + g.agblklog, 32 - (g.inopblog + g.agblklog));
      var m, k := Pow2(g.inopblog + g.agblklog), Pow2(32 - (g.inopblog + g.agblklog));
      LowBits(p.seqno, Relative(g, p), m, k);
      DecodeFits(g, p, p.seqno % k);
    } else {
      DecodeLoses(g, p);
      DecodeFits(g, p, 0);
      hide Pow2, Sane, ValidPlace, Relative;
      if Relative(g, p) < U32 {
        SmallMod(Relative(g, p), U32);
      }
    }
  }

  /** Every inode number of a group is narrow when the group holds at most 2^32 inodes. */
  lemma SmallGroupsAreNarrow(g: Geometry, p: Place)
    requires Sane(g) && ValidPlace(g, p) && g.agblocks * g.blocksize <= U32 * g.inodesize
    ensures Narrow(g, p)
  {
    var a := Pow2(g.inopblog);
    assert p.agbno < g.agblocks && p.agbino < a && Relative(g, p) == p.agbno * a + p.agbino;
    assert g.blocksize == a * g.inodesize && g.inodesize > 0;
    hide *;
    MulLe(p.agbno + 1, g.agblocks, a);
    Distribute(p.agbno, 1, a);
    Assoc(g.agblocks, a, g.inodesize);
    if g.agblocks * a > U32 {
      MulLe(U32 + 1, g.agblocks * a, g.inodesize);
      Distribute(U32, 1, g.inodesize);
      assert false;
    }
  }

  const WIDE: Geometry := Geometry(1, 0x4000_0000, 30, 4096, 3, 512, 131072, 512)

  /** With 2^33 inodes in a group, the inode at block 2^29 is read from block 0. */
  lemma WideInodeMisread()
    ensures Sane(WIDE) && ValidPlace(WIDE, Place(0, 0x2000_0000, 0))
    ensures Decode(WIDE, Encode(WIDE, Place(0, 0x2000_0000, 0))) == Place(0, 0, 0)
  {
    Pow32();
    PowAdd(8, 8);
    PowAdd(16, 14);
    PowAdd(8, 6);
    assert Pow2(8) == 256 && Pow2(6) == 64 && Pow2(3) == 8;
    assert Pow2(16) == 65536 && Pow2(14) == 16384 && Pow2(30) == 0x4000_0000;
    PowAdd(3, 30);
    assert Pow2(33) == 8 * 0x4000_0000;
  }

  /** The position of an inode on the device, counted in inodes. */
  function InodeIndex(g: Geometry, p: Place): nat {
    Times(Times(p.seqno, g.agblocks) + p.agbno, Pow2(g.inopblog)) + p.agbino
  }

  lemma IndexBound(g: Geometry, p: Place)
    requires Sane(g) && ValidPlace(g, p)
    ensures var block := Times(p.seqno, g.agblocks) + p.agbno;
            && block < U64 && Times(block, g.blocksize) < U64
            && Times(block, g.blocksize) + Times(p.agbino, g.inodesize) == Times(InodeIndex(g, p), g.inodesize)
            && Times(InodeIndex(g, p), g.inodesize) + g.inodesize <= g.agcount * g.agblocks * g.blocksize
  {
    var block := Times(p.seqno, g.agblocks) + p.agbno;
    var a := Pow2(g.inopblog);
    assert block == p.seqno * g.agblocks + p.agbno && InodeIndex(g, p) == block * a + p.agbino;
    assert g.blocksize == a * g.inodesize && p.agbino < a && 0 < g.blocksize && g.agcount * g.agblocks * g.blocksize < U64;
    hide Pow2, InodeIndex, Sane;
    MulLe(p.seqno + 1, g.agcount, g.agblocks);
    Distribute(p.seqno, 1, g.agblocks);
    MulLe(block + 1, g.agcount * g.agblocks, g.blocksize);
    Distribute(block, 1, g.blocksize);
    MulLe(1, g.blocksize, block);
    Assoc(block, a, g.inodesize);
    Distribute(block * a, p.agbino, g.inodesize);
    MulLe(p.agbino + 1, a, g.inodesize);
    Distribute(p.agbino, 1, g.inodesize);
  }

  lemma InodeOffsetIsIndex(g: Geometry, p: Place)
    requires Sane(g) && ValidPlace(g, p) && Narrow(g, p)
    ensures InodeOffset(g, Encode(g, p)) == Times(InodeIndex(g, p), g.inodesize)
  {
    DecodeInvertsEncode(g, p);
    IndexBound(g, p);
    var block := Times(p.seqno, g.agblocks) + p.agbno;
    hide Pow2, Sane, Encode, Decode, Times, InodeIndex;
    SmallMod(block, U64);
    SmallMod(Times(block, g.blocksize), U64);
    SmallMod(Times(InodeIndex(g, p), g.inodesize), U64);
  }

  lemma IndexInjective(g: Geometry, p: Place, q: Place)
    requires Sane(g) && ValidPlace(g, p) && ValidPlace(g, q) && InodeIndex(g, p) == InodeIndex(g, q)
    ensures p == q
  {
    var a := Pow2(g.inopblog);
    var bp, bq := Times(p.seqno, g.agblocks) + p.agbno, Times(q.seqno, g.agblocks) + q.agbno;
    DivMod(bp, p.agbino, a);
    DivMod(bq, q.agbino, a);
    DivMod(p.seqno, p.agbno, g.agblocks);
    DivMod(q.seqno, q.agbno, g.agblocks);
  }

  /** Distinct narrow inode numbers occupy disjoint bytes of the device. */
  lemma InodesDisjoint(g: Geometry, p: Place, q: Place, x: nat)
    requires Sane(g) && ValidPlace(g, p) && ValidPlace(g, q) && Narrow(g, p) && Narrow(g, q) && p != q
    ensures !(InRange(x, InodeOffset(g, Encode(g, p)), g.inodesize) && InRange(x, InodeOffset(g, Encode(g, q)), g.inodesize))
  {
    InodeOffsetIsIndex(g, p);
    InodeOffsetIsIndex(g, q);
    if InodeIndex(g, p) == InodeIndex(g, q) {
      IndexInjective(g, p, q);
    }
    var i, j := InodeIndex(g, p), InodeIndex(g, q);
    hide *;
    if i < j {
      Apart(i, j, g.inodesize);
    } else {
      Apart(j, i, g.inodesize);
    }
  }

  lemma Apart(i: nat, j: nat, size: nat)
    requires i < j
    ensures Times(i, size) + size <= Times(j, size)
  {
    MulLe(i + 1, j, size);
    Distribute(i, 1, size);
  }
}
