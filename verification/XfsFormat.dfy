/**
  The XFS on-disk format: big-endian numbers and packed extent records (section 19.2 of XFS
  Algorithms & Data Structures, 3rd Edition).  For each there is the layout, a function from values
  to bits, and the decoder of the library; each is the inverse of the other.
 */
module XfsFormat {
  import opened Inodes

  type Byte = x: nat | x < 256

  const EIO: int := 5
  const EINVAL: int := 22
  /** Not errnos: the code reads or writes beyond what it has, or exceeds the stack; it is not followed any further. */
  const OUTSIDE: int := 1
  const DEEP: int := 2

  /** The size of every buffer that takes a block. */
  const BLOCK_MAX: nat := 65536

  function Min(a: nat, b: nat): nat {
    if a < b then a else b
  }

  // ----- Big-endian numbers ---------------------------------------------------------------------

  function Be16(b: seq<Byte>): nat
    requires |b| == 2
  {
    b[0] as nat * 0x100 + b[1] as nat
  }

  function Be32(b: seq<Byte>): nat
    requires |b| == 4
  {
    Be16(b[..2]) * 0x1_0000 + Be16(b[2..])
  }

  function Be64(b: seq<Byte>): nat
    requires |b| == 8
  {
    Be32(b[..4]) * 0x1_0000_0000 + Be32(b[4..])
  }

  function To16(x: nat): (b: seq<Byte>)
    requires x < 0x1_0000
    ensures |b| == 2
  {
    [x / 0x100, x % 0x100]
  }

  function To32(x: nat): (b: seq<Byte>)
    requires x < 0x1_0000_0000
    ensures |b| == 4
  {
    To16(x / 0x1_0000) + To16(x % 0x1_0000)
  }

  function To64(x: nat): (b: seq<Byte>)
    requires x < 0x1_0000_0000_0000_0000
    ensures |b| == 8
  {
    To32(x / 0x1_0000_0000) + To32(x % 0x1_0000_0000)
  }

  lemma Be16Inverts(x: nat)
    requires x < 0x1_0000
    ensures Be16(To16(x)) == x
  {
  }

  lemma Be32Inverts(x: nat)
    requires x < 0x1_0000_0000
    ensures Be32(To32(x)) == x
  {
    var b := To32(x);
    assert b[..2] == To16(x / 0x1_0000) && b[2..] == To16(x % 0x1_0000);
    Be16Inverts(x / 0x1_0000);
    Be16Inverts(x % 0x1_0000);
  }

  lemma Be64Inverts(x: nat)
    requires x < 0x1_0000_0000_0000_0000
    ensures Be64(To64(x)) == x
  {
    var b := To64(x);
    assert b[..4] == To32(x / 0x1_0000_0000) && b[4..] == To32(x % 0x1_0000_0000);
    Be32Inverts(x / 0x1_0000_0000);
    Be32Inverts(x % 0x1_0000_0000);
  }

  lemma Be64Bound(b: seq<Byte>)
    requires |b| == 8
    ensures Be64(b) < 0x1_0000_0000_0000_0000
  {
  }

  lemma To16Inverts(b: seq<Byte>)
    requires |b| == 2
    ensures Be16(b) < 0x1_0000 && To16(Be16(b)) == b
  {
  }

  lemma To32Inverts(b: seq<Byte>)
    requires |b| == 4
    ensures Be32(b) < 0x1_0000_0000 && To32(Be32(b)) == b
  {
    To16Inverts(b[..2]);
    To16Inverts(b[2..]);
    var high, low := Be16(b[..2]), Be16(b[2..]);
    assert Be32(b) / 0x1_0000 == high && Be32(b) % 0x1_0000 == low;
    assert b == b[..2] + b[2..];
  }

  lemma To64Inverts(b: seq<Byte>)
    requires |b| == 8
    ensures Be64(b) < 0x1_0000_0000_0000_0000 && To64(Be64(b)) == b
  {
    To32Inverts(b[..4]);
    To32Inverts(b[4..]);
    var high, low := Be32(b[..4]), Be32(b[4..]);
    assert Be64(b) / 0x1_0000_0000 == high && Be64(b) % 0x1_0000_0000 == low;
    assert b == b[..4] + b[4..];
  }

  /** Bytes of a buffer that was cleared and is longer than what was read into it. */
  function Padded(b: seq<Byte>, at: nat, n: nat): (r: seq<Byte>)
    ensures |r| == n
  {
    seq(n, (i: int) requires 0 <= i < n => if at + i < |b| then b[at + i] else 0)
  }

  lemma PaddedInside(b: seq<Byte>, at: nat, n: nat)
    requires at + n <= |b|
    ensures Padded(b, at, n) == b[at..at + n]
  {
  }

  // ----- Extent records -------------------------------------------------------------------------

  const TWO63: nat := 0x8000_0000_0000_0000
  const TWO64: nat := 0x1_0000_0000_0000_0000

  /** The extents that a record can hold: 54 bits of file offset, 52 of block number, 21 of length. */
  predicate Packable(e: Extent) {
    && e.startOffset < 0x40_0000_0000_0000 && e.startBlock < 0x10_0000_0000_0000 && e.nblocks < 0x20_0000
    && e.flag < 2
  }

  /** The two words of a record, most significant first. */
  function Pack(e: Extent): (w: (nat, nat))
    requires Packable(e)
    ensures w.0 < TWO64 && w.1 < TWO64
  {
    (e.flag * TWO63 + e.startOffset * 0x200 + e.startBlock / 0x800_0000_0000,
     e.startBlock % 0x800_0000_0000 * 0x20_0000 + e.nblocks)
  }

  /** `decode_xfs_extent`: 64-bit shifts, masks and an or of disjoint bits. */
  function Unpack(l0: nat, l1: nat): Extent
    requires l0 < TWO64 && l1 < TWO64
  {
    Extent(l0 * 2 % TWO64 / 0x400,
           l0 % 0x200 * 0x800_0000_0000 % TWO64 + l1 / 0x20_0000,
           l1 % 0x20_0000,
           if l0 / TWO63 != 0 then 1 else 0)
  }

  lemma FirstWord(flag: nat, offset: nat, high: nat)
    requires flag < 2 && offset < 0x40_0000_0000_0000 && high < 0x200
    ensures var l0 := flag * TWO63 + offset * 0x200 + high;
            l0 < TWO64 && l0 % 0x200 == high && l0 * 2 % TWO64 / 0x400 == offset && l0 / TWO63 == flag
  {
    var l0 := flag * TWO63 + offset * 0x200 + high;
    var kept := offset * 0x400 + high * 2;
    assert l0 * 2 == flag * TWO64 + kept && kept < TWO64;
    assert l0 * 2 % TWO64 == kept by {
      if flag == 0 {
      } else {
        assert l0 * 2 == TWO64 + kept;
      }
    }
    assert kept / 0x400 == offset;
  }

  lemma FirstWordParts(l0: nat)
    requires l0 < TWO64
    ensures var flag, offset, high := l0 / TWO63, l0 * 2 % TWO64 / 0x400, l0 % 0x200;
            flag < 2 && offset < 0x40_0000_0000_0000 && l0 == flag * TWO63 + offset * 0x200 + high
  {
  }

  lemma BlockParts(high: nat, low: nat)
    requires high < 0x200 && low < 0x800_0000_0000
    ensures var block := high * 0x800_0000_0000 % TWO64 + low;
            && block == high * 0x800_0000_0000 + low && block < 0x10_0000_0000_0000
            && block / 0x800_0000_0000 == high && block % 0x800_0000_0000 == low
  {
  }

  lemma UnpackInvertsPack(e: Extent)
    requires Packable(e)
    ensures Unpack(Pack(e).0, Pack(e).1) == e
  {
    var high, low := e.startBlock / 0x800_0000_0000, e.startBlock % 0x800_0000_0000;
    FirstWord(e.flag, e.startOffset, high);
    BlockParts(high, low);
  }

  /** Every 128-bit record is the layout of what it decodes to. */
  lemma PackInvertsUnpack(l0: nat, l1: nat)
    requires l0 < TWO64 && l1 < TWO64
    ensures Packable(Unpack(l0, l1)) && Pack(Unpack(l0, l1)) == (l0, l1)
  {
    FirstWordParts(l0);
    BlockParts(l0 % 0x200, l1 / 0x20_0000);
    var e := Unpack(l0, l1);
    assert e.startBlock / 0x800_0000_0000 == l0 % 0x200 && e.startBlock % 0x800_0000_0000 == l1 / 0x20_0000;
    assert e.startOffset == l0 * 2 % TWO64 / 0x400 && e.nblocks == l1 % 0x20_0000 && e.flag == l0 / TWO63;
  }

  function RecordBytes(e: Extent): (b: seq<Byte>)
    requires Packable(e)
    ensures |b| == 16
  {
    To64(Pack(e).0) + To64(Pack(e).1)
  }

  /** A record read from 16 bytes. */
  function ReadRecord(b: seq<Byte>): Extent
    requires |b| == 16
  {
    Be64Bound(b[..8]);
    Be64Bound(b[8..]);
    Unpack(Be64(b[..8]), Be64(b[8..]))
  }

  lemma ReadRecordInverts(e: Extent)
    requires Packable(e)
    ensures ReadRecord(RecordBytes(e)) == e
  {
    var b := RecordBytes(e);
    assert b[..8] == To64(Pack(e).0) && b[8..] == To64(Pack(e).1);
    Be64Inverts(Pack(e).0);
    Be64Inverts(Pack(e).1);
    UnpackInvertsPack(e);
  }

  /** Every record re-packs to the 16 bytes it was read from. */
  lemma RecordBytesInverts(b: seq<Byte>)
    requires |b| == 16
    ensures Packable(ReadRecord(b)) && RecordBytes(ReadRecord(b)) == b
  {
    var l0, l1 := Be64(b[..8]), Be64(b[8..]);
    To64Inverts(b[..8]);
    To64Inverts(b[8..]);
    PackInvertsUnpack(l0, l1);
    assert b == b[..8] + b[8..];
  }
}
