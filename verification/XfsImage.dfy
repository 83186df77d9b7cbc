/**
  From the bytes of a device to the index.  `DiskOf` puts the decoders of inodes, directory entries,
  extent records and B+trees together; `Holds` says, in terms of the layouts of the format alone, that
  the device holds a tree.  A device that holds a tree is indexed as that tree.
 */
module XfsImage {
  import opened Names
  import opened PoolMemory
  import opened Inodes
  import opened XfsFormat
  import opened XfsGeometry
  import opened XfsTree
  import opened XfsIndex
  import B = XfsFileBtree
  import D = XfsDirectory
  import S = Sorting
  import opened XfsInodeChunks
  import opened XfsRetrieval
  import opened XfsRetriever

  const CORE: nat := B.CORE
  const FMT_LOCAL: nat := 1
  const FMT_EXTENTS: nat := 2
  const FMT_BTREE: nat := 3
  const BLOCK_MAGIC: nat := 0x5844_4233
  const DATA_MAGIC: nat := 0x5844_4433

  /**
    A device, the inodes that were retrieved from it by number, the room on the stack, and what an
    unset variable happens to hold.
   */
  datatype Image = Image(
    g: Geometry,
    dirsize: nat,
    img: seq<Byte>,
    dinodes: map<nat, seq<Byte>>,
    frames: nat,
    junk: int)

  predicate Usable(im: Image) {
    && B.HEADER <= im.g.blocksize <= BLOCK_MAX && im.g.blocksize <= im.dirsize <= BLOCK_MAX
    && (forall n :: n in im.dinodes ==> |im.dinodes[n]| >= CORE + 16)
  }

  /** The blocks that can be read. */
  function Blocks(im: Image): (dev: B.Device)
    requires Usable(im)
    ensures B.Sized(dev, im.g.blocksize)
  {
    map ofz: nat | ofz <= |im.img| && Readable(im.img, im.g, ofz, im.g.blocksize) :: im.img[ofz..ofz + im.g.blocksize]
  }

  // ----- What the code makes of the bytes -------------------------------------------------------

  function Text(b: seq<Byte>): (s: string)
    ensures |s| == |b|
  {
    seq(|b|, i requires 0 <= i < |b| => b[i] as char)
  }

  function DentryOf(e: D.Entry): Inode {
    Inode(e.ino, 0, Span(0, 0), e.ftype, Text(e.name), |e.name|, 0)
  }

  function DentriesOf(es: seq<D.Entry>): (r: seq<Inode>)
    ensures |r| == |es|
  {
    seq(|es|, i requires 0 <= i < |es| => DentryOf(es[i]))
  }

  /** `process_dinode_dir_extents_dblock` */
  function BlockAtFsbno(im: Image, fsbno: nat): Block
    requires Usable(im)
  {
    var ofz := FsbnoOffset(im.g, fsbno);
    if DevErr(im.g, |im.img|, ofz, im.dirsize) != 0 then Failed(DevErr(im.g, |im.img|, ofz, im.dirsize))
    else
      var b := im.img[ofz..ofz + im.dirsize];
      if Be32(b[..4]) != BLOCK_MAGIC && Be32(b[..4]) != DATA_MAGIC then Foreign
      else
        var found := D.Scan(b, D.DATA_HEADER);
        if found.None? then Failed(OUTSIDE) else Data(DentriesOf(found.value))
  }

  /** The first block of each directory block of an extent, from its `k`-th block on. */
  function Addresses(im: Image, e: Extent, k: nat): seq<nat>
    requires Usable(im)
    decreases if k < e.nblocks then e.nblocks - k else 0
  {
    if k >= e.nblocks then [] else [e.startBlock + k] + Addresses(im, e, k + Stride(im))
  }

  /** Blocks to a directory block. */
  function Stride(im: Image): (n: nat)
    requires Usable(im)
    ensures n > 0
  {
    assert im.dirsize / im.g.blocksize >= 1;
    im.dirsize / im.g.blocksize
  }

  /** The directory blocks of the extents that hold the first `nbytes` bytes. */
  function DirAddresses(im: Image, exts: seq<Extent>, nbytes: int): seq<nat>
    requires Usable(im)
  {
    if exts == [] || nbytes <= 0 then []
    else Addresses(im, exts[0], 0) + DirAddresses(im, exts[1..], nbytes - exts[0].nblocks * im.g.blocksize)
  }

  function BlocksAt(im: Image, fsbnos: seq<nat>): (bs: seq<Block>)
    requires Usable(im)
    ensures |bs| == |fsbnos|
  {
    seq(|fsbnos|, i requires 0 <= i < |fsbnos| => BlockAtFsbno(im, fsbnos[i]))
  }

  /** A foreign block ends the leaf it was found in. */
  function UpToForeign(bs: seq<Block>): seq<Block> {
    if bs == [] || bs[0].Foreign? then [] else [bs[0]] + UpToForeign(bs[1..])
  }

  const MAX_LEAF: nat := (BLOCK_MAX - B.HEADER) / 16

  function PaddedRecords(b: seq<Byte>, n: nat): seq<Extent> {
    seq(n, i requires 0 <= i < n => ReadRecord(Padded(b, B.HEADER + 16 * i, 16)))
  }

  function AllAddresses(im: Image, exts: seq<Extent>): seq<nat>
    requires Usable(im)
  {
    if exts == [] then [] else Addresses(im, exts[0], 0) + AllAddresses(im, exts[1..])
  }

  /** `btree_lblock_process`; nothing if the records run past the buffer. */
  function LeafBlocks(im: Image, fsbno: nat): Option<seq<Block>>
    requires Usable(im)
  {
    var ofz := FsbnoOffset(im.g, fsbno);
    if ofz !in Blocks(im) then Some([Failed(ReadErr(im.g, ofz, im.g.blocksize))])
    else
      var b := Blocks(im)[ofz];
      if B.Level(b) != 0 then Some([Failed(-ENOSYS)])
      else if B.Magic(b) != B.BMAP_MAGIC then Some([Failed(-EINVAL)])
      else if B.NumRecs(b) > MAX_LEAF then None
      else Some(UpToForeign(BlocksAt(im, AllAddresses(im, PaddedRecords(b, B.NumRecs(b))))))
  }

  function AllLeafBlocks(im: Image, ptrs: seq<nat>): Option<seq<Block>>
    requires Usable(im)
  {
    if ptrs == [] then Some([])
    else
      var first, rest := LeafBlocks(im, ptrs[0]), AllLeafBlocks(im, ptrs[1..]);
      if first.None? || rest.None? then None else Some(first.value + rest.value)
  }

  /** `process_dinode_dir_btree_root`, which takes the number of records from the level. */
  function BtreeDirBlocks(im: Image, b: seq<Byte>): Option<seq<Block>>
    requires Usable(im) && |b| >= CORE + 16
  {
    var n, ofz := B.RootLevel(b), B.RootOfz(|b|, B.Forkoff(b));
    if n < 1 then Some([Failed(-EINVAL)])
    else if ofz + 8 * n > |b| then None
    else AllLeafBlocks(im, B.Numbers(b, ofz, n))
  }

  function ResultOf(out: B.Outcome): FileResult {
    match out
    case Ok(recs) => Good(recs)
    case Fail(err) => Bad(if err != 0 then err else -EINVAL)
    case Outside => Bad(OUTSIDE)
    case Deep => Bad(DEEP)
  }

  /** `di_nextents`, or `di_big_nextents` if that is zero. */
  function NumExtents(b: seq<Byte>): nat
    requires |b| >= CORE
  {
    var n := Be32(b[76..80]);
    if n != 0 then n else Be64(b[24..32])
  }

  function InlineRecords(b: seq<Byte>, n: nat): (exts: seq<Extent>)
    requires CORE + 16 * n <= |b|
    ensures |exts| == n
  {
    seq(n, i requires 0 <= i < n => ReadRecord(b[CORE + 16 * i..CORE + 16 * i + 16]))
  }

  function SizeOf(b: seq<Byte>): nat
    requires |b| >= CORE
  {
    Be64(b[56..64])
  }

  /** A size as the signed number that the directory reader counts down. */
  function Signed(n: nat): int {
    if n < TWO63 then n else n - TWO64
  }

  /** What is left of `nbytes` behind the extents. */
  function Behind(im: Image, exts: seq<Extent>, nbytes: int): int {
    if exts == [] || nbytes <= 0 then nbytes else Behind(im, exts[1..], nbytes - exts[0].nblocks * im.g.blocksize)
  }

  /** The reader of a directory goes through the records until it has seen all bytes, even behind the inode. */
  function ExtentDirBlocks(im: Image, b: seq<Byte>, n: nat): seq<Block>
    requires Usable(im) && |b| >= CORE + 16
  {
    var room := (|b| - CORE) / 16;
    var exts, nbytes := InlineRecords(b, Min(n, room)), Signed(SizeOf(b));
    BlocksAt(im, DirAddresses(im, exts, nbytes)) + if n > room && Behind(im, exts, nbytes) > 0 then [Failed(OUTSIDE)] else []
  }

  function ForkOf(im: Image, b: seq<Byte>): Fork
    requires Usable(im) && |b| >= CORE + 16
  {
    var format := b[5];
    if format == FMT_LOCAL then
      var es := D.LocalEntries(b);
      if es.None? then LocalOverrun else Local(DentriesOf(es.value))
    else if format == FMT_EXTENTS then
      var n := NumExtents(b);
      Mapped(ExtentDirBlocks(im, b, n), if CORE + 16 * n > |b| then Bad(OUTSIDE) else Good(InlineRecords(b, n)), im.junk)
    else if format == FMT_BTREE then
      var bs := BtreeDirBlocks(im, b);
      Fork.Btree(if bs.None? then [Failed(OUTSIDE)] else bs.value, ResultOf(B.RootOutcome(Blocks(im), im.g, b, im.frames)))
    else if format == 0 || format == 4 then Unsupported
    else Undefined
  }

  /** The type bits of `di_mode`. */
  function ModeOf(b: seq<Byte>): Mode
    requires |b| >= CORE
  {
    var bits := Be16(b[2..4]) / 0x1000;
    if bits == 4 then IsDir else if bits == 8 then IsReg else IsOther
  }

  function DinodeOf(im: Image, b: seq<Byte>): Dinode
    requires Usable(im) && |b| >= CORE + 16
  {
    Dinode(ModeOf(b), InoOf(b), SizeOf(b), ForkOf(im, b))
  }

  function DiskOf(im: Image): Disk
    requires Usable(im)
  {
    map n | n in im.dinodes :: DinodeOf(im, im.dinodes[n])
  }

  // ----- What the format says -------------------------------------------------------------------

  /** Byte 5 is the format, bytes 56 to 63 the size and bytes 152 to 159 the number of the inode. */
  predicate HasCore(b: seq<Byte>, format: Byte, ino: nat, size: nat) {
    && |b| >= CORE + 16 && b[5] == format && ino < TWO64 && size < TWO64
    && b[INO_OFFSET..INO_OFFSET + 8] == To64(ino) && b[56..64] == To64(size)
  }

  /** The extents are stored in the inode, and there are at most 2^32. */
  predicate HasExtents(b: seq<Byte>, exts: seq<Extent>) {
    && |b| >= CORE + 16 && CORE + 16 * |exts| <= |b| && |exts| < U32
    && b[76..80] == To32(|exts|) && (exts == [] ==> b[24..32] == To64(0))
    && forall i :: 0 <= i < |exts| ==> Packable(exts[i]) && b[CORE + 16 * i..CORE + 16 * i + 16] == RecordBytes(exts[i])
  }

  /** The extents of a file, in the inode or in a B+tree rooted there. */
  ghost predicate HoldsFile(im: Image, b: seq<Byte>, ino: nat, size: nat, exts: seq<Extent>)
    requires Usable(im)
  {
    || (HasCore(b, FMT_EXTENTS, ino, size) && HasExtents(b, exts))
    || (HasCore(b, FMT_BTREE, ino, size) && exists t, level :: InTree(im, b, t, level) && B.Flatten(t) == exts)
  }

  ghost predicate InTree(im: Image, b: seq<Byte>, t: B.Btree, level: nat)
    requires Usable(im)
  {
    B.RootStored(Blocks(im), im.g, b, t, level) && level <= im.frames + 1
  }

  /** The short form of section 20.1. */
  ghost predicate HoldsShortForm(b: seq<Byte>, es: seq<D.Entry>) {
    exists offsets: seq<nat>, i8count: Byte, parent: nat, rest :: IsShortForm(b, es, offsets, i8count, parent, rest)
  }

  predicate IsShortForm(b: seq<Byte>, es: seq<D.Entry>, offsets: seq<nat>, i8count: Byte, parent: nat, rest: seq<Byte>) {
    && |b| >= CORE && |es| < 256 && D.AllWritable(es, offsets, i8count != 0) && D.InoFits(parent, i8count != 0)
    && b == b[..CORE] + D.ShortForm(es, offsets, i8count, parent) + rest
  }

  /** A directory block of entries, with unused space behind them, and in block format with its leaf array at the end. */
  ghost predicate HoldsBlock(im: Image, fsbno: nat, es: seq<D.Entry>)
    requires Usable(im)
  {
    var ofz := FsbnoOffset(im.g, fsbno);
    DevErr(im.g, |im.img|, ofz, im.dirsize) == 0 && IsDirBlock(im.img[ofz..ofz + im.dirsize], es)
  }

  ghost predicate IsDirBlock(b: seq<Byte>, es: seq<D.Entry>) {
    exists header, rs, tail :: IsBlock(b, header, rs, tail, es)
  }

  ghost predicate IsBlock(b: seq<Byte>, header: seq<Byte>, rs: seq<D.Rec>, tail: seq<Byte>, es: seq<D.Entry>) {
    && |header| == D.DATA_HEADER && D.IsTail(tail)
    && Be32(header[..4]) == (if tail == [] then DATA_MAGIC else BLOCK_MAGIC)
    && D.AllWellFormed(rs) && D.FreeLast(rs) && D.Entries(rs) == es && b == header + D.RecBytes(rs) + tail
  }

  /** The lists of entries in the directory blocks. */
  ghost predicate HoldsBlocks(im: Image, fsbnos: seq<nat>, lists: seq<seq<D.Entry>>)
    requires Usable(im)
  {
    |lists| == |fsbnos| && forall i :: 0 <= i < |fsbnos| ==> HoldsBlock(im, fsbnos[i], lists[i])
  }

  function Flat(lists: seq<seq<D.Entry>>): seq<D.Entry> {
    if lists == [] then [] else Flat(lists[..|lists| - 1]) + Plainly(lists[|lists| - 1])
  }

  /** Without the entries for the directory itself and its parent. */
  function Plainly(es: seq<D.Entry>): seq<D.Entry> {
    if es == [] then []
    else
      var n := |es| - 1;
      Plainly(es[..n]) + if es[n].name == [0x2e] || es[n].name == [0x2e, 0x2e] then [] else [es[n]]
  }

  /** The entries of a directory, in short form or in directory blocks. */
  ghost predicate HoldsDir(im: Image, b: seq<Byte>, ino: nat, size: nat, es: seq<D.Entry>)
    requires Usable(im)
  {
    || (HasCore(b, FMT_LOCAL, ino, size) && HoldsShortForm(b, es))
    || (HasCore(b, FMT_EXTENTS, ino, size) && exists exts, lists :: InBlocks(im, b, size, exts, lists) && Flat(lists) == es)
  }

  ghost predicate InBlocks(im: Image, b: seq<Byte>, size: nat, exts: seq<Extent>, lists: seq<seq<D.Entry>>)
    requires Usable(im)
  {
    && HasExtents(b, exts) && 0 < size < TWO63
    && HoldsBlocks(im, DirAddresses(im, exts, size), lists) && lists != []
  }

  /** What a directory has by the given names: the entries for directories and regular files, sorted. */
  function Sorted(im: Image, es: seq<D.Entry>): seq<Inode>
    requires Usable(im)
  {
    S.Sort(Kept(DiskOf(im), DentriesOf(es)), InodeName)
  }

  /** The types are defined ones, and the names are distinct and can be names. */
  ghost predicate GoodEntries(im: Image, es: seq<D.Entry>)
    requires Usable(im)
  {
    var kept := Kept(DiskOf(im), DentriesOf(es));
    NoneRefused(DiskOf(im), DentriesOf(es)) && S.Distinct(kept, InodeName) && forall e :: e in kept ==> ValidName(e.name)
  }

  /** The device holds the tree below inode `ino`, which is of type `ftype`. */
  ghost predicate Holds(im: Image, ino: nat, ftype: nat, t: Tree)
    requires Usable(im)
    decreases t, 1
  {
    && ino in im.dinodes
    && match t
       case File(n, size, exts) => ftype == FT_REG && HoldsFile(im, im.dinodes[ino], n, size, exts)
       case Dir(n, size, kids, spare) =>
         ftype == FT_DIR && spare == 0 &&
         exists es :: HoldsDir(im, im.dinodes[ino], n, size, es) && GoodEntries(im, es) && HoldsKids(im, Sorted(im, es), kids)
  }

  ghost predicate HoldsKids(im: Image, es: seq<Inode>, kids: seq<Kid>)
    requires Usable(im)
    decreases kids, 0
  {
    |kids| == |es| &&
    forall k :: 0 <= k < |kids| ==> kids[k].name == es[k].name && Holds(im, es[k].ino, es[k].ftype, kids[k].tree)
  }

  // ----- The code reads what the format says ----------------------------------------------------

  lemma CoreReads(b: seq<Byte>, format: Byte, ino: nat, size: nat)
    requires HasCore(b, format, ino, size)
    ensures InoOf(b) == ino && SizeOf(b) == size && b[5] == format
  {
    hide To64, Be64;
    Be64Inverts(ino);
    Be64Inverts(size);
  }

  lemma ExtentsRead(b: seq<Byte>, exts: seq<Extent>)
    requires HasExtents(b, exts)
    ensures NumExtents(b) == |exts| && InlineRecords(b, |exts|) == exts
  {
    hide To32, Be32, To64, Be64, RecordBytes, ReadRecord, Packable;
    Be32Inverts(|exts|);
    Be64Inverts(0);
    forall i | 0 <= i < |exts| ensures InlineRecords(b, |exts|)[i] == exts[i] {
      ReadRecordInverts(exts[i]);
    }
  }

  lemma FileReads(im: Image, b: seq<Byte>, ino: nat, size: nat, exts: seq<Extent>)
    requires Usable(im) && HoldsFile(im, b, ino, size, exts)
    ensures |b| >= CORE + 16
    ensures var d := DinodeOf(im, b);
            && d.ino == ino && d.size == size
            && (d.fork.Mapped? || d.fork.Btree?) && d.fork.result == Good(exts)
  {
    if HasCore(b, FMT_EXTENTS, ino, size) && HasExtents(b, exts) {
      CoreReads(b, FMT_EXTENTS, ino, size);
      ExtentsRead(b, exts);
      hide HasCore, NumExtents, InlineRecords, ExtentDirBlocks, InoOf, SizeOf, ModeOf;
    } else {
      CoreReads(b, FMT_BTREE, ino, size);
      var t, level :| InTree(im, b, t, level) && B.Flatten(t) == exts;
      hide HasCore, InoOf, SizeOf, ModeOf, BtreeDirBlocks, Blocks, HasExtents;
      B.RootReads(Blocks(im), im.g, b, t, level, im.frames);
    }
  }

  lemma TextDots(b: seq<Byte>)
    ensures Text(b) == "." <==> b == [0x2e]
    ensures Text(b) == ".." <==> b == [0x2e, 0x2e]
  {
    if Text(b) == "." {
      assert Text(b)[0] == '.' && b[0] as char == '.';
      assert b == [b[0]];
    } else if Text(b) == ".." {
      assert Text(b)[0] == '.' && Text(b)[1] == '.' && b[0] as char == '.' && b[1] as char == '.';
      assert b == [b[0], b[1]];
    }
  }

  lemma DentriesSplit(a: seq<D.Entry>, b: seq<D.Entry>)
    ensures DentriesOf(a + b) == DentriesOf(a) + DentriesOf(b)
  {
    hide DentryOf;
  }

  lemma {:induction false} UndottedReads(es: seq<D.Entry>)
    ensures Undotted(DentriesOf(es)) == DentriesOf(Plainly(es))
  {
    if es != [] {
      var n := |es| - 1;
      UndottedReads(es[..n]);
      TextDots(es[n].name);
      hide Text;
      assert DentriesOf(es)[..n] == DentriesOf(es[..n]) && DentriesOf(es)[n] == DentryOf(es[n]);
      DentriesSplit(Plainly(es[..n]), [es[n]]);
      assert DentriesOf([es[n]]) == [DentryOf(es[n])];
    }
  }

  lemma BlockScans(b: seq<Byte>, header: seq<Byte>, rs: seq<D.Rec>, tail: seq<Byte>, es: seq<D.Entry>)
    requires IsBlock(b, header, rs, tail, es) && |b| <= BLOCK_MAX
    ensures |b| >= 4 && (Be32(b[..4]) == BLOCK_MAGIC || Be32(b[..4]) == DATA_MAGIC) && D.Scan(b, D.DATA_HEADER) == Some(es)
  {
    hide Be32, D.Scan, D.RecBytes, D.AllWellFormed, D.FreeLast, D.Entries, D.IsTail;
    D.ScanExact(header, rs, tail);
    assert b[..4] == header[..4];
  }

  lemma BlockReads(im: Image, fsbno: nat, es: seq<D.Entry>)
    requires Usable(im) && HoldsBlock(im, fsbno, es)
    ensures BlockAtFsbno(im, fsbno) == Data(DentriesOf(es))
  {
    var ofz := FsbnoOffset(im.g, fsbno);
    var b := im.img[ofz..ofz + im.dirsize];
    var header, rs, tail :| IsBlock(b, header, rs, tail, es);
    hide FsbnoOffset, Be32, IsBlock, D.Scan, DentriesOf, DevErr;
    BlockScans(b, header, rs, tail, es);
  }

  lemma {:induction false} BlocksRead(im: Image, fsbnos: seq<nat>, lists: seq<seq<D.Entry>>)
    requires Usable(im) && HoldsBlocks(im, fsbnos, lists)
    ensures BlockEntries(BlocksAt(im, fsbnos)) == DentriesOf(Flat(lists))
    decreases |lists|
  {
    var bs := BlocksAt(im, fsbnos);
    hide HoldsBlock, BlockAtFsbno, Plainly, Undotted, DentriesOf;
    if lists != [] {
      var n := |lists| - 1;
      BlocksPart(im, fsbnos, n);
      BlocksRead(im, fsbnos[..n], lists[..n]);
      assert HoldsBlock(im, fsbnos[n], lists[n]);
      BlockReads(im, fsbnos[n], lists[n]);
      UndottedReads(lists[n]);
      hide BlocksAt;
      DentriesSplit(Flat(lists[..n]), Plainly(lists[n]));
    } else {
      assert DentriesOf([]) == [];
    }
  }

  lemma BlocksPart(im: Image, fsbnos: seq<nat>, n: nat)
    requires Usable(im) && n < |fsbnos|
    ensures BlocksAt(im, fsbnos)[..n] == BlocksAt(im, fsbnos[..n]) && BlocksAt(im, fsbnos)[n] == BlockAtFsbno(im, fsbnos[n])
  {
    hide BlockAtFsbno;
  }

  lemma NoneFailed(im: Image, fsbnos: seq<nat>, lists: seq<seq<D.Entry>>)
    requires Usable(im) && HoldsBlocks(im, fsbnos, lists)
    ensures forall b :: b in BlocksAt(im, fsbnos) ==> !b.Failed?
  {
    hide HoldsBlock, BlockAtFsbno, DentriesOf;
    var bs := BlocksAt(im, fsbnos);
    forall i | 0 <= i < |bs| ensures !bs[i].Failed? {
      BlockReads(im, fsbnos[i], lists[i]);
    }
  }

  /** What reading a directory that the device holds finds. */
  ghost predicate Finds(d: Dinode, ino: nat, size: nat, es: seq<D.Entry>) {
    && d.ino == ino && d.size == size && Listed(d.fork) && LastErr(d.fork) == 0 && BlocksReadable(d.fork)
    && Found(d.fork) == DentriesOf(es)
  }

  lemma ShortFormReads(im: Image, b: seq<Byte>, ino: nat, size: nat, es: seq<D.Entry>)
    requires Usable(im) && HasCore(b, FMT_LOCAL, ino, size) && HoldsShortForm(b, es)
    ensures |b| >= CORE + 16 && Finds(DinodeOf(im, b), ino, size, es)
  {
    CoreReads(b, FMT_LOCAL, ino, size);
    var offsets: seq<nat>, i8count: Byte, parent: nat, rest :| IsShortForm(b, es, offsets, i8count, parent, rest);
    hide InoOf, SizeOf, ModeOf, D.LocalEntries, D.ShortForm, D.AllWritable, D.InoFits, DentriesOf;
    D.LocalInvertsShortForm(b[..CORE], es, offsets, i8count, parent, rest);
  }

  lemma InBlocksReads(im: Image, b: seq<Byte>, ino: nat, size: nat, exts: seq<Extent>, lists: seq<seq<D.Entry>>)
    requires Usable(im) && HasCore(b, FMT_EXTENTS, ino, size) && InBlocks(im, b, size, exts, lists)
    ensures |b| >= CORE + 16 && Finds(DinodeOf(im, b), ino, size, Flat(lists))
  {
    CoreReads(b, FMT_EXTENTS, ino, size);
    ExtentsRead(b, exts);
    InlineBlocks(im, b, exts);
    hide InoOf, SizeOf, ModeOf, NumExtents, InlineRecords, HasCore, HasExtents, DirAddresses, BlocksAt, BlockEntries, DentriesOf, Flat, ExtentDirBlocks;
    BlocksRead(im, DirAddresses(im, exts, size), lists);
    NoneFailed(im, DirAddresses(im, exts, size), lists);
  }

  lemma InlineBlocks(im: Image, b: seq<Byte>, exts: seq<Extent>)
    requires Usable(im) && |b| >= CORE + 16 && CORE + 16 * |exts| <= |b| && InlineRecords(b, |exts|) == exts
    ensures ExtentDirBlocks(im, b, |exts|) == BlocksAt(im, DirAddresses(im, exts, Signed(SizeOf(b))))
  {
    hide InlineRecords, DirAddresses, BlocksAt, SizeOf;
  }

  lemma DirReads(im: Image, b: seq<Byte>, ino: nat, size: nat, es: seq<D.Entry>)
    requires Usable(im) && HoldsDir(im, b, ino, size, es)
    ensures |b| >= CORE + 16 && Finds(DinodeOf(im, b), ino, size, es)
  {
    hide DinodeOf, Finds, HoldsShortForm, InBlocks;
    if HasCore(b, FMT_LOCAL, ino, size) && HoldsShortForm(b, es) {
      ShortFormReads(im, b, ino, size, es);
    } else {
      var exts, lists :| InBlocks(im, b, size, exts, lists) && Flat(lists) == es;
      InBlocksReads(im, b, ino, size, exts, lists);
    }
  }

  /** A tree that the device holds is what its inodes describe to the code. */
  lemma {:induction false} HoldsUnfolds(im: Image, ino: nat, ftype: nat, t: Tree)
    requires Usable(im) && Holds(im, ino, ftype, t)
    ensures Unfolds(DiskOf(im), ino, ftype, t)
    decreases t
  {
    var d, b := DiskOf(im), im.dinodes[ino];
    assert ino in d && d[ino] == DinodeOf(im, b);
    match t
    case File(n, size, exts) =>
      hide HoldsFile, DinodeOf, DiskOf;
      FileReads(im, b, n, size, exts);
    case Dir(n, size, kids, spare) =>
      var es :| HoldsDir(im, b, n, size, es) && GoodEntries(im, es) && HoldsKids(im, Sorted(im, es), kids);
      hide HoldsDir, DinodeOf, DiskOf, NoneRefused, DentriesOf;
      DirReads(im, b, n, size, es);
      var os := Ordered(d, d[ino].fork);
      assert os == Sorted(im, es);
      forall k | 0 <= k < |kids| ensures kids[k].name == os[k].name && Unfolds(d, os[k].ino, os[k].ftype, kids[k].tree) {
        HoldsUnfolds(im, os[k].ino, os[k].ftype, kids[k].tree);
      }
      assert KidsUnfold(d, os, kids);
  }

  // ----- What is reached has good names ---------------------------------------------------------

  /** The directories of the tree. */
  ghost function DirsOf(d: Disk, ino: nat, t: Tree): set<nat>
    decreases t
  {
    if t.File? || ino !in d then {}
    else
      var es := Ordered(d, d[ino].fork);
      {ino} + set k, x | 0 <= k < |t.kids| && k < |es| && x in DirsOf(d, es[k].ino, t.kids[k].tree) :: x
  }

  lemma DirsSplit(d: Disk, ino: nat, t: Tree, k: nat)
    requires t.Dir? && ino in d && |t.kids| == |Ordered(d, d[ino].fork)| && k < |t.kids|
    ensures DirsOf(d, Ordered(d, d[ino].fork)[k].ino, t.kids[k].tree) <= DirsOf(d, ino, t)
  {
    hide Ordered;
  }

  lemma DirsMember(d: Disk, ino: nat, t: Tree, x: nat)
    requires t.Dir? && ino in d && |t.kids| == |Ordered(d, d[ino].fork)| && x in DirsOf(d, ino, t)
    ensures x == ino || exists k :: 0 <= k < |t.kids| && x in DirsOf(d, Ordered(d, d[ino].fork)[k].ino, t.kids[k].tree)
  {
    hide Ordered;
  }

  /** The entries of a directory that the device holds. */
  lemma DirOf(im: Image, ino: nat, t: Tree) returns (es: seq<D.Entry>)
    requires Usable(im) && Holds(im, ino, FT_DIR, t)
    ensures t.Dir? && ino in DiskOf(im) && Found(DiskOf(im)[ino].fork) == DentriesOf(es) && GoodEntries(im, es)
    ensures HoldsKids(im, Ordered(DiskOf(im), DiskOf(im)[ino].fork), t.kids)
  {
    var b := im.dinodes[ino];
    es :| HoldsDir(im, b, t.ino, t.size, es) && GoodEntries(im, es) && HoldsKids(im, Sorted(im, es), t.kids);
    assert DiskOf(im)[ino] == DinodeOf(im, b);
    hide HoldsDir, DinodeOf, DiskOf, DentriesOf, GoodEntries, HoldsKids, Kept;
    DirReads(im, b, t.ino, t.size, es);
  }

  lemma {:induction false} GoodDirs(im: Image, dirs: set<nat>, ino: nat, ftype: nat, t: Tree, x: nat)
    requires Usable(im) && Holds(im, ino, ftype, t) && DirsOf(DiskOf(im), ino, t) <= dirs && x in DirsOf(DiskOf(im), ino, t)
    ensures x in DiskOf(im) && DirNamed(DiskOf(im), dirs, Indexed(DiskOf(im), DiskOf(im)[x].fork))
    decreases t
  {
    var d := DiskOf(im);
    assert t.Dir? && ftype == FT_DIR;
    var es := DirOf(im, ino, t);
    hide Holds, DiskOf, DirsOf, DirNamed, Indexed, Ordered, GoodEntries, DentriesOf, Found;
    var os := Ordered(d, d[ino].fork);
    DirsMember(d, ino, t, x);
    if x == ino {
      GoodDir(im, dirs, ino, t, es);
    } else {
      var k :| 0 <= k < |t.kids| && x in DirsOf(d, os[k].ino, t.kids[k].tree);
      DirsSplit(d, ino, t, k);
      GoodDirs(im, dirs, os[k].ino, os[k].ftype, t.kids[k].tree, x);
    }
  }

  lemma GoodDir(im: Image, dirs: set<nat>, ino: nat, t: Tree, es: seq<D.Entry>)
    requires Usable(im) && ino in DiskOf(im) && t.Dir? && DirsOf(DiskOf(im), ino, t) <= dirs
    requires GoodEntries(im, es) && Found(DiskOf(im)[ino].fork) == DentriesOf(es)
    requires HoldsKids(im, Ordered(DiskOf(im), DiskOf(im)[ino].fork), t.kids)
    ensures DirNamed(DiskOf(im), dirs, Indexed(DiskOf(im), DiskOf(im)[ino].fork))
  {
    var d := DiskOf(im);
    var kept := Indexed(d, d[ino].fork);
    KeptPlain(d, DentriesOf(es), es);
    DirsWithin(im, dirs, ino, t);
    hide DiskOf, NoneRefused, DentriesOf, Kept, ValidName, Found, AllWithin, S.Distinct;
    assert kept == Kept(d, DentriesOf(es));
  }

  lemma DirsWithin(im: Image, dirs: set<nat>, ino: nat, t: Tree)
    requires Usable(im) && ino in DiskOf(im) && t.Dir? && DirsOf(DiskOf(im), ino, t) <= dirs
    requires HoldsKids(im, Ordered(DiskOf(im), DiskOf(im)[ino].fork), t.kids)
    ensures AllWithin(Indexed(DiskOf(im), DiskOf(im)[ino].fork), dirs)
  {
    var d := DiskOf(im);
    var kept, os := Indexed(d, d[ino].fork), Ordered(d, d[ino].fork);
    S.SortMembers(kept, InodeName);
    assert forall e :: e in kept ==> e in os;
    hide DiskOf, DirsOf, Indexed, Ordered, Holds;
    forall e | e in kept && e.ftype == FT_DIR ensures e.ino in dirs {
      var k :| 0 <= k < |os| && os[k] == e;
      KidIsDir(im, d, os[k].ino, t.kids[k].tree);
      DirsSplit(d, ino, t, k);
    }
  }

  /** A directory that the device holds is a directory of its own tree. */
  lemma KidIsDir(im: Image, d: Disk, ino: nat, t: Tree)
    requires Usable(im) && d == DiskOf(im) && Holds(im, ino, FT_DIR, t)
    ensures ino in DirsOf(d, ino, t)
  {
    hide HoldsDir, GoodEntries, HoldsKids;
  }

  lemma {:induction false} KeptPlain(d: Disk, dentries: seq<Inode>, es: seq<D.Entry>)
    requires dentries == DentriesOf(es)
    ensures forall e :: e in Kept(d, dentries) ==> e.namelen == |e.name| && e.content == Span(0, 0)
    decreases |es|
  {
    if es != [] {
      var n := |es| - 1;
      assert dentries[..n] == DentriesOf(es[..n]);
      KeptPlain(d, dentries[..n], es[..n]);
      hide Judge;
    }
  }

  // ----- The inodes are the device's ------------------------------------------------------------

  /** The inodes that retrieval leaves, by number. */
  function Retrieved(list: seq<seq<Byte>>, m: map<nat, nat>): map<nat, seq<Byte>> {
    map n | n in m && m[n] < |list| :: list[m[n]]
  }

  /** Over well-formed inode B+trees they are the live inodes, each with the bytes at its address. */
  lemma RetrievedFromDevice(img: seq<Byte>, g: Geometry, ags: Groups, n: nat)
    requires Sane(g) && g.inodesize >= INO_OFFSET + 8 && GroupsReadable(img, g, ags) && WellNumbered(img, g, ags)
    ensures AllSized(GroupInodes(img, g, ags), g.inodesize)
    ensures var dinodes := Retrieved(GroupInodes(img, g, ags), Numbered(GroupInodes(img, g, ags), g.inodesize));
            && (n in dinodes <==> LiveNumber(g, ags, n))
            && (n in dinodes ==> AtItsAddress(img, g, n, dinodes[n]))
  {
    RetrievalExact(img, g, ags, n);
    hide GroupInodes, Numbered, LiveNumber, AtItsAddress, WellNumbered, GroupsReadable, Sane;
  }

  /** What a tree of the device reaches as a directory has good names. */
  lemma GoodNames(im: Image, rootino: nat, t: Tree) returns (dirs: set<nat>)
    requires Usable(im) && Holds(im, rootino, FT_DIR, t)
    ensures NamesOk(DiskOf(im), dirs) && rootino in dirs
  {
    var d := DiskOf(im);
    dirs := DirsOf(d, rootino, t);
    KidIsDir(im, d, rootino, t);
    hide DiskOf, DirsOf, Holds, DirNamed, Indexed;
    forall x | x in dirs && x in d ensures DirNamed(d, dirs, Indexed(d, d[x].fork)) {
      GoodDirs(im, dirs, rootino, FT_DIR, t, x);
    }
  }

  /**
    From the inodes to the pools: if the device holds a tree below the root inode and there is room for
    it then the index succeeds, and what the pools decode to is that tree.
   */
  method IndexImage(xal: Xal, ghost im: Image, rootino: nat, ghost t: Tree) returns (err: int)
    requires Usable(im) && xal.Valid() && xal.disk == DiskOf(im) && rootino in xal.dirs && Holds(im, rootino, FT_DIR, t)
    requires xal.RoomFor(t, 1, 0)
    modifies xal.inodes, xal.inodes.memory, xal.extents, xal.extents.memory
    ensures xal.Valid() && err == 0
    ensures Encodes(xal.inodes.memory[..], xal.extents.memory[..], 0, t, 1, 0)
    ensures Inodes.Decode(xal.inodes.memory[..], xal.extents.memory[..], 0) == Some(Plain(t))
  {
    HoldsUnfolds(im, rootino, FT_DIR, t);
    UnfoldsReads(xal.disk, rootino, FT_DIR, t);
    hide Unfolds, Reads, Encodes, Inodes.Decode, Plain, Holds, DiskOf, AllDefined, Linked;
    ghost var u;
    err, u := xal.Index(rootino);
    ReadsUnique(xal.disk, rootino, FT_DIR, t, u);
  }

  /** The inodes by number are the live ones of the device. */
  ghost predicate AreLive(dinodes: map<nat, seq<Byte>>, img: seq<Byte>, g: Geometry, ags: Groups) {
    && (forall n :: n in dinodes <==> LiveNumber(g, ags, n))
    && (forall n :: n in dinodes ==> AtItsAddress(img, g, n, dinodes[n]))
  }

  lemma LiveUnique(img: seq<Byte>, g: Geometry, ags: Groups, dinodes: map<nat, seq<Byte>>)
    requires Sane(g) && g.inodesize >= INO_OFFSET + 8 && GroupsReadable(img, g, ags) && WellNumbered(img, g, ags)
    requires AreLive(dinodes, img, g, ags)
    ensures AllSized(GroupInodes(img, g, ags), g.inodesize)
    ensures Retrieved(GroupInodes(img, g, ags), Numbered(GroupInodes(img, g, ags), g.inodesize)) == dinodes
  {
    RetrievedSized(img, g, ags);
    var r := Retrieved(GroupInodes(img, g, ags), Numbered(GroupInodes(img, g, ags), g.inodesize));
    forall n: nat ensures n in r <==> n in dinodes
                  ensures n in r ==> r[n] == dinodes[n]
    {
      RetrievedFromDevice(img, g, ags, n);
      hide Retrieved, GroupInodes, Numbered, LiveNumber, WellNumbered, GroupsReadable, Sane;
    }
  }

  /**
    A well-formed device: good inode B+trees whose counts are right and whose inodes carry their numbers,
    and the image's inodes are the live ones.
   */
  ghost predicate WellFormed(im: Image, agis: seq<Agi>) {
    && Sane(im.g) && XfsInodeChunks.Blocks(im.g) && im.g.inodesize >= CORE + 16 && Usable(im)
    && GroupsOk(im.img, im.g, agis, |agis|, im.frames) && CountsRight(im.img, im.g, agis, im.frames)
    && var ags := Recs(im.img, im.g, agis, |agis|, im.frames);
       && GroupsReadable(im.img, im.g, ags) && WellNumbered(im.img, im.g, ags)
       && AreLive(im.dinodes, im.img, im.g, ags)
  }

  /** What retrieval leaves is what the image has. */
  method RetrieveImage(g: Geometry, img: seq<Byte>, agis: seq<Agi>, frames: nat, mayPut: nat -> bool, ghost im: Image)
    returns (err: int, dinodes: map<nat, seq<Byte>>)
    requires WellFormed(im, agis) && im.g == g && im.img == img && im.frames == frames
    ensures err == 0 <==> forall i :: 0 <= i < |GroupsTaken(img, g, agis, |agis|, frames)| ==> mayPut(i)
    ensures err == 0 ==> dinodes == im.dinodes
  {
    var r := new Retriever(g, img, agis, mayPut);
    CountsSuffice(img, g, mayPut, agis, frames);
    LiveUnique(img, g, Recs(img, g, agis, |agis|, frames), im.dinodes);
    dinodes := map[];
    err := r.RetrieveAll(frames, true, true);
    if err == 0 {
      dinodes := Retrieved(r.dinodes[..r.index], r.dinodesMap);
    }
  }

  /**
    From the bytes of the device to the pools: on a well-formed device that holds a tree below its root,
    with memory and room, all inodes are retrieved, the index succeeds, and the pools decode to the tree.
   */
  method IndexDevice(g: Geometry, dirsize: nat, img: seq<Byte>, agis: seq<Agi>, frames: nat, junk: int, rootino: nat,
                     mayPut: nat -> bool, inodes: Pool<Inode>, extents: Pool<Extent>, ghost im: Image, ghost t: Tree)
    returns (err: int)
    requires im == Image(g, dirsize, img, im.dinodes, frames, junk) && WellFormed(im, agis) && Holds(im, rootino, FT_DIR, t)
    requires inodes.Valid() && extents.Valid() && inodes.zero == ZERO_INODE && extents.zero == ZERO_EXTENT
    requires inodes as object != extents && inodes.memory as object != extents.memory
    requires inodes.Reaches(1 + Slots(t)) && extents.Reaches(Extents(t)) && forall i :: mayPut(i)
    modifies inodes, inodes.memory, extents, extents.memory
    ensures err == 0 && Encodes(inodes.memory[..], extents.memory[..], 0, t, 1, 0)
    ensures Inodes.Decode(inodes.memory[..], extents.memory[..], 0) == Some(Plain(t))
  {
    hide *;
    var dinodes;
    err, dinodes := RetrieveImage(g, img, agis, frames, mayPut, im);
    var found := Image(g, dirsize, img, dinodes, frames, junk);
    assert found == im;
    UsableImage(im, agis);
    ghost var dirs := GoodNames(im, rootino, t);
    var xal := new Xal(inodes, extents, DiskOf(found), dirs);
    RoomThere(xal, t);
    err := IndexImage(xal, im, rootino, t);
  }

  lemma RoomThere(xal: Xal, t: Tree)
    requires xal.inodes.Reaches(1 + Slots(t)) && xal.extents.Reaches(Extents(t))
    ensures xal.RoomFor(t, 1, 0)
  {
  }

  lemma UsableImage(im: Image, agis: seq<Agi>)
    requires WellFormed(im, agis)
    ensures Usable(im)
  {
    hide GroupsOk, CountsRight, Recs, GroupsReadable, WellNumbered, AreLive, Sane;
  }
}
