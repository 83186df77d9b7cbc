/**
  Directory entries on disk: the short form kept in the inode (section 20.1) and the entries of a
  directory data block.  For each there is the layout of the format and the decoder of the library.
 */
module XfsDirectory {
  import opened Names
  import opened XfsFormat
  import opened XfsFileBtree

  datatype Entry = Entry(name: seq<Byte>, ftype: Byte, ino: nat)

  lemma Concat<T>(a: seq<T>, b: seq<T>, c: seq<T>)
    ensures a + (b + c) == (a + b) + c
  {
  }

  // ----- Short form -----------------------------------------------------------------------------

  /** The width of every inode number of a short-form directory. */
  function Width(wide: bool): nat {
    if wide then 8 else 4
  }

  predicate InoFits(ino: nat, wide: bool) {
    ino < if wide then TWO64 else 0x1_0000_0000
  }

  function InoBytes(ino: nat, wide: bool): (b: seq<Byte>)
    requires InoFits(ino, wide)
    ensures |b| == Width(wide)
  {
    if wide then To64(ino) else To32(ino)
  }

  function ReadIno(b: seq<Byte>, wide: bool): nat
    requires |b| == Width(wide)
  {
    if wide then Be64(b) else Be32(b)
  }

  lemma ReadInoInverts(ino: nat, wide: bool)
    requires InoFits(ino, wide)
    ensures ReadIno(InoBytes(ino, wide), wide) == ino
  {
    if wide {
      Be64Inverts(ino);
    } else {
      Be32Inverts(ino);
    }
  }

  predicate Writable(e: Entry, wide: bool) {
    |e.name| < 256 && InoFits(e.ino, wide)
  }

  /** namelen, offset, name, ftype, inode number */
  function EntryBytes(e: Entry, offset: nat, wide: bool): (b: seq<Byte>)
    requires Writable(e, wide) && offset < 0x1_0000
    ensures |b| == 4 + |e.name| + Width(wide)
  {
    [|e.name|] + To16(offset) + e.name + [e.ftype] + InoBytes(e.ino, wide)
  }

  predicate AllWritable(es: seq<Entry>, offsets: seq<nat>, wide: bool) {
    |offsets| == |es| && forall i :: 0 <= i < |es| ==> Writable(es[i], wide) && offsets[i] < 0x1_0000
  }

  function EntriesBytes(es: seq<Entry>, offsets: seq<nat>, wide: bool): seq<Byte>
    requires AllWritable(es, offsets, wide)
  {
    if es == [] then [] else EntryBytes(es[0], offsets[0], wide) + EntriesBytes(es[1..], offsets[1..], wide)
  }

  /** The data fork of a short-form directory: count, i8count, parent, entries. */
  function ShortForm(es: seq<Entry>, offsets: seq<nat>, i8count: Byte, parent: nat): seq<Byte>
    requires |es| < 256 && AllWritable(es, offsets, i8count != 0) && InoFits(parent, i8count != 0)
  {
    [|es|, i8count] + InoBytes(parent, i8count != 0) + EntriesBytes(es, offsets, i8count != 0)
  }

  /** Whether the entry at `at` ends inside the inode. */
  predicate EntryFits(b: seq<Byte>, at: nat, wide: bool) {
    at < |b| && at + 4 + b[at] + Width(wide) <= |b|
  }

  function EntryEnd(b: seq<Byte>, at: nat, wide: bool): (end: nat)
    requires EntryFits(b, at, wide)
    ensures at < end <= |b|
  {
    at + 4 + b[at] + Width(wide)
  }

  /** One iteration of the decoder. */
  function EntryAt(b: seq<Byte>, at: nat, wide: bool): Entry
    requires EntryFits(b, at, wide)
  {
    var n: nat := b[at];
    Entry(b[at + 3..at + 3 + n], b[at + 3 + n], ReadIno(b[at + 4 + n..at + 4 + n + Width(wide)], wide))
  }

  /** All `n` entries from `at` on, when they end inside the inode. */
  function EntriesAt(b: seq<Byte>, at: nat, n: nat, wide: bool): Option<seq<Entry>>
    decreases n
  {
    if n == 0 then Some([])
    else if !EntryFits(b, at, wide) then None
    else
      var rest := EntriesAt(b, EntryEnd(b, at, wide), n - 1, wide);
      if rest.None? then None else Some([EntryAt(b, at, wide)] + rest.value)
  }

  /** What `process_dinode_dir_local` finds in an inode. */
  function LocalEntries(dinode: seq<Byte>): Option<seq<Entry>> {
    if |dinode| < CORE + 2 then None
    else
      var wide := dinode[CORE + 1] != 0;
      EntriesAt(dinode, CORE + 2 + Width(wide), dinode[CORE], wide)
  }

  /** Where a piece of the bytes from `at` on sits. */
  lemma Piece(b: seq<Byte>, at: nat, bytes: seq<Byte>, rest: seq<Byte>, i: nat, j: nat)
    requires at <= |b| && b[at..] == bytes + rest && i <= j <= |bytes|
    ensures |b| == at + |bytes| + |rest| && b[at + i..at + j] == bytes[i..j]
    ensures i < |bytes| ==> b[at + i] == bytes[i]
    ensures b[at + |bytes|..] == rest
  {
    var tail := b[at..];
    assert tail[i..j] == bytes[i..j] && tail[|bytes|..] == rest;
    assert b[at + i..at + j] == tail[i..j];
    assert b[at + |bytes|..] == tail[|bytes|..];
    if i < |bytes| {
      assert tail[i] == bytes[i];
    }
  }

  lemma EntryParts(e: Entry, offset: nat, wide: bool)
    requires Writable(e, wide) && offset < 0x1_0000
    ensures var bytes, n := EntryBytes(e, offset, wide), |e.name|;
            && bytes[0] == n && bytes[3..3 + n] == e.name && bytes[3 + n] == e.ftype
            && bytes[4 + n..4 + n + Width(wide)] == InoBytes(e.ino, wide)
  {
    hide InoBytes, To16;
  }

  lemma EntryReads(b: seq<Byte>, at: nat, e: Entry, offset: nat, wide: bool, rest: seq<Byte>)
    requires Writable(e, wide) && offset < 0x1_0000 && at <= |b| && b[at..] == EntryBytes(e, offset, wide) + rest
    ensures EntryFits(b, at, wide) && EntryAt(b, at, wide) == e
    ensures b[EntryEnd(b, at, wide)..] == rest
  {
    hide EntryBytes, InoBytes, ReadIno;
    var n, w := |e.name|, Width(wide);
    var bytes := EntryBytes(e, offset, wide);
    EntryParts(e, offset, wide);
    Piece(b, at, bytes, rest, 0, 1);
    Piece(b, at, bytes, rest, 3, 3 + n);
    Piece(b, at, bytes, rest, 3 + n, 4 + n);
    Piece(b, at, bytes, rest, 4 + n, 4 + n + w);
    ReadInoInverts(e.ino, wide);
  }

  lemma {:induction false} EntriesRead(b: seq<Byte>, at: nat, es: seq<Entry>, offsets: seq<nat>, wide: bool, rest: seq<Byte>)
    requires AllWritable(es, offsets, wide) && at <= |b| && b[at..] == EntriesBytes(es, offsets, wide) + rest
    ensures EntriesAt(b, at, |es|, wide) == Some(es)
    decreases |es|
  {
    if es != [] {
      var more := EntriesBytes(es[1..], offsets[1..], wide) + rest;
      assert b[at..] == EntryBytes(es[0], offsets[0], wide) + more;
      EntryReads(b, at, es[0], offsets[0], wide, more);
      EntriesRead(b, EntryEnd(b, at, wide), es[1..], offsets[1..], wide, rest);
      assert [es[0]] + es[1..] == es;
    }
  }

  /** Decoding inverts the short-form layout, for both widths of inode numbers and any bytes around it. */
  lemma LocalInvertsShortForm(core: seq<Byte>, es: seq<Entry>, offsets: seq<nat>, i8count: Byte, parent: nat, rest: seq<Byte>)
    requires |core| == CORE && |es| < 256 && AllWritable(es, offsets, i8count != 0) && InoFits(parent, i8count != 0)
    ensures LocalEntries(core + ShortForm(es, offsets, i8count, parent) + rest) == Some(es)
  {
    var wide := i8count != 0;
    var form := ShortForm(es, offsets, i8count, parent);
    var b := core + form + rest;
    var at := CORE + 2 + Width(wide);
    assert b[CORE] == form[0] == |es| && b[CORE + 1] == form[1] == i8count;
    assert form[2 + Width(wide)..] == EntriesBytes(es, offsets, wide);
    assert b[at..] == form[2 + Width(wide)..] + rest;
    EntriesRead(b, at, es, offsets, wide, rest);
  }

  lemma EntriesStep(b: seq<Byte>, at: nat, n: nat, wide: bool)
    requires n > 0
    ensures !EntryFits(b, at, wide) ==> EntriesAt(b, at, n, wide) == None
    ensures EntryFits(b, at, wide) ==>
              EntriesAt(b, at, n, wide) == Prepended([EntryAt(b, at, wide)], EntriesAt(b, EntryEnd(b, at, wide), n - 1, wide))
  {
  }

  function Prepended(front: seq<Entry>, rest: Option<seq<Entry>>): Option<seq<Entry>> {
    if rest.None? then None else Some(front + rest.value)
  }

  /**
    The decoding loop of `process_dinode_dir_local`: a cursor over the inode's bytes.  Nothing is
    returned when it leaves the inode; the source goes on behind it.
   */
  method DecodeLocal(dinode: seq<Byte>) returns (es: Option<seq<Entry>>)
    ensures es == LocalEntries(dinode)
  {
    if |dinode| < CORE + 2 {
      return None;
    }
    var wide := dinode[CORE + 1] != 0;
    es := DecodeEntries(dinode, CORE + 2 + if wide then 8 else 4, dinode[CORE], wide);
  }

  method DecodeEntries(dinode: seq<Byte>, start: nat, count: nat, wide: bool) returns (r: Option<seq<Entry>>)
    ensures r == EntriesAt(dinode, start, count, wide)
  {
    hide EntriesAt, EntryAt, Be64, Be32, EntryFits;
    var cursor: nat, es: seq<Entry> := start, [];
    PrependedNothing(EntriesAt(dinode, start, count, wide));
    for i := 0 to count
      invariant EntriesAt(dinode, start, count, wide) == Prepended(es, EntriesAt(dinode, cursor, count - i, wide))
    {
      EntriesStep(dinode, cursor, count - i, wide);
      if !EntryFits(dinode, cursor, wide) {
        return None;
      }
      var entry, next := DecodeOne(dinode, cursor, wide);
      PrependedTwice(es, [entry], EntriesAt(dinode, next, count - i - 1, wide));
      es, cursor := es + [entry], next;
    }
    NoEntries(dinode, cursor, wide);
    assert es + [] == es;
    return Some(es);
  }

  lemma PrependedNothing(rest: Option<seq<Entry>>)
    ensures Prepended([], rest) == rest
  {
    if rest.Some? {
      assert [] + rest.value == rest.value;
    }
  }

  lemma PrependedTwice(a: seq<Entry>, b: seq<Entry>, rest: Option<seq<Entry>>)
    ensures Prepended(a, Prepended(b, rest)) == Prepended(a + b, rest)
  {
    if rest.Some? {
      Concat(a, b, rest.value);
    }
  }

  lemma NoEntries(b: seq<Byte>, at: nat, wide: bool)
    ensures EntriesAt(b, at, 0, wide) == Some([])
  {
  }

  method DecodeOne(dinode: seq<Byte>, cursor: nat, wide: bool) returns (entry: Entry, next: nat)
    requires EntryFits(dinode, cursor, wide)
    ensures entry == EntryAt(dinode, cursor, wide) && next == EntryEnd(dinode, cursor, wide)
  {
    var namelen: nat := dinode[cursor];
    next := cursor + 1 + 2;
    var name := dinode[next..next + namelen];
    next := next + namelen;
    var ftype := dinode[next];
    next := next + 1;
    var ino;
    if wide {
      ino := Be64(dinode[next..next + 8]);
      next := next + 8;
    } else {
      ino := Be32(dinode[next..next + 4]);
      next := next + 4;
    }
    entry := Entry(name, ftype, ino);
  }

  // ----- Data blocks ----------------------------------------------------------------------------

  const DATA_HEADER: nat := 64
  const FREE_TAG: nat := 0xffff

  /** A record of a data block: a live entry, or unused space of a given length. */
  datatype Slot = Live(entry: Entry, nbytes: nat) | Unused(length: nat)

  function RoundUp8(n: nat): (r: nat)
    ensures n <= r < n + 8 && r % 8 == 0
  {
    (n + 7) / 8 * 8
  }

  /** `decode_dentry` */
  function DecodeDentry(b: seq<Byte>, at: nat): Slot {
    if Be16(Padded(b, at, 2)) == FREE_TAG then Unused(Be16(Padded(b, at + 2, 2)))
    else
      var n: nat := Padded(b, at + 8, 1)[0];
      Live(Entry(Padded(b, at + 9, n), Padded(b, at + 9 + n, 1)[0], Be64(Padded(b, at, 8))), RoundUp8(12 + n))
  }

  /** How far `decode_dentry` reads. */
  function DentryEnd(s: Slot, at: nat): nat {
    match s
    case Unused(_) => at + 4
    case Live(e, _) => at + 10 + |e.name|
  }

  /**
    The entries that the scan of a block finds: it ends at the first unused or empty record.  Nothing
    if a record runs past the buffer, which is cleared behind the block.
   */
  function Scan(b: seq<Byte>, at: nat): Option<seq<Entry>>
    decreases |b| - at
  {
    if at >= |b| then Some([])
    else
      var slot := DecodeDentry(b, at);
      if DentryEnd(slot, at) > BLOCK_MAX then None
      else
        match slot
        case Unused(_) => Some([])
        case Live(e, nbytes) =>
          if e.ino == 0 || e.name == [] then Some([]) else Prepended([e], Scan(b, at + nbytes))
  }

  predicate Storable(e: Entry) {
    0 < e.ino < 0xffff_0000_0000_0000 && 0 < |e.name| < 256
  }

  /** Inode number, namelen, name, ftype, and the tag and padding. */
  function DataEntryBytes(e: Entry, tag: seq<Byte>): (b: seq<Byte>)
    requires Storable(e) && |tag| == RoundUp8(12 + |e.name|) - (10 + |e.name|)
    ensures |b| == RoundUp8(12 + |e.name|)
  {
    To64(e.ino) + [|e.name|] + e.name + [e.ftype] + tag
  }

  lemma NotFree(ino: nat)
    requires ino < 0xffff_0000_0000_0000
    ensures Be16(To64(ino)[..2]) < FREE_TAG
  {
    var high := ino / 0x1_0000_0000;
    assert To64(ino)[..2] == To32(high)[..2] == To16(high / 0x1_0000);
    Be16Inverts(high / 0x1_0000);
  }

  lemma DataEntryParts(e: Entry, tag: seq<Byte>)
    requires Storable(e) && |tag| == RoundUp8(12 + |e.name|) - (10 + |e.name|)
    ensures var bytes, n := DataEntryBytes(e, tag), |e.name|;
            && bytes[0..8] == To64(e.ino) && bytes[0..2] == To64(e.ino)[..2]
            && bytes[8..9] == [n] && bytes[9..9 + n] == e.name && bytes[9 + n..10 + n] == [e.ftype]
  {
    hide To64;
  }

  /** A live entry is decoded to what was stored, with its length rounded up to 8 bytes. */
  lemma DentryInverts(b: seq<Byte>, at: nat, e: Entry, tag: seq<Byte>, rest: seq<Byte>)
    requires Storable(e) && |tag| == RoundUp8(12 + |e.name|) - (10 + |e.name|)
    requires at <= |b| && b[at..] == DataEntryBytes(e, tag) + rest
    ensures DecodeDentry(b, at) == Live(e, RoundUp8(12 + |e.name|))
    ensures at + RoundUp8(12 + |e.name|) <= |b| && b[at + RoundUp8(12 + |e.name|)..] == rest
  {
    var n := |e.name|;
    var bytes := DataEntryBytes(e, tag);
    DataEntryParts(e, tag);
    PaddedPiece(b, at, bytes, rest, 0, 2);
    PaddedPiece(b, at, bytes, rest, 0, 8);
    PaddedPiece(b, at, bytes, rest, 8, 9);
    PaddedPiece(b, at, bytes, rest, 9, 9 + n);
    PaddedPiece(b, at, bytes, rest, 9 + n, 10 + n);
    NotFree(e.ino);
    Be64Inverts(e.ino);
    hide DataEntryBytes, Padded, To64, Be64, Be16, RoundUp8;
  }

  lemma PaddedPiece(b: seq<Byte>, at: nat, bytes: seq<Byte>, rest: seq<Byte>, i: nat, j: nat)
    requires at <= |b| && b[at..] == bytes + rest && i <= j <= |bytes|
    ensures Padded(b, at + i, j - i) == bytes[i..j]
    ensures |b| == at + |bytes| + |rest| && b[at + |bytes|..] == rest
  {
    Piece(b, at, bytes, rest, i, j);
    PaddedInside(b, at + i, j - i);
  }

  lemma ScanStep(b: seq<Byte>, at: nat, e: Entry, nbytes: nat)
    requires at < |b| && DecodeDentry(b, at) == Live(e, nbytes) && e.ino != 0 && e.name != [] && at + 10 + |e.name| <= BLOCK_MAX
    ensures Scan(b, at) == Prepended([e], Scan(b, at + nbytes))
  {
    hide DecodeDentry;
  }

  /** Unused space ends the scan. */
  lemma ScanEndsAtFree(b: seq<Byte>, at: nat, rest: seq<Byte>)
    requires at <= |b| <= BLOCK_MAX && b[at..] == rest && |rest| >= 4 && Be16(rest[..2]) == FREE_TAG
    ensures Scan(b, at) == Some([])
  {
    assert rest == rest + [];
    PaddedPiece(b, at, rest, [], 0, 2);
    assert rest[0..2] == rest[..2];
  }

  // ----- The end of a block-format directory ----------------------------------------------------

  /** An entry of the array that a directory of one block has at its end, sorted by hash. */
  datatype Leaf = Leaf(hash: nat, address: nat)

  /** The hashes of the two entries that every directory has. */
  const DOT_HASH: nat := 0x2e
  const DOTDOT_HASH: nat := 0x172e

  predicate IsLeafArray(ls: seq<Leaf>) {
    && (forall i :: 0 <= i < |ls| ==> ls[i].hash < 0x1_0000_0000 && ls[i].address < 0x1_0000_0000)
    && (forall i, j :: 0 <= i < j < |ls| ==> ls[i].hash <= ls[j].hash)
    && (exists i, j :: 0 <= i < |ls| && 0 <= j < |ls| && ls[i].hash == DOT_HASH && ls[j].hash == DOTDOT_HASH)
  }

  function LeafBytes(ls: seq<Leaf>): seq<Byte>
    requires forall i :: 0 <= i < |ls| ==> ls[i].hash < 0x1_0000_0000 && ls[i].address < 0x1_0000_0000
  {
    if ls == [] then [] else To32(ls[0].hash) + To32(ls[0].address) + LeafBytes(ls[1..])
  }

  /** The first two hashes are small: there are two that are. */
  lemma SmallHashes(ls: seq<Leaf>)
    requires IsLeafArray(ls)
    ensures |ls| >= 2 && ls[0].hash <= DOTDOT_HASH && ls[1].hash <= DOTDOT_HASH
  {
    var i, j :| 0 <= i < |ls| && 0 <= j < |ls| && ls[i].hash == DOT_HASH && ls[j].hash == DOTDOT_HASH;
    assert i != j;
    var k := if i < j then j else i;
    assert k >= 1 && ls[k].hash <= DOTDOT_HASH;
    assert k == 1 || ls[1].hash <= ls[k].hash;
    assert ls[0].hash <= ls[1].hash;
  }

  lemma SmallTop(x: nat)
    requires x < 0x100_0000
    ensures To32(x)[0] == 0
  {
  }

  lemma SmallHalf(x: nat)
    requires x < 0x1_0000
    ensures Be16(To32(x)[..2]) == 0
  {
    assert To32(x)[..2] == To16(0);
  }

  lemma LeafStarts(ls: seq<Leaf>, rest: seq<Byte>)
    requires IsLeafArray(ls)
    ensures var bytes := LeafBytes(ls) + rest; |bytes| >= 16 && Be16(bytes[..2]) == 0 && bytes[8] == 0
  {
    SmallHashes(ls);
    SmallHalf(ls[0].hash);
    SmallTop(ls[1].hash);
    hide Be16, To32, IsLeafArray;
    var bytes := LeafBytes(ls) + rest;
    assert LeafBytes(ls) == To32(ls[0].hash) + To32(ls[0].address) + LeafBytes(ls[1..]);
    assert LeafBytes(ls[1..]) == To32(ls[1].hash) + To32(ls[1].address) + LeafBytes(ls[1..][1..]);
    assert bytes[..2] == To32(ls[0].hash)[..2];
    assert bytes[8] == LeafBytes(ls[1..])[0] == To32(ls[1].hash)[0];
  }

  /** The leaf array ends the scan: what would be the length of a name in it is zero. */
  lemma ScanEndsAtLeaves(b: seq<Byte>, at: nat, ls: seq<Leaf>, rest: seq<Byte>)
    requires at <= |b| <= BLOCK_MAX && IsLeafArray(ls) && b[at..] == LeafBytes(ls) + rest
    ensures Scan(b, at) == Some([])
  {
    LeafStarts(ls, rest);
    var bytes := LeafBytes(ls) + rest;
    assert bytes == bytes + [];
    PaddedPiece(b, at, bytes, [], 0, 2);
    PaddedPiece(b, at, bytes, [], 8, 9);
    hide Be16, Be64, LeafBytes, IsLeafArray, Padded;
    assert bytes[0..2] == bytes[..2] && bytes[8..9][0] == bytes[8];
    var slot := DecodeDentry(b, at);
    assert slot.Live? && slot.entry.name == [];
  }

  // ----- Unused records -------------------------------------------------------------------------

  /** A record of a data block: an entry, or the bytes of unused space. */
  datatype Rec = Used(e: Entry, tag: seq<Byte>) | Free(bytes: seq<Byte>)

  predicate WellFormed(r: Rec) {
    match r
    case Used(e, tag) => Storable(e) && |tag| == RoundUp8(12 + |e.name|) - (10 + |e.name|)
    case Free(bytes) => |bytes| >= 4 && Be16(bytes[..2]) == FREE_TAG
  }

  predicate AllWellFormed(rs: seq<Rec>) {
    forall i :: 0 <= i < |rs| ==> WellFormed(rs[i])
  }

  function BytesOf(r: Rec): seq<Byte>
    requires WellFormed(r)
  {
    match r
    case Used(e, tag) => DataEntryBytes(e, tag)
    case Free(bytes) => bytes
  }

  function RecBytes(rs: seq<Rec>): seq<Byte>
    requires AllWellFormed(rs)
  {
    if rs == [] then [] else BytesOf(rs[0]) + RecBytes(rs[1..])
  }

  /** The entries of the block. */
  function Entries(rs: seq<Rec>): seq<Entry> {
    if rs == [] then [] else (if rs[0].Used? then [rs[0].e] else []) + Entries(rs[1..])
  }

  /** Those in front of the first unused record. */
  function Front(rs: seq<Rec>): seq<Entry> {
    if rs == [] || rs[0].Free? then [] else [rs[0].e] + Front(rs[1..])
  }

  /** No entry is behind an unused record. */
  predicate FreeLast(rs: seq<Rec>) {
    forall i, j :: 0 <= i < j < |rs| && rs[i].Free? ==> rs[j].Free?
  }

  lemma FreeStarts(rs: seq<Rec>, tail: seq<Byte>)
    requires rs != [] && AllWellFormed(rs) && rs[0].Free?
    ensures |RecBytes(rs) + tail| >= 4 && Be16((RecBytes(rs) + tail)[..2]) == FREE_TAG
  {
    hide Be16;
    assert WellFormed(rs[0]);
    assert (RecBytes(rs) + tail)[..2] == rs[0].bytes[..2];
  }

  lemma UsedStarts(rs: seq<Rec>, tail: seq<Byte>)
    requires rs != [] && AllWellFormed(rs) && rs[0].Used?
    ensures WellFormed(rs[0]) && AllWellFormed(rs[1..])
    ensures RecBytes(rs) + tail == DataEntryBytes(rs[0].e, rs[0].tag) + (RecBytes(rs[1..]) + tail)
  {
    hide DataEntryBytes;
  }

  /** What can follow the records of a block: nothing, or the leaf array and the two counts of a block-format directory. */
  ghost predicate IsTail(tail: seq<Byte>) {
    tail == [] || exists ls, rest :: IsLeafArray(ls) && tail == LeafBytes(ls) + rest
  }

  /** The scan finds the entries in front of the first unused record. */
  lemma {:induction false} ScanFindsFront(b: seq<Byte>, at: nat, rs: seq<Rec>, tail: seq<Byte>)
    requires AllWellFormed(rs) && at <= |b| <= BLOCK_MAX && b[at..] == RecBytes(rs) + tail && IsTail(tail)
    ensures Scan(b, at) == Some(Front(rs))
    decreases |rs|
  {
    hide DataEntryBytes, DecodeDentry, Scan, Be16, RoundUp8, BytesOf;
    if rs == [] {
      TailEnds(b, at, tail);
    } else if rs[0].Free? {
      FreeStarts(rs, tail);
      ScanEndsAtFree(b, at, RecBytes(rs) + tail);
    } else {
      UsedStarts(rs, tail);
      hide RecBytes, AllWellFormed, IsTail;
      var e := rs[0].e;
      DentryInverts(b, at, e, rs[0].tag, RecBytes(rs[1..]) + tail);
      assert 10 + |e.name| <= RoundUp8(12 + |e.name|);
      ScanStep(b, at, e, RoundUp8(12 + |e.name|));
      ScanFindsFront(b, at + RoundUp8(12 + |e.name|), rs[1..], tail);
    }
  }

  lemma TailEnds(b: seq<Byte>, at: nat, tail: seq<Byte>)
    requires at <= |b| <= BLOCK_MAX && b[at..] == tail && IsTail(tail)
    ensures Scan(b, at) == Some([])
  {
    hide DecodeDentry, LeafBytes;
    if tail != [] {
      var ls, rest :| IsLeafArray(ls) && tail == LeafBytes(ls) + rest;
      ScanEndsAtLeaves(b, at, ls, rest);
    }
  }

  lemma {:induction false} FrontIsPrefix(rs: seq<Rec>)
    ensures Front(rs) <= Entries(rs) && (Front(rs) == Entries(rs) <==> FreeLast(rs))
  {
    if rs != [] {
      FrontIsPrefix(rs[1..]);
      if rs[0].Used? {
        assert FreeLast(rs) <==> FreeLast(rs[1..]) by {
          FreeLastTail(rs);
        }
      } else {
        EntriesNone(rs[1..]);
        FreeFirst(rs);
      }
    }
  }

  lemma FreeLastTail(rs: seq<Rec>)
    requires rs != [] && rs[0].Used?
    ensures FreeLast(rs) <==> FreeLast(rs[1..])
  {
    if FreeLast(rs) {
      forall i, j | 0 <= i < j < |rs[1..]| && rs[1..][i].Free? ensures rs[1..][j].Free? {
        assert rs[i + 1].Free?;
      }
    }
    if FreeLast(rs[1..]) {
      forall i, j | 0 <= i < j < |rs| && rs[i].Free? ensures rs[j].Free? {
        assert rs[1..][i - 1].Free? && rs[1..][j - 1] == rs[j];
      }
    }
  }

  lemma {:induction false} EntriesNone(rs: seq<Rec>)
    ensures Entries(rs) == [] <==> forall j :: 0 <= j < |rs| ==> rs[j].Free?
  {
    if rs != [] {
      EntriesNone(rs[1..]);
      assert forall j :: 0 < j < |rs| ==> rs[j] == rs[1..][j - 1];
    }
  }

  lemma FreeFirst(rs: seq<Rec>)
    requires rs != [] && rs[0].Free?
    ensures FreeLast(rs) <==> forall j :: 0 <= j < |rs[1..]| ==> rs[1..][j].Free?
  {
    if FreeLast(rs) {
      forall j | 0 <= j < |rs[1..]| ensures rs[1..][j].Free? {
        assert rs[0].Free? && rs[j + 1] == rs[1..][j];
      }
    }
    if forall j :: 0 <= j < |rs[1..]| ==> rs[1..][j].Free? {
      forall j | 0 < j < |rs| ensures rs[j].Free? {
        assert rs[1..][j - 1] == rs[j];
      }
    }
  }

  /**
    A block is scanned in full exactly if no entry is behind an unused record, which removing entries
    leaves behind; otherwise the entries behind it are missed.
   */
  lemma ScanExact(header: seq<Byte>, rs: seq<Rec>, tail: seq<Byte>)
    requires |header| == DATA_HEADER && AllWellFormed(rs) && IsTail(tail) && |header + RecBytes(rs) + tail| <= BLOCK_MAX
    ensures var found := Scan(header + RecBytes(rs) + tail, DATA_HEADER);
            found.Some? && found.value <= Entries(rs) && (found.value == Entries(rs) <==> FreeLast(rs))
  {
    var b := header + RecBytes(rs) + tail;
    assert b[DATA_HEADER..] == RecBytes(rs) + tail;
    hide Scan, IsTail;
    ScanFindsFront(b, DATA_HEADER, rs, tail);
    FrontIsPrefix(rs);
  }
}
