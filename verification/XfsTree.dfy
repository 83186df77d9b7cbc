/**
  Directory trees of an XFS filesystem: the inodes by number, the entries that are indexed, and what
  it means for a finite tree to be what the inodes describe.  Nothing here rules out cycles; a
  directory that reaches itself just has no such tree.
 */
module XfsTree {
  import opened Names
  import opened PoolMemory
  import opened Inodes
  import opened Sorting
  import opened XfsFormat

  const FT_MAX: nat := 9
  const ENOSYS: int := 38

  /** The type bits of `di_mode`. */
  datatype Mode = IsDir | IsReg | IsOther

  type Errcode = e: int | e != 0 witness -5

  /** A data block of a directory, or what keeps it from being read, or one with a foreign magic. */
  datatype Block = Failed(err: Errcode) | Foreign | Data(entries: seq<Inode>)

  datatype FileResult = Good(extents: seq<Extent>) | Bad(err: Errcode)

  /**
    What the data fork means, read as a directory or as a file.  `blocks` are the data blocks that the
    reader of a directory visits.  `junk` is what its result variable, which nothing sets if there are
    no extents, happens to hold.  `Unsupported` are the two formats that are refused, `Undefined` all
    values of `di_format` that the source does not know, `LocalOverrun` a short form that runs past the inode.
   */
  datatype Fork =
    | Local(entries: seq<Inode>)
    | Mapped(blocks: seq<Block>, result: FileResult, junk: int)
    | Btree(blocks: seq<Block>, result: FileResult)
    | Unsupported
    | Undefined
    | LocalOverrun

  datatype Dinode = Dinode(mode: Mode, ino: nat, size: nat, fork: Fork)

  type Disk = map<nat, Dinode>

  // ----- Which entries are kept -----------------------------------------------------------------

  datatype Verdict = Skip | Keep(ftype: nat) | Refuse(err: int)

  function TypeOfMode(m: Mode): nat {
    match m
    case IsDir => FT_DIR
    case IsReg => FT_REG
    case IsOther => 0
  }

  /** `_should_skip`: an unknown type is read from the inode's mode. */
  function Judge(d: Disk, e: Inode): Verdict {
    if e.ftype == 0 && e.ino !in d then Refuse(-EINVAL)
    else
      var ftype := if e.ftype == 0 then TypeOfMode(d[e.ino].mode) else e.ftype;
      if ftype >= FT_MAX then Refuse(-EINVAL)
      else if ftype != FT_DIR && ftype != FT_REG then Skip
      else Keep(ftype)
  }

  /** The kept entries, with their types. */
  function Kept(d: Disk, es: seq<Inode>): seq<Inode> {
    if es == [] then []
    else
      var n := |es| - 1;
      var v := Judge(d, es[n]);
      if v.Keep? then Kept(d, es[..n]) + [es[n].(ftype := v.ftype)] else Kept(d, es[..n])
  }

  predicate NoneRefused(d: Disk, es: seq<Inode>) {
    forall e :: e in es ==> !Judge(d, e).Refuse?
  }

  /** The entries of a block without the mandatory two. */
  function Undotted(es: seq<Inode>): seq<Inode> {
    if es == [] then []
    else
      var n := |es| - 1;
      if es[n].name == "." || es[n].name == ".." then Undotted(es[..n]) else Undotted(es[..n]) + [es[n]]
  }

  function BlockEntries(bs: seq<Block>): seq<Inode> {
    if bs == [] then []
    else
      var n := |bs| - 1;
      BlockEntries(bs[..n]) + if bs[n].Data? then Undotted(bs[n].entries) else []
  }

  /** The formats that a directory can be read in. */
  predicate Listed(f: Fork) {
    f.Local? || f.Mapped? || f.Btree?
  }

  /** No data block of the directory fails to be read. */
  predicate BlocksReadable(f: Fork) {
    f.Mapped? || f.Btree? ==> forall b :: b in f.blocks ==> !b.Failed?
  }

  /** What reading the directory returns once all its entries are processed. */
  function LastErr(f: Fork): int {
    if f.Mapped? && f.blocks == [] then f.junk else 0
  }

  /** The entries found in a directory, in order. */
  function Found(f: Fork): seq<Inode> {
    match f
    case Local(entries) => entries
    case Mapped(blocks, _, _) => BlockEntries(blocks)
    case Btree(blocks, _) => BlockEntries(blocks)
    case _ => []
  }

  /** Those of them that an index holds. */
  function Indexed(d: Disk, f: Fork): seq<Inode> {
    Kept(d, Found(f))
  }

  function InodeName(e: Inode): string {
    e.name
  }

  /** The entries in the order of the directory's span. */
  function Ordered(d: Disk, f: Fork): (es: seq<Inode>)
    ensures multiset(es) == multiset(Indexed(d, f))
  {
    Sort(Indexed(d, f), InodeName)
  }

  // ----- Trees ----------------------------------------------------------------------------------

  /** The tree is what inode `ino`, taken to be of type `ftype`, describes. */
  ghost predicate Unfolds(d: Disk, ino: nat, ftype: nat, t: Tree)
    decreases t, 1
  {
    && ino in d && t.ino == d[ino].ino && t.size == d[ino].size
    && match t
       case File(_, _, extents) =>
         ftype == FT_REG && (d[ino].fork.Mapped? || d[ino].fork.Btree?)
         && d[ino].fork.result == Good(extents)
       case Dir(_, _, kids, spare) =>
         ftype == FT_DIR && spare == 0 && Listed(d[ino].fork) && LastErr(d[ino].fork) == 0
         && BlocksReadable(d[ino].fork) && NoneRefused(d, Found(d[ino].fork)) && KidsUnfold(d, Ordered(d, d[ino].fork), kids)
  }

  ghost predicate KidsUnfold(d: Disk, es: seq<Inode>, kids: seq<Kid>)
    decreases kids, 0
  {
    |kids| == |es| &&
    forall k :: 0 <= k < |kids| ==> kids[k].name == es[k].name && Unfolds(d, es[k].ino, es[k].ftype, kids[k].tree)
  }

  /** The same, except that an inode of an undefined format passes for an empty one. */
  ghost predicate Reads(d: Disk, ino: nat, ftype: nat, t: Tree)
    decreases t, 1
  {
    && ino in d && t.ino == d[ino].ino && t.size == d[ino].size
    && match t
       case File(_, _, extents) =>
         ftype == FT_REG && (d[ino].fork.Mapped? || d[ino].fork.Btree? || d[ino].fork.Undefined?)
         && (!d[ino].fork.Undefined? ==> d[ino].fork.result == Good(extents))
         && (d[ino].fork.Undefined? ==> extents == [])
       case Dir(_, _, kids, spare) =>
         ftype == FT_DIR && spare == 0 && (Listed(d[ino].fork) || d[ino].fork.Undefined?) && LastErr(d[ino].fork) == 0
         && BlocksReadable(d[ino].fork) && NoneRefused(d, Found(d[ino].fork)) && KidsRead(d, Ordered(d, d[ino].fork), kids)
  }

  ghost predicate KidsRead(d: Disk, es: seq<Inode>, kids: seq<Kid>)
    decreases kids, 0
  {
    |kids| == |es| &&
    forall k :: 0 <= k < |kids| ==> kids[k].name == es[k].name && Reads(d, es[k].ino, es[k].ftype, kids[k].tree)
  }

  /** No inode that the tree goes through has an undefined format. */
  ghost predicate AllDefined(d: Disk, ino: nat, t: Tree)
    decreases t
  {
    && ino in d && !d[ino].fork.Undefined?
    && (t.Dir? ==>
          var es := Ordered(d, d[ino].fork);
          forall k :: 0 <= k < |t.kids| && k < |es| ==> AllDefined(d, es[k].ino, t.kids[k].tree))
  }

  /** What is read is what is described exactly if it goes through no undefined format. */
  lemma {:induction false} ReadsExact(d: Disk, ino: nat, ftype: nat, t: Tree)
    requires Reads(d, ino, ftype, t)
    ensures Unfolds(d, ino, ftype, t) <==> AllDefined(d, ino, t)
    decreases t
  {
    hide Ordered, NoneRefused, BlocksReadable;
    if t.Dir? {
      var es := Ordered(d, d[ino].fork);
      forall k | 0 <= k < |es| ensures Unfolds(d, es[k].ino, es[k].ftype, t.kids[k].tree) <==> AllDefined(d, es[k].ino, t.kids[k].tree) {
        ReadsExact(d, es[k].ino, es[k].ftype, t.kids[k].tree);
      }
    }
  }

  lemma {:induction false} UnfoldsReads(d: Disk, ino: nat, ftype: nat, t: Tree)
    requires Unfolds(d, ino, ftype, t)
    ensures Reads(d, ino, ftype, t)
    decreases t
  {
    hide Ordered, NoneRefused, BlocksReadable;
    if t.Dir? {
      var es := Ordered(d, d[ino].fork);
      forall k | 0 <= k < |es| ensures Reads(d, es[k].ino, es[k].ftype, t.kids[k].tree) {
        UnfoldsReads(d, es[k].ino, es[k].ftype, t.kids[k].tree);
      }
    }
  }

  /** A directory of an undefined format describes nothing, and is read as an empty one. */
  lemma UndefinedIsEmpty(d: Disk, ino: nat, t: Tree)
    requires ino in d && d[ino].fork.Undefined?
    ensures Reads(d, ino, FT_DIR, t) <==> t == Dir(d[ino].ino, d[ino].size, [], 0)
    ensures !Unfolds(d, ino, FT_DIR, t)
  {
    SortMembers(Indexed(d, d[ino].fork), InodeName);
  }

  /**
    The names in each directory of `dirs` are distinct and are file names, and its directories are in
    `dirs` too: what is reached as a directory from one of them has good names.
   */
  ghost predicate NamesOk(d: Disk, dirs: set<nat>) {
    forall ino :: ino in dirs && ino in d ==> DirNamed(d, dirs, Indexed(d, d[ino].fork))
  }

  ghost predicate DirNamed(d: Disk, dirs: set<nat>, es: seq<Inode>) {
    Distinct(es, InodeName) && AllNamed(es) && AllWithin(es, dirs)
  }

  predicate AllWithin(es: seq<Inode>, dirs: set<nat>) {
    forall e :: e in es && e.ftype == FT_DIR ==> e.ino in dirs
  }

  ghost predicate AllNamed(es: seq<Inode>) {
    forall e :: e in es ==> ValidName(e.name) && e.namelen == |e.name| && e.content == Span(0, 0)
  }

  predicate AllTyped(es: seq<Inode>) {
    forall e :: e in es ==> e.ftype == FT_DIR || e.ftype == FT_REG
  }

  lemma {:induction false} KeptTyped(d: Disk, es: seq<Inode>)
    ensures AllTyped(Kept(d, es))
  {
    if es != [] {
      KeptTyped(d, es[..|es| - 1]);
    }
  }

  lemma SpanSorted(d: Disk, dirs: set<nat>, ino: nat)
    requires NamesOk(d, dirs) && ino in d && ino in dirs
    ensures var es := Ordered(d, d[ino].fork); Sorted(es, InodeName) && AllNamed(es) && AllTyped(es) && AllWithin(es, dirs)
  {
    assert DirNamed(d, dirs, Indexed(d, d[ino].fork));
    KeptTyped(d, Found(d[ino].fork));
    SortSorts(Indexed(d, d[ino].fork), InodeName);
    SortMembers(Indexed(d, d[ino].fork), InodeName);
  }

  /** Every directory of `c` holds an entry for a directory of `c`. */
  ghost predicate Cyclic(d: Disk, c: set<nat>) {
    forall ino :: ino in c && ino in d ==> HasEntryIn(Ordered(d, d[ino].fork), c)
  }

  ghost predicate HasEntryIn(es: seq<Inode>, c: set<nat>) {
    exists k :: 0 <= k < |es| && es[k].ftype == FT_DIR && es[k].ino in c
  }

  /** A directory on a cycle has no tree, so an index that reaches one cannot succeed. */
  lemma {:induction false} NoTreeOnCycle(d: Disk, c: set<nat>, ino: nat, t: Tree)
    requires Cyclic(d, c) && ino in c
    ensures !Reads(d, ino, FT_DIR, t)
    decreases t
  {
    if Reads(d, ino, FT_DIR, t) {
      var es := Ordered(d, d[ino].fork);
      assert HasEntryIn(es, c) && KidsRead(d, es, t.kids);
      var k :| 0 <= k < |es| && es[k].ftype == FT_DIR && es[k].ino in c;
      NoTreeOnCycle(d, c, es[k].ino, t.kids[k].tree);
    }
  }

  /** What the inodes are read as is unique. */
  lemma {:induction false} ReadsUnique(d: Disk, ino: nat, ftype: nat, t: Tree, u: Tree)
    requires Reads(d, ino, ftype, t) && Reads(d, ino, ftype, u)
    ensures t == u
    decreases t
  {
    if t.Dir? {
      var es := Ordered(d, d[ino].fork);
      forall k | 0 <= k < |es| ensures t.kids[k] == u.kids[k] {
        ReadsUnique(d, es[k].ino, es[k].ftype, t.kids[k].tree, u.kids[k].tree);
      }
      assert t.kids == u.kids;
    }
  }
}
