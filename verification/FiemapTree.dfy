/**
  A quiescent filesystem tree as readdir() and statx() present it, and the tree that an index of it
  should hold: directories and regular files only, no mount point, no snapshot directory in reflink
  mode, every directory sorted by name.
 */
module FiemapTree {
  import opened Names
  import Sorting
  import opened Inodes

  const SNAPSHOT_PREFIX: string := ".xal_snapshot."

  datatype DType = DtReg | DtDir | DtUnknown | DtOther

  /**
    `openErr`, if it is not zero, is the error with which a directory's watch, its opendir() or the memory
    for its names fails, or a file's open(), fstat() or ioctl().
   */
  datatype Fs =
    | FsDir(ino: nat, size: nat, ents: seq<Ent>, openErr: nat)
    | FsReg(ino: nat, size: nat, extents: seq<Extent>, openErr: nat)
    | FsOther(ino: nat, size: nat)

  /** A directory entry; statx() on it fails when `statErr` is not zero. */
  datatype Ent = Ent(name: string, dtype: DType, mountRoot: bool, statErr: nat, node: Fs)

  /** `_is_directory_member` */
  predicate IsMember(name: string) {
    name != "." && name != ".."
  }

  /** `_is_skipped`: what readdir() and one statx() tell. */
  predicate IsSkipped(e: Ent) {
    if e.dtype == DtReg then false
    else if e.dtype != DtDir && e.dtype != DtUnknown then true
    else if e.statErr != 0 then false
    else e.mountRoot || e.node.FsOther?
  }

  predicate IsSnapshotName(name: string) {
    SNAPSHOT_PREFIX <= name
  }

  predicate Listed(e: Ent, reflink: bool) {
    IsMember(e.name) && !IsSkipped(e) && !(reflink && IsSnapshotName(e.name))
  }

  /** Whether process_ino_fiemap() gives the entry a type; it skips mount points and special files. */
  predicate Kept(e: Ent) {
    !e.mountRoot && !e.node.FsOther?
  }

  // ----- The listing of a directory -------------------------------------------------------------

  function ListedOf(ents: seq<Ent>, reflink: bool): (r: seq<Ent>)
    ensures forall e :: e in r <==> e in ents && Listed(e, reflink)
  {
    if ents == [] then []
    else
      var n := |ents| - 1;
      assert ents == ents[..n] + [ents[n]];
      ListedOf(ents[..n], reflink) + if Listed(ents[n], reflink) then [ents[n]] else []
  }

  ghost predicate SortedEnts(s: seq<Ent>) {
    forall j, k :: 0 <= j < k < |s| ==> Less(s[j].name, s[k].name)
  }

  ghost predicate DistinctNames(s: seq<Ent>) {
    forall j, k :: 0 <= j < k < |s| ==> s[j].name != s[k].name
  }

  function EntName(e: Ent): string {
    e.name
  }

  /** `qsort(entries, n_entries, sizeof(*entries), compare_dirent)` */
  function SortEnts(s: seq<Ent>): (r: seq<Ent>)
    ensures multiset(r) == multiset(s)
    ensures |r| == |s|
  {
    Sorting.Sort(s, EntName)
  }

  lemma SortEntsSorted(s: seq<Ent>)
    requires DistinctNames(s)
    ensures SortedEnts(SortEnts(s))
  {
    Sorting.SortSorts(s, EntName);
  }

  lemma SortEntsMembers(s: seq<Ent>)
    ensures forall e :: e in SortEnts(s) <==> e in s
  {
    Sorting.SortMembers(s, EntName);
  }

  // ----- The tree an index of it holds ----------------------------------------------------------

  /** The entries in the order they are processed. */
  function Entries(d: Fs, reflink: bool): (r: seq<Ent>)
    requires d.FsDir?
    ensures forall e :: e in r <==> e in d.ents && Listed(e, reflink)
  {
    var l := ListedOf(d.ents, reflink);
    SortEntsMembers(l);
    SortEnts(l)
  }

  function Layout(n: Fs, reflink: bool): Tree
    requires !n.FsOther?
    decreases n, 1
  {
    match n
    case FsReg(ino, size, extents, _) => File(ino, size, extents)
    case FsDir(ino, size, _, _) =>
      var es := Entries(n, reflink);
      var kids := LayoutKids(n, es, reflink);
      Dir(ino, size, kids, |es| - |kids|)
  }

  function LayoutKids(d: Fs, es: seq<Ent>, reflink: bool): (kids: seq<Kid>)
    requires d.FsDir? && forall e :: e in es ==> e in d.ents
    ensures |kids| <= |es|
    decreases d, 0, |es|
  {
    if es == [] then []
    else
      var n := |es| - 1;
      assert es[n] in es;
      var front := LayoutKids(d, es[..n], reflink);
      if Kept(es[n]) then front + [Kid(es[n].name, Layout(es[n].node, reflink))] else front
  }

  /** An entry that belongs in the index. */
  ghost predicate Indexable(e: Ent, reflink: bool) {
    && IsMember(e.name) && !e.mountRoot && !e.node.FsOther?
    && !(reflink && IsSnapshotName(e.name))
  }

  ghost predicate HonestType(e: Ent) {
    && (e.dtype == DtReg ==> e.node.FsReg?)
    && (e.dtype == DtDir ==> e.node.FsDir?)
    && (e.dtype == DtOther ==> e.node.FsOther?)
  }

  /** What a filesystem guarantees about a directory and everything below it. */
  ghost predicate WellFormed(n: Fs) {
    n.FsDir? ==>
      && DistinctNames(n.ents)
      && forall e :: e in n.ents ==>
           && e.name != "" && !HasSlash(e.name) && HonestType(e)
           && WellFormed(e.node)
  }

  ghost predicate HasKid(kids: seq<Kid>, name: string) {
    exists k :: 0 <= k < |kids| && kids[k].name == name
  }

  ghost predicate ShowsEnt(e: Ent, kid: Kid, reflink: bool)
    decreases e
  {
    Indexable(e, reflink) && e.name == kid.name && Mirrors(e.node, kid.tree, reflink)
  }

  ghost predicate ShowsSome(ents: seq<Ent>, kid: Kid, reflink: bool)
    decreases ents
  {
    exists j :: 0 <= j < |ents| && ShowsEnt(ents[j], kid, reflink)
  }

  /**
    The tree is the filesystem with everything that is not indexed left out: each entry of the tree
    is an indexable entry of the directory, each indexable entry is there, and the order is strict.
   */
  ghost predicate Mirrors(n: Fs, t: Tree, reflink: bool)
    decreases n
  {
    match n
    case FsReg(ino, size, extents, _) => t == File(ino, size, extents)
    case FsOther(_, _) => false
    case FsDir(ino, size, ents, _) =>
      && t.Dir? && t.ino == ino && t.size == size
      && SortedKids(t.kids)
      && (forall k :: 0 <= k < |t.kids| ==> ShowsSome(ents, t.kids[k], reflink))
      && (forall j :: 0 <= j < |ents| && Indexable(ents[j], reflink) ==> HasKid(t.kids, ents[j].name))
  }

  lemma EntriesSorted(d: Fs, reflink: bool)
    requires d.FsDir? && DistinctNames(d.ents)
    ensures SortedEnts(Entries(d, reflink))
  {
    ListedDistinct(d.ents, reflink);
    SortEntsSorted(ListedOf(d.ents, reflink));
  }

  lemma {:induction false} ListedDistinct(ents: seq<Ent>, reflink: bool)
    requires DistinctNames(ents)
    ensures DistinctNames(ListedOf(ents, reflink))
  {
    if ents != [] {
      var n := |ents| - 1;
      ListedDistinct(ents[..n], reflink);
      forall e | e in ListedOf(ents[..n], reflink) ensures e.name != ents[n].name {
        assert e in ents[..n];
      }
    }
  }

  // ----- The layout is that tree ----------------------------------------------------------------

  ghost predicate FromEnt(e: Ent, kid: Kid, reflink: bool) {
    Kept(e) && kid == Kid(e.name, Layout(e.node, reflink))
  }

  ghost predicate FromSome(es: seq<Ent>, kid: Kid, reflink: bool) {
    exists e :: e in es && FromEnt(e, kid, reflink)
  }

  ghost predicate KidsFrom(es: seq<Ent>, kids: seq<Kid>, reflink: bool) {
    forall k :: 0 <= k < |kids| ==> FromSome(es, kids[k], reflink)
  }

  lemma {:induction false} LayoutKidsExact(d: Fs, es: seq<Ent>, reflink: bool)
    requires d.FsDir? && forall e :: e in es ==> e in d.ents
    ensures KidsFrom(es, LayoutKids(d, es, reflink), reflink)
    ensures forall e :: e in es && Kept(e) ==> HasKid(LayoutKids(d, es, reflink), e.name)
    decreases |es|
  {
    if es != [] {
      var n := |es| - 1;
      assert es[n] in es;
      LayoutKidsExact(d, es[..n], reflink);
      var front := LayoutKids(d, es[..n], reflink);
      var kids := LayoutKids(d, es, reflink);
      forall k | 0 <= k < |kids| ensures FromSome(es, kids[k], reflink) {
        if k < |front| {
          assert FromSome(es[..n], front[k], reflink);
          var e :| e in es[..n] && FromEnt(e, front[k], reflink);
          assert e in es && FromEnt(e, kids[k], reflink);
        } else {
          assert FromEnt(es[n], kids[k], reflink);
        }
      }
      forall e | e in es && Kept(e) ensures HasKid(kids, e.name) {
        if e in es[..n] {
          var k :| 0 <= k < |front| && front[k].name == e.name;
          assert kids[k].name == e.name;
        } else {
          assert e == es[n] && kids[|kids| - 1].name == e.name;
        }
      }
    }
  }

  lemma {:induction false} LayoutKidsSorted(d: Fs, es: seq<Ent>, reflink: bool)
    requires d.FsDir? && (forall e :: e in es ==> e in d.ents) && SortedEnts(es)
    ensures SortedKids(LayoutKids(d, es, reflink))
    decreases |es|
  {
    if es != [] {
      var n := |es| - 1;
      assert es[n] in es;
      LayoutKidsSorted(d, es[..n], reflink);
      LayoutKidsExact(d, es[..n], reflink);
      var front := LayoutKids(d, es[..n], reflink);
      forall k | 0 <= k < |front| ensures Less(front[k].name, es[n].name) {
        assert FromSome(es[..n], front[k], reflink);
        var e :| e in es[..n] && FromEnt(e, front[k], reflink);
      }
    }
  }

  lemma {:induction false} PlainKidsAt(kids: seq<Kid>, k: nat)
    requires k < |kids|
    ensures PlainKids(kids)[k] == Kid(kids[k].name, Plain(kids[k].tree))
  {
    if k < |kids| - 1 {
      PlainKidsAt(kids[..|kids| - 1], k);
    }
  }

  /** What the walk lays out, without its unused slots, is the filesystem with the rest left out. */
  lemma {:induction false} LayoutMirrors(n: Fs, reflink: bool)
    requires WellFormed(n) && !n.FsOther?
    ensures Mirrors(n, Plain(Layout(n, reflink)), reflink)
    decreases n, 1
  {
    if n.FsDir? {
      var es := Entries(n, reflink);
      var kids := LayoutKids(n, es, reflink);
      var plain := PlainKids(kids);
      EntriesSorted(n, reflink);
      LayoutKidsSorted(n, es, reflink);
      LayoutKidsExact(n, es, reflink);
      PlainKidsSorted(kids);
      KidsShown(n, es, kids, reflink);
      forall j | 0 <= j < |n.ents| && Indexable(n.ents[j], reflink)
        ensures HasKid(plain, n.ents[j].name)
      {
        IndexableListed(n, j, reflink);
        PlainHasKid(kids, n.ents[j].name);
      }
    }
  }

  lemma PlainHasKid(kids: seq<Kid>, name: string)
    requires HasKid(kids, name)
    ensures HasKid(PlainKids(kids), name)
  {
    var k :| 0 <= k < |kids| && kids[k].name == name;
    PlainKidsAt(kids, k);
  }

  lemma IndexableListed(n: Fs, j: nat, reflink: bool)
    requires WellFormed(n) && n.FsDir? && j < |n.ents| && Indexable(n.ents[j], reflink)
    ensures n.ents[j] in Entries(n, reflink) && Kept(n.ents[j])
  {
    assert n.ents[j] in n.ents;
  }

  lemma PlainKidsSorted(kids: seq<Kid>)
    requires SortedKids(kids)
    ensures SortedKids(PlainKids(kids))
  {
    forall j, k | 0 <= j < k < |kids|
      ensures Less(PlainKids(kids)[j].name, PlainKids(kids)[k].name)
    {
      PlainKidsAt(kids, j);
      PlainKidsAt(kids, k);
    }
  }

  lemma {:induction false} KidsShown(n: Fs, es: seq<Ent>, kids: seq<Kid>, reflink: bool)
    requires n.FsDir? && WellFormed(n)
    requires forall e :: e in es ==> e in n.ents && Listed(e, reflink)
    requires KidsFrom(es, kids, reflink)
    ensures forall k :: 0 <= k < |kids| ==> ShowsSome(n.ents, PlainKids(kids)[k], reflink)
    decreases n, 0
  {
    forall k | 0 <= k < |kids| ensures ShowsSome(n.ents, PlainKids(kids)[k], reflink) {
      assert FromSome(es, kids[k], reflink);
      var e :| e in es && FromEnt(e, kids[k], reflink);
      assert e in n.ents;
      LayoutMirrors(e.node, reflink);
      PlainKidsAt(kids, k);
      var j :| 0 <= j < |n.ents| && n.ents[j] == e;
      assert ShowsEnt(n.ents[j], PlainKids(kids)[k], reflink);
    }
  }
}
