/**
  Paths of an encoded tree: the path-to-slot map, and the slot a list of names leads to.
 */
module TreePaths {
  import opened Names
  import opened Inodes

  /** Every path at or below `path`, with the slot of what it names. */
  function PathsOf(path: string, t: Tree, i: nat, lo: nat): map<string, nat>
    decreases t, 1
  {
    match t
    case File(_, _, _) => map[path := i]
    case Dir(_, _, kids, spare) => KidPaths(path, kids, lo, lo + |kids| + spare)[path := i]
  }

  function KidPaths(path: string, kids: seq<Kid>, base: nat, lo: nat): map<string, nat>
    decreases kids, 0
  {
    if kids == [] then map[]
    else
      var n := |kids| - 1;
      KidPaths(path, kids[..n], base, lo)
        + PathsOf(path + "/" + kids[n].name, kids[n].tree, base + n, lo + KidSlots(kids[..n]))
  }

  // ----- Following names ------------------------------------------------------------------------

  /** Where a list of names leads: to a slot, nowhere, or to a regular file with names left over. */
  datatype Where = At(slot: nat) | Nowhere | ThroughFile

  function KidNamed(kids: seq<Kid>, name: string): (k: nat)
    ensures k <= |kids|
    ensures k < |kids| ==> kids[k].name == name
    ensures k == |kids| ==> forall j :: 0 <= j < |kids| ==> kids[j].name != name
  {
    if kids == [] then 0
    else if kids[0].name == name then 0
    else KidNamed(kids[1..], name) + 1
  }

  function KidLo(t: Tree, lo: nat, k: nat): nat
    requires t.Dir? && k <= |t.kids|
  {
    lo + |t.kids| + t.spare + KidSlots(t.kids[..k])
  }

  function Locate(t: Tree, i: nat, lo: nat, names: seq<string>): Where
    decreases |names|
  {
    if names == [] then At(i)
    else match t
      case File(_, _, _) => ThroughFile
      case Dir(_, _, kids, _) =>
        var k := KidNamed(kids, names[0]);
        if k == |kids| then Nowhere
        else Locate(kids[k].tree, lo + k, KidLo(t, lo, k), names[1..])
  }

  /** Sorted directories and names an entry can have, all the way down. */
  ghost predicate Proper(t: Tree) {
    t.Dir? ==> SortedKids(t.kids) && forall k :: 0 <= k < |t.kids| ==> ValidName(t.kids[k].name) && Proper(t.kids[k].tree)
  }

  lemma {:induction false} EncodesProper(pool: seq<Inode>, exts: seq<Extent>, i: nat, t: Tree, lo: nat, elo: nat)
    requires Encodes(pool, exts, i, t, lo, elo)
    ensures Proper(t)
    decreases t, 1
  {
    if t.Dir? {
      forall k | 0 <= k < |t.kids| ensures ValidName(t.kids[k].name) && Proper(t.kids[k].tree) {
        KidEncoded(pool, exts, i, lo, t.kids, lo + |t.kids| + t.spare, elo, k);
        EncodesProper(pool, exts, lo + k, t.kids[k].tree, KidLo(t, lo, k), elo + KidExtents(t.kids[..k]));
      }
    }
  }

  /** The k-th entry of an encoded directory. */
  lemma {:induction false} KidEncoded(pool: seq<Inode>, exts: seq<Extent>, p: nat, base: nat, kids: seq<Kid>, lo: nat, elo: nat, k: nat)
    requires KidsEncoded(pool, exts, p, base, kids, lo, elo) && k < |kids|
    ensures Encodes(pool, exts, base + k, kids[k].tree, lo + KidSlots(kids[..k]), elo + KidExtents(kids[..k]))
    ensures pool[base + k].name == kids[k].name && pool[base + k].namelen == |kids[k].name|
    ensures pool[base + k].parent == p && ValidName(kids[k].name)
  {
    var n := |kids| - 1;
    if k < n {
      KidEncoded(pool, exts, p, base, kids[..n], lo, elo, k);
      assert kids[..n][..k] == kids[..k];
    }
  }

  lemma NamedKidUnique(kids: seq<Kid>, k: nat)
    requires SortedKids(kids) && k < |kids|
    ensures KidNamed(kids, kids[k].name) == k
  {
    LessIrreflexive(kids[k].name);
  }

  // ----- The map holds exactly the paths that lead somewhere ------------------------------------

  ghost predicate NoSlashes(names: seq<string>) {
    forall c :: c in names ==> !HasSlash(c)
  }

  lemma DeeperPath(path: string, name: string, rest: seq<string>)
    ensures path + "/" + name + Suffix(rest) == path + Suffix([name] + rest)
  {
    assert ([name] + rest)[1..] == rest;
    assert path + "/" + name + Suffix(rest) == path + ("/" + name + Suffix(rest));
  }

  /** A name in front of the rest leads through the entry of that name. */
  lemma LocateStep(t: Tree, i: nat, lo: nat, k: nat, rest: seq<string>)
    requires Proper(t) && t.Dir? && k < |t.kids|
    ensures Locate(t, i, lo, [t.kids[k].name] + rest) == Locate(t.kids[k].tree, lo + k, KidLo(t, lo, k), rest)
  {
    NamedKidUnique(t.kids, k);
    assert ([t.kids[k].name] + rest)[1..] == rest;
  }

  lemma {:induction false} MapLeads(path: string, t: Tree, i: nat, lo: nat, key: string) returns (names: seq<string>)
    requires Proper(t) && key in PathsOf(path, t, i, lo)
    ensures key == path + Suffix(names) && NoSlashes(names)
    ensures Locate(t, i, lo, names) == At(PathsOf(path, t, i, lo)[key])
    decreases t, 1
  {
    hide Locate, KidPaths, HasSlash, KidSlots, ValidName;
    if key == path {
      names := [];
      assert path + Suffix([]) == path;
      StandStill(t, i, lo);
    } else {
      var k, rest := KidMapLeads(path, t.kids, lo, lo + |t.kids| + t.spare, key);
      names := [t.kids[k].name] + rest;
      assert ValidName(t.kids[k].name);
      ValidHasNoSlash(t.kids[k].name);
      LocateStep(t, i, lo, k, rest);
      DeeperPath(path, t.kids[k].name, rest);
    }
  }

  lemma StandStill(t: Tree, i: nat, lo: nat)
    ensures Locate(t, i, lo, []) == At(i)
  {
  }

  lemma ValidHasNoSlash(name: string)
    requires ValidName(name)
    ensures !HasSlash(name)
  {
  }

  lemma {:induction false} KidMapLeads(path: string, kids: seq<Kid>, base: nat, lo: nat, key: string)
    returns (k: nat, rest: seq<string>)
    requires forall k :: 0 <= k < |kids| ==> ValidName(kids[k].name) && Proper(kids[k].tree)
    requires key in KidPaths(path, kids, base, lo)
    ensures k < |kids| && NoSlashes(rest)
    ensures key == path + "/" + kids[k].name + Suffix(rest)
    ensures Locate(kids[k].tree, base + k, lo + KidSlots(kids[..k]), rest) == At(KidPaths(path, kids, base, lo)[key])
    decreases kids, 0
  {
    hide Locate, HasSlash, KidSlots, Proper, Suffix, PathsOf;
    var n := |kids| - 1;
    var last := PathsOf(path + "/" + kids[n].name, kids[n].tree, base + n, lo + KidSlots(kids[..n]));
    if key in last {
      k := n;
      rest := MapLeads(path + "/" + kids[n].name, kids[n].tree, base + n, lo + KidSlots(kids[..n]), key);
    } else {
      k, rest := KidMapLeads(path, kids[..n], base, lo, key);
      assert kids[..n][..k] == kids[..k];
    }
  }

  lemma {:induction false} LeadsToKey(path: string, t: Tree, i: nat, lo: nat, names: seq<string>)
    requires Locate(t, i, lo, names).At?
    ensures path + Suffix(names) in PathsOf(path, t, i, lo)
    decreases |names|
  {
    hide KidPaths, KidSlots;
    if names == [] {
      assert path + Suffix([]) == path;
    } else {
      var k := KidNamed(t.kids, names[0]);
      LeadsToKey(path + "/" + names[0], t.kids[k].tree, lo + k, KidLo(t, lo, k), names[1..]);
      DeeperPath(path, names[0], names[1..]);
      assert [names[0]] + names[1..] == names;
      KidKeyIn(path, t.kids, lo, lo + |t.kids| + t.spare, k, path + Suffix(names));
    }
  }

  lemma {:induction false} KidKeyIn(path: string, kids: seq<Kid>, base: nat, lo: nat, k: nat, key: string)
    requires k < |kids|
    requires key in PathsOf(path + "/" + kids[k].name, kids[k].tree, base + k, lo + KidSlots(kids[..k]))
    ensures key in KidPaths(path, kids, base, lo)
    decreases |kids|
  {
    var n := |kids| - 1;
    if k < n {
      assert kids[..n][..k] == kids[..k];
      KidKeyIn(path, kids[..n], base, lo, k, key);
    }
  }

  lemma SuffixInjective(a: seq<string>, b: seq<string>)
    requires NoSlashes(a) && NoSlashes(b) && Suffix(a) == Suffix(b)
    ensures a == b
  {
    if a != [] {
      SplitInvertsSuffix(a);
    }
    if b != [] {
      SplitInvertsSuffix(b);
    }
  }

  /** Looking a path up in the map is following its names through the tree. */
  lemma MapIsLocate(path: string, t: Tree, i: nat, lo: nat, names: seq<string>)
    requires Proper(t) && NoSlashes(names)
    ensures path + Suffix(names) in PathsOf(path, t, i, lo) <==> Locate(t, i, lo, names).At?
    ensures Locate(t, i, lo, names).At? ==> PathsOf(path, t, i, lo)[path + Suffix(names)] == Locate(t, i, lo, names).slot
  {
    var key := path + Suffix(names);
    if Locate(t, i, lo, names).At? {
      LeadsToKey(path, t, i, lo, names);
    }
    if key in PathsOf(path, t, i, lo) {
      var found := MapLeads(path, t, i, lo, key);
      assert key[|path|..] == Suffix(names) && key[|path|..] == Suffix(found);
      SuffixInjective(names, found);
    }
  }

  // ----- Pre-order of the tree ------------------------------------------------------------------

  /** The slots of a tree in pre-order, each with its depth, by the shape of the tree alone. */
  function Visits(t: Tree, i: nat, lo: nat, depth: nat): seq<(nat, nat)>
    decreases t, 1
  {
    match t
    case File(_, _, _) => [(i, depth)]
    case Dir(_, _, kids, spare) => [(i, depth)] + KidVisits(kids, lo, lo + |kids| + spare, depth + 1)
  }

  function KidVisits(kids: seq<Kid>, base: nat, lo: nat, depth: nat): seq<(nat, nat)>
    decreases kids, 0
  {
    if kids == [] then []
    else
      var n := |kids| - 1;
      KidVisits(kids[..n], base, lo, depth) + Visits(kids[n].tree, base + n, lo + KidSlots(kids[..n]), depth)
  }

  /** Following the spans of an encoded pool visits the tree in pre-order. */
  lemma {:induction false} PreOrderIsVisits(pool: seq<Inode>, exts: seq<Extent>, i: nat, t: Tree, lo: nat, elo: nat, depth: nat)
    requires Encodes(pool, exts, i, t, lo, elo)
    ensures PreOrder(pool, i, depth) == Visits(t, i, lo, depth)
    decreases t, |pool| + 1
  {
    if t.Dir? {
      KidsPreOrder(pool, exts, i, t, lo, elo, depth, 0);
      assert t.kids[..0] == [];
      assert [] + PreOrderFrom(pool, i, 0, depth) == PreOrderFrom(pool, i, 0, depth);
    }
  }

  lemma {:induction false} KidsPreOrder(pool: seq<Inode>, exts: seq<Extent>, i: nat, t: Tree, lo: nat, elo: nat, depth: nat, j: nat)
    requires Encodes(pool, exts, i, t, lo, elo) && t.Dir? && j <= |t.kids|
    ensures KidVisits(t.kids[..j], lo, lo + |t.kids| + t.spare, depth + 1) + PreOrderFrom(pool, i, j, depth)
         == KidVisits(t.kids, lo, lo + |t.kids| + t.spare, depth + 1)
    decreases t, |t.kids| - j
  {
    hide Encodes, KidSlots, KidExtents, PreOrder, PreOrderFrom, KidVisits, Visits;
    var below := lo + |t.kids| + t.spare;
    NextEntry(pool, exts, i, t, lo, elo, depth, j);
    if j == |t.kids| {
      assert t.kids[..j] == t.kids;
    } else {
      PreOrderIsVisits(pool, exts, lo + j, t.kids[j].tree, below + KidSlots(t.kids[..j]), elo + KidExtents(t.kids[..j]), depth + 1);
      KidsPreOrder(pool, exts, i, t, lo, elo, depth, j + 1);
      KidVisitsStep(t.kids, lo, below, depth + 1, j);
      var done, here, rest := KidVisits(t.kids[..j], lo, below, depth + 1), PreOrder(pool, lo + j, depth + 1), PreOrderFrom(pool, i, j + 1, depth);
      assert done + here + rest == done + (here + rest);
    }
  }

  lemma KidVisitsStep(kids: seq<Kid>, base: nat, lo: nat, depth: nat, j: nat)
    requires j < |kids|
    ensures KidVisits(kids[..j + 1], base, lo, depth)
         == KidVisits(kids[..j], base, lo, depth) + Visits(kids[j].tree, base + j, lo + KidSlots(kids[..j]), depth)
  {
    assert kids[..j + 1][..j] == kids[..j];
  }

  /** The walk of an encoded directory goes on with its j-th entry, or is over. */
  lemma NextEntry(pool: seq<Inode>, exts: seq<Extent>, i: nat, t: Tree, lo: nat, elo: nat, depth: nat, j: nat)
    requires Encodes(pool, exts, i, t, lo, elo) && t.Dir? && j <= |t.kids|
    ensures i < |pool|
    ensures j == |t.kids| ==> PreOrderFrom(pool, i, j, depth) == []
    ensures j < |t.kids| ==>
              && lo + j < |pool|
              && PreOrderFrom(pool, i, j, depth) == PreOrder(pool, lo + j, depth + 1) + PreOrderFrom(pool, i, j + 1, depth)
              && Encodes(pool, exts, lo + j, t.kids[j].tree, lo + |t.kids| + t.spare + KidSlots(t.kids[..j]), elo + KidExtents(t.kids[..j]))
  {
    EntriesOf(pool, exts, i, t, lo, elo);
    WalkGoesOn(pool, i, j, depth);
    hide Encodes, KidsEncoded, KidSlots, KidExtents, PreOrder, PreOrderFrom, Slots, Extents;
    if j < |t.kids| {
      KidEncoded(pool, exts, i, lo, t.kids, lo + |t.kids| + t.spare, elo, j);
    }
  }

  lemma WalkGoesOn(pool: seq<Inode>, i: nat, j: nat, depth: nat)
    requires i < |pool|
    ensures var s := pool[i].content;
            && (j >= s.count ==> PreOrderFrom(pool, i, j, depth) == [])
            && (j < s.count && i < s.idx && s.idx + j < |pool| ==>
                  PreOrderFrom(pool, i, j, depth) == PreOrder(pool, s.idx + j, depth + 1) + PreOrderFrom(pool, i, j + 1, depth))
  {
    hide PreOrder;
  }

  lemma EntriesOf(pool: seq<Inode>, exts: seq<Extent>, i: nat, t: Tree, lo: nat, elo: nat)
    requires Encodes(pool, exts, i, t, lo, elo) && t.Dir?
    ensures i < lo && lo + |t.kids| + t.spare <= |pool| && pool[i].ftype == FT_DIR && pool[i].content.count == |t.kids|
    ensures t.kids != [] ==> pool[i].content.idx == lo
    ensures KidsEncoded(pool, exts, i, lo, t.kids, lo + |t.kids| + t.spare, elo)
  {
    hide KidsEncoded, KidSlots, KidExtents;
  }
}
