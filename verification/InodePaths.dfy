/**
  Assembling the path of an inode from its chain of parents, and rebuilding the path map from the
  pool.  Assembly is modelled for every pool whatever it holds: each slot is read at most once, so
  an arbitrary pool stands for any sequence of torn reads.
 */
module InodePaths {
  import opened Names
  import opened Inodes
  import opened TreePaths
  import opened Lookup

  const ENAMETOOLONG: int := 36
  const ENOMEM: int := 12
  const INODE_PATH_MAXLEN: nat := 4096

  /** The `namelen` bytes that are copied out of the name field. */
  function NameBytes(s: Inode): (r: string)
    ensures |r| == s.namelen
  {
    if s.namelen <= |s.name| then s.name[..s.namelen]
    else s.name + seq(s.namelen - |s.name|, _ => '\0')
  }

  /** The path below the root, or nothing when a parent does not lie in front of its child. */
  function Chain(pool: seq<Inode>, i: nat): Option<string>
    requires i < |pool|
    decreases i
  {
    var p := pool[i].parent;
    if p == NONE then Some("")
    else if p >= i || p >= |pool| then None
    else
      var front := Chain(pool, p);
      if front.None? then None else Some(front.value + "/" + NameBytes(pool[i]))
  }

  /**
    `inode_path_assemble`: for any pool it ends, writes inside the buffer only, and appends the
    chain exactly when the chain is sound and fits with its terminator.
   */
  method Assemble(pool: seq<Inode>, i: nat, buf: array<char>, nbytes: nat) returns (err: int, n: nat)
    requires i < |pool| && nbytes < buf.Length
    modifies buf
    ensures buf[..nbytes] == old(buf[..nbytes])
    ensures Chain(pool, i).None? ==> err == -ESTALE
    ensures Chain(pool, i).Some? ==> err == if nbytes + |Chain(pool, i).value| + 1 <= buf.Length then 0 else -ENAMETOOLONG
    ensures err == 0 ==> n == nbytes + |Chain(pool, i).value| < buf.Length
    ensures err == 0 ==> buf[..n] == old(buf[..nbytes]) + Chain(pool, i).value
    ensures err == 0 && old(buf[nbytes]) == '\0' ==> buf[n] == '\0'
    decreases i
  {
    var parent, name := pool[i].parent, NameBytes(pool[i]);
    n := nbytes;
    if parent == NONE {
      return 0, n;
    }
    if i <= parent || parent >= |pool| {
      return -ESTALE, n;
    }
    err, n := Assemble(pool, parent, buf, nbytes);
    if err != 0 {
      return;
    }
    if n + 1 + |name| + 1 > buf.Length {
      return -ENAMETOOLONG, n;
    }
    AppendName(buf, n, name);
    n := n + 1 + |name|;
    assert buf[..nbytes] == buf[..n][..nbytes];
  }

  /** A slash, the name and a terminator. */
  method AppendName(buf: array<char>, n: nat, name: string)
    requires n + 1 + |name| + 1 <= buf.Length
    modifies buf
    ensures buf[..n + 1 + |name|] == old(buf[..n]) + "/" + name
    ensures buf[n + 1 + |name|] == '\0'
  {
    ghost var done := buf[..n];
    buf[n] := '/';
    for k := 0 to |name|
      invariant buf[..n + 1 + k] == done + "/" + name[..k]
    {
      buf[n + 1 + k] := name[k];
    }
    buf[n + 1 + |name|] := '\0';
    assert name[..|name|] == name;
  }

  /** The absolute path: the root of a tree without a base is called "/". */
  function FullPath(pool: seq<Inode>, i: nat, base: string): Option<string>
    requires i < |pool|
  {
    var c := Chain(pool, i);
    if c.None? then None else if base + c.value == "" then Some("/") else Some(base + c.value)
  }

  /** `xal_inode_path` between its two sequence readings. */
  method InodePath(pool: seq<Inode>, i: nat, base: string, buf: array<char>) returns (n: int)
    requires i < |pool| && buf.Length > 0
    modifies buf
    ensures n >= 0 ==> FullPath(pool, i, base).Some? && n < buf.Length && buf[..n] == FullPath(pool, i, base).value
    ensures n >= 0 <==> FullPath(pool, i, base).Some? && |FullPath(pool, i, base).value| + 1 <= buf.Length
    ensures n >= 0 ==> buf[n] == '\0'
  {
    if |base| + 1 > buf.Length {
      return -ENAMETOOLONG;
    }
    for k := 0 to |base|
      invariant buf[..k] == base[..k]
    {
      buf[k] := base[k];
    }
    buf[|base|] := '\0';
    assert buf[..|base|] == base;
    var err, len := Assemble(pool, i, buf, |base|);
    if err != 0 {
      return err;
    }
    if len == 0 {
      if buf.Length < 2 {
        return -ENAMETOOLONG;
      }
      buf[0], buf[1] := '/', '\0';
      assert buf[..1] == "/";
      return 1;
    }
    return len;
  }

  // ----- Round trip -----------------------------------------------------------------------------

  lemma ChainStep(pool: seq<Inode>, p: nat, c: nat)
    requires p < c < |pool| <= NONE && pool[c].parent == p && pool[c].namelen == |pool[c].name|
    requires Chain(pool, p).Some?
    ensures Chain(pool, c) == Some(Chain(pool, p).value + "/" + pool[c].name)
  {
    assert NameBytes(pool[c]) == pool[c].name;
  }

  /** The chain of a slot spells the names that lead to it. */
  lemma {:induction false} ChainSpells(pool: seq<Inode>, exts: seq<Extent>, i: nat, t: Tree, lo: nat, elo: nat,
                                       names: seq<string>, prefix: string)
    requires Encodes(pool, exts, i, t, lo, elo) && i < NONE
    requires Chain(pool, i) == Some(prefix)
    requires Locate(t, i, lo, names).At? && |pool| <= NONE
    ensures var s := Locate(t, i, lo, names).slot;
            s < |pool| && Chain(pool, s) == Some(prefix + Suffix(names))
    decreases |names|
  {
    hide Encodes, KidNamed, KidLo, KidExtents, Chain;
    if names == [] {
      assert prefix + Suffix([]) == prefix;
      InBounds(pool, exts, i, t, lo, elo);
    } else {
      SearchDir(pool, exts, i, t, lo, elo, names[0]);
      var k := KidNamed(t.kids, names[0]);
      EntryFields(pool, exts, i, t, lo, elo, k);
      ChainStep(pool, i, lo + k);
      ChainSpells(pool, exts, lo + k, t.kids[k].tree, KidLo(t, lo, k), elo + KidExtents(t.kids[..k]), names[1..],
                  prefix + "/" + names[0]);
      DeeperPath(prefix, names[0], names[1..]);
      assert [names[0]] + names[1..] == names;
    }
  }

  lemma InBounds(pool: seq<Inode>, exts: seq<Extent>, i: nat, t: Tree, lo: nat, elo: nat)
    requires Encodes(pool, exts, i, t, lo, elo)
    ensures i < |pool|
  {
  }

  lemma EntryFields(pool: seq<Inode>, exts: seq<Extent>, i: nat, t: Tree, lo: nat, elo: nat, k: nat)
    requires Encodes(pool, exts, i, t, lo, elo) && t.Dir? && k < |t.kids|
    ensures i < lo + k < |pool|
    ensures pool[lo + k].name == t.kids[k].name && pool[lo + k].namelen == |t.kids[k].name|
    ensures pool[lo + k].parent == i
  {
    KidEncoded(pool, exts, i, lo, t.kids, lo + |t.kids| + t.spare, elo, k);
  }

  lemma {:induction false} LocatedNames(t: Tree, i: nat, lo: nat, names: seq<string>)
    requires Proper(t) && Locate(t, i, lo, names).At?
    ensures forall c :: c in names ==> ValidName(c)
    decreases |names|
  {
    if names != [] {
      var k := KidNamed(t.kids, names[0]);
      LocatedNames(t.kids[k].tree, lo + k, KidLo(t, lo, k), names[1..]);
      assert names == [names[0]] + names[1..];
    }
  }

  /** Looking up the assembled path of an inode, in either mode, returns that inode. */
  lemma PathRoundTrip(pool: seq<Inode>, exts: seq<Extent>, t: Tree, base: string, names: seq<string>)
    requires Encodes(pool, exts, 0, t, 1, 0) && pool[0].parent == NONE && |pool| <= NONE
    requires Locate(t, 0, 1, names).At?
    ensures var s := Locate(t, 0, 1, names).slot;
            && s < |pool| && FullPath(pool, s, base).Some?
            && GetByTraversal(pool, 0, FullPath(pool, s, base).value, base) == Ok(s)
            && GetByMap(PathsOf(base, t, 0, 1), 0, FullPath(pool, s, base).value, base) == Ok(s)
  {
    ChainSpells(pool, exts, 0, t, 1, 0, names, "");
    assert "" + Suffix(names) == Suffix(names);
    EncodesProper(pool, exts, 0, t, 1, 0);
    LocatedNames(t, 0, 1, names);
    var path := base + Suffix(names);
    if names == [] {
      assert path == base;
    } else {
      SplitInvertsSuffix(names);
      SuffixNotBare(names);
      assert path[|base|..] == Suffix(names);
      assert UnderBase(path, base) == Some(Suffix(names));
      TraverseIsLocate(pool, exts, 0, t, 1, 0, names);
      MapAnswers(t, 0, 1, path, base);
    }
  }

  lemma SuffixNotBare(names: seq<string>)
    requires names != [] && forall c :: c in names ==> ValidName(c)
    ensures |Suffix(names)| > 1
  {
    assert names[0] in names;
  }

  /** Distinct inodes have distinct paths. */
  lemma PathsDistinct(pool: seq<Inode>, exts: seq<Extent>, t: Tree, base: string, a: seq<string>, b: seq<string>)
    requires Encodes(pool, exts, 0, t, 1, 0) && pool[0].parent == NONE && |pool| <= NONE
    requires Locate(t, 0, 1, a).At? && Locate(t, 0, 1, b).At? && Locate(t, 0, 1, a) != Locate(t, 0, 1, b)
    ensures var i, j := Locate(t, 0, 1, a).slot, Locate(t, 0, 1, b).slot;
            i < |pool| && j < |pool| && FullPath(pool, i, base) != FullPath(pool, j, base)
  {
    PathRoundTrip(pool, exts, t, base, a);
    PathRoundTrip(pool, exts, t, base, b);
  }

  /** A path that is found re-assembles to itself, up to a slash after the root. */
  lemma LookupReassembles(pool: seq<Inode>, exts: seq<Extent>, t: Tree, base: string, path: string)
    requires Encodes(pool, exts, 0, t, 1, 0) && pool[0].parent == NONE && |pool| <= NONE
    requires path != "" && Destination(t, 0, 1, path, base).Some? && Destination(t, 0, 1, path, base).value.At?
    ensures var s := Destination(t, 0, 1, path, base).value.slot;
            && GetByTraversal(pool, 0, path, base) == Ok(s) && s < |pool|
            && (FullPath(pool, s, base) == Some(path)
                || (s == 0 && path == base + "/" && FullPath(pool, s, base) == Some(base)))
  {
    var rest := UnderBase(path, base).value;
    if rest == "" || rest == "/" {
      assert base + "" == base;
      if rest == "" {
        assert path == base;
      } else if base == "" {
        assert path == "/";
      }
    } else {
      var names := Split(rest[1..]);
      SuffixInvertsSplit(rest[1..]);
      assert rest == "/" + rest[1..];
      TraverseIsLocate(pool, exts, 0, t, 1, 0, names);
      ChainSpells(pool, exts, 0, t, 1, 0, names, "");
      assert "" + Suffix(names) == Suffix(names);
    }
  }

  // ----- Rebuilding the path map ----------------------------------------------------------------

  lemma PathNotBelowItself(path: string, kids: seq<Kid>, base: nat, lo: nat)
    requires forall k :: 0 <= k < |kids| ==> ValidName(kids[k].name) && Proper(kids[k].tree)
    ensures path !in KidPaths(path, kids, base, lo)
  {
    if path in KidPaths(path, kids, base, lo) {
      var k, rest := KidMapLeads(path, kids, base, lo, path);
    }
  }

  lemma KidPathsPrefix(path: string, kids: seq<Kid>, base: nat, lo: nat, k: nat)
    requires k < |kids|
    ensures KidPaths(path, kids[..k + 1], base, lo)
         == KidPaths(path, kids[..k], base, lo) + PathsOf(path + "/" + kids[k].name, kids[k].tree, base + k, lo + KidSlots(kids[..k]))
  {
    assert kids[..k + 1][..k] == kids[..k];
  }

  lemma {:induction false} KidKeysIn(path: string, kids: seq<Kid>, base: nat, lo: nat, k: nat)
    requires k <= |kids|
    ensures KidPaths(path, kids[..k], base, lo).Keys <= KidPaths(path, kids, base, lo).Keys
    decreases |kids| - k
  {
    if k == |kids| {
      assert kids[..k] == kids;
    } else {
      KidPathsPrefix(path, kids, base, lo, k);
      KidKeysIn(path, kids, base, lo, k + 1);
    }
  }

  ghost predicate AllFit(m: map<string, nat>, size: nat) {
    forall p :: p in m ==> |p| + 1 <= size
  }

  /** The nodes of a tree, each of which takes one insertion. */
  function Nodes(t: Tree): nat {
    if t.Dir? then 1 + KidNodes(t.kids) else 1
  }

  function KidNodes(kids: seq<Kid>): nat {
    if kids == [] then 0 else KidNodes(kids[..|kids| - 1]) + Nodes(kids[|kids| - 1].tree)
  }

  lemma {:induction false} KidNodesPrefix(kids: seq<Kid>, k: nat)
    requires k < |kids|
    ensures KidNodes(kids[..k + 1]) == KidNodes(kids[..k]) + Nodes(kids[k].tree)
    ensures KidNodes(kids[..k + 1]) <= KidNodes(kids)
    decreases |kids|
  {
    assert kids[..k + 1][..k] == kids[..k];
    if k + 1 == |kids| {
      assert kids[..k + 1] == kids;
    } else {
      var n := |kids| - 1;
      KidNodesPrefix(kids[..n], k);
      assert kids[..n][..k + 1] == kids[..k + 1];
    }
  }

  /** The memory for the insertions from the `from`-th to before the `to`-th is there. */
  ghost predicate Granted(grants: nat -> bool, from: nat, to: nat) {
    forall k :: from <= k < to ==> grants(k)
  }

  /**
    `build_hashmap_walk`: one buffer for the whole walk, each key copied out before the next path is
    assembled over it.  It fails exactly if a path does not fit or an insertion gets no memory.
   */
  method BuildWalk(pool: seq<Inode>, i: nat, base: string, buf: array<char>, before: map<string, nat>,
                   grants: nat -> bool, calls: nat,
                   ghost exts: seq<Extent>, ghost t: Tree, ghost lo: nat, ghost elo: nat, ghost prefix: string)
    returns (err: int, m: map<string, nat>, made: nat)
    requires Encodes(pool, exts, i, t, lo, elo) && i < |pool| <= NONE && base != "" && buf.Length > 0
    requires Chain(pool, i) == Some(prefix)
    modifies buf
    ensures err <= 0
    ensures err == 0 ==> m == before + PathsOf(base + prefix, t, i, lo) && made == calls + Nodes(t)
    ensures err == 0 <==> AllFit(PathsOf(base + prefix, t, i, lo), buf.Length) && Granted(grants, calls, calls + Nodes(t))
    decreases t, 3
  {
    hide Encodes, Chain, KidPaths, Slots, KidSlots, Extents, KidExtents, KidNodes;
    ghost var path := base + prefix;
    m, made := before, calls;
    assert path in PathsOf(path, t, i, lo);
    var n := InodePath(pool, i, base, buf);
    if n < 0 {
      return n, m, made;
    }
    made := calls + 1;
    if !grants(calls) {
      return -ENOMEM, m, made;
    }
    NodeFields(pool, exts, i, t, lo, elo);
    m := before[buf[..n] := i];
    if pool[i].ftype == FT_DIR {
      PathNotBelowItself(path, t.kids, lo, lo + |t.kids| + t.spare);
      err, m, made := BuildKids(pool, i, base, buf, m, grants, made, exts, t, lo, elo, prefix, path);
      if err == 0 {
        AllBuilt(m, made, before[path := i], calls + 1, path, t, lo, buf.Length, grants);
        assert before[path := i] + KidPaths(path, t.kids, lo, lo + |t.kids| + t.spare)
            == before + KidPaths(path, t.kids, lo, lo + |t.kids| + t.spare)[path := i];
      }
    } else {
      assert before[path := i] == before + map[path := i];
      err := 0;
    }
  }

  lemma NodeFields(pool: seq<Inode>, exts: seq<Extent>, i: nat, t: Tree, lo: nat, elo: nat)
    requires Encodes(pool, exts, i, t, lo, elo)
    ensures i < |pool| && (pool[i].ftype == FT_DIR <==> t.Dir?) && Proper(t)
  {
    EncodesProper(pool, exts, i, t, lo, elo);
  }

  /** The first `k` entries are in the map, each insertion with its memory. */
  ghost predicate KidsBuilt(m: map<string, nat>, made: nat, before: map<string, nat>, calls: nat, path: string, t: Tree,
                            k: nat, lo: nat, size: nat, grants: nat -> bool)
    requires t.Dir? && k <= |t.kids|
  {
    var below := lo + |t.kids| + t.spare;
    && m == before + KidPaths(path, t.kids[..k], lo, below) && made == calls + KidNodes(t.kids[..k])
    && AllFit(KidPaths(path, t.kids[..k], lo, below), size) && Granted(grants, calls, made)
  }

  /** Every path below the directory fits, and every insertion gets its memory. */
  ghost predicate Buildable(path: string, t: Tree, lo: nat, size: nat, grants: nat -> bool, calls: nat)
    requires t.Dir?
  {
    AllFit(KidPaths(path, t.kids, lo, lo + |t.kids| + t.spare), size) && Granted(grants, calls, calls + KidNodes(t.kids))
  }

  lemma NoneBuilt(before: map<string, nat>, calls: nat, path: string, t: Tree, lo: nat, size: nat, grants: nat -> bool)
    requires t.Dir?
    ensures KidsBuilt(before, calls, before, calls, path, t, 0, lo, size, grants)
  {
    assert t.kids[..0] == [] && before + map[] == before;
  }

  /** The loop over the entries of a directory. */
  method BuildKids(pool: seq<Inode>, i: nat, base: string, buf: array<char>, before: map<string, nat>,
                   grants: nat -> bool, calls: nat,
                   ghost exts: seq<Extent>, ghost t: Tree, ghost lo: nat, ghost elo: nat, ghost prefix: string, ghost path: string)
    returns (err: int, m: map<string, nat>, made: nat)
    requires Encodes(pool, exts, i, t, lo, elo) && i < |pool| <= NONE && base != "" && buf.Length > 0 && t.Dir?
    requires Chain(pool, i) == Some(prefix) && path == base + prefix
    modifies buf
    ensures err <= 0
    ensures err == 0 ==> KidsBuilt(m, made, before, calls, path, t, |t.kids|, lo, buf.Length, grants)
    ensures err == 0 <==> Buildable(path, t, lo, buf.Length, grants, calls)
    decreases t, 2
  {
    SpanOf(pool, exts, i, t, lo, elo);
    NoneBuilt(before, calls, path, t, lo, buf.Length, grants);
    hide *;
    m, made, err := before, calls, 0;
    var span := pool[i].content;
    for k := 0 to span.count
      invariant err == 0 && KidsBuilt(m, made, before, calls, path, t, k, lo, buf.Length, grants)
    {
      err, m, made := BuildKid(pool, span.idx + k, base, buf, m, grants, made, before, calls, exts, i, t, lo, elo, prefix, path, k);
      if err != 0 {
        return;
      }
    }
    AllBuilt(m, made, before, calls, path, t, lo, buf.Length, grants);
  }

  lemma AllBuilt(m: map<string, nat>, made: nat, before: map<string, nat>, calls: nat, path: string, t: Tree,
                 lo: nat, size: nat, grants: nat -> bool)
    requires t.Dir? && KidsBuilt(m, made, before, calls, path, t, |t.kids|, lo, size, grants)
    ensures m == before + KidPaths(path, t.kids, lo, lo + |t.kids| + t.spare) && made == calls + KidNodes(t.kids)
    ensures Buildable(path, t, lo, size, grants, calls)
  {
    hide KidPaths, KidNodes, AllFit, Granted;
    assert t.kids[..|t.kids|] == t.kids;
  }

  lemma SpanOf(pool: seq<Inode>, exts: seq<Extent>, i: nat, t: Tree, lo: nat, elo: nat)
    requires Encodes(pool, exts, i, t, lo, elo) && t.Dir?
    ensures i < |pool| && pool[i].content.count == |t.kids| && (t.kids != [] ==> pool[i].content.idx == lo) && lo + |t.kids| <= |pool|
  {
    SearchDir(pool, exts, i, t, lo, elo, "");
  }

  /** One entry. */
  method BuildKid(pool: seq<Inode>, child: nat, base: string, buf: array<char>, m: map<string, nat>,
                  grants: nat -> bool, made: nat, ghost before: map<string, nat>, ghost calls: nat,
                  ghost exts: seq<Extent>, ghost i: nat, ghost t: Tree, ghost lo: nat, ghost elo: nat, ghost prefix: string,
                  ghost path: string, ghost k: nat)
    returns (err: int, m': map<string, nat>, made': nat)
    requires Encodes(pool, exts, i, t, lo, elo) && i < |pool| <= NONE && base != "" && buf.Length > 0 && t.Dir?
    requires Chain(pool, i) == Some(prefix) && path == base + prefix && k < |t.kids| && child == lo + k
    requires KidsBuilt(m, made, before, calls, path, t, k, lo, buf.Length, grants)
    modifies buf
    ensures err <= 0
    ensures err == 0 ==>
              KidsBuilt(m', made', before, calls, path, t, k + 1, lo, buf.Length, grants)
    ensures err != 0 ==> !Buildable(path, t, lo, buf.Length, grants, calls)
    decreases t, 0
  {
    hide Encodes, Chain, KidPaths, PathsOf, KidSlots, KidExtents, KidLo, KidNodes, Nodes, Granted, AllFit;
    ghost var below := lo + |t.kids| + t.spare;
    ghost var deeper := prefix + "/" + t.kids[k].name;
    ghost var more := PathsOf(base + deeper, t.kids[k].tree, lo + k, KidLo(t, lo, k));
    EntryFacts(pool, exts, i, t, lo, elo, k, base, prefix);
    KidNodesPrefix(t.kids, k);
    MapSumAssociative(before, KidPaths(path, t.kids[..k], lo, below), more);
    FitBoth(KidPaths(path, t.kids[..k], lo, below), more, buf.Length);
    FitPart(more, KidPaths(path, t.kids, lo, below), buf.Length);
    GrantedBoth(grants, calls, made, made + Nodes(t.kids[k].tree));
    GrantedBoth(grants, calls, made + Nodes(t.kids[k].tree), calls + KidNodes(t.kids));
    err, m', made' := BuildWalk(pool, child, base, buf, m, grants, made, exts, t.kids[k].tree, KidLo(t, lo, k),
                                elo + KidExtents(t.kids[..k]), deeper);
  }

  lemma MapSumAssociative(a: map<string, nat>, b: map<string, nat>, c: map<string, nat>)
    ensures a + b + c == a + (b + c)
  {
  }

  /** What the loop over the entries of a directory knows about the k-th one. */
  lemma EntryFacts(pool: seq<Inode>, exts: seq<Extent>, i: nat, t: Tree, lo: nat, elo: nat, k: nat,
                   base: string, prefix: string)
    requires Encodes(pool, exts, i, t, lo, elo) && t.Dir? && k < |t.kids|
    requires |pool| <= NONE && i < |pool| && Chain(pool, i) == Some(prefix)
    ensures Encodes(pool, exts, lo + k, t.kids[k].tree, KidLo(t, lo, k), elo + KidExtents(t.kids[..k]))
    ensures lo + k < |pool| && Chain(pool, lo + k) == Some(prefix + "/" + t.kids[k].name)
    ensures var below := lo + |t.kids| + t.spare;
            var more := PathsOf(base + (prefix + "/" + t.kids[k].name), t.kids[k].tree, lo + k, KidLo(t, lo, k));
            && KidPaths(base + prefix, t.kids[..k + 1], lo, below) == KidPaths(base + prefix, t.kids[..k], lo, below) + more
            && more.Keys <= KidPaths(base + prefix, t.kids, lo, below).Keys
  {
    hide Encodes, Chain, KidPaths, PathsOf, KidSlots, KidExtents;
    var path, below := base + prefix, lo + |t.kids| + t.spare;
    EntryFields(pool, exts, i, t, lo, elo, k);
    EntryEncoded(pool, exts, i, t, lo, elo, k);
    ChainStep(pool, i, lo + k);
    assert base + (prefix + "/" + t.kids[k].name) == path + "/" + t.kids[k].name;
    KidPathsPrefix(path, t.kids, lo, below, k);
    KidKeysIn(path, t.kids, lo, below, k + 1);
  }

  lemma FitPart(part: map<string, nat>, all: map<string, nat>, size: nat)
    requires part.Keys <= all.Keys
    ensures AllFit(all, size) ==> AllFit(part, size)
  {
  }

  lemma FitBoth(a: map<string, nat>, b: map<string, nat>, size: nat)
    ensures AllFit(a + b, size) <==> AllFit(a, size) && AllFit(b, size)
  {
    if AllFit(a + b, size) {
      forall p | p in a || p in b ensures |p| + 1 <= size {
        assert p in a + b;
      }
    }
  }

  lemma GrantedBoth(grants: nat -> bool, a: nat, b: nat, c: nat)
    requires a <= b <= c
    ensures Granted(grants, a, c) <==> Granted(grants, a, b) && Granted(grants, b, c)
  {
  }

  lemma EntryEncoded(pool: seq<Inode>, exts: seq<Extent>, i: nat, t: Tree, lo: nat, elo: nat, k: nat)
    requires Encodes(pool, exts, i, t, lo, elo) && t.Dir? && k < |t.kids|
    ensures Encodes(pool, exts, lo + k, t.kids[k].tree, KidLo(t, lo, k), elo + KidExtents(t.kids[..k]))
  {
    KidEncoded(pool, exts, i, lo, t.kids, lo + |t.kids| + t.spare, elo, k);
  }

  /**
    `xal_build_lookup_hashmap`: a dirty index is refused and keeps its map.  Otherwise the rebuilt
    map is the one the index filled, unless some path does not fit the buffer or memory runs out, and
    then there is no map.
   */
  method BuildLookupMap(pool: seq<Inode>, base: string, held: Option<map<string, nat>>, dirty: bool, mayInit: bool,
                        grants: nat -> bool, ghost exts: seq<Extent>, ghost t: Tree)
    returns (err: int, m: Option<map<string, nat>>)
    requires Encodes(pool, exts, 0, t, 1, 0) && |pool| <= NONE && pool[0].parent == NONE && base != ""
    ensures dirty ==> err == -ESTALE && m == held
    ensures err == 0 <==> !dirty && mayInit && AllFit(PathsOf(base, t, 0, 1), INODE_PATH_MAXLEN + 1) && Granted(grants, 0, Nodes(t))
    ensures !dirty ==> m == if err == 0 then Some(PathsOf(base, t, 0, 1)) else None
  {
    if dirty {
      return -ESTALE, held;
    }
    if !mayInit {
      return -ENOMEM, None;
    }
    var buf := new char[INODE_PATH_MAXLEN + 1](_ => '\0');
    var built: map<string, nat>, made: nat;
    assert base + "" == base;
    err, built, made := BuildWalk(pool, 0, base, buf, map[], grants, 0, exts, t, 1, 0, "");
    if err != 0 {
      return err, None;
    }
    assert map[] + PathsOf(base, t, 0, 1) == PathsOf(base, t, 0, 1);
    return 0, Some(built);
  }
}
