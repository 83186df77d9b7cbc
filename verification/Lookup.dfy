/**
  Looking a path up: by binary search from the root, or in the path map.  Traversal is modelled for
  every pool whatever it holds, since a reader can meet a pool that is being rewritten.
 */
module Lookup {
  import opened Names
  import opened PoolMemory
  import opened Inodes
  import opened TreePaths

  const ENOENT: int := 2
  const EINVAL: int := 22
  const ESTALE: int := 116

  datatype Result = Ok(slot: nat) | Err(errno: int)

  /** `bsearch` with `compare_name_to_inode`, over `n` slots from `base`, the part [l, u) left. */
  function BSearch(pool: seq<Inode>, base: nat, l: nat, u: nat, key: string): (r: Option<nat>)
    requires l <= u && base + u <= |pool|
    ensures r.Some? ==> base + l <= r.value < base + u && pool[r.value].name == key
    decreases u - l
  {
    if l == u then None
    else
      var m := (l + u) / 2;
      if Less(key, pool[base + m].name) then BSearch(pool, base, l, m, key)
      else if key == pool[base + m].name then Some(base + m)
      else BSearch(pool, base, m + 1, u, key)
  }

  ghost predicate SortedSlots(pool: seq<Inode>, lo: nat, hi: nat)
    requires hi <= |pool|
  {
    forall c, d :: lo <= c < d < hi ==> Less(pool[c].name, pool[d].name)
  }

  lemma {:induction false} BSearchFinds(pool: seq<Inode>, base: nat, l: nat, u: nat, key: string, k: nat)
    requires l <= k < u && base + u <= |pool| && SortedSlots(pool, base + l, base + u)
    requires pool[base + k].name == key
    ensures BSearch(pool, base, l, u, key) == Some(base + k)
    decreases u - l
  {
    var m := (l + u) / 2;
    LessIrreflexive(key);
    if k < m {
      BSearchFinds(pool, base, l, m, key, k);
    } else if m < k {
      if Less(key, pool[base + m].name) {
        LessTransitive(pool[base + m].name, key, pool[base + m].name);
        LessIrreflexive(pool[base + m].name);
      }
      BSearchFinds(pool, base, m + 1, u, key, k);
    }
  }

  // ----- Traversal ------------------------------------------------------------------------------

  /** One round of the loop: it reads the span of a slot without asking for its type. */
  function Child(pool: seq<Inode>, search: nat, component: string): (r: Result)
    requires search < |pool|
    ensures r.Ok? ==> r.slot < |pool|
  {
    var s := pool[search].content;
    if s.count > 0 && (s.count > |pool| || s.idx > |pool| - s.count) then Err(-ESTALE)
    else if s.count == 0 then Err(-ENOENT)
    else
      var found := BSearch(pool, s.idx, 0, s.count, component);
      if found.None? then Err(-ENOENT) else Ok(found.value)
  }

  /** The loop of `search_by_traversal` over the components that are left. */
  function Traverse(pool: seq<Inode>, search: nat, names: seq<string>): (r: Result)
    requires search < |pool| && names != []
    ensures r.Ok? ==> r.slot < |pool|
    decreases |names|
  {
    var child := Child(pool, search, names[0]);
    if child.Err? || |names| == 1 then child
    else Traverse(pool, child.slot, names[1..])
  }

  function GetByTraversal(pool: seq<Inode>, root: nat, path: string, base: string): Result
    requires root < |pool|
  {
    var rest := UnderBase(path, base);
    if path == "" || rest.None? then Err(-EINVAL)
    else if rest.value == "" || rest.value == "/" then Ok(root)
    else Traverse(pool, root, Split(rest.value[1..]))
  }

  // ----- Traversal of memory that changes between any two reads ---------------------------------

  /** The pool at every moment.  It is rewritten at will; what is accessible of it only grows. */
  type Memory = nat -> seq<Inode>

  ghost predicate Growing(mem: Memory) {
    forall t, u :: t <= u ==> |mem(t)| <= |mem(u)|
  }

  ghost predicate Inside(touched: set<nat>, mem: Memory, now: nat) {
    forall k :: k in touched ==> k < |mem(now)|
  }

  /** Nothing was rewritten from `clock` to `now`. */
  ghost predicate Still(mem: Memory, clock: nat, now: nat) {
    forall t :: clock <= t <= now ==> mem(t) == mem(clock)
  }

  /** One load from a slot, and time goes on. */
  method Load(mem: Memory, clock: nat, k: nat, ghost before: set<nat>) returns (v: Inode, now: nat, ghost touched: set<nat>)
    requires Growing(mem) && k < |mem(clock)| && Inside(before, mem, clock)
    ensures now == clock + 1 && v == mem(clock)[k] && touched == before + {k} && Inside(touched, mem, now)
  {
    v, now, touched := mem(clock)[k], clock + 1, before + {k};
    Grown(mem, clock, now);
  }

  /**
    `search_by_traversal` while the pool is being rewritten: it ends after at most as many rounds as
    there are components, and every slot it touches or returns is accessible.  When nothing was
    rewritten meanwhile the answer is that of the pool.
   */
  method SearchByTraversal(mem: Memory, clock: nat, root: nat, path: string, base: string)
    returns (r: Result, now: nat, ghost rounds: nat, ghost touched: set<nat>)
    requires Growing(mem) && root < |mem(clock)|
    ensures now >= clock && Inside(touched, mem, now)
    ensures rounds <= if UnderBase(path, base).Some? && UnderBase(path, base).value != ""
                      then |Split(UnderBase(path, base).value[1..])| else 0
    ensures r.Ok? ==> r.slot < |mem(now)|
    ensures Still(mem, clock, now) ==> r == GetByTraversal(mem(clock), root, path, base)
  {
    now, rounds, touched := clock, 0, {};
    if path == "" {
      return Err(-EINVAL), now, rounds, touched;
    }
    var rest := UnderBase(path, base);
    if rest.None? {
      return Err(-EINVAL), now, rounds, touched;
    }
    var remainder := rest.value;
    if remainder == "" || remainder == "/" {
      return Ok(root), now, rounds, touched;
    }
    r, now, rounds, touched := FollowComponents(mem, clock, root, remainder);
  }

  /** The loop of `search_by_traversal`: one round for each component. */
  method FollowComponents(mem: Memory, clock: nat, root: nat, remainder: string)
    returns (r: Result, now: nat, ghost rounds: nat, ghost touched: set<nat>)
    requires Growing(mem) && root < |mem(clock)| && remainder != ""
    ensures now >= clock && Inside(touched, mem, now)
    ensures 1 <= rounds <= |Split(remainder[1..])|
    ensures r.Ok? ==> r.slot < |mem(now)|
    ensures Still(mem, clock, now) ==> r == Traverse(mem(clock), root, Split(remainder[1..]))
  {
    hide BSearch, SlashAt, Split, HasSlash, Traverse, Child;
    var search: nat, begin: nat := root, 1;
    now, rounds, touched := clock, 0, {};
    while true
      invariant clock <= now && search < |mem(now)| && 1 <= begin <= |remainder| && Inside(touched, mem, now)
      invariant rounds + |Split(remainder[begin..])| <= |Split(remainder[1..])|
      invariant Still(mem, clock, now) ==>
                  search < |mem(clock)| &&
                  Traverse(mem(clock), root, Split(remainder[1..])) == Traverse(mem(clock), search, Split(remainder[begin..]))
      decreases |remainder| - begin
    {
      var tail := remainder[begin..];
      var len := SlashAt(tail);
      SplitOnce(tail);
      ghost var earlier := now;
      var child;
      child, now, touched := FindChild(mem, now, search, tail[..len], touched);
      rounds := rounds + 1;
      if Still(mem, clock, now) {
        assert mem(earlier) == mem(clock);
        assert Still(mem, earlier, now);
        TraverseOnce(mem(clock), search, tail);
      }
      if child.Err? || len == |tail| {
        return child, now, rounds, touched;
      }
      assert tail[len + 1..] == remainder[begin + len + 1..];
      search, begin := child.slot, begin + len + 1;
    }
  }

  /**
    One round: the two halves of the span are loaded, checked against the accessible range, and the
    names of the checked range are searched.  Whatever the loads bring, no other slot is touched.
   */
  method FindChild(mem: Memory, clock: nat, search: nat, component: string, ghost before: set<nat>)
    returns (child: Result, now: nat, ghost touched: set<nat>)
    requires Growing(mem) && search < |mem(clock)| && Inside(before, mem, clock)
    ensures now >= clock && before <= touched && Inside(touched, mem, now)
    ensures child.Ok? ==> child.slot < |mem(now)| && child.slot in touched
    ensures Still(mem, clock, now) ==> child == Child(mem(clock), search, component)
  {
    hide BSearch;
    var v, w;
    v, now, touched := Load(mem, clock, search, before);
    var idx := v.content.idx;
    w, now, touched := Load(mem, now, search, touched);
    var count := w.content.count;
    assert |mem(clock)| <= |mem(now)|;
    assert Still(mem, clock, now) ==> w == v == mem(clock)[search];
    if count > 0 && (count > |mem(now)| || idx > |mem(now)| - count) {
      return Err(-ESTALE), now, touched;
    }
    if count == 0 {
      return Err(-ENOENT), now, touched;
    }
    ghost var earlier := now;
    var found;
    found, now, touched := SearchSpan(mem, now, idx, count, component, touched);
    if Still(mem, clock, now) {
      assert mem(earlier) == mem(clock);
      assert Still(mem, earlier, now);
    }
    child := if found.None? then Err(-ENOENT) else Ok(found.value);
  }

  /** `bsearch`: a load of one name for each probe. */
  method SearchSpan(mem: Memory, clock: nat, base: nat, n: nat, key: string, ghost before: set<nat>)
    returns (r: Option<nat>, now: nat, ghost touched: set<nat>)
    requires Growing(mem) && base + n <= |mem(clock)| && Inside(before, mem, clock)
    ensures now >= clock && before <= touched && Inside(touched, mem, now)
    ensures forall k :: k in touched ==> k in before || base <= k < base + n
    ensures r.Some? ==> base <= r.value < base + n && r.value in touched
    ensures Still(mem, clock, now) ==> r == BSearch(mem(clock), base, 0, n, key)
  {
    hide BSearch, Less, Growing, Still;
    var l: nat, u: nat := 0, n;
    now, touched := clock, before;
    while l < u
      invariant l <= u <= n && clock <= now && before <= touched && Inside(touched, mem, now)
      invariant forall k :: k in touched ==> k in before || base <= k < base + n
      invariant Still(mem, clock, now) ==> BSearch(mem(clock), base, 0, n, key) == BSearch(mem(clock), base, l, u, key)
      decreases u - l
    {
      var m := (l + u) / 2;
      Grown(mem, clock, now);
      BSearchStep(mem(clock), base, l, u, key);
      ghost var earlier := now;
      var v;
      v, now, touched := Load(mem, now, base + m, touched);
      StillBefore(mem, clock, earlier, now);
      if Less(key, v.name) {
        u := m;
      } else if key == v.name {
        return Some(base + m), now, touched;
      } else {
        l := m + 1;
      }
    }
    r := None;
    BSearchNothing(mem(clock), base, l, key);
  }

  lemma Grown(mem: Memory, t: nat, u: nat)
    requires Growing(mem) && t <= u
    ensures |mem(t)| <= |mem(u)|
  {
  }

  lemma StillBefore(mem: Memory, clock: nat, earlier: nat, now: nat)
    requires clock <= earlier <= now
    ensures Still(mem, clock, now) ==> Still(mem, clock, earlier) && mem(earlier) == mem(clock)
  {
  }

  lemma BSearchStep(pool: seq<Inode>, base: nat, l: nat, u: nat, key: string)
    requires l < u && base + u <= |pool|
    ensures var m := (l + u) / 2;
            && (Less(key, pool[base + m].name) ==> BSearch(pool, base, l, u, key) == BSearch(pool, base, l, m, key))
            && (!Less(key, pool[base + m].name) && key == pool[base + m].name ==> BSearch(pool, base, l, u, key) == Some(base + m))
            && (!Less(key, pool[base + m].name) && key != pool[base + m].name ==>
                  BSearch(pool, base, l, u, key) == BSearch(pool, base, m + 1, u, key))
  {
    hide Less;
  }

  lemma BSearchNothing(pool: seq<Inode>, base: nat, l: nat, key: string)
    requires base + l <= |pool|
    ensures BSearch(pool, base, l, l, key) == None
  {
  }

  lemma TraverseOnce(pool: seq<Inode>, search: nat, tail: string)
    requires search < |pool|
    ensures var len := SlashAt(tail);
            var child := Child(pool, search, tail[..len]);
            Traverse(pool, search, Split(tail))
            == if child.Err? || len == |tail| then child else Traverse(pool, child.slot, Split(tail[len + 1..]))
  {
    hide Child, SlashAt, Split;
    var len := SlashAt(tail);
    SplitOnce(tail);
    if len < |tail| {
      assert Split(tail)[1..] == Split(tail[len + 1..]);
    }
  }

  lemma SplitOnce(s: string)
    ensures var k := SlashAt(s);
            Split(s) == if k == |s| then [s[..k]] else [s[..k]] + Split(s[k + 1..])
  {
    hide SlashAt, HasSlash;
    if SlashAt(s) == |s| {
      assert s[..|s|] == s;
    }
  }

  function Answer(w: Where): Result {
    if w.At? then Ok(w.slot) else Err(-ENOENT)
  }

  /** In an encoded directory binary search finds exactly the entry of that name. */
  lemma SearchDir(pool: seq<Inode>, exts: seq<Extent>, i: nat, t: Tree, lo: nat, elo: nat, name: string)
    requires Encodes(pool, exts, i, t, lo, elo) && t.Dir?
    ensures i < |pool| && pool[i].content.count == |t.kids| && pool[i].content.idx + |t.kids| <= |pool|
    ensures var k := KidNamed(t.kids, name);
            && BSearch(pool, pool[i].content.idx, 0, |t.kids|, name) == (if k < |t.kids| then Some(lo + k) else None)
            && (k < |t.kids| ==>
                  Encodes(pool, exts, lo + k, t.kids[k].tree, KidLo(t, lo, k), elo + KidExtents(t.kids[..k])))
  {
    hide KidSlots, Extents, KidExtents, Less, BSearch, KidNamed;
    var k := KidNamed(t.kids, name);
    KidsLinked(pool, exts, i, lo, t.kids, lo + |t.kids| + t.spare, elo);
    if k < |t.kids| {
      KidEncoded(pool, exts, i, lo, t.kids, lo + |t.kids| + t.spare, elo, k);
      BSearchFinds(pool, lo, 0, |t.kids|, name, k);
    } else if t.kids == [] {
      BSearchNothing(pool, pool[i].content.idx, 0, name);
    }
  }

  /** On an encoded tree traversal follows the names, as long as none of them is under a file. */
  lemma {:induction false} TraverseIsLocate(pool: seq<Inode>, exts: seq<Extent>, i: nat, t: Tree, lo: nat, elo: nat,
                                            names: seq<string>)
    requires Encodes(pool, exts, i, t, lo, elo) && names != []
    requires !Locate(t, i, lo, names).ThroughFile?
    ensures i < |pool| && Traverse(pool, i, names) == Answer(Locate(t, i, lo, names))
    decreases |names|
  {
    hide Encodes, BSearch, KidNamed, KidLo, KidExtents;
    SearchDir(pool, exts, i, t, lo, elo, names[0]);
    var k := KidNamed(t.kids, names[0]);
    if k < |t.kids| && |names| > 1 {
      TraverseIsLocate(pool, exts, lo + k, t.kids[k].tree, KidLo(t, lo, k), elo + KidExtents(t.kids[..k]), names[1..]);
    }
  }

  // ----- Traversal through a regular file -------------------------------------------------------

  /**
    A file whose span of extents is not empty makes traversal look for the next component among
    inode slots that have nothing to do with the file.  A path under a regular file is therefore
    answered with "no such entry", whatever follows, exactly when the file has no extents.
   */
  lemma ThroughFileExact(pool: seq<Inode>, f: nat)
    requires f < |pool| && pool[f].ftype == FT_REG
    ensures NothingBelow(pool, f) <==> pool[f].content.count == 0
  {
    var s := pool[f].content;
    if s.count > 0 {
      if s.count <= |pool| && s.idx <= |pool| - s.count {
        var names := [pool[s.idx + s.count / 2].name];
        LessIrreflexive(names[0]);
        SomethingBelow(pool, f, names);
      } else {
        SomethingBelow(pool, f, [""]);
      }
    }
  }

  /** No list of names leads traversal anywhere from slot `f`. */
  ghost predicate NothingBelow(pool: seq<Inode>, f: nat)
    requires f < |pool|
  {
    forall names :: names != [] ==> Traverse(pool, f, names) == Err(-ENOENT)
  }

  lemma SomethingBelow(pool: seq<Inode>, f: nat, names: seq<string>)
    requires f < |pool| && names != [] && Traverse(pool, f, names) != Err(-ENOENT)
    ensures !NothingBelow(pool, f)
  {
  }

  const SAMPLE_FILE: Tree := File(7, 4096, [Extent(0, 100, 1, 0)])
  const SAMPLE_TREE: Tree := Dir(1, 0, [Kid("f", SAMPLE_FILE)], 0)
  const SAMPLE_POOL: seq<Inode> := [
    Inode(1, 0, Span(1, 1), FT_DIR, "", 0, NONE),
    Inode(7, 4096, Span(0, 1), FT_REG, "f", 1, 0)
  ]

  /** "/mnt/f/" with a one-extent file "f": traversal succeeds and returns the root directory. */
  lemma TrailingSlashOnFile()
    ensures Encodes(SAMPLE_POOL, SAMPLE_FILE.extents, 0, SAMPLE_TREE, 1, 0)
    ensures GetByTraversal(SAMPLE_POOL, 0, "/mnt/f/", "/mnt") == Ok(0)
    ensures GetByMap(PathsOf("/mnt", SAMPLE_TREE, 0, 1), 0, "/mnt/f/", "/mnt") == Err(-ENOENT)
  {
    SampleEncodes();
    SampleSplit();
    var exts := SAMPLE_FILE.extents;
    EncodesProper(SAMPLE_POOL, exts, 0, SAMPLE_TREE, 1, 0);
    MapAnswers(SAMPLE_TREE, 0, 1, "/mnt/f/", "/mnt");
    assert KidNamed(SAMPLE_TREE.kids, "f") == 0;
    assert ["f", ""][1..] == [""];
    assert Locate(SAMPLE_TREE, 0, 1, ["f", ""]) == ThroughFile;
    assert Child(SAMPLE_POOL, 0, "f") == Ok(1) && Child(SAMPLE_POOL, 1, "") == Ok(0);
  }

  lemma SampleEncodes()
    ensures Encodes(SAMPLE_POOL, SAMPLE_FILE.extents, 0, SAMPLE_TREE, 1, 0)
  {
    var exts := SAMPLE_FILE.extents;
    var kids := SAMPLE_TREE.kids;
    assert kids[..0] == [] && KidSlots(kids[..0]) == 0 && KidExtents(kids[..0]) == 0;
    assert KidSlots(kids) == Slots(SAMPLE_FILE) && KidExtents(kids) == Extents(SAMPLE_FILE);
    assert SAMPLE_POOL[1].name == "f" && ValidName("f");
    assert exts[0..1] == exts;
    assert Encodes(SAMPLE_POOL, exts, 1, SAMPLE_FILE, 2, 0);
    assert KidsEncoded(SAMPLE_POOL, exts, 0, 1, kids, 2, 0);
  }

  lemma SampleSplit()
    ensures UnderBase("/mnt/f/", "/mnt") == Some("/f/")
    ensures Split("/f/"[1..]) == ["f", ""]
  {
    assert "/mnt/f/" == "/mnt" + "/f/";
    assert "/f/"[1..] == "f" + "/" && !HasSlash("f");
    SplitFirst("f", "/");
    assert "/"[1..] == "";
    assert Split("") == [""];
  }

  // ----- The path map ---------------------------------------------------------------------------

  /** `xal_be_fiemap_get_inode` with a path map. */
  function GetByMap(m: map<string, nat>, root: nat, path: string, base: string): Result {
    var rest := UnderBase(path, base);
    if rest.None? then Err(-EINVAL)
    else if rest.value == "" || rest.value == "/" then Ok(root)
    else if path in m then Ok(m[path])
    else Err(-ENOENT)
  }

  /** Where a path leads from the base of the indexed tree. */
  function Destination(t: Tree, i: nat, lo: nat, path: string, base: string): Option<Where> {
    var rest := UnderBase(path, base);
    if rest.None? then None
    else if rest.value == "" || rest.value == "/" then Some(At(i))
    else Some(Locate(t, i, lo, Split(rest.value[1..])))
  }

  /** The map filled for a tree answers every path by where it leads. */
  lemma MapAnswers(t: Tree, i: nat, lo: nat, path: string, base: string)
    requires Proper(t)
    ensures var d := Destination(t, i, lo, path, base);
            GetByMap(PathsOf(base, t, i, lo), i, path, base) == if d.None? then Err(-EINVAL) else Answer(d.value)
  {
    var rest := UnderBase(path, base);
    if rest.Some? && rest.value != "" && rest.value != "/" {
      var names := Split(rest.value[1..]);
      SuffixInvertsSplit(rest.value[1..]);
      assert rest.value == "/" + rest.value[1..];
      assert path == base + Suffix(names);
      MapIsLocate(base, t, i, lo, names);
    }
  }

  /**
    The lookups agree on every path: root, trailing slash, empty, prefix only, missing or present,
    as long as no proper prefix of it names a regular file.
   */
  lemma LookupsAgree(pool: seq<Inode>, exts: seq<Extent>, i: nat, t: Tree, lo: nat, elo: nat, path: string, base: string)
    requires Encodes(pool, exts, i, t, lo, elo) && base != ""
    requires Destination(t, i, lo, path, base) != Some(ThroughFile)
    ensures GetByTraversal(pool, i, path, base) == GetByMap(PathsOf(base, t, i, lo), i, path, base)
  {
    EncodesProper(pool, exts, i, t, lo, elo);
    MapAnswers(t, i, lo, path, base);
    var rest := UnderBase(path, base);
    if rest.Some? && rest.value != "" && rest.value != "/" {
      TraverseIsLocate(pool, exts, i, t, lo, elo, Split(rest.value[1..]));
    }
  }

  /** `xal_be_fiemap_get_inode` in either lookup mode. */
  method GetInode(pool: seq<Inode>, root: nat, pathMap: Option<map<string, nat>>, path: string, base: string,
                  ghost exts: seq<Extent>, ghost t: Tree, ghost lo: nat, ghost elo: nat) returns (r: Result)
    requires Encodes(pool, exts, root, t, lo, elo) && base != ""
    requires pathMap.Some? ==> pathMap.value == PathsOf(base, t, root, lo)
    ensures var d := Destination(t, root, lo, path, base);
            && (d.None? ==> r == Err(-EINVAL))
            && (d.Some? && (pathMap.Some? || !d.value.ThroughFile?) ==> r == Answer(d.value))
  {
    EncodesProper(pool, exts, root, t, lo, elo);
    MapAnswers(t, root, lo, path, base);
    var rest := UnderBase(path, base);
    if rest.None? {
      return Err(-EINVAL);
    }
    if rest.value == "" || rest.value == "/" {
      return Ok(root);
    }
    if pathMap.Some? {
      return if path in pathMap.value then Ok(pathMap.value[path]) else Err(-ENOENT);
    }
    var now: nat;
    ghost var rounds: nat, touched: set<nat>;
    r, now, rounds, touched := SearchByTraversal(_ => pool, 0, root, path, base);
    if Destination(t, root, lo, path, base) != Some(ThroughFile) {
      LookupsAgree(pool, exts, root, t, lo, elo, path, base);
    }
  }
}
