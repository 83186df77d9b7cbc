/**
  The FIEMAP index: a recursive walk that writes the tree into the two pools in place and fills the
  path map as it goes.
 */
module FiemapIndex {
  import opened Names
  import opened PoolMemory
  import opened Inodes
  import opened FiemapTree
  import opened TreePaths

  const ENOTDIR: int := 20
  const ENAMETOOLONG: int := 36
  const NAME_MAXLEN: nat := 255

  /** No call the walk makes below `n` fails, and every name fits its slot. */
  ghost predicate Readable(n: Fs, reflink: bool)
    decreases n
  {
    && (n.FsDir? || n.FsReg? ==> n.openErr == 0)
    && (n.FsDir? ==> forall e :: e in n.ents && Listed(e, reflink) ==>
          e.statErr == 0 && |e.name| <= NAME_MAXLEN && (Kept(e) ==> Readable(e.node, reflink)))
  }

  lemma KidsAppend(kids: seq<Kid>, kid: Kid)
    ensures KidSlots(kids + [kid]) == KidSlots(kids) + Slots(kid.tree)
    ensures KidExtents(kids + [kid]) == KidExtents(kids) + Extents(kid.tree)
  {
    assert (kids + [kid])[..|kids|] == kids;
  }

  lemma EncodesBounds(pool: seq<Inode>, exts: seq<Extent>, i: nat, t: Tree, lo: nat, elo: nat)
    requires Encodes(pool, exts, i, t, lo, elo)
    ensures i < lo && lo + Slots(t) <= |pool| && elo + Extents(t) <= |exts|
  {
  }

  lemma KidsEncodedAppend(mem: seq<Inode>, exts: seq<Extent>, p: nat, base: nat, kids: seq<Kid>, lo: nat, elo: nat, kid: Kid)
    requires KidsEncoded(mem, exts, p, base, kids, lo, elo)
    requires base + |kids| < lo
    requires Encodes(mem, exts, base + |kids|, kid.tree, lo + KidSlots(kids), elo + KidExtents(kids))
    requires base + |kids| < |mem| && Named(mem[base + |kids|], kid.name, p)
    ensures KidsEncoded(mem, exts, p, base, kids + [kid], lo, elo)
  {
    assert (kids + [kid])[..|kids|] == kids;
  }

  ghost predicate Named(s: Inode, name: string, p: nat) {
    s.name == name && s.namelen == |name| && s.parent == p && ValidName(name)
  }

  lemma KidPathsStep(path: string, kids: seq<Kid>, kid: Kid, base: nat, lo: nat)
    ensures KidPaths(path, kids + [kid], base, lo)
         == KidPaths(path, kids, base, lo) + PathsOf(path + "/" + kid.name, kid.tree, base + |kids|, lo + KidSlots(kids))
  {
    assert (kids + [kid])[..|kids|] == kids;
  }

  lemma LayoutKidsStep(d: Fs, es: seq<Ent>, j: nat, reflink: bool)
    requires d.FsDir? && (forall e :: e in es ==> e in d.ents) && j < |es|
    ensures LayoutKids(d, es[..j + 1], reflink)
         == if Kept(es[j]) then LayoutKids(d, es[..j], reflink) + [Kid(es[j].name, Layout(es[j].node, reflink))]
            else LayoutKids(d, es[..j], reflink)
  {
    assert es[..j + 1][..j] == es[..j];
  }

  /** The span of directory `i` holds `kids`, and everything below them follows from slot `lo`. */
  ghost predicate SpanDone(mem: seq<Inode>, free: nat, exts: seq<Extent>, efree: nat, kids: seq<Kid>,
                           i: nat, idx: nat, lo: nat, elo: nat)
  {
    && i < idx && idx + |kids| <= lo
    && free == lo + KidSlots(kids) <= |mem| && efree == elo + KidExtents(kids) <= |exts|
    && mem[i].content == Span(idx, |kids|)
    && (forall k :: idx + |kids| <= k < lo ==> mem[k] == ZERO_INODE)
    && KidsEncoded(mem, exts, i, idx, kids, lo, elo)
  }

  lemma SpanGrows(mem: seq<Inode>, free: nat, exts: seq<Extent>, efree: nat, kids: seq<Kid>,
                  i: nat, idx: nat, lo: nat, elo: nat, mem2: seq<Inode>, exts2: seq<Extent>, kid: Kid)
    requires SpanDone(mem, free, exts, efree, kids, i, idx, lo, elo) && idx + |kids| < lo
    requires SameRange(mem, mem2, idx, idx + |kids|) && SameRange(mem, mem2, idx + |kids| + 1, free)
    requires SameRange(exts, exts2, elo, efree)
    requires mem2[i].content == Span(idx, |kids| + 1)
    requires Encodes(mem2, exts2, idx + |kids|, kid.tree, free, efree)
    requires Named(mem2[idx + |kids|], kid.name, i)
    ensures SpanDone(mem2, free + Slots(kid.tree), exts2, efree + Extents(kid.tree), kids + [kid], i, idx, lo, elo)
  {
    hide Slots, KidSlots, Extents, KidExtents, KidsEncoded, Encodes, Named;
    EncodesBounds(mem2, exts2, idx + |kids|, kid.tree, free, efree);
    assert free == lo + KidSlots(kids) && efree == elo + KidExtents(kids);
    assert SameRange(mem, mem2, lo, free);
    KidsFrame(mem, exts, mem2, exts2, i, idx, kids, lo, elo);
    KidsEncodedAppend(mem2, exts2, i, idx, kids, lo, elo, kid);
    KidsAppend(kids, kid);
  }

  /** Counting the entry in the directory does not touch the entry. */
  lemma CountKeepsEntry(mem: seq<Inode>, exts: seq<Extent>, slot: nat, t: Tree, lo: nat, elo: nat, i: nat, d: Inode)
    requires Encodes(mem, exts, slot, t, lo, elo) && i < slot
    ensures Encodes(mem[i := d], exts, slot, t, lo, elo)
  {
    hide Encodes, Slots, Extents;
    EncodesBounds(mem, exts, slot, t, lo, elo);
    EncodesFrame(mem, exts, mem[i := d], exts, slot, t, lo, elo);
  }

  /** A directory whose span is done is encoded. */
  lemma DirDone(mem: seq<Inode>, free: nat, exts: seq<Extent>, efree: nat, n: Fs, reflink: bool,
                i: nat, idx: nat, lo: nat, elo: nat)
    requires n.FsDir? && WellFormed(n)
    requires SpanDone(mem, free, exts, efree, LayoutKids(n, Entries(n, reflink), reflink), i, idx,
                      lo, elo)
    requires lo == idx + |Entries(n, reflink)|
    requires mem[i].ftype == FT_DIR && mem[i].ino == n.ino && mem[i].size == n.size
    ensures Encodes(mem, exts, i, Layout(n, reflink), idx, elo)
    ensures free == idx + Slots(Layout(n, reflink)) && efree == elo + Extents(Layout(n, reflink))
  {
    hide KidsEncoded, KidSlots, KidExtents, LayoutKids, Entries, SortedKids;
    EntriesSorted(n, reflink);
    LayoutKidsSorted(n, Entries(n, reflink), reflink);
  }

  lemma SpanStart(mem: seq<Inode>, exts: seq<Extent>, i: nat, idx: nat, lo: nat, elo: nat)
    requires i < idx <= lo <= |mem| && elo <= |exts| && mem[i].content == Span(idx, 0)
    requires forall k :: idx <= k < lo ==> mem[k] == ZERO_INODE
    ensures SpanDone(mem, lo, exts, elo, [], i, idx, lo, elo)
  {
  }

  lemma SpanKept(mem: seq<Inode>, mem2: seq<Inode>, free: nat, exts: seq<Extent>, exts2: seq<Extent>, efree: nat,
                 kids: seq<Kid>, i: nat, idx: nat, lo: nat, elo: nat)
    requires SpanDone(mem, free, exts, efree, kids, i, idx, lo, elo)
    requires SameRange(mem, mem2, 0, free) && SameRange(exts, exts2, 0, efree)
    ensures SpanDone(mem2, free, exts2, efree, kids, i, idx, lo, elo)
  {
    hide KidSlots, KidExtents, KidsEncoded;
    assert free == lo + KidSlots(kids) && efree == elo + KidExtents(kids);
    assert SameRange(mem, mem2, lo, free) && SameRange(mem, mem2, idx, idx + |kids|) && SameRange(exts, exts2, elo, efree);
    KidsFrame(mem, exts, mem2, exts2, i, idx, kids, lo, elo);
  }

  lemma SpanFacts(mem: seq<Inode>, free: nat, exts: seq<Extent>, efree: nat, kids: seq<Kid>,
                  i: nat, idx: nat, lo: nat, elo: nat)
    requires SpanDone(mem, free, exts, efree, kids, i, idx, lo, elo)
    ensures i < idx && idx + |kids| <= lo <= free <= |mem| && elo <= efree <= |exts|
    ensures free == lo + KidSlots(kids) && efree == elo + KidExtents(kids)
    ensures mem[i].content == Span(idx, |kids|)
    ensures idx + |kids| < lo ==> mem[idx + |kids|] == ZERO_INODE
  {
  }

  /** The paths below an entry join the map, when there is one. */
  ghost function Merged(before: Option<map<string, nat>>, more: map<string, nat>): (r: Option<map<string, nat>>)
    ensures r.Some? == before.Some?
  {
    if before.Some? then Some(before.value + more) else None
  }

  lemma MergedEmpty(before: Option<map<string, nat>>)
    ensures Merged(before, map[]) == before
  {
    if before.Some? {
      assert before.value + map[] == before.value;
    }
  }

  ghost function Inserted(before: Option<map<string, nat>>, path: string, i: nat): Option<map<string, nat>> {
    if before.Some? then Some(before.value[path := i]) else None
  }

  lemma MergedOne(before: Option<map<string, nat>>, more: map<string, nat>, path: string, i: nat)
    ensures Inserted(Merged(before, more), path, i) == Merged(before, more[path := i])
  {
    if before.Some? {
      assert (before.value + more)[path := i] == before.value + more[path := i];
    }
  }

  lemma MergedTwice(before: Option<map<string, nat>>, a: map<string, nat>, b: map<string, nat>)
    ensures Merged(Merged(before, a), b) == Merged(before, a + b)
  {
    if before.Some? {
      assert before.value + a + b == before.value + (a + b);
    }
  }

  lemma ReadableOpens(n: Fs, reflink: bool)
    requires n.FsDir? || n.FsReg?
    ensures Readable(n, reflink) ==> n.openErr == 0
  {
  }

  lemma ReadableEntry(n: Fs, e: Ent, reflink: bool)
    requires n.FsDir? && WellFormed(n) && e in Entries(n, reflink)
    ensures WellFormed(e.node) && e in n.ents && e.name != "" && !HasSlash(e.name)
    ensures Readable(n, reflink) ==> e.statErr == 0 && |e.name| <= NAME_MAXLEN
    ensures Readable(n, reflink) && Kept(e) ==> Readable(e.node, reflink)
  {
  }

  lemma DirSize(n: Fs, reflink: bool)
    requires n.FsDir?
    ensures var es := Entries(n, reflink);
            && Slots(Layout(n, reflink)) == |es| + KidSlots(LayoutKids(n, es, reflink))
            && Extents(Layout(n, reflink)) == KidExtents(LayoutKids(n, es, reflink))
  {
  }

  lemma DirPaths(before: Option<map<string, nat>>, path: string, n: Fs, i: nat, idx: nat, lo: nat, reflink: bool)
    requires n.FsDir? && lo == idx + |Entries(n, reflink)|
    ensures Inserted(Merged(before, KidPaths(path, LayoutKids(n, Entries(n, reflink), reflink), idx, lo)), path, i)
         == Merged(before, PathsOf(path, Layout(n, reflink), i, idx))
  {
    hide KidPaths, LayoutKids, Entries, Merged, Inserted;
    var es := Entries(n, reflink);
    var kids := LayoutKids(n, es, reflink);
    assert lo == idx + |kids| + (|es| - |kids|);
    assert PathsOf(path, Layout(n, reflink), i, idx) == KidPaths(path, kids, idx, lo)[path := i];
    MergedOne(before, KidPaths(path, kids, idx, lo), path, i);
  }

  /** What the first entries take is part of what all of them take. */
  lemma RoomForNext(d: Fs, es: seq<Ent>, j: nat, reflink: bool)
    requires d.FsDir? && (forall e :: e in es ==> e in d.ents) && j < |es|
    ensures var k, k1, all := LayoutKids(d, es[..j], reflink), LayoutKids(d, es[..j + 1], reflink), LayoutKids(d, es, reflink);
            && KidSlots(k1) == KidSlots(k) + (if Kept(es[j]) then Slots(Layout(es[j].node, reflink)) else 0) <= KidSlots(all)
            && KidExtents(k1) == KidExtents(k) + (if Kept(es[j]) then Extents(Layout(es[j].node, reflink)) else 0) <= KidExtents(all)
  {
    hide LayoutKids, Layout, KidSlots, KidExtents, Slots, Extents;
    LayoutKidsStep(d, es, j, reflink);
    if Kept(es[j]) {
      KidsAppend(LayoutKids(d, es[..j], reflink), Kid(es[j].name, Layout(es[j].node, reflink)));
    }
    RoomForPrefix(d, es, j + 1, reflink);
  }

  lemma {:induction false} RoomForPrefix(d: Fs, es: seq<Ent>, j: nat, reflink: bool)
    requires d.FsDir? && (forall e :: e in es ==> e in d.ents) && j <= |es|
    ensures KidSlots(LayoutKids(d, es[..j], reflink)) <= KidSlots(LayoutKids(d, es, reflink))
    ensures KidExtents(LayoutKids(d, es[..j], reflink)) <= KidExtents(LayoutKids(d, es, reflink))
    decreases |es|
  {
    hide LayoutKids, Layout, KidSlots, KidExtents, Slots, Extents;
    if j == |es| {
      assert es[..j] == es;
    } else {
      var n := |es| - 1;
      RoomForPrefix(d, es[..n], j, reflink);
      assert es[..n][..j] == es[..j] && es[..n + 1] == es;
      LayoutKidsStep(d, es, n, reflink);
      if Kept(es[n]) {
        KidsAppend(LayoutKids(d, es[..n], reflink), Kid(es[n].name, Layout(es[n].node, reflink)));
      }
    }
  }

  class Xal {
    const inodes: Pool<Inode>
    const extents: Pool<Extent>
    const reflink: bool
    /** Whether the path map gets the memory that each insertion asks for. */
    const mayInsert: nat -> bool
    /** Insertions so far. */
    var inserts: nat
    var pathMap: Option<map<string, nat>>

    ghost predicate Valid()
      reads this, inodes, inodes.memory, extents, extents.memory
    {
      && inodes.Valid() && extents.Valid()
      && inodes.zero == ZERO_INODE && extents.zero == ZERO_EXTENT
      && inodes as object != extents && inodes.memory as object != extents.memory
    }

    /** The pools of `xal_be_fiemap_open`. */
    constructor (inodes: Pool<Inode>, extents: Pool<Extent>, reflink: bool, hashed: bool, mayInsert: nat -> bool)
      requires inodes.Valid() && extents.Valid()
      requires inodes.zero == ZERO_INODE && extents.zero == ZERO_EXTENT
      requires inodes as object != extents && inodes.memory as object != extents.memory
      ensures Valid()
      ensures this.inodes == inodes && this.extents == extents
      ensures this.reflink == reflink && this.mayInsert == mayInsert
      ensures pathMap == if hashed then Some(map[]) else None
    {
      this.inodes, this.extents, this.reflink, this.mayInsert := inodes, extents, reflink, mayInsert;
      pathMap := if hashed then Some(map[]) else None;
      inserts := 0;
    }

    /** Every insertion from now on gets its memory. */
    ghost predicate Inserting()
      reads this
    {
      forall k :: k >= inserts ==> mayInsert(k)
    }

    /** Nothing that the pools could reach before is out of reach now. */
    twostate predicate Later()
      reads this, inodes, extents
    {
      && inserts >= old(inserts)
      && inodes.accessible >= old(inodes.accessible) && inodes.grown >= old(inodes.grown)
      && extents.accessible >= old(extents.accessible) && extents.grown >= old(extents.grown)
    }

    /** The pools have room for the whole of `t`, and nothing below refuses. */
    ghost predicate Roomy(n: Fs)
      requires !n.FsOther?
      reads this, inodes, extents
    {
      && inodes.Reaches(inodes.free + Slots(Layout(n, reflink))) && extents.Reaches(extents.free + Extents(Layout(n, reflink)))
      && Readable(n, reflink)
      && (pathMap.Some? ==> Inserting())
    }

    /** `path_map_insert` */
    method PathMapInsert(path: string, i: nat) returns (err: int)
      modifies this
      ensures err == if old(pathMap).Some? && !mayInsert(old(inserts)) then -ENOMEM else 0
      ensures pathMap == if err == 0 then Inserted(old(pathMap), path, i) else old(pathMap)
      ensures inserts == old(inserts) + if old(pathMap).Some? then 1 else 0
    {
      if pathMap.Some? {
        inserts := inserts + 1;
        if !mayInsert(inserts - 1) {
          return -ENOMEM;
        }
        pathMap := Some(pathMap.value[path := i]);
      }
      return 0;
    }

    /** `xal_be_fiemap_process_inode_file`, the extents in units of blocks. */
    method ProcessFile(path: string, n: Fs, i: nat) returns (err: int)
      requires Valid() && n.FsReg? && i < inodes.free
      requires inodes.memory[i].content.count == 0
      modifies this, inodes.memory, extents, extents.memory
      ensures Valid()
      ensures err <= 0
      ensures forall k :: 0 <= k < inodes.reserved && k != i ==> inodes.memory[k] == old(inodes.memory[k])
      ensures forall k :: 0 <= k < old(extents.free) ==> extents.memory[k] == old(extents.memory[k])
      ensures inodes.memory[i] == old(inodes.memory[i]).(content := inodes.memory[i].content)
      ensures err == 0 ==>
                && extents.free == old(extents.free) + |n.extents|
                && inodes.memory[i].content.count == |n.extents|
                && (n.extents != [] ==>
                      && inodes.memory[i].content.idx == old(extents.free)
                      && extents.memory[old(extents.free)..extents.free] == n.extents)
                && pathMap == Inserted(old(pathMap), path, i)
      ensures n.openErr == 0 && old(extents.Reaches(extents.free + |n.extents|)) && (old(pathMap).Some? ==> old(Inserting())) ==> err == 0
      ensures Later()
    {
      if n.openErr != 0 {
        return -(n.openErr as int);
      }
      if |n.extents| > 0 {
        var idx;
        err, idx := extents.Claim(|n.extents|);
        if err != 0 {
          return;
        }
        inodes.memory[i] := inodes.memory[i].(content := Span(idx, |n.extents|));
        for k := 0 to |n.extents|
          modifies extents.memory
          invariant extents.Valid()
          invariant forall m :: 0 <= m < k ==> extents.memory[idx + m] == n.extents[m]
          invariant forall m :: 0 <= m < idx ==> extents.memory[m] == old(extents.memory[m])
        {
          extents.memory[idx + k] := n.extents[k];
        }
      }
      err := PathMapInsert(path, i);
    }

    /**
      `process_ino_fiemap`: slot `i` gets the type, number and size of the entry, and everything
      below it is claimed and written.  A skipped entry leaves the slot without a type.
     */
    method ProcessIno(path: string, e: Ent, i: nat) returns (err: int)
      requires Valid() && WellFormed(e.node) && i < inodes.free
      requires inodes.memory[i].content == Span(0, 0)
      requires inodes.memory[i].ftype == 0 || (inodes.memory[i].ftype == FT_DIR && e.node.FsDir?)
      modifies this, inodes, inodes.memory, extents, extents.memory
      ensures Valid()
      ensures err <= 0
      ensures inodes.free >= old(inodes.free)
      ensures Later()
      ensures forall k :: 0 <= k < old(inodes.free) && k != i ==> inodes.memory[k] == old(inodes.memory[k])
      ensures forall k :: 0 <= k < old(extents.free) ==> extents.memory[k] == old(extents.memory[k])
      ensures inodes.memory[i].name == old(inodes.memory[i].name)
           && inodes.memory[i].namelen == old(inodes.memory[i].namelen)
           && inodes.memory[i].parent == old(inodes.memory[i].parent)
      ensures err == 0 && old(inodes.memory[i].ftype) == 0 && !Kept(e) ==>
                && inodes.memory[i] == old(inodes.memory[i])
                && inodes.free == old(inodes.free) && extents.free == old(extents.free) && pathMap == old(pathMap)
      ensures err == 0 && (old(inodes.memory[i].ftype) != 0 || Kept(e)) ==>
                var t := Layout(e.node, reflink);
                && inodes.free == old(inodes.free) + Slots(t)
                && extents.free == old(extents.free) + Extents(t)
                && Encodes(inodes.memory[..], extents.memory[..], i, t, old(inodes.free), old(extents.free))
                && pathMap == Merged(old(pathMap), PathsOf(path, t, i, old(inodes.free)))
      ensures e.statErr == 0 && ((old(inodes.memory[i].ftype) != 0 || Kept(e)) ==> !e.node.FsOther? && old(Roomy(e.node)))
              ==> err == 0
      decreases e, 2
    {
      if e.statErr != 0 {
        return -(e.statErr as int);
      }
      if inodes.memory[i].ftype == 0 {
        if e.mountRoot {
          return 0;
        }
        if e.node.FsDir? {
          inodes.memory[i] := inodes.memory[i].(ftype := FT_DIR);
        } else if e.node.FsReg? {
          inodes.memory[i] := inodes.memory[i].(ftype := FT_REG);
        } else {
          return 0;
        }
      }
      inodes.memory[i] := inodes.memory[i].(ino := e.node.ino, size := e.node.size);
      if inodes.memory[i].ftype == FT_DIR {
        err := ProcessDir(path, e.node, i);
      } else {
        err := ProcessFile(path, e.node, i);
        if err == 0 {
          assert extents.memory[..][old(extents.free)..extents.free] == extents.memory[old(extents.free)..extents.free];
          MergedEmpty(old(pathMap));
          MergedOne(old(pathMap), map[], path, i);
        }
      }
    }

    ghost predicate EntriesRoomy(n: Fs, es: seq<Ent>, lo: nat, elo: nat)
      requires n.FsDir? && forall e :: e in es ==> e in n.ents
      reads this, inodes, extents
    {
      && inodes.Reaches(lo + KidSlots(LayoutKids(n, es, reflink)))
      && extents.Reaches(elo + KidExtents(LayoutKids(n, es, reflink)))
      && Readable(n, reflink)
      && (pathMap.Some? ==> Inserting())
    }

    /** After the entries `es` the span of directory `i` holds those of them that are kept. */
    ghost predicate EntriesDone(path: string, n: Fs, es: seq<Ent>, i: nat, idx: nat, lo: nat, elo: nat,
                                before: Option<map<string, nat>>)
      requires n.FsDir? && forall e :: e in es ==> e in n.ents
      reads this, inodes, inodes.memory, extents, extents.memory
    {
      var kids := LayoutKids(n, es, reflink);
      && SpanDone(inodes.memory[..], inodes.free, extents.memory[..], extents.free, kids, i, idx, lo, elo)
      && pathMap == Merged(before, KidPaths(path, kids, idx, lo))
    }

    /** `xal_be_fiemap_process_inode_dir` */
    method ProcessDir(path: string, n: Fs, i: nat) returns (err: int)
      requires Valid() && WellFormed(n) && n.FsDir? && i < inodes.free
      requires inodes.memory[i].ftype == FT_DIR && inodes.memory[i].content == Span(0, 0)
      requires inodes.memory[i].ino == n.ino && inodes.memory[i].size == n.size
      modifies this, inodes, inodes.memory, extents, extents.memory
      ensures Valid()
      ensures err <= 0
      ensures inodes.free >= old(inodes.free)
      ensures Later()
      ensures forall k :: 0 <= k < old(inodes.free) && k != i ==> inodes.memory[k] == old(inodes.memory[k])
      ensures forall k :: 0 <= k < old(extents.free) ==> extents.memory[k] == old(extents.memory[k])
      ensures inodes.memory[i] == old(inodes.memory[i]).(content := inodes.memory[i].content)
      ensures err == 0 ==>
                var t := Layout(n, reflink);
                && inodes.free == old(inodes.free) + Slots(t)
                && extents.free == old(extents.free) + Extents(t)
                && Encodes(inodes.memory[..], extents.memory[..], i, t, old(inodes.free), old(extents.free))
                && pathMap == Merged(old(pathMap), PathsOf(path, t, i, old(inodes.free)))
      ensures old(Roomy(n)) ==> err == 0
      decreases n, 3
    {
      hide SpanDone, Encodes, Slots, KidSlots, Extents, KidExtents, Layout, LayoutKids, Entries, PathsOf, KidPaths, WellFormed, Readable, Merged, Inserted;
      DirSize(n, reflink);
      ReadableOpens(n, reflink);
      var es, idx;
      err, es, idx := OpenDir(n, i);
      if err == 0 {
        err := ProcessEntries(path, n, es, i, idx);
        if err == 0 {
          DirDone(inodes.memory[..], inodes.free, extents.memory[..], extents.free, n, reflink, i, idx, idx + |es|,
                  old(extents.free));
          err := MapDir(path, n, i, idx, idx + |es|, old(pathMap));
        }
      }
    }

    /** The entries are listed and sorted, and one contiguous span is claimed for them. */
    method OpenDir(n: Fs, i: nat) returns (err: int, es: seq<Ent>, idx: nat)
      requires Valid() && n.FsDir? && i < inodes.free && inodes.memory[i].content == Span(0, 0)
      modifies inodes, inodes.memory
      ensures Valid() && err <= 0
      ensures Later() && idx == old(inodes.free)
      ensures err == 0 ==> es == Entries(n, reflink)
      ensures err == 0 <==> n.openErr == 0 && old(inodes.Grants(|Entries(n, reflink)|))
      ensures inodes.free == if err == 0 then idx + |es| else idx
      ensures forall k :: 0 <= k < inodes.reserved && k != i ==> inodes.memory[k] == old(inodes.memory[k])
      ensures inodes.memory[i] == if err == 0 then old(inodes.memory[i]).(content := Span(idx, 0)) else old(inodes.memory[i])
      ensures forall k :: idx <= k < inodes.free ==> inodes.memory[k] == ZERO_INODE
    {
      hide Entries;
      idx, es := inodes.free, [];
      if n.openErr != 0 {
        return -(n.openErr as int), es, idx;
      }
      es := ReadSorted(n);
      var at;
      err, at := inodes.Claim(|es|);
      if err == 0 {
        inodes.memory[i] := inodes.memory[i].(content := Span(at, 0));
      }
    }

    /** A directory enters the path map after everything below it. */
    method MapDir(path: string, n: Fs, i: nat, ghost idx: nat, ghost lo: nat, ghost before: Option<map<string, nat>>)
      returns (err: int)
      requires n.FsDir? && lo == idx + |Entries(n, reflink)|
      requires pathMap == Merged(before, KidPaths(path, LayoutKids(n, Entries(n, reflink), reflink), idx, lo))
      modifies this
      ensures (before.Some? ==> old(Inserting())) ==> err == 0
      ensures err <= 0 && inserts >= old(inserts)
      ensures err == 0 ==> pathMap == Merged(before, PathsOf(path, Layout(n, reflink), i, idx))
    {
      hide Merged, KidPaths, LayoutKids, Entries, PathsOf, Layout;
      DirPaths(before, path, n, i, idx, lo, reflink);
      err := PathMapInsert(path, i);
    }

    /** The loop over the sorted entries: entry after entry takes the next slot of the span. */
    method ProcessEntries(path: string, n: Fs, es: seq<Ent>, i: nat, idx: nat) returns (err: int)
      requires Valid() && WellFormed(n) && n.FsDir? && es == Entries(n, reflink)
      requires i < idx && idx + |es| == inodes.free
      requires inodes.memory[i].content == Span(idx, 0)
      requires forall k :: idx <= k < inodes.free ==> inodes.memory[k] == ZERO_INODE
      modifies this, inodes, inodes.memory, extents, extents.memory
      ensures Valid()
      ensures err <= 0
      ensures inodes.free >= old(inodes.free)
      ensures Later()
      ensures forall k :: 0 <= k < idx && k != i ==> inodes.memory[k] == old(inodes.memory[k])
      ensures forall k :: 0 <= k < old(extents.free) ==> extents.memory[k] == old(extents.memory[k])
      ensures inodes.memory[i] == old(inodes.memory[i]).(content := inodes.memory[i].content)
      ensures err == 0 ==> EntriesDone(path, n, es, i, idx, old(inodes.free), old(extents.free), old(pathMap))
      ensures old(EntriesRoomy(n, es, inodes.free, extents.free)) ==> err == 0
      decreases n, 2
    {
      ghost var lo, elo := inodes.free, extents.free;
      assert es[..0] == [];
      MergedEmpty(pathMap);
      SpanStart(inodes.memory[..], extents.memory[..], i, idx, lo, elo);
      for j := 0 to |es|
        invariant Valid()
        invariant lo <= inodes.free
        invariant Later()
        invariant forall k :: 0 <= k < idx && k != i ==> inodes.memory[k] == old(inodes.memory[k])
        invariant forall k :: 0 <= k < elo ==> extents.memory[k] == old(extents.memory[k])
        invariant inodes.memory[i] == old(inodes.memory[i]).(content := inodes.memory[i].content)
        invariant EntriesDone(path, n, es[..j], i, idx, lo, elo, old(pathMap))
        invariant idx + |es| == lo
        invariant old(EntriesRoomy(n, es, inodes.free, extents.free)) ==> EntriesRoomy(n, es, lo, elo)
      {
        err := ProcessEntry(path, n, es, j, i, idx, lo, elo, old(pathMap));
        if err != 0 {
          return;
        }
      }
      assert es[..|es|] == es;
      err := 0;
    }

    /** One iteration: the slot is named, processed, and given back when the entry is skipped. */
    method ProcessEntry(path: string, n: Fs, es: seq<Ent>, j: nat, i: nat, idx: nat,
                        ghost lo: nat, ghost elo: nat, ghost before: Option<map<string, nat>>) returns (err: int)
      requires Valid() && WellFormed(n) && n.FsDir? && es == Entries(n, reflink)
      requires j < |es| && i < idx && idx + |es| == lo <= inodes.free
      requires EntriesDone(path, n, es[..j], i, idx, lo, elo, before)
      modifies this, inodes, inodes.memory, extents, extents.memory
      ensures Valid()
      ensures err <= 0
      ensures inodes.free >= old(inodes.free)
      ensures Later()
      ensures forall k :: 0 <= k < idx && k != i ==> inodes.memory[k] == old(inodes.memory[k])
      ensures forall k :: 0 <= k < elo ==> extents.memory[k] == old(extents.memory[k])
      ensures inodes.memory[i] == old(inodes.memory[i]).(content := inodes.memory[i].content)
      ensures err == 0 ==> EntriesDone(path, n, es[..j + 1], i, idx, lo, elo, before)
      ensures old(EntriesRoomy(n, es, lo, elo)) ==> err == 0 && EntriesRoomy(n, es, lo, elo)
      decreases n, 1
    {
      hide SpanDone, KidsEncoded, Encodes, Slots, KidSlots, Extents, KidExtents, Layout, LayoutKids, PathsOf, KidPaths, Merged, Readable, WellFormed, Entries;
      var e := es[j];
      ghost var kids := LayoutKids(n, es[..j], reflink);
      LayoutKidsStep(n, es, j, reflink);
      SpanFacts(inodes.memory[..], inodes.free, extents.memory[..], extents.free, kids, i, idx, lo, elo);
      ReadableEntry(n, e, reflink);
      var slot := inodes.memory[i].content.idx + inodes.memory[i].content.count;
      if |e.name| > NAME_MAXLEN {
        return -ENAMETOOLONG;
      }
      inodes.memory[slot] := inodes.memory[slot].(name := e.name, namelen := |e.name|, parent := i);
      ghost var mem, free, exts, efree := old(inodes.memory[..]), inodes.free, extents.memory[..], extents.free;
      RoomForNext(n, es, j, reflink);
      err := ProcessIno(path + "/" + e.name, e, slot);
      if err != 0 {
        return;
      }
      Account(path, n, es, j, i, idx, lo, elo, before, slot, mem, free, exts, efree);
    }

    /** The slot is given back when it has no type, and counted otherwise. */
    method Account(path: string, n: Fs, es: seq<Ent>, ghost j: nat, i: nat, idx: nat,
                   ghost lo: nat, ghost elo: nat, ghost before: Option<map<string, nat>>, slot: nat,
                   ghost mem: seq<Inode>, ghost free: nat, ghost exts: seq<Extent>, ghost efree: nat)
      requires Valid() && n.FsDir? && es == Entries(n, reflink) && j < |es|
      requires idx + |es| == lo && idx <= slot < lo <= inodes.free && ValidName(es[j].name)
      requires SpanDone(mem, free, exts, efree, LayoutKids(n, es[..j], reflink), i, idx, lo, elo)
      requires slot == idx + |LayoutKids(n, es[..j], reflink)|
      requires SameRange(mem, inodes.memory[..], 0, slot) && SameRange(mem, inodes.memory[..], slot + 1, free)
      requires |mem| == inodes.reserved && SameRange(exts, extents.memory[..], 0, efree)
      requires inodes.memory[slot].ftype == 0 <==> !Kept(es[j])
      requires !Kept(es[j]) ==>
                 && inodes.free == free && extents.free == efree
                 && pathMap == Merged(before, KidPaths(path, LayoutKids(n, es[..j], reflink), idx, lo))
      requires Kept(es[j]) ==>
                 var t := Layout(es[j].node, reflink);
                 && inodes.free == free + Slots(t) && extents.free == efree + Extents(t)
                 && Encodes(inodes.memory[..], extents.memory[..], slot, t, free, efree)
                 && Named(inodes.memory[slot], es[j].name, i)
                 && pathMap == Merged(Merged(before, KidPaths(path, LayoutKids(n, es[..j], reflink), idx, lo)),
                                      PathsOf(path + "/" + es[j].name, t, slot, free))
      modifies inodes.memory
      ensures Valid()
      ensures forall k :: 0 <= k < idx && k != i ==> inodes.memory[k] == old(inodes.memory[k])
      ensures inodes.memory[i] == old(inodes.memory[i]).(content := inodes.memory[i].content)
      ensures EntriesDone(path, n, es[..j + 1], i, idx, lo, elo, before)
    {
      hide SpanDone, KidsEncoded, Encodes, Slots, KidSlots, Extents, KidExtents, Layout, LayoutKids, PathsOf, KidPaths, Merged;
      ghost var kids := LayoutKids(n, es[..j], reflink);
      SpanFacts(mem, free, exts, efree, kids, i, idx, lo, elo);
      LayoutKidsStep(n, es, j, reflink);
      if inodes.memory[slot].ftype == 0 {
        inodes.memory[slot] := ZERO_INODE;
        SpanKept(mem, inodes.memory[..], free, exts, extents.memory[..], efree, kids, i, idx, lo, elo);
      } else {
        ghost var mem1 := inodes.memory[..];
        ghost var kid := Kid(es[j].name, Layout(es[j].node, reflink));
        inodes.memory[i] := inodes.memory[i].(content := Span(idx, inodes.memory[i].content.count + 1));
        CountKeepsEntry(mem1, extents.memory[..], slot, kid.tree, free, efree, i, inodes.memory[i]);
        assert inodes.memory[..] == mem1[i := inodes.memory[i]];
        SpanGrows(mem, free, exts, efree, kids, i, idx, lo, elo, inodes.memory[..], extents.memory[..], kid);
        KidPathsStep(path, kids, kid, idx, lo);
        MergedTwice(before, KidPaths(path, kids, idx, lo), PathsOf(path + "/" + kid.name, kid.tree, slot, free));
      }
    }

    method ReadSorted(n: Fs) returns (es: seq<Ent>)
      requires n.FsDir?
      ensures es == Entries(n, reflink)
    {
      var listed := ReadDir(n);
      es := SortEnts(listed);
    }

    /** The readdir() loop. */
    method ReadDir(n: Fs) returns (listed: seq<Ent>)
      requires n.FsDir?
      ensures listed == ListedOf(n.ents, reflink)
    {
      listed := [];
      for j := 0 to |n.ents|
        invariant listed == ListedOf(n.ents[..j], reflink)
      {
        assert n.ents[..j + 1][..j] == n.ents[..j];
        if !IsMember(n.ents[j].name) || IsSkipped(n.ents[j]) {
          continue;
        }
        if reflink && IsSnapshotName(n.ents[j].name) {
          continue;
        }
        listed := listed + [n.ents[j]];
      }
      assert n.ents[..|n.ents|] == n.ents;
    }

    /**
      `xal_be_fiemap_index` between its two sequence-lock steps, over any earlier contents.  On
      success the pools decode to exactly the indexable part of the filesystem, every slot is well
      linked, and the path map, when there is one, holds every path and nothing else.
     */
    method Index(base: string, root: Fs, statErr: nat, mountRoot: bool) returns (err: int)
      requires Valid() && WellFormed(root)
      modifies this, inodes, inodes.memory, extents, extents.memory
      ensures Valid()
      ensures !root.FsDir? ==> err == -ENOTDIR
      ensures err == 0 ==>
                var t := Layout(root, reflink);
                && Encodes(inodes.memory[..], extents.memory[..], 0, t, 1, 0)
                && inodes.free == 1 + Slots(t) && extents.free == Extents(t)
                && inodes.memory[0].parent == NONE && inodes.memory[0].name == ""
                && Decode(inodes.memory[..], extents.memory[..], 0) == Some(Plain(t))
                && Mirrors(root, Plain(t), reflink)
                && Linked(inodes.memory[..])
                && pathMap == if old(pathMap).Some? then Some(PathsOf(base, t, 0, 1)) else None
      ensures root.FsDir? && statErr == 0 && Readable(root, reflink) && (old(pathMap).Some? ==> old(Inserting()))
              && old(inodes.Reaches(1 + Slots(Layout(root, reflink)))) && old(extents.Reaches(Extents(Layout(root, reflink))))
              ==> err == 0
    {
      hide Encodes, Decode, Mirrors, Linked, Layout, Plain, Readable, WellFormed, Slots, Extents, PathsOf;
      if !root.FsDir? {
        return -ENOTDIR;
      }
      err := ClaimRoot();
      if err == 0 {
        err := ProcessIno(base, Ent("", DtDir, mountRoot, statErr, root), 0);
        if err == 0 {
          MergedIntoEmpty(PathsOf(base, Layout(root, reflink), 0, 1));
          IndexDone(inodes.memory[..], extents.memory[..], root, reflink);
        }
      }
    }

    /** The pools and the map are cleared, and the root takes the first slot. */
    method ClaimRoot() returns (err: int)
      requires Valid()
      modifies this, inodes, inodes.memory, extents, extents.memory
      ensures Valid() && err <= 0
      ensures old(inodes.Reaches(1)) ==> err == 0
      ensures Later()
      ensures extents.free == 0 && pathMap == if old(pathMap).Some? then Some(map[]) else None
      ensures err == 0 ==> inodes.free == 1 && inodes.memory[0] == ZERO_INODE.(ftype := FT_DIR, parent := NONE)
    {
      hide Tiles;
      inodes.Clear();
      extents.Clear();
      if pathMap.Some? {
        pathMap := Some(map[]);
      }
      var rootIdx;
      err, rootIdx := inodes.Claim(1);
      if err == 0 {
        inodes.memory[rootIdx] := ZERO_INODE.(ftype := FT_DIR, parent := NONE);
      }
    }
  }

  lemma IndexDone(mem: seq<Inode>, exts: seq<Extent>, root: Fs, reflink: bool)
    requires root.FsDir? && WellFormed(root)
    requires Encodes(mem, exts, 0, Layout(root, reflink), 1, 0)
    requires forall k :: 1 + Slots(Layout(root, reflink)) <= k < |mem| ==> mem[k] == ZERO_INODE
    ensures Decode(mem, exts, 0) == Some(Plain(Layout(root, reflink)))
    ensures Mirrors(root, Plain(Layout(root, reflink)), reflink)
    ensures Linked(mem)
  {
    hide *;
    var t := Layout(root, reflink);
    DecodeInvertsEncodes(mem, exts, 0, t, 1, 0);
    LayoutMirrors(root, reflink);
    WholePoolLinked(mem, exts, t);
  }

  lemma MergedIntoEmpty(m: map<string, nat>)
    ensures Merged(Some(map[]), m) == Some(m)
  {
    assert map[] + m == m;
  }
}
