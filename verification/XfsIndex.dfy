/**
  The index of an XFS filesystem: the kept entries of a directory take one slot each, the span is
  sorted, and then every entry is processed in order.  The recursion follows the directory graph,
  which may have cycles; it ends because each call works on a higher slot of a bounded pool.
 */
module XfsIndex {
  import opened Names
  import opened PoolMemory
  import opened Inodes
  import opened Sorting
  import opened XfsFormat
  import opened XfsTree

  // ----- Lemmas on the span ---------------------------------------------------------------------

  /** The first `|kids|` entries of the span are processed, the rest still wait. */
  ghost predicate SpanReady(pool: seq<Inode>, exts: seq<Extent>, free: nat, efree: nat, d: Disk, i: nat, base: nat,
                            es: seq<Inode>, kids: seq<Kid>, elo: nat)
  {
    var lo := base + |es|;
    && i < base && |kids| <= |es| && lo <= |pool|
    && free == lo + KidSlots(kids) <= |pool| && efree == elo + KidExtents(kids) <= |exts|
    && KidsEncoded(pool, exts, i, base, kids, lo, elo)
    && KidsRead(d, es[..|kids|], kids)
    && AllWaiting(pool, base, es, |kids|)
  }

  ghost predicate AllWaiting(pool: seq<Inode>, base: nat, es: seq<Inode>, n: nat)
    requires base + |es| <= |pool|
  {
    forall k :: n <= k < |es| ==> Waiting(pool[base + k], es[k])
  }

  /** The slot holds the entry; the parent may still be missing. */
  predicate Waiting(slot: Inode, e: Inode) {
    slot == e.(parent := slot.parent)
  }

  lemma SlotsAppend(kids: seq<Kid>, kid: Kid)
    ensures KidSlots(kids + [kid]) == KidSlots(kids) + Slots(kid.tree)
    ensures KidExtents(kids + [kid]) == KidExtents(kids) + Extents(kid.tree)
  {
    assert (kids + [kid])[..|kids|] == kids;
  }

  lemma EncodedGrows(pool: seq<Inode>, exts: seq<Extent>, i: nat, base: nat, kids: seq<Kid>, kid: Kid, lo: nat, elo: nat,
                     free: nat, efree: nat)
    requires KidsEncoded(pool, exts, i, base, kids, lo, elo) && base + |kids| < lo <= |pool|
    requires free == lo + KidSlots(kids) && efree == elo + KidExtents(kids)
    requires Encodes(pool, exts, base + |kids|, kid.tree, free, efree)
    requires var s := pool[base + |kids|]; s.name == kid.name && s.namelen == |kid.name| && s.parent == i && ValidName(kid.name)
    ensures KidsEncoded(pool, exts, i, base, kids + [kid], lo, elo)
  {
    hide Encodes, KidSlots, KidExtents;
    assert (kids + [kid])[..|kids|] == kids && (kids + [kid])[|kids|] == kid;
  }

  lemma ReadGrows(d: Disk, es: seq<Inode>, kids: seq<Kid>, t: Tree)
    requires |kids| < |es| && KidsRead(d, es[..|kids|], kids) && Reads(d, es[|kids|].ino, es[|kids|].ftype, t)
    ensures KidsRead(d, es[..|kids| + 1], kids + [Kid(es[|kids|].name, t)])
  {
    hide Reads;
    var n, kids' := |kids|, kids + [Kid(es[|kids|].name, t)];
    forall k | 0 <= k < n + 1
      ensures kids'[k].name == es[k].name && Reads(d, es[k].ino, es[k].ftype, kids'[k].tree)
    {
      if k < n {
        assert es[..n][k] == es[k] && kids'[k] == kids[k];
      }
    }
  }

  /** Processing the next entry extends the processed part of the span. */
  lemma SpanStep(pool: seq<Inode>, exts: seq<Extent>, free: nat, efree: nat, d: Disk, i: nat, base: nat, es: seq<Inode>,
                 kids: seq<Kid>, elo: nat, pool': seq<Inode>, exts': seq<Extent>, t: Tree)
    requires SpanReady(pool, exts, free, efree, d, i, base, es, kids, elo) && |kids| < |es|
    requires |pool'| == |pool| && |exts'| == |exts|
    requires var s := base + |kids|; SameRange(pool, pool', 0, s) && SameRange(pool, pool', s + 1, free)
    requires SameRange(exts, exts', 0, efree)
    requires var s, e := base + |kids|, es[|kids|];
             && Encodes(pool', exts', s, t, free, efree) && Reads(d, e.ino, e.ftype, t)
             && pool'[s].name == e.name && pool'[s].namelen == |e.name| && pool'[s].parent == i && ValidName(e.name)
    ensures SpanReady(pool', exts', free + Slots(t), efree + Extents(t), d, i, base, es, kids + [Kid(es[|kids|].name, t)], elo)
  {
    hide Encodes, KidsEncoded, KidsRead, Reads, KidSlots, KidExtents, Slots, Extents, ValidName;
    var n, lo := |kids|, base + |es|;
    var kid := Kid(es[n].name, t);
    SlotsAppend(kids, kid);
    SpanBounds(pool', exts', base + n, t, free, efree);
    ReadGrows(d, es, kids, t);
    SpanFrame(pool, exts, free, efree, i, base, es, kids, elo, pool', exts');
    EncodedGrows(pool', exts', i, base, kids, kid, lo, elo, free, efree);
  }

  /** What was processed before, and what still waits, does not change. */
  lemma SpanFrame(pool: seq<Inode>, exts: seq<Extent>, free: nat, efree: nat, i: nat, base: nat, es: seq<Inode>,
                  kids: seq<Kid>, elo: nat, pool': seq<Inode>, exts': seq<Extent>)
    requires |kids| < |es| && base + |es| <= |pool| == |pool'| && |exts'| == |exts|
    requires free == base + |es| + KidSlots(kids) <= |pool| && efree == elo + KidExtents(kids) <= |exts|
    requires KidsEncoded(pool, exts, i, base, kids, base + |es|, elo) && AllWaiting(pool, base, es, |kids|)
    requires var s := base + |kids|; SameRange(pool, pool', 0, s) && SameRange(pool, pool', s + 1, free)
    requires SameRange(exts, exts', 0, efree)
    ensures KidsEncoded(pool', exts', i, base, kids, base + |es|, elo) && AllWaiting(pool', base, es, |kids| + 1)
  {
    hide KidsEncoded, KidSlots, KidExtents;
    var n, lo := |kids|, base + |es|;
    assert SameRange(pool, pool', base, base + n) && SameRange(pool, pool', lo, free) && SameRange(exts, exts', elo, efree);
    KidsFrame(pool, exts, pool', exts', i, base, kids, lo, elo);
  }

  /** The entry that is next. */
  lemma SpanNext(pool: seq<Inode>, exts: seq<Extent>, free: nat, efree: nat, d: Disk, i: nat, base: nat, es: seq<Inode>,
                 kids: seq<Kid>, elo: nat)
    requires SpanReady(pool, exts, free, efree, d, i, base, es, kids, elo) && |kids| < |es| && AllNamed(es) && AllTyped(es)
    ensures var slot, e := base + |kids|, es[|kids|];
            && slot < free == base + |es| + KidSlots(kids) <= |pool| && elo + KidExtents(kids) == efree <= |exts|
            && Waiting(pool[slot], e) && KidsRead(d, es[..|kids|], kids)
            && ValidName(e.name) && e.namelen == |e.name| && e.content == Span(0, 0) && e.ftype != 0
  {
    hide KidsEncoded, KidsRead, KidSlots, KidExtents, ValidName;
    assert es[|kids|] in es;
  }

  lemma SpanBounds(pool: seq<Inode>, exts: seq<Extent>, i: nat, t: Tree, lo: nat, elo: nat)
    requires Encodes(pool, exts, i, t, lo, elo)
    ensures lo + Slots(t) <= |pool| && elo + Extents(t) <= |exts|
  {
  }

  /** A directory without any processed entry. */
  lemma SpanStart(pool: seq<Inode>, exts: seq<Extent>, d: Disk, i: nat, base: nat, es: seq<Inode>, elo: nat)
    requires i < base && base + |es| <= |pool| && elo <= |exts| && AllWaiting(pool, base, es, 0)
    ensures SpanReady(pool, exts, base + |es|, elo, d, i, base, es, [], elo)
  {
  }

  lemma DirEncoded(pool: seq<Inode>, exts: seq<Extent>, free: nat, efree: nat, d: Disk, i: nat, base: nat, es: seq<Inode>,
                   kids: seq<Kid>, elo: nat, t: Tree)
    requires SpanReady(pool, exts, free, efree, d, i, base, es, kids, elo) && |kids| == |es| && Sorted(es, InodeName)
    requires t.Dir? && t.kids == kids && t.spare == 0 && pool[i].ftype == FT_DIR && pool[i].content == Span(base, |kids|)
    requires pool[i].ino == t.ino && pool[i].size == t.size
    ensures Encodes(pool, exts, i, t, base, elo) && free == base + Slots(t) && efree == elo + Extents(t)
  {
    assert Slots(t) == |kids| + KidSlots(kids) && Extents(t) == KidExtents(kids);
    assert es[..|kids|] == es;
    hide KidsEncoded, Reads, KidSlots, KidExtents;
    forall j, k | 0 <= j < k < |kids| ensures Less(kids[j].name, kids[k].name) {
      assert Less(InodeName(es[j]), InodeName(es[k]));
    }
    assert SortedKids(kids);
  }

  /** When every entry is processed the directory is encoded, and is what the disk describes. */
  lemma SpanDone(pool: seq<Inode>, exts: seq<Extent>, free: nat, efree: nat, d: Disk, dirs: set<nat>, ino: nat, i: nat, base: nat,
                 es: seq<Inode>, kids: seq<Kid>, elo: nat) returns (t: Tree)
    requires NamesOk(d, dirs) && ino in d && ino in dirs && Listed(d[ino].fork) && LastErr(d[ino].fork) == 0 && es == Ordered(d, d[ino].fork)
    requires BlocksReadable(d[ino].fork) && NoneRefused(d, Found(d[ino].fork))
    requires SpanReady(pool, exts, free, efree, d, i, base, es, kids, elo)
    requires |kids| == |es| && pool[i].ftype == FT_DIR
    requires pool[i].ino == d[ino].ino && pool[i].size == d[ino].size && pool[i].content == Span(base, |kids|)
    ensures Encodes(pool, exts, i, t, base, elo) && Reads(d, ino, FT_DIR, t)
    ensures free == base + Slots(t) && efree == elo + Extents(t)
  {
    t := Dir(d[ino].ino, d[ino].size, kids, 0);
    SpanSorted(d, dirs, ino);
    DirEncoded(pool, exts, free, efree, d, i, base, es, kids, elo, t);
    assert es[..|kids|] == es;
    assert KidsRead(d, es, kids);
    hide Encodes, KidsEncoded, KidsRead, SpanReady, NamesOk, Ordered;
  }

  // ----- Sorting the span -----------------------------------------------------------------------

  /** Slots and entries are the same but for the parents. */
  ghost predicate AllHold(slots: seq<Inode>, es: seq<Inode>) {
    |slots| == |es| && forall k :: 0 <= k < |es| ==> Waiting(slots[k], es[k])
  }

  lemma {:induction false} InsertHolds(slot: Inode, e: Inode, slots: seq<Inode>, es: seq<Inode>)
    requires Waiting(slot, e) && AllHold(slots, es)
    ensures AllHold(Insert(slot, slots, InodeName), Insert(e, es, InodeName))
    decreases |es|
  {
    hide Less;
    if es == [] {
    } else if Less(e.name, es[0].name) {
      FrontHolds(slot, e, slots, es);
    } else {
      InsertHolds(slot, e, slots[1..], es[1..]);
      FrontHolds(slots[0], es[0], Insert(slot, slots[1..], InodeName), Insert(e, es[1..], InodeName));
    }
  }

  lemma FrontHolds(slot: Inode, e: Inode, slots: seq<Inode>, es: seq<Inode>)
    requires Waiting(slot, e) && AllHold(slots, es)
    ensures AllHold([slot] + slots, [e] + es)
  {
  }

  lemma {:induction false} SortHolds(slots: seq<Inode>, es: seq<Inode>)
    requires AllHold(slots, es)
    ensures AllHold(Sort(slots, InodeName), Sort(es, InodeName))
    decreases |es|
  {
    if es != [] {
      SortHolds(slots[1..], es[1..]);
      InsertHolds(slots[0], es[0], Sort(slots[1..], InodeName), Sort(es[1..], InodeName));
    }
  }

  lemma HoldsWait(pool: seq<Inode>, base: nat, es: seq<Inode>)
    requires base + |es| <= |pool| && AllHold(pool[base..base + |es|], es)
    ensures AllWaiting(pool, base, es, 0)
  {
    forall k | 0 <= k < |es| ensures Waiting(pool[base + k], es[k]) {
      assert pool[base..base + |es|][k] == pool[base + k];
    }
  }

  lemma HoldsMore(slots: seq<Inode>, es: seq<Inode>, slot: Inode, e: Inode)
    requires AllHold(slots, es) && Waiting(slot, e)
    ensures AllHold(slots + [slot], es + [e])
  {
  }

  // ----- Filling the span -----------------------------------------------------------------------

  predicate IsDot(e: Inode) {
    e.name == "." || e.name == ".."
  }

  /** The entries a loop looks at: a data block's without its first two. */
  function Candidates(es: seq<Inode>, skipDots: bool): seq<Inode> {
    if skipDots then Undotted(es) else es
  }

  lemma CandidatesStep(d: Disk, es: seq<Inode>, n: nat, skipDots: bool)
    requires n < |es|
    ensures var front, next := Candidates(es[..n], skipDots), Candidates(es[..n + 1], skipDots);
            && (skipDots && IsDot(es[n]) ==> next == front)
            && (!(skipDots && IsDot(es[n])) ==> next == front + [es[n]])
  {
    assert es[..n + 1][..n] == es[..n];
  }

  lemma {:induction false} KeptPrefix(d: Disk, a: seq<Inode>, b: seq<Inode>)
    requires a <= b
    ensures |Kept(d, a)| <= |Kept(d, b)|
    decreases |b|
  {
    if |a| == |b| {
      assert a == b;
    } else {
      hide Judge;
      KeptPrefix(d, a, b[..|b| - 1]);
    }
  }

  lemma {:induction false} CandidatesPrefix(es: seq<Inode>, n: nat, skipDots: bool)
    requires n <= |es|
    ensures Candidates(es[..n], skipDots) <= Candidates(es, skipDots)
    decreases |es|
  {
    if n == |es| {
      assert es[..n] == es;
    } else {
      var m := |es| - 1;
      assert es[..m][..n] == es[..n];
      CandidatesPrefix(es[..m], n, skipDots);
    }
  }

  lemma {:induction false} BlocksPrefix(bs: seq<Block>, n: nat)
    requires n <= |bs|
    ensures BlockEntries(bs[..n]) <= BlockEntries(bs)
    decreases |bs|
  {
    if n == |bs| {
      assert bs[..n] == bs;
    } else {
      var m := |bs| - 1;
      assert bs[..m][..n] == bs[..n];
      BlocksPrefix(bs[..m], n);
    }
  }

  /** A prefix asks for no more than the whole. */
  lemma PrefixAsksLess(d: Disk, part: seq<Inode>, whole: seq<Inode>)
    requires part <= whole
    ensures |Kept(d, part)| <= |Kept(d, whole)| && (NoneRefused(d, whole) ==> NoneRefused(d, part))
  {
    KeptPrefix(d, part, whole);
    hide Judge, Kept;
  }

  lemma LastRefused(d: Disk, es: seq<Inode>, e: Inode)
    requires Judge(d, e).Refuse?
    ensures !NoneRefused(d, es + [e])
  {
    hide Judge;
    assert (es + [e])[|es|] == e;
  }

  lemma KeptOne(d: Disk, es: seq<Inode>, e: Inode)
    ensures var v := Judge(d, e);
            Kept(d, es + [e]) == if v.Keep? then Kept(d, es) + [e.(ftype := v.ftype)] else Kept(d, es)
    ensures NoneRefused(d, es) && !Judge(d, e).Refuse? ==> NoneRefused(d, es + [e])
  {
    hide Judge;
    assert (es + [e])[..|es|] == es;
  }

  class Xal {
    const inodes: Pool<Inode>
    const extents: Pool<Extent>
    const disk: Disk
    /** What can be reached as a directory. */
    ghost const dirs: set<nat>

    ghost predicate Valid()
      reads this, inodes, inodes.memory, extents, extents.memory
    {
      && inodes.Valid() && extents.Valid()
      && inodes.zero == ZERO_INODE && extents.zero == ZERO_EXTENT
      && inodes as object != extents && inodes.memory as object != extents.memory
      && NamesOk(disk, dirs)
    }

    constructor (inodes: Pool<Inode>, extents: Pool<Extent>, disk: Disk, ghost dirs: set<nat>)
      requires inodes.Valid() && extents.Valid() && NamesOk(disk, dirs)
      requires inodes.zero == ZERO_INODE && extents.zero == ZERO_EXTENT
      requires inodes as object != extents && inodes.memory as object != extents.memory
      ensures Valid() && this.inodes == inodes && this.extents == extents && this.disk == disk && this.dirs == dirs
    {
      this.inodes, this.extents, this.disk, this.dirs := inodes, extents, disk, dirs;
    }

    /** Directory `i` owns the slots from `base` on, which hold the entries `es`. */
    ghost predicate Filling(i: nat, base: nat, es: seq<Inode>)
      requires Valid()
      reads this, inodes, inodes.memory, extents, extents.memory
    {
      && i < base <= inodes.free && inodes.free == base + |es|
      && inodes.memory[i].content == Span(base, |es|)
      && AllHold(inodes.memory[base..inodes.free], es)
    }

    /** One iteration of the loops that fill a span: a kept entry takes the next slot. */
    method TakeEntry(e: Inode, parent: nat, i: nat, base: nat, ghost es: seq<Inode>) returns (err: int)
      requires Valid() && Filling(i, base, Kept(disk, es)) && NoneRefused(disk, es)
      modifies inodes, inodes.memory
      ensures Valid() && err <= 0 && inodes.free >= old(inodes.free)
      ensures forall k :: 0 <= k < base && k != i ==> inodes.memory[k] == old(inodes.memory[k])
      ensures inodes.memory[i] == old(inodes.memory[i]).(content := inodes.memory[i].content)
      ensures err == 0 ==> Filling(i, base, Kept(disk, es + [e])) && NoneRefused(disk, es + [e])
      ensures Later()
      ensures NoneRefused(disk, es + [e]) && old(inodes.Reaches(base + |Kept(disk, es + [e])|)) ==> err == 0
    {
      KeptOne(disk, es, e);
      hide Judge, Kept, NoneRefused, NamesOk;
      match Judge(disk, e) {
        case Refuse(code) =>
          RefuseNegative(disk, e);
          LastRefused(disk, es, e);
          return code;
        case Skip =>
          return 0;
        case Keep(ftype) =>
          err := PutEntry(e.(ftype := ftype), parent, i, base, Kept(disk, es));
      }
    }

    method PutEntry(e: Inode, parent: nat, i: nat, base: nat, ghost es: seq<Inode>) returns (err: int)
      requires Valid() && Filling(i, base, es)
      modifies inodes, inodes.memory
      ensures Valid() && err <= 0 && inodes.free >= old(inodes.free)
      ensures forall k :: 0 <= k < base && k != i ==> inodes.memory[k] == old(inodes.memory[k])
      ensures inodes.memory[i] == old(inodes.memory[i]).(content := inodes.memory[i].content)
      ensures err == 0 ==> Filling(i, base, es + [e])
      ensures Later()
      ensures old(inodes.Reaches(base + |es| + 1)) ==> err == 0
    {
      hide NamesOk, Tiles, AllHold;
      var slot;
      ghost var slots := inodes.memory[base..inodes.free];
      err, slot := inodes.Claim(1);
      if err != 0 {
        return;
      }
      inodes.memory[slot] := e.(parent := parent);
      inodes.memory[i] := inodes.memory[i].(content := Span(base, inodes.memory[i].content.count + 1));
      HoldsMore(slots, es, inodes.memory[slot], e);
      assert inodes.memory[base..inodes.free] == slots + [inodes.memory[slot]];
    }

    /** The loop over the entries of a short-form directory or of one data block. */
    method TakeEntries(entries: seq<Inode>, skipDots: bool, parent: nat, i: nat, base: nat, ghost have: seq<Inode>)
      returns (err: int)
      requires Valid() && Filling(i, base, Kept(disk, have)) && NoneRefused(disk, have)
      modifies inodes, inodes.memory
      ensures Valid() && err <= 0 && inodes.free >= old(inodes.free)
      ensures forall k :: 0 <= k < base && k != i ==> inodes.memory[k] == old(inodes.memory[k])
      ensures inodes.memory[i] == old(inodes.memory[i]).(content := inodes.memory[i].content)
      ensures err == 0 ==>
                var es := have + Candidates(entries, skipDots);
                Filling(i, base, Kept(disk, es)) && NoneRefused(disk, es)
      ensures Later()
      ensures var es := have + Candidates(entries, skipDots);
              NoneRefused(disk, es) && old(inodes.Reaches(base + |Kept(disk, es)|)) ==> err == 0
    {
      hide Judge, Kept, NoneRefused, NamesOk, Candidates, AllHold, Tiles;
      NoCandidates(entries, skipDots);
      assert have + [] == have;
      for n := 0 to |entries|
        invariant Valid() && inodes.free >= old(inodes.free)
        invariant forall k :: 0 <= k < base && k != i ==> inodes.memory[k] == old(inodes.memory[k])
        invariant inodes.memory[i] == old(inodes.memory[i]).(content := inodes.memory[i].content)
        invariant Later()
        invariant var es := have + Candidates(entries[..n], skipDots);
                  Filling(i, base, Kept(disk, es)) && NoneRefused(disk, es)
      {
        var e := entries[n];
        CandidatesStep(disk, entries, n, skipDots);
        ghost var es := have + Candidates(entries[..n], skipDots);
        if !(skipDots && IsDot(e)) {
          assert have + (Candidates(entries[..n], skipDots) + [e]) == es + [e];
          err := TakeEntry(e, parent, i, base, es);
          if err != 0 {
            CandidatesPrefix(entries, n + 1, skipDots);
            PrefixAsksLess(disk, es + [e], have + Candidates(entries, skipDots));
            return;
          }
        }
      }
      assert entries[..|entries|] == entries;
      err := 0;
    }

    /** `process_dinode_dir_extents`, the part that reads the data blocks. */
    method TakeBlocks(blocks: seq<Block>, i: nat, base: nat) returns (err: int)
      requires Valid() && Filling(i, base, [])
      modifies inodes, inodes.memory
      ensures Valid() && inodes.free >= old(inodes.free)
      ensures forall k :: 0 <= k < base && k != i ==> inodes.memory[k] == old(inodes.memory[k])
      ensures inodes.memory[i] == old(inodes.memory[i]).(content := inodes.memory[i].content)
      ensures err == 0 ==>
                var es := BlockEntries(blocks);
                Filling(i, base, Kept(disk, es)) && NoneRefused(disk, es) && forall b :: b in blocks ==> !b.Failed?
      ensures Later()
      ensures var es := BlockEntries(blocks);
              NoneRefused(disk, es) && old(inodes.Reaches(base + |Kept(disk, es)|)) && (forall b :: b in blocks ==> !b.Failed?) ==>
              err == 0
    {
      NothingKept(disk);
      NoBlocks(blocks);
      hide Judge, Kept, NoneRefused, NamesOk, BlockEntries, AllHold;
      for n := 0 to |blocks|
        invariant Valid() && inodes.free >= old(inodes.free)
        invariant forall k :: 0 <= k < base && k != i ==> inodes.memory[k] == old(inodes.memory[k])
        invariant inodes.memory[i] == old(inodes.memory[i]).(content := inodes.memory[i].content)
        invariant Later()
        invariant forall k :: 0 <= k < n ==> !blocks[k].Failed?
        invariant var es := BlockEntries(blocks[..n]); Filling(i, base, Kept(disk, es)) && NoneRefused(disk, es)
      {
        BlocksStep(blocks, n);
        if blocks[n].Failed? {
          return blocks[n].err;
        }
        if blocks[n].Data? {
          err := TakeEntries(blocks[n].entries, true, i, i, base, BlockEntries(blocks[..n]));
          if err != 0 {
            BlocksPrefix(blocks, n + 1);
            PrefixAsksLess(disk, BlockEntries(blocks[..n + 1]), BlockEntries(blocks));
            return;
          }
        }
      }
      assert blocks[..|blocks|] == blocks;
      err := 0;
    }

    /** `qsort` of the span by name. */
    method SortSpan(i: nat, base: nat, ghost es: seq<Inode>)
      requires Valid() && Filling(i, base, es)
      modifies inodes.memory
      ensures Valid() && Filling(i, base, Sort(es, InodeName))
      ensures forall k :: 0 <= k < base ==> inodes.memory[k] == old(inodes.memory[k])
    {
      hide Sort, AllHold, NamesOk, Tiles;
      var slots := inodes.memory[base..inodes.free];
      SortHolds(slots, es);
      WriteBack(base, Sort(slots, InodeName));
    }

    method WriteBack(base: nat, slots: seq<Inode>)
      requires Valid() && base + |slots| == inodes.free
      modifies inodes.memory
      ensures Valid() && inodes.memory[base..inodes.free] == slots
      ensures forall k :: 0 <= k < base ==> inodes.memory[k] == old(inodes.memory[k])
    {
      hide NamesOk, Tiles;
      for k := 0 to |slots|
        invariant forall m :: 0 <= m < k ==> inodes.memory[base + m] == slots[m]
        invariant forall m :: 0 <= m < base ==> inodes.memory[m] == old(inodes.memory[m])
        invariant forall m :: inodes.free <= m < inodes.reserved ==> inodes.memory[m] == inodes.zero
      {
        inodes.memory[base + k] := slots[k];
      }
    }

    /** `process_dinode_file_extents`, and the B+tree reader's result. */
    method ProcessFile(exts: seq<Extent>, i: nat) returns (err: int)
      requires Valid() && i < inodes.free
      modifies inodes.memory, extents, extents.memory
      ensures Valid() && err <= 0
      ensures forall k :: 0 <= k < inodes.reserved && k != i ==> inodes.memory[k] == old(inodes.memory[k])
      ensures forall k :: 0 <= k < old(extents.free) ==> extents.memory[k] == old(extents.memory[k])
      ensures inodes.memory[i] == old(inodes.memory[i]).(content := inodes.memory[i].content)
      ensures err == 0 ==>
                && extents.free == old(extents.free) + |exts| && inodes.memory[i].content == Span(old(extents.free), |exts|)
                && extents.memory[old(extents.free)..extents.free] == exts
      ensures Later()
      ensures old(extents.Reaches(extents.free + |exts|)) ==> err == 0
    {
      hide NamesOk, Tiles;
      var idx;
      err, idx := extents.Claim(|exts|);
      if err != 0 {
        return;
      }
      inodes.memory[i] := inodes.memory[i].(content := Span(idx, |exts|));
      for rec := 0 to |exts|
        modifies extents.memory
        invariant extents.memory[idx..idx + rec] == exts[..rec]
        invariant forall m :: 0 <= m < idx ==> extents.memory[m] == old(extents.memory[m])
        invariant forall m :: extents.free <= m < extents.reserved ==> extents.memory[m] == extents.zero
      {
        extents.memory[idx + rec] := exts[rec];
        assert extents.memory[idx..idx + rec + 1] == extents.memory[idx..idx + rec] + [exts[rec]];
      }
    }

    /** Nothing that the pools could reach before is out of reach now. */
    twostate predicate Later()
      reads this, inodes, extents
    {
      && inodes.accessible >= old(inodes.accessible) && inodes.grown >= old(inodes.grown)
      && extents.accessible >= old(extents.accessible) && extents.grown >= old(extents.grown)
    }

    /** The pools have room for the tree from `lo` and `elo` on. */
    ghost predicate RoomFor(t: Tree, lo: nat, elo: nat)
      reads this, inodes, extents
    {
      inodes.Reaches(lo + Slots(t)) && extents.Reaches(elo + Extents(t))
    }

    ghost predicate RoomForKids(kids: seq<Kid>, lo: nat, elo: nat)
      reads this, inodes, extents
    {
      inodes.Reaches(lo + KidSlots(kids)) && extents.Reaches(elo + KidExtents(kids))
    }

    /** What a call that processes slot `i` leaves alone. */
    twostate predicate Framed(i: nat)
      reads this, inodes, inodes.memory, extents, extents.memory
    {
      && old(inodes.free) <= inodes.free <= inodes.memory.Length && old(extents.free) <= extents.memory.Length
      && i < old(inodes.free)
      && (forall k :: 0 <= k < old(inodes.free) && k != i ==> inodes.memory[k] == old(inodes.memory[k]))
      && (forall k :: 0 <= k < old(extents.free) ==> extents.memory[k] == old(extents.memory[k]))
      && inodes.memory[i].name == old(inodes.memory[i].name) && inodes.memory[i].namelen == old(inodes.memory[i].namelen)
      && inodes.memory[i].parent == old(inodes.memory[i].parent)
    }

    /** Slot `i` holds the tree, which is what the disk describes, and nothing else was claimed. */
    ghost predicate Holds(ino: nat, ftype: nat, i: nat, t: Tree, lo: nat, elo: nat)
      reads this, inodes, inodes.memory, extents, extents.memory
    {
      && inodes.free == lo + Slots(t) && extents.free == elo + Extents(t)
      && Encodes(inodes.memory[..], extents.memory[..], i, t, lo, elo) && Reads(disk, ino, ftype, t)
    }

    /**
      `process_ino`: on success the slot holds the tree that the inode describes.  The call ends for
      every directory graph: a child's slot is above its directory's and below the reservation.
     */
    method ProcessIno(ino: nat, i: nat) returns (err: int, ghost t: Tree)
      requires Valid() && i < inodes.free && inodes.memory[i].content == Span(0, 0)
      requires inodes.memory[i].ftype in {0, FT_DIR, FT_REG} && (inodes.memory[i].ftype != FT_REG ==> ino in dirs)
      modifies inodes, inodes.memory, extents, extents.memory
      ensures Valid() && Framed(i)
      ensures old(inodes.memory[i].ftype) != 0 ==> inodes.memory[i].ftype == old(inodes.memory[i].ftype)
      ensures err == 0 ==> Holds(ino, inodes.memory[i].ftype, i, t, old(inodes.free), old(extents.free))
      ensures Later()
      ensures forall u :: Reads(disk, ino, inodes.memory[i].ftype, u) && old(RoomFor(u, inodes.free, extents.free)) ==> err == 0
      decreases inodes.reserved - i, 3
    {
      hide NamesOk, Tiles, Slots, Extents, Sort;
      t := File(0, 0, []);
      if ino !in disk {
        return -EINVAL, t;
      }
      var dinode := disk[ino];
      if inodes.memory[i].ftype == 0 {
        if dinode.mode == IsOther {
          return -EINVAL, t;
        }
        inodes.memory[i] := inodes.memory[i].(ftype := TypeOfMode(dinode.mode));
      }
      inodes.memory[i] := inodes.memory[i].(size := dinode.size, ino := dinode.ino);
      if dinode.fork.Undefined? {
        t := Blank(ino, i);
        err := 0;
      } else if inodes.memory[i].ftype == FT_DIR && Listed(dinode.fork) {
        err, t := ProcessDir(ino, i);
      } else if inodes.memory[i].ftype == FT_REG && (dinode.fork.Mapped? || dinode.fork.Btree?) {
        err, t := ProcessRegular(ino, i);
      } else {
        err := if inodes.memory[i].ftype == FT_DIR && dinode.fork.LocalOverrun? then OUTSIDE else -ENOSYS;
      }
    }

    /** An inode of an undefined format: nothing is processed, and the slot stands for an empty directory or file. */
    ghost method Blank(ino: nat, i: nat) returns (t: Tree)
      requires Valid() && i < inodes.free && ino in disk && disk[ino].fork.Undefined?
      requires inodes.memory[i].ftype == FT_DIR || inodes.memory[i].ftype == FT_REG
      requires inodes.memory[i].content == Span(0, 0)
      requires inodes.memory[i].ino == disk[ino].ino && inodes.memory[i].size == disk[ino].size
      ensures Holds(ino, inodes.memory[i].ftype, i, t, inodes.free, extents.free)
    {
      if inodes.memory[i].ftype == FT_DIR {
        t := Dir(disk[ino].ino, disk[ino].size, [], 0);
        UndefinedIsEmpty(disk, ino, t);
      } else {
        t := File(disk[ino].ino, disk[ino].size, []);
      }
    }

    /** A directory: its span is filled and sorted, and then its entries are processed. */
    method ProcessDir(ino: nat, i: nat) returns (err: int, ghost t: Tree)
      requires Valid() && i < inodes.free && ino in disk && inodes.memory[i].ftype == FT_DIR && ino in dirs
      requires inodes.memory[i].content == Span(0, 0)
      requires inodes.memory[i].ino == disk[ino].ino && inodes.memory[i].size == disk[ino].size
      requires Listed(disk[ino].fork)
      modifies inodes, inodes.memory, extents, extents.memory
      ensures Valid() && Framed(i) && inodes.memory[i].ftype == FT_DIR
      ensures err == 0 ==> Holds(ino, FT_DIR, i, t, old(inodes.free), old(extents.free))
      ensures Later()
      ensures forall u :: Reads(disk, ino, FT_DIR, u) && old(RoomFor(u, inodes.free, extents.free)) ==> err == 0
      decreases inodes.reserved - i, 2
    {
      hide NamesOk, Tiles, Slots, Extents, Sort, Kept, NoneRefused, Encodes, Reads, SpanReady, AllHold, AllWaiting;
      t := File(0, 0, []);
      var base := inodes.free;
      forall u | Reads(disk, ino, FT_DIR, u) ensures DirFits(u, base, extents.free, ino) {
        DirTree(disk, ino, u);
      }
      err := FillSpan(ino, i, base);
      if err != 0 {
        return;
      }
      ghost var es := Ordered(disk, disk[ino].fork);
      SpanSorted(disk, dirs, ino);
      ghost var kids;
      err, kids := ProcessSpan(i, base, es);
      if err != 0 {
        return;
      }
      assert NamesOk(disk, dirs);
      err := LastErr(disk[ino].fork);
      if err == 0 {
        t := SpanDone(inodes.memory[..], extents.memory[..], inodes.free, extents.free, disk, dirs, ino, i, base, es, kids, old(extents.free));
      }
    }

    /** What room for a directory's tree means for its span and its entries. */
    ghost predicate DirFits(u: Tree, lo: nat, elo: nat, ino: nat)
      requires ino in disk
      reads this
    {
      var fork := disk[ino].fork;
      && u.Dir? && LastErr(fork) == 0 && BlocksReadable(fork) && NoneRefused(disk, Found(fork)) && KidsRead(disk, Ordered(disk, fork), u.kids)
      && Slots(u) == |Ordered(disk, fork)| + KidSlots(u.kids) && Extents(u) == KidExtents(u.kids)
    }

    /** The kept entries in one contiguous sorted span. */
    method FillSpan(ino: nat, i: nat, base: nat) returns (err: int)
      requires Valid() && i < inodes.free == base && ino in disk && inodes.memory[i].content == Span(0, 0)
      requires Listed(disk[ino].fork)
      modifies inodes, inodes.memory
      ensures Valid() && inodes.free >= base
      ensures forall k :: 0 <= k < base && k != i ==> inodes.memory[k] == old(inodes.memory[k])
      ensures inodes.memory[i] == old(inodes.memory[i]).(content := inodes.memory[i].content)
      ensures err == 0 ==>
                && Filling(i, base, Ordered(disk, disk[ino].fork))
                && BlocksReadable(disk[ino].fork) && NoneRefused(disk, Found(disk[ino].fork))
      ensures Later()
      ensures var fork := disk[ino].fork;
              BlocksReadable(fork) && NoneRefused(disk, Found(fork)) && old(inodes.Reaches(base + |Ordered(disk, fork)|)) ==> err == 0
    {
      NothingKept(disk);
      hide NamesOk, Tiles, Sort, Kept, NoneRefused, BlockEntries;
      inodes.memory[i] := inodes.memory[i].(content := Span(base, 0));
      match disk[ino].fork {
        case Local(entries) =>
          err := TakeEntries(entries, false, 0, i, base, []);
          assert [] + entries == entries;
        case Mapped(blocks, _, _) =>
          err := TakeBlocks(blocks, i, base);
        case Btree(blocks, _) =>
          err := TakeBlocks(blocks, i, base);
        case _ =>
          assert false;
      }
      if err == 0 {
        SortSpan(i, base, Indexed(disk, disk[ino].fork));
      }
    }

    /** The loop that processes the entries of the sorted span in order. */
    method ProcessSpan(i: nat, base: nat, ghost es: seq<Inode>) returns (err: int, ghost kids: seq<Kid>)
      requires Valid() && Filling(i, base, es) && AllNamed(es) && AllTyped(es) && AllWithin(es, dirs)
      modifies inodes, inodes.memory, extents, extents.memory
      ensures Valid() && inodes.free >= old(inodes.free)
      ensures forall k :: 0 <= k < base ==> inodes.memory[k] == old(inodes.memory[k])
      ensures forall k :: 0 <= k < old(extents.free) ==> extents.memory[k] == old(extents.memory[k])
      ensures err == 0 ==>
                && |kids| == |es|
                && SpanReady(inodes.memory[..], extents.memory[..], inodes.free, extents.free, disk, i, base, es, kids, old(extents.free))
      ensures Later()
      ensures forall ks :: KidsRead(disk, es, ks) && old(RoomForKids(ks, base + |es|, extents.free)) ==> err == 0
      decreases inodes.reserved - i, 1
    {
      hide NamesOk, Tiles, Slots, Extents, SpanReady, Encodes, Reads;
      ghost var elo := extents.free;
      kids := [];
      assert inodes.memory[..][base..base + |es|] == inodes.memory[base..inodes.free];
      HoldsWait(inodes.memory[..], base, es);
      SpanStart(inodes.memory[..], extents.memory[..], disk, i, base, es, elo);
      hide AllHold, AllWaiting;
      var n := inodes.memory[i].content.count;
      for j := 0 to n
        invariant Valid() && |kids| == j && inodes.free >= old(inodes.free)
        invariant forall k :: 0 <= k < base ==> inodes.memory[k] == old(inodes.memory[k])
        invariant forall k :: 0 <= k < elo ==> extents.memory[k] == old(extents.memory[k])
        invariant SpanReady(inodes.memory[..], extents.memory[..], inodes.free, extents.free, disk, i, base, es, kids, elo)
        invariant Later()
      {
        err, kids := ProcessEntry(i, base, base + j, es, kids, elo);
        if err != 0 {
          return;
        }
      }
      err := 0;
    }

    method ProcessEntry(i: nat, base: nat, slot: nat, ghost es: seq<Inode>, ghost kids: seq<Kid>, ghost elo: nat)
      returns (err: int, ghost kids': seq<Kid>)
      requires Valid() && |kids| < |es| && slot == base + |kids| && AllNamed(es) && AllTyped(es) && AllWithin(es, dirs) && i < base
      requires SpanReady(inodes.memory[..], extents.memory[..], inodes.free, extents.free, disk, i, base, es, kids, elo)
      modifies inodes, inodes.memory, extents, extents.memory
      ensures Valid() && inodes.free >= old(inodes.free)
      ensures forall k :: 0 <= k < base ==> inodes.memory[k] == old(inodes.memory[k])
      ensures forall k :: 0 <= k < elo ==> extents.memory[k] == old(extents.memory[k])
      ensures err == 0 ==>
                && |kids'| == |kids| + 1
                && SpanReady(inodes.memory[..], extents.memory[..], inodes.free, extents.free, disk, i, base, es, kids', elo)
      ensures Later()
      ensures forall ks :: KidsRead(disk, es, ks) && old(RoomForKids(ks, base + |es|, elo)) ==> err == 0
      decreases inodes.reserved - i, 0
    {
      hide NamesOk, Tiles, Slots, Extents, KidSlots, KidExtents, Encodes, Reads, KidsEncoded, KidsRead;
      ghost var e := es[|kids|];
      ghost var pool, exts, free, efree := inodes.memory[..], extents.memory[..], inodes.free, extents.free;
      SpanNext(pool, exts, free, efree, disk, i, base, es, kids, elo);
      hide SpanReady;
      inodes.memory[slot] := inodes.memory[slot].(parent := i);
      ghost var t;
      kids' := kids;
      err, t := ProcessIno(inodes.memory[slot].ino, slot);
      if err == 0 {
        SpanStep(pool, exts, free, efree, disk, i, base, es, kids, elo, inodes.memory[..], extents.memory[..], t);
        kids' := kids + [Kid(e.name, t)];
      }
      forall ks: seq<Kid> | KidsRead(disk, es, ks) && old(RoomForKids(ks, base + |es|, elo)) ensures err == 0 {
        NextFits(disk, es, kids, ks);
        assert old(RoomFor(ks[|kids|].tree, free, efree));
      }
    }

    method ProcessRegular(ino: nat, i: nat) returns (err: int, ghost t: Tree)
      requires Valid() && i < inodes.free && ino in disk && inodes.memory[i].ftype == FT_REG
      requires inodes.memory[i].ino == disk[ino].ino && inodes.memory[i].size == disk[ino].size
      requires disk[ino].fork.Mapped? || disk[ino].fork.Btree?
      modifies inodes.memory, extents, extents.memory
      ensures Valid() && Framed(i) && inodes.free == old(inodes.free)
      ensures inodes.memory[i].ftype == FT_REG
      ensures err == 0 ==> Holds(ino, FT_REG, i, t, old(inodes.free), old(extents.free))
      ensures Later()
      ensures forall u :: Reads(disk, ino, FT_REG, u) && old(RoomFor(u, inodes.free, extents.free)) ==> err == 0
    {
      hide NamesOk, Tiles;
      var fork := disk[ino].fork;
      t := File(disk[ino].ino, disk[ino].size, []);
      if fork.result.Bad? {
        return fork.result.err, t;
      }
      var exts := fork.result.extents;
      err := ProcessFile(exts, i);
      if err == 0 {
        t := File(disk[ino].ino, disk[ino].size, exts);
        assert extents.memory[..][old(extents.free)..extents.free] == extents.memory[old(extents.free)..extents.free];
      }
    }

    /**
      `xal_be_xfs_index`: on success the pools hold exactly the tree that the root inode is read as,
      every slot is well linked, and decoding the pools gives that tree back; it is the tree that the
      root describes exactly if no inode of an undefined format was reached.
     */
    method Index(rootino: nat) returns (err: int, ghost t: Tree)
      requires Valid() && rootino in dirs
      modifies inodes, inodes.memory, extents, extents.memory
      ensures Valid()
      ensures err == 0 ==>
                && Encodes(inodes.memory[..], extents.memory[..], 0, t, 1, 0) && Reads(disk, rootino, FT_DIR, t)
                && (Unfolds(disk, rootino, FT_DIR, t) <==> AllDefined(disk, rootino, t))
                && inodes.free == 1 + Slots(t) && extents.free == Extents(t)
                && Linked(inodes.memory[..]) && Decode(inodes.memory[..], extents.memory[..], 0) == Some(Plain(t))
      ensures forall u :: Reads(disk, rootino, FT_DIR, u) && old(RoomFor(u, 1, 0)) ==> err == 0
    {
      hide NamesOk, Tiles, Slots, Extents, Reads, Unfolds, AllDefined, Encodes, Linked, Decode, Plain;
      inodes.Clear();
      extents.Clear();
      t := File(0, 0, []);
      var root;
      err, root := inodes.Claim(1);
      if err != 0 {
        return;
      }
      inodes.memory[root] := inodes.memory[root].(ino := rootino, ftype := FT_DIR, parent := NONE);
      err, t := ProcessIno(rootino, root);
      if err == 0 {
        ReadsExact(disk, rootino, FT_DIR, t);
        WholePoolLinked(inodes.memory[..], extents.memory[..], t);
        DecodeInvertsEncodes(inodes.memory[..], extents.memory[..], 0, t, 1, 0);
      }
    }
  }

  lemma DirTree(d: Disk, ino: nat, u: Tree)
    requires ino in d && Reads(d, ino, FT_DIR, u)
    ensures var fork := d[ino].fork;
            && u.Dir? && LastErr(fork) == 0 && BlocksReadable(fork) && NoneRefused(d, Found(fork)) && KidsRead(d, Ordered(d, fork), u.kids)
            && Slots(u) == |Ordered(d, fork)| + KidSlots(u.kids) && Extents(u) == KidExtents(u.kids)
  {
    hide Ordered, NoneRefused;
  }

  lemma {:induction false} KidsPrefixSize(ks: seq<Kid>, n: nat)
    requires n <= |ks|
    ensures KidSlots(ks[..n]) <= KidSlots(ks) && KidExtents(ks[..n]) <= KidExtents(ks)
    decreases |ks|
  {
    if n == |ks| {
      assert ks[..n] == ks;
    } else {
      var m := |ks| - 1;
      assert ks[..m][..n] == ks[..n];
      KidsPrefixSize(ks[..m], n);
    }
  }

  /** What was processed so far is the front of any list of kids that the entries describe. */
  lemma SameFront(d: Disk, es: seq<Inode>, kids: seq<Kid>, ks: seq<Kid>)
    requires |kids| < |es| && KidsRead(d, es[..|kids|], kids) && KidsRead(d, es, ks)
    ensures kids == ks[..|kids|]
  {
    var n := |kids|;
    forall k | 0 <= k < n ensures kids[k] == ks[k] {
      assert es[..n][k] == es[k];
      ReadsUnique(d, es[k].ino, es[k].ftype, kids[k].tree, ks[k].tree);
    }
  }

  lemma NextFits(d: Disk, es: seq<Inode>, kids: seq<Kid>, ks: seq<Kid>)
    requires |kids| < |es| && KidsRead(d, es[..|kids|], kids) && KidsRead(d, es, ks)
    ensures |ks| == |es|
    ensures var n := |kids|;
            && Reads(d, es[n].ino, es[n].ftype, ks[n].tree)
            && KidSlots(kids) + Slots(ks[n].tree) <= KidSlots(ks) && KidExtents(kids) + Extents(ks[n].tree) <= KidExtents(ks)
  {
    SameFront(d, es, kids, ks);
    FrontSize(ks, |kids|);
  }

  lemma FrontSize(ks: seq<Kid>, n: nat)
    requires n < |ks|
    ensures KidSlots(ks[..n]) + Slots(ks[n].tree) <= KidSlots(ks) && KidExtents(ks[..n]) + Extents(ks[n].tree) <= KidExtents(ks)
  {
    assert ks[..n + 1] == ks[..n] + [ks[n]];
    SlotsAppend(ks[..n], ks[n]);
    KidsPrefixSize(ks, n + 1);
  }

  lemma NothingKept(d: Disk)
    ensures Kept(d, []) == [] && NoneRefused(d, [])
  {
  }

  lemma NoBlocks(bs: seq<Block>)
    ensures BlockEntries(bs[..0]) == []
  {
  }

  lemma BlocksStep(bs: seq<Block>, n: nat)
    requires n < |bs|
    ensures bs[n].Data? ==> BlockEntries(bs[..n + 1]) == BlockEntries(bs[..n]) + Undotted(bs[n].entries)
    ensures !bs[n].Data? ==> BlockEntries(bs[..n + 1]) == BlockEntries(bs[..n])
  {
    assert bs[..n + 1][..n] == bs[..n];
  }

  lemma NoCandidates(es: seq<Inode>, skipDots: bool)
    ensures Candidates(es[..0], skipDots) == []
  {
  }

  lemma RefuseNegative(d: Disk, e: Inode)
    requires Judge(d, e).Refuse?
    ensures Judge(d, e).err < 0
  {
  }
}
