/**
  Readers against the index protocol.  `xal_walk` is modelled step by step, with every atomic load
  and every read of a slot a step of its own; `xal_get_inode` and `xal_inode_path` are one generic
  reader that may read any slots in any order between its two sequence readings.
 */
module SeqlockReaders {
  import opened Names
  import opened Inodes
  import opened IndexProtocol
  import opened IndexStates

  const EINVAL: int := 22
  const ESTALE: int := 116

  /** What a reader finds in a slot. */
  function Slot(pool: seq<Inode>, i: nat): Inode {
    if i < |pool| then pool[i] else ZERO_INODE
  }

  // ----- xal_walk -------------------------------------------------------------------------------

  /** A directory whose entries are being walked, and the next entry to look at. */
  datatype Frame = Frame(dir: nat, next: nat, depth: nat)

  datatype WalkPc =
    | CheckDirty
    | ReadSeq
    | NodeDirty(i: nat, depth: nat)
    | NodeSeq(i: nat, depth: nat)
    | Callback(i: nat, depth: nat)
    | NodeType(i: nat, depth: nat)
    | Entries
    | FinalSeq
    | Returned(err: int)

  /** `snap` is the pool at the moment of the first sequence reading, `seen` whether CLEAN was read after it. */
  datatype Walk = Walk(pc: WalkPc, expected: nat, stack: seq<Frame>, out: seq<(nat, nat)>, snap: seq<Inode>, seen: bool)

  const WALK_START: Walk := Walk(CheckDirty, 0, [], [], [], false)

  function Pop(stack: seq<Frame>): seq<Frame>
    requires stack != []
  {
    stack[..|stack| - 1]
  }

  /** One step of the walk that starts at slot `start`; `cb` is what a callback returns. */
  function Advance(w: Walk, s: State, start: nat, cb: int): Walk {
    match w.pc
    case CheckDirty => w.(pc := if s.state != Clean then Returned(-ESTALE) else ReadSeq)
    case ReadSeq =>
      if s.seqno % 2 == 1 then w.(pc := Returned(-ESTALE))
      else w.(pc := NodeDirty(start, 0), expected := s.seqno, snap := s.pool)
    case NodeDirty(i, depth) =>
      if s.state != Clean then w.(pc := Returned(-ESTALE)) else w.(pc := NodeSeq(i, depth), seen := true)
    case NodeSeq(i, depth) => w.(pc := if s.seqno != w.expected then Returned(-ESTALE) else Callback(i, depth))
    case Callback(i, depth) =>
      w.(out := w.out + [(i, depth)], pc := if cb != 0 then Returned(cb) else NodeType(i, depth))
    case NodeType(i, depth) =>
      var ftype := Slot(s.pool, i).ftype;
      if ftype == FT_DIR then w.(pc := Entries, stack := w.stack + [Frame(i, 0, depth)])
      else if ftype == FT_REG then w.(pc := Entries)
      else w.(pc := Returned(-EINVAL))
    case Entries =>
      if w.stack == [] then w.(pc := FinalSeq)
      else
        var f := w.stack[|w.stack| - 1];
        var span := Slot(s.pool, f.dir).content;
        if f.next >= span.count then w.(stack := Pop(w.stack))
        else if span.idx + f.next >= |s.pool| then w.(pc := Returned(-ESTALE))
        else w.(pc := NodeDirty(span.idx + f.next, f.depth + 1), stack := Pop(w.stack) + [f.(next := f.next + 1)])
    case FinalSeq => w.(pc := Returned(if s.seqno != w.expected then -ESTALE else 0))
    case Returned(_) => w
  }

  /** A step of the protocol, or a step of the walk. */
  datatype Event = Proto(step: Step) | Reader(cb: int)

  function Steps(events: seq<Event>): seq<Step> {
    if events == [] then []
    else
      var front, last := events[..|events| - 1], events[|events| - 1];
      if last.Proto? then Steps(front) + [last.step] else Steps(front)
  }

  function WalkAfter(init: State, events: seq<Event>, start: nat): Walk {
    if events == [] then WALK_START
    else
      var front, last := events[..|events| - 1], events[|events| - 1];
      var w := WalkAfter(init, front, start);
      if last.Proto? then w else Advance(w, After(init, Steps(front)), start, last.cb)
  }

  // ----- The invariant of a walk ----------------------------------------------------------------

  ghost function StackRest(pool: seq<Inode>, stack: seq<Frame>): seq<(nat, nat)>
    requires forall f :: f in stack ==> f.dir < |pool|
  {
    if stack == [] then []
    else
      var f := stack[|stack| - 1];
      PreOrderFrom(pool, f.dir, f.next, f.depth) + StackRest(pool, Pop(stack))
  }

  ghost predicate InRange(w: Walk) {
    && (forall f :: f in w.stack ==> f.dir < |w.snap| && w.snap[f.dir].ftype == FT_DIR)
    && (w.pc.NodeDirty? || w.pc.NodeSeq? || w.pc.Callback? || w.pc.NodeType? ==> w.pc.i < |w.snap|)
  }

  /** What is still to be visited. */
  ghost function Rest(w: Walk): seq<(nat, nat)>
    requires InRange(w)
  {
    var later := StackRest(w.snap, w.stack);
    match w.pc
    case NodeDirty(i, depth) => PreOrder(w.snap, i, depth) + later
    case NodeSeq(i, depth) => PreOrder(w.snap, i, depth) + later
    case Callback(i, depth) => PreOrder(w.snap, i, depth) + later
    case NodeType(i, depth) => (if w.snap[i].ftype == FT_DIR then PreOrderFrom(w.snap, i, 0, depth) else []) + later
    case Entries => later
    case _ => []
  }

  predicate Underway(pc: WalkPc) {
    pc != CheckDirty && pc != ReadSeq && !pc.Returned?
  }

  /** The pool is that of a successful index; or no index has run, and the walk is at its first slot. */
  ghost predicate Known(w: Walk, versions: map<nat, seq<Inode>>) {
    || (w.expected in versions && versions[w.expected] == w.snap)
    || (Blank(w.snap) && w.stack == [] && (w.pc.NodeDirty? || w.pc.NodeSeq? || w.pc.Callback? || w.pc.NodeType?))
  }

  /** While the sequence number is the expected one, everything read so far is from `snap`. */
  ghost predicate OnTrack(s: State, w: Walk, start: nat, versions: map<nat, seq<Inode>>) {
    && w.expected % 2 == 0 && w.expected <= s.seqno && start < |w.snap|
    && (w.pc == FinalSeq ==> w.stack == [])
    && (w.seen || (w.pc == NodeDirty(start, 0) && w.stack == [] && w.out == []))
    && (w.expected == s.seqno ==>
          && s.pool == w.snap
          && (w.seen ==>
                && Known(w, versions) && Linked(w.snap)
                && InRange(w)
                && w.out + Rest(w) == PreOrder(w.snap, start, 0)))
  }

  /** The walk has not begun. */
  predicate NoReader(events: seq<Event>) {
    forall i :: 0 <= i < |events| ==> events[i].Proto?
  }

  /** The slot that the walk is given is accessible when the walk begins. */
  ghost predicate Given(init: State, events: seq<Event>, start: nat) {
    forall i :: 0 <= i < |events| && events[i].Reader? && NoReader(events[..i]) ==> start < |After(init, Steps(events[..i])).pool|
  }

  lemma GivenPrefix(init: State, events: seq<Event>, start: nat)
    requires events != [] && Given(init, events, start)
    ensures Given(init, events[..|events| - 1], start)
  {
    hide After, Steps, NoReader;
    var front := events[..|events| - 1];
    forall i | 0 <= i < |front| && front[i].Reader? && NoReader(front[..i]) ensures start < |After(init, Steps(front[..i])).pool| {
      assert front[..i] == events[..i];
    }
  }

  lemma PoolGrows(init: State, front: seq<Step>, step: Step)
    requires Legal(true, init, front + [step])
    ensures |After(init, front).pool| <= |After(init, front + [step]).pool|
  {
    hide Do, Enabled;
    Extend(init, front, step);
    RunInv(init, front);
    StepStable(After(init, front), front, step);
  }

  ghost predicate WalkInv(init: State, events: seq<Event>, start: nat) {
    var s := After(init, Steps(events));
    var w := WalkAfter(init, events, start);
    var versions := Versions(init, Steps(events));
    && (w.pc == CheckDirty ==> NoReader(events))
    && (w.pc != CheckDirty ==> start < |s.pool|)
    && (w.pc == CheckDirty || w.pc == ReadSeq ==> w == WALK_START.(pc := w.pc))
    && (Underway(w.pc) ==> OnTrack(s, w, start, versions))
    && (w.pc == Returned(0) ==>
          && Finished(w, start, versions))
  }

  // ----- Steps of the protocol do not disturb it ------------------------------------------------

  lemma ProtoKeeps(init: State, front: seq<Step>, step: Step, w: Walk, start: nat)
    requires Legal(true, init, front + [step])
    requires OnTrack(After(init, front), w, start, Versions(init, front))
    ensures OnTrack(After(init, front + [step]), w, start, Versions(init, front + [step]))
  {
    hide Rest, InRange, Linked, Do, Enabled, PreOrder;
    Extend(init, front, step);
    RunInv(init, front);
    RunInv(init, front + [step]);
    StepStable(After(init, front), front, step);
    VersionsGrow(init, front, step);
  }

  lemma VersionsGrow(init: State, front: seq<Step>, step: Step)
    requires Legal(true, init, front + [step])
    ensures forall v :: v in Versions(init, front) ==>
              v in Versions(init, front + [step]) && Versions(init, front + [step])[v] == Versions(init, front)[v]
  {
    hide Linked, Do;
    Extend(init, front, step);
    RunInv(init, front);
  }

  // ----- Steps of the walk ----------------------------------------------------------------------

  lemma PreOrderSplit(pool: seq<Inode>, i: nat, depth: nat)
    requires i < |pool|
    ensures PreOrder(pool, i, depth)
         == [(i, depth)] + (if pool[i].ftype == FT_DIR then PreOrderFrom(pool, i, 0, depth) else [])
  {
  }

  /** A callback moves one visit from what is left to what is done. */
  lemma VisitStep(w: Walk, w': Walk)
    requires InRange(w) && w.pc.Callback?
    requires w' == w.(out := w.out + [(w.pc.i, w.pc.depth)], pc := NodeType(w.pc.i, w.pc.depth))
    ensures InRange(w') && w'.out + Rest(w') == w.out + Rest(w)
  {
    PreOrderSplit(w.snap, w.pc.i, w.pc.depth);
    var later := StackRest(w.snap, w.stack);
    var below := if w.snap[w.pc.i].ftype == FT_DIR then PreOrderFrom(w.snap, w.pc.i, 0, w.pc.depth) else [];
    assert w.out + [(w.pc.i, w.pc.depth)] + (below + later) == w.out + ([(w.pc.i, w.pc.depth)] + below + later);
  }

  /** Pushing a directory turns its remaining entries into stacked work. */
  lemma TypeStep(w: Walk, w': Walk, s: State, start: nat)
    requires InRange(w) && w.pc.NodeType? && s.pool == w.snap
    requires w' == Advance(w, s, start, 0) && w'.pc == Entries
    ensures InRange(w') && Rest(w') == Rest(w)
  {
    hide PreOrderFrom;
    if w.snap[w.pc.i].ftype == FT_DIR {
      assert Pop(w'.stack) == w.stack;
    } else {
      assert [] + StackRest(w.snap, w.stack) == StackRest(w.snap, w.stack);
    }
  }

  /** Taking the next entry of the top directory, or leaving it, keeps the remaining work. */
  lemma EntryStep(w: Walk, w': Walk, s: State, start: nat)
    requires InRange(w) && w.pc == Entries && w.stack != [] && s.pool == w.snap && Linked(w.snap)
    requires w' == Advance(w, s, start, 0)
    ensures w'.pc == Entries || w'.pc.NodeDirty?
    ensures InRange(w') && Rest(w') == Rest(w)
  {
    hide PreOrder, PreOrderFrom, StackRest;
    var f := w.stack[|w.stack| - 1];
    assert f in w.stack && SlotOk(w.snap, f.dir);
    forall x | x in Pop(w.stack) ensures x in w.stack {
    }
    NextVisit(w.snap, f);
    TopFrame(w.snap, w.stack);
    if f.next < w.snap[f.dir].content.count {
      var g := f.(next := f.next + 1);
      PushFrame(w.snap, Pop(w.stack), g);
      var first, more, later := PreOrder(w.snap, w'.pc.i, w'.pc.depth), PreOrderFrom(w.snap, g.dir, g.next, g.depth), StackRest(w.snap, Pop(w.stack));
      assert first + (more + later) == first + more + later;
    }
  }

  lemma TopFrame(pool: seq<Inode>, stack: seq<Frame>)
    requires stack != [] && forall f :: f in stack ==> f.dir < |pool|
    ensures forall f :: f in Pop(stack) ==> f.dir < |pool|
    ensures var f := stack[|stack| - 1];
            && StackRest(pool, stack) == PreOrderFrom(pool, f.dir, f.next, f.depth) + StackRest(pool, Pop(stack))
            && (PreOrderFrom(pool, f.dir, f.next, f.depth) == [] ==> StackRest(pool, stack) == StackRest(pool, Pop(stack)))
  {
    hide PreOrderFrom;
    forall x | x in Pop(stack) ensures x in stack {
    }
    assert [] + StackRest(pool, Pop(stack)) == StackRest(pool, Pop(stack));
  }

  lemma PushFrame(pool: seq<Inode>, below: seq<Frame>, g: Frame)
    requires g.dir < |pool| && forall f :: f in below ==> f.dir < |pool|
    ensures forall f :: f in below + [g] ==> f.dir < |pool|
    ensures StackRest(pool, below + [g]) == PreOrderFrom(pool, g.dir, g.next, g.depth) + StackRest(pool, below)
  {
    hide PreOrderFrom;
    assert Pop(below + [g]) == below;
  }

  lemma NextVisit(pool: seq<Inode>, f: Frame)
    requires f.dir < |pool| && pool[f.dir].ftype == FT_DIR && SlotOk(pool, f.dir)
    ensures var span := pool[f.dir].content;
            && (f.next >= span.count ==> PreOrderFrom(pool, f.dir, f.next, f.depth) == [])
            && (f.next < span.count ==>
                  && span.idx + f.next < |pool|
                  && PreOrderFrom(pool, f.dir, f.next, f.depth)
                     == PreOrder(pool, span.idx + f.next, f.depth + 1) + PreOrderFrom(pool, f.dir, f.next + 1, f.depth))
  {
    hide PreOrder;
  }

  /** A step of the walk keeps it on track, or ends it. */
  lemma ReaderKeeps(init: State, steps: seq<Step>, w: Walk, start: nat, cb: int)
    requires Legal(true, init, steps)
    requires Underway(w.pc) && OnTrack(After(init, steps), w, start, Versions(init, steps))
    ensures var w' := Advance(w, After(init, steps), start, cb);
            && (Underway(w'.pc) ==> OnTrack(After(init, steps), w', start, Versions(init, steps)))
            && (w'.pc == Returned(0) ==> Finished(w', start, Versions(init, steps)))
            && w'.pc != CheckDirty && w'.pc != ReadSeq
  {
    var s := After(init, steps);
    if w.pc.NodeDirty? && w.expected == s.seqno && s.state == Clean {
      FirstCheck(init, steps, w, start);
    } else if w.pc == Entries || w.pc == FinalSeq {
      EntriesKeep(s, Versions(init, steps), w, start, cb);
    } else if !w.pc.NodeDirty? {
      NodeKeeps(s, Versions(init, steps), w, start, cb);
    }
  }

  lemma NodeKeeps(s: State, versions: map<nat, seq<Inode>>, w: Walk, start: nat, cb: int)
    requires w.pc.NodeSeq? || w.pc.Callback? || w.pc.NodeType?
    requires OnTrack(s, w, start, versions)
    ensures var w' := Advance(w, s, start, cb);
            && (Underway(w'.pc) ==> OnTrack(s, w', start, versions))
            && w'.pc != CheckDirty && w'.pc != ReadSeq && w'.pc != Returned(0)
  {
    hide Rest, InRange, Linked, PreOrder, StackRest;
    var w' := Advance(w, s, start, cb);
    if w.expected == s.seqno {
      match w.pc
      case NodeSeq(i, depth) => SameRest(w, w');
      case Callback(_, _) =>
        if cb == 0 {
          VisitStep(w, w');
        }
      case NodeType(_, _) =>
        TypeKnown(w);
        if w'.pc == Entries {
          TypeStep(w, w', s, start);
        }
    }
  }

  lemma EntriesKeep(s: State, versions: map<nat, seq<Inode>>, w: Walk, start: nat, cb: int)
    requires w.pc == Entries || w.pc == FinalSeq
    requires OnTrack(s, w, start, versions)
    ensures var w' := Advance(w, s, start, cb);
            && (Underway(w'.pc) ==> OnTrack(s, w', start, versions))
            && (w'.pc == Returned(0) ==> Finished(w', start, versions))
            && w'.pc != CheckDirty && w'.pc != ReadSeq
  {
    hide Rest, InRange, Linked, PreOrder, StackRest;
    var w' := Advance(w, s, start, cb);
    if w.expected == s.seqno {
      if w.stack == [] {
        DoneRest(w, w');
      } else {
        EntryStep(w, w', s, start);
      }
    }
  }

  ghost predicate Finished(w: Walk, start: nat, versions: map<nat, seq<Inode>>) {
    && w.expected in versions && versions[w.expected] == w.snap
    && start < |w.snap| && w.out == PreOrder(w.snap, start, 0)
  }

  lemma SameRest(w: Walk, w': Walk)
    requires InRange(w) && w.pc.NodeSeq? && w' == w.(pc := Callback(w.pc.i, w.pc.depth))
    ensures InRange(w') && Rest(w') == Rest(w)
  {
  }

  lemma TypeKnown(w: Walk)
    requires InRange(w) && w.pc.NodeType?
    ensures w.pc.i < |w.snap|
  {
  }

  lemma DoneRest(w: Walk, w': Walk)
    requires InRange(w) && w.stack == [] && w' == w.(pc := w'.pc)
    requires (w.pc == Entries || w.pc == FinalSeq) && (w'.pc == FinalSeq || w'.pc == Returned(0))
    ensures InRange(w') && Rest(w') == [] && Rest(w) == []
  {
  }

  /** The dirty check that follows the even sequence reading is what ties the pool to an index. */
  lemma FirstCheck(init: State, steps: seq<Step>, w: Walk, start: nat)
    requires Legal(true, init, steps) && After(init, steps).state == Clean
    requires w.pc.NodeDirty? && OnTrack(After(init, steps), w, start, Versions(init, steps))
    requires w.expected == After(init, steps).seqno
    ensures var w' := w.(pc := NodeSeq(w.pc.i, w.pc.depth), seen := true);
            OnTrack(After(init, steps), w', start, Versions(init, steps))
  {
    hide PreOrder, Linked, Blank;
    CleanPool(init, steps);
    var w' := w.(pc := NodeSeq(w.pc.i, w.pc.depth), seen := true);
    if !w.seen {
      assert StackRest(w.snap, []) == [];
      assert w'.out + Rest(w') == PreOrder(w.snap, start, 0);
    }
  }

  /** What CLEAN says about the pool: a successful index built it, or nothing has. */
  lemma CleanPool(init: State, steps: seq<Step>)
    requires Legal(true, init, steps) && After(init, steps).state == Clean
    ensures var s := After(init, steps);
            && Linked(s.pool) && s.seqno % 2 == 0
            && (Blank(s.pool) || (s.seqno in Versions(init, steps) && Versions(init, steps)[s.seqno] == s.pool))
  {
    hide Linked, Blank;
    RunInv(init, steps);
    if LatestIndexer(steps).Some? {
      CleanMeansUnmarked(init, steps);
    } else {
      BlankLinked(After(init, steps).pool);
    }
  }

  lemma BlankLinked(pool: seq<Inode>)
    requires Blank(pool)
    ensures Linked(pool)
  {
  }

  // ----- Every interleaving ---------------------------------------------------------------------

  lemma AfterProto(init: State, front: seq<Event>, step: Step, start: nat)
    ensures Steps(front + [Proto(step)]) == Steps(front) + [step]
    ensures WalkAfter(init, front + [Proto(step)], start) == WalkAfter(init, front, start)
  {
    hide Advance;
    assert (front + [Proto(step)])[..|front|] == front;
  }

  lemma AfterReader(init: State, front: seq<Event>, cb: int, start: nat)
    ensures Steps(front + [Reader(cb)]) == Steps(front)
    ensures WalkAfter(init, front + [Reader(cb)], start) == Advance(WalkAfter(init, front, start), After(init, Steps(front)), start, cb)
  {
    hide Advance;
    assert (front + [Reader(cb)])[..|front|] == front;
  }

  lemma ProtoInv(init: State, front: seq<Event>, step: Step, start: nat)
    requires Legal(true, init, Steps(front) + [step]) && WalkInv(init, front, start)
    ensures WalkInv(init, front + [Proto(step)], start)
  {
    AfterProto(init, front, step, start);
    hide OnTrack, Finished, Legal, After, Versions, WalkAfter, Steps;
    var w := WalkAfter(init, front, start);
    PoolGrows(init, Steps(front), step);
    if Underway(w.pc) {
      ProtoKeeps(init, Steps(front), step, w, start);
    } else if w.pc == Returned(0) {
      FinishedKept(init, Steps(front), step, w, start);
    }
  }

  lemma ReaderInv(init: State, front: seq<Event>, cb: int, start: nat)
    requires Legal(true, init, Steps(front)) && WalkInv(init, front, start)
    requires NoReader(front) ==> start < |After(init, Steps(front)).pool|
    ensures WalkInv(init, front + [Reader(cb)], start)
  {
    AfterReader(init, front, cb, start);
    hide OnTrack, Finished, Advance, Legal, After, Versions, WalkAfter, Steps, NoReader;
    var w := WalkAfter(init, front, start);
    if Underway(w.pc) {
      ReaderKeeps(init, Steps(front), w, start, cb);
    } else {
      StartKeeps(init, Steps(front), w, start, cb);
    }
  }

  lemma {:induction false} WalkRunInv(init: State, events: seq<Event>, start: nat)
    requires Legal(true, init, Steps(events)) && Given(init, events, start)
    ensures WalkInv(init, events, start)
  {
    if events != [] {
      var n := |events| - 1;
      var front := events[..n];
      assert events == front + [events[n]];
      GivenPrefix(init, events, start);
      hide Legal, After, Versions, WalkAfter, WalkInv, NoReader;
      match events[n]
      case Proto(step) =>
        LegalPrefix(init, Steps(front), step);
        WalkRunInv(init, front, start);
        ProtoInv(init, front, step, start);
      case Reader(cb) =>
        WalkRunInv(init, front, start);
        ReaderInv(init, front, cb, start);
    }
  }

  lemma LegalPrefix(init: State, front: seq<Step>, step: Step)
    requires Legal(true, init, front + [step])
    ensures Legal(true, init, front)
  {
    Extend(init, front, step);
  }

  lemma FinishedKept(init: State, front: seq<Step>, step: Step, w: Walk, start: nat)
    requires Legal(true, init, front + [step]) && Finished(w, start, Versions(init, front))
    ensures Finished(w, start, Versions(init, front + [step]))
  {
    hide PreOrder, Legal, Versions;
    VersionsGrow(init, front, step);
  }

  lemma StartKeeps(init: State, steps: seq<Step>, w: Walk, start: nat, cb: int)
    requires start < |After(init, steps).pool| && !Underway(w.pc)
    requires w.pc == CheckDirty || w.pc == ReadSeq ==> w == WALK_START.(pc := w.pc)
    ensures var w' := Advance(w, After(init, steps), start, cb);
            && (w'.pc == CheckDirty || w'.pc == ReadSeq ==> w' == WALK_START.(pc := w'.pc))
            && (Underway(w'.pc) ==> OnTrack(After(init, steps), w', start, Versions(init, steps)))
            && (w.pc.Returned? ==> w' == w) && w'.pc != CheckDirty
            && (w'.pc == Returned(0) ==> w.pc == Returned(0))
  {
    hide Linked, After, Versions;
  }

  /**
    A walk that returns 0, whatever indexes and marks ran in between, called back in exact pre-order
    over one version of the tree, and a successful index built that version.
   */
  lemma WalkSeesOneVersion(init: State, events: seq<Event>, start: nat)
    requires Legal(true, init, Steps(events)) && Given(init, events, start)
    requires WalkAfter(init, events, start).pc == Returned(0)
    ensures var w, versions := WalkAfter(init, events, start), Versions(init, Steps(events));
            w.expected in versions && start < |versions[w.expected]| && w.out == PreOrder(versions[w.expected], start, 0)
  {
    WalkRunInv(init, events, start);
  }

  // ----- xal_get_inode and xal_inode_path -------------------------------------------------------

  /** What a reader does next, given everything it has read so far. */
  datatype Action<R> = Read(i: nat) | Answer(r: R)

  datatype LookupPc<R> = LookDirty | LookSeq | Looking | LookAgain(r: R) | Gave(r: R) | Stale

  /** `snap` is the pool at the moment of the first sequence reading. */
  datatype Look<R> = Look(pc: LookupPc<R>, expected: nat, vals: seq<Inode>, snap: seq<Inode>)

  function LookStep<R>(l: Look<R>, s: State, program: seq<Inode> -> Action<R>): Look<R> {
    match l.pc
    case LookDirty => if s.state != Clean then l.(pc := Stale) else l.(pc := LookSeq)
    case LookSeq =>
      if s.seqno % 2 == 1 then l.(pc := Stale) else l.(pc := Looking, expected := s.seqno, snap := s.pool)
    case Looking =>
      (match program(l.vals)
       case Read(i) => l.(vals := l.vals + [Slot(s.pool, i)])
       case Answer(r) => l.(pc := LookAgain(r)))
    case LookAgain(r) => l.(pc := if s.seqno != l.expected then Stale else Gave(r))
    case Gave(_) => l
    case Stale => l
  }

  function LookAfter<R>(init: State, events: seq<Event>, program: seq<Inode> -> Action<R>): Look<R> {
    if events == [] then Look(LookDirty, 0, [], [])
    else
      var front, last := events[..|events| - 1], events[|events| - 1];
      var l := LookAfter(init, front, program);
      if last.Proto? then l else LookStep(l, After(init, Steps(front)), program)
  }

  /** The values are what the program reads when it runs on `pool` alone. */
  ghost predicate ReadsOf<R>(program: seq<Inode> -> Action<R>, pool: seq<Inode>, vals: seq<Inode>) {
    forall k :: 0 <= k < |vals| ==> program(vals[..k]).Read? && vals[k] == Slot(pool, program(vals[..k]).i)
  }

  /** How the last index ended that closed the sequence between the dirty check and the sequence reading. */
  function ClosedBetween<R>(init: State, events: seq<Event>, program: seq<Inode> -> Action<R>): Option<bool> {
    if events == [] then None
    else
      var front, last := events[..|events| - 1], events[|events| - 1];
      Closing(After(init, Steps(front)), LookAfter(init, front, program), last, ClosedBetween(init, front, program))
  }

  function Closing<R>(s: State, l: Look<R>, e: Event, before: Option<bool>): Option<bool> {
    if e.Proto? && l.pc == LookSeq && e.step.CloseSeq? && PcOf(s, e.step.c).Rewritten? then Some(PcOf(s, e.step.c).ok)
    else before
  }

  /** Whether an index stored INDEXING between the dirty check and the sequence reading. */
  predicate BeganBetween<R>(init: State, events: seq<Event>, program: seq<Inode> -> Action<R>) {
    events != [] &&
    var front, last := events[..|events| - 1], events[|events| - 1];
    BeganBetween(init, front, program) || Begins(LookAfter(init, front, program), last)
  }

  predicate Begins<R>(l: Look<R>, e: Event) {
    e.Proto? && l.pc == LookSeq && e.step.BeginIndexing?
  }

  /** The run had this pool at this sequence number. */
  ghost predicate PoolAt(init: State, steps: seq<Step>, q: nat, pool: seq<Inode>) {
    exists k :: 0 <= k <= |steps| && HadPool(init, steps[..k], q, pool)
  }

  predicate HadPool(init: State, steps: seq<Step>, q: nat, pool: seq<Inode>) {
    After(init, steps).seqno == q && After(init, steps).pool == pool
  }

  /** A successful index ended with this sequence number, or none has opened the sequence. */
  predicate Good(init: State, steps: seq<Step>, q: nat) {
    q == 0 || q in Versions(init, steps)
  }

  /** A successful index built the pool, or it is the pool before any index. */
  predicate Built(init: State, steps: seq<Step>, q: nat, pool: seq<Inode>) {
    (q == 0 && pool == init.pool) || (q in Versions(init, steps) && Versions(init, steps)[q] == pool)
  }

  predicate Critical(s: State, steps: seq<Step>) {
    Owner(steps).Some? && InCritical(PcOf(s, Owner(steps).value))
  }

  /** What holds between the dirty check and the sequence reading. */
  ghost predicate SeqInv(init: State, steps: seq<Step>, closed: Option<bool>, began: bool) {
    var s := After(init, steps);
    && (s.seqno % 2 == 0 ==> (Good(init, steps, s.seqno) <==> closed != Some(false)))
    && (!began ==> closed.None? && !Critical(s, steps))
  }

  /** What is known of the version that was read. */
  ghost predicate VersionInv(init: State, steps: seq<Step>, q: nat, snap: seq<Inode>, closed: Option<bool>, began: bool) {
    && q % 2 == 0 && q <= After(init, steps).seqno
    && (Good(init, steps, q) ==> Built(init, steps, q, snap))
    && (Good(init, steps, q) <==> closed != Some(false))
    && (!began ==> closed.None?)
    && PoolAt(init, steps, q, snap)
  }

  ghost predicate LookInv<R>(init: State, steps: seq<Step>, l: Look<R>, program: seq<Inode> -> Action<R>,
                             closed: Option<bool>, began: bool)
  {
    var s := After(init, steps);
    && (l.pc == LookDirty ==> l.vals == [] && closed.None? && !began)
    && (l.pc == LookSeq ==> l.vals == [] && SeqInv(init, steps, closed, began))
    && (l.pc == Looking || l.pc.LookAgain? ==>
          && VersionInv(init, steps, l.expected, l.snap, closed, began)
          && (l.expected == s.seqno ==> s.pool == l.snap && ReadsOf(program, l.snap, l.vals))
          && (l.pc.LookAgain? ==> program(l.vals) == Answer(l.pc.r)))
    && (l.pc.Gave? ==>
          && VersionInv(init, steps, l.expected, l.snap, closed, began)
          && ReadsOf(program, l.snap, l.vals) && program(l.vals) == Answer(l.pc.r))
  }

  lemma ReadsExtend<R>(program: seq<Inode> -> Action<R>, pool: seq<Inode>, vals: seq<Inode>)
    requires ReadsOf(program, pool, vals) && program(vals).Read?
    ensures ReadsOf(program, pool, vals + [Slot(pool, program(vals).i)])
  {
    var more := vals + [Slot(pool, program(vals).i)];
    forall k | 0 <= k < |more| ensures program(more[..k]).Read? && more[k] == Slot(pool, program(more[..k]).i) {
      assert more[..k] == vals[..k];
      assert k == |vals| ==> vals[..k] == vals;
    }
  }

  /** At the dirty check of a clean index. */
  lemma CleanStart(init: State, steps: seq<Step>)
    requires Legal(true, init, steps) && After(init, steps).state == Clean
    ensures SeqInv(init, steps, None, false)
  {
    hide Linked, Blank, After, Legal, Versions;
    RunInv(init, steps);
  }

  /** At the sequence reading. */
  lemma SeqRead(init: State, steps: seq<Step>, closed: Option<bool>, began: bool)
    requires Legal(true, init, steps) && SeqInv(init, steps, closed, began) && After(init, steps).seqno % 2 == 0
    ensures VersionInv(init, steps, After(init, steps).seqno, After(init, steps).pool, closed, began)
  {
    hide Linked, Blank, After, Legal, Versions;
    RunInv(init, steps);
    assert steps[..|steps|] == steps;
    assert HadPool(init, steps[..|steps|], After(init, steps).seqno, After(init, steps).pool);
  }

  lemma LookReaderKeeps<R>(init: State, steps: seq<Step>, l: Look<R>, program: seq<Inode> -> Action<R>,
                           closed: Option<bool>, began: bool)
    requires Legal(true, init, steps) && LookInv(init, steps, l, program, closed, began)
    ensures LookInv(init, steps, LookStep(l, After(init, steps), program), program, closed, began)
  {
    hide After, Legal, ReadsOf, SeqInv, VersionInv;
    var s := After(init, steps);
    if l.pc == LookDirty && s.state == Clean {
      CleanStart(init, steps);
    }
    if l.pc == LookSeq && s.seqno % 2 == 0 {
      SeqRead(init, steps, closed, began);
      NoReads(program, s.pool);
    }
    if l.pc == Looking && program(l.vals).Read? && l.expected == s.seqno {
      ReadsExtend(program, l.snap, l.vals);
    }
  }

  lemma NoReads<R>(program: seq<Inode> -> Action<R>, pool: seq<Inode>)
    ensures ReadsOf(program, pool, [])
  {
  }

  lemma PoolAtKept(init: State, front: seq<Step>, step: Step, q: nat, pool: seq<Inode>)
    requires PoolAt(init, front, q, pool)
    ensures PoolAt(init, front + [step], q, pool)
  {
    hide HadPool;
    var k :| 0 <= k <= |front| && HadPool(init, front[..k], q, pool);
    assert (front + [step])[..k] == front[..k];
  }

  lemma VersionKept(init: State, front: seq<Step>, step: Step, q: nat, snap: seq<Inode>, closed: Option<bool>, began: bool)
    requires Legal(true, init, front + [step]) && VersionInv(init, front, q, snap, closed, began)
    ensures VersionInv(init, front + [step], q, snap, closed, began)
  {
    hide Linked, Blank, Legal, Versions, PoolAt, Do, Enabled, After;
    LegalPrefix(init, front, step);
    Extend(init, front, step);
    RunInv(init, front);
    EnabledStep(init, front, step);
    StepStable(After(init, front), front, step);
    VersionsStep(init, front, step);
    VersionsGrow(init, front, step);
    PoolAtKept(init, front, step, q, snap);
  }

  lemma SeqKept<R>(init: State, front: seq<Step>, step: Step, l: Look<R>, closed: Option<bool>, began: bool)
    requires Legal(true, init, front + [step]) && SeqInv(init, front, closed, began) && l.pc == LookSeq
    ensures SeqInv(init, front + [step], Closing(After(init, front), l, Proto(step), closed), began || Begins(l, Proto(step)))
  {
    hide Linked, Blank, Legal, Versions, After, Owner, LatestIndexer, MarkedSince, LatestOutcome, StateMeaning, OutcomeKnown;
    LegalPrefix(init, front, step);
    Extend(init, front, step);
    RunInv(init, front);
    EnabledStep(init, front, step);
    VersionsStep(init, front, step);
    PastStep(front, step);
  }

  lemma LookProtoKeeps<R>(init: State, front: seq<Step>, step: Step, l: Look<R>, program: seq<Inode> -> Action<R>,
                          closed: Option<bool>, began: bool)
    requires Legal(true, init, front + [step]) && LookInv(init, front, l, program, closed, began)
    ensures LookInv(init, front + [step], l, program,
                    Closing(After(init, front), l, Proto(step), closed), began || Begins(l, Proto(step)))
  {
    hide Legal, ReadsOf, Do, Enabled, SeqInv, VersionInv, After;
    LegalPrefix(init, front, step);
    Extend(init, front, step);
    RunInv(init, front);
    EnabledStep(init, front, step);
    StepStable(After(init, front), front, step);
    if l.pc == LookSeq {
      SeqKept(init, front, step, l, closed, began);
    } else if l.pc == Looking || l.pc.LookAgain? || l.pc.Gave? {
      VersionKept(init, front, step, l.expected, l.snap, closed, began);
      ExpectedPast(init, front, l.expected, l.snap, closed, began);
    }
  }

  lemma ExpectedPast(init: State, steps: seq<Step>, q: nat, snap: seq<Inode>, closed: Option<bool>, began: bool)
    requires VersionInv(init, steps, q, snap, closed, began)
    ensures q % 2 == 0 && q <= After(init, steps).seqno
  {
  }

  lemma EnabledStep(init: State, front: seq<Step>, step: Step)
    requires Legal(true, init, front + [step])
    ensures Enabled(true, After(init, front), step)
  {
    Extend(init, front, step);
  }

  lemma {:induction false} LookRunInv<R>(init: State, events: seq<Event>, program: seq<Inode> -> Action<R>)
    requires Legal(true, init, Steps(events))
    ensures LookInv(init, Steps(events), LookAfter(init, events, program), program,
                    ClosedBetween(init, events, program), BeganBetween(init, events, program))
  {
    if events != [] {
      hide LookInv, Legal, LookStep;
      var n := |events| - 1;
      var steps, l := Steps(events[..n]), LookAfter(init, events[..n], program);
      var closed, began := ClosedBetween(init, events[..n], program), BeganBetween(init, events[..n], program);
      if events[n].Proto? {
        LegalPrefix(init, steps, events[n].step);
        LookRunInv(init, events[..n], program);
        LookProtoKeeps(init, steps, events[n].step, l, program, closed, began);
      } else {
        LookRunInv(init, events[..n], program);
        LookReaderKeeps(init, steps, l, program, closed, began);
      }
    }
  }

  /**
    A lookup that succeeds, whatever program it runs and whatever ran in between, gives the answer
    of running alone on one pool, and the run had that pool at the even number the lookup read.
   */
  lemma LookupSeesOneVersion<R>(init: State, events: seq<Event>, program: seq<Inode> -> Action<R>)
    requires Legal(true, init, Steps(events)) && LookAfter(init, events, program).pc.Gave?
    ensures var l := LookAfter(init, events, program);
            && ReadsOf(program, l.snap, l.vals) && program(l.vals) == Answer(l.pc.r)
            && l.expected % 2 == 0 && PoolAt(init, Steps(events), l.expected, l.snap)
  {
    LookRunInv(init, events, program);
  }

  /**
    That pool is one that a successful index built, or the one before any index, if and only if the
    last index that closed the sequence between the dirty check and the sequence reading, if there
    was one, succeeded.
   */
  lemma LookupVersionBuilt<R>(init: State, events: seq<Event>, program: seq<Inode> -> Action<R>)
    requires Legal(true, init, Steps(events)) && LookAfter(init, events, program).pc.Gave?
    ensures var l := LookAfter(init, events, program);
            Built(init, Steps(events), l.expected, l.snap) <==> ClosedBetween(init, events, program) != Some(false)
  {
    LookRunInv(init, events, program);
  }

  /** A caller's form: it is so whenever no index begins during the call. */
  lemma QuietLookupIsBuilt<R>(init: State, events: seq<Event>, program: seq<Inode> -> Action<R>)
    requires Legal(true, init, Steps(events)) && LookAfter(init, events, program).pc.Gave?
    requires !BeganBetween(init, events, program)
    ensures var l := LookAfter(init, events, program);
            Built(init, Steps(events), l.expected, l.snap)
  {
    LookRunInv(init, events, program);
  }

  // ----- The dirty check of a lookup comes too early to promise more ----------------------------

  const PARTIAL: seq<Inode> := [ZERO_INODE.(ino := 9, ftype := FT_DIR)]

  const EARLY_STEPS: seq<Step> := [Enter(0), BeginIndexing(0), OpenSeq(0), Rewrite(0, PARTIAL), Finish(0, false), CloseSeq(0)]

  const EARLY_STATES: seq<State> := [
    State(false, Clean, 0, false, [ZERO_INODE], map[]),
    State(true, Clean, 0, false, [ZERO_INODE], map[0 := Acquired]),
    State(true, Indexing, 0, false, [ZERO_INODE], map[0 := Begun]),
    State(true, Indexing, 1, false, [ZERO_INODE], map[0 := Rewriting]),
    State(true, Indexing, 1, false, PARTIAL, map[0 := Rewriting]),
    State(true, Indexing, 1, false, PARTIAL, map[0 := Rewritten(false)]),
    State(true, Indexing, 2, false, PARTIAL, map[0 := Closed(false)])
  ]

  /** Reads the number of the first slot. */
  function FirstIno(vals: seq<Inode>): Action<nat> {
    if vals == [] then Read(0) else Answer(vals[0].ino)
  }

  const EARLY_EVENTS: seq<Event> := [Reader(0)] + seq(6, k requires 0 <= k < 6 => Proto(EARLY_STEPS[k]))

  lemma EarlyStep(k: nat)
    requires k < 6
    ensures Follows(true, EARLY_STATES[k], EARLY_STEPS[k], EARLY_STATES[k + 1])
    ensures !(EARLY_STEPS[k].CloseSeq? && PcOf(EARLY_STATES[k], EARLY_STEPS[k].c) == Rewritten(true))
  {
  }

  /** The reader has made its dirty check, then k steps of the protocol have passed. */
  lemma {:induction false} EarlyPrefix(k: nat)
    requires k <= 6
    ensures Steps(EARLY_EVENTS[..k + 1]) == EARLY_STEPS[..k]
    ensures LookAfter(EARLY_STATES[0], EARLY_EVENTS[..k + 1], FirstIno) == Look(LookSeq, 0, [], [])
  {
    var e := EARLY_EVENTS[..k + 1];
    if k == 0 {
      assert e[..0] == [] && e == [Reader(0)];
    } else {
      EarlyPrefix(k - 1);
      assert e[..k] == EARLY_EVENTS[..k] && e[k] == Proto(EARLY_STEPS[k - 1]);
    }
  }

  lemma NoStepsNoVersion(init: State)
    ensures Versions(init, []) == map[]
  {
  }

  lemma NoVersionMore(init: State, front: seq<Step>, step: Step, s: State)
    requires After(init, front) == s && Versions(init, front) == map[]
    requires !(step.CloseSeq? && PcOf(s, step.c) == Rewritten(true))
    ensures Versions(init, front + [step]) == map[]
  {
    hide *;
    VersionsStep(init, front, step);
  }

  lemma {:induction false} NoVersionBuilt(states: seq<State>, steps: seq<Step>, k: nat)
    requires k <= |steps| && |states| == |steps| + 1 && Init(states[0])
    requires forall j :: 0 <= j < |steps| ==> Follows(true, states[j], steps[j], states[j + 1])
    requires forall j :: 0 <= j < |steps| ==> !(steps[j].CloseSeq? && PcOf(states[j], steps[j].c) == Rewritten(true))
    ensures Versions(states[0], steps[..k]) == map[]
  {
    hide *;
    if k > 0 {
      NoVersionBuilt(states, steps, k - 1);
      RunFollows(true, states, steps, k - 1);
      NoVersionMore(states[0], steps[..k - 1], steps[k - 1], states[k - 1]);
      assert steps[..k] == steps[..k - 1] + [steps[k - 1]];
    } else {
      assert steps[..0] == [];
      NoStepsNoVersion(states[0]);
    }
  }

  lemma ReaderEvent(init: State, events: seq<Event>)
    ensures Steps(events + [Reader(0)]) == Steps(events)
    ensures LookAfter(init, events + [Reader(0)], FirstIno)
         == LookStep(LookAfter(init, events, FirstIno), After(init, Steps(events)), FirstIno)
  {
    assert (events + [Reader(0)])[..|events|] == events;
  }

  /**
    An index that starts and fails between the dirty check and the sequence reading: the lookup
    succeeds and its answer is from what the failed index left behind.
   */
  lemma LookupMayReadFailedIndex() returns (events: seq<Event>)
    ensures var init := EARLY_STATES[0];
            var l := LookAfter(init, events, FirstIno);
            && Legal(true, init, Steps(events)) && l.pc == Gave(9)
            && !Built(init, Steps(events), l.expected, l.snap) && ClosedBetween(init, events, FirstIno) == Some(false)
  {
    hide Legal, After, Versions, LookAfter, Steps;
    var init, e := EARLY_STATES[0], EARLY_EVENTS;
    EarlyRun();
    ReaderEvent(init, e);
    ReaderEvent(init, e + [Reader(0)]);
    ReaderEvent(init, e + [Reader(0)] + [Reader(0)]);
    ReaderEvent(init, e + [Reader(0)] + [Reader(0)] + [Reader(0)]);
    events := e + [Reader(0)] + [Reader(0)] + [Reader(0)] + [Reader(0)];
    assert PARTIAL[0].ino == 9;
    LookupVersionBuilt(init, events, FirstIno);
  }

  lemma EarlyRun()
    ensures var init := EARLY_STATES[0];
            && Steps(EARLY_EVENTS) == EARLY_STEPS
            && Legal(true, init, EARLY_STEPS) && After(init, EARLY_STEPS) == EARLY_STATES[6]
            && Versions(init, EARLY_STEPS) == map[]
            && LookAfter(init, EARLY_EVENTS, FirstIno) == Look(LookSeq, 0, [], [])
  {
    EarlyPrefix(6);
    assert EARLY_EVENTS[..7] == EARLY_EVENTS && EARLY_STEPS[..6] == EARLY_STEPS;
    forall k | 0 <= k < 6
      ensures Follows(true, EARLY_STATES[k], EARLY_STEPS[k], EARLY_STATES[k + 1])
      ensures !(EARLY_STEPS[k].CloseSeq? && PcOf(EARLY_STATES[k], EARLY_STEPS[k].c) == Rewritten(true))
    {
      EarlyStep(k);
    }
    RunFollows(true, EARLY_STATES, EARLY_STEPS, 6);
    NoVersionBuilt(EARLY_STATES, EARLY_STEPS, 6);
  }
}
