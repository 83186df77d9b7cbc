/**
  `xal_index()` from any number of callers against `xal_mark_dirty()` at any time, one step per
  atomic operation.  A run is a list of steps; the questions about its past ("was there a mark since
  the last index began?") are functions of that list.
 */
module IndexProtocol {
  import opened Names
  import opened Inodes
  import opened IndexStates

  type Caller = nat

  /** Where a caller is inside `xal_index()`. */
  datatype Pc =
    | Outside
    | Acquired             // holds the exclusion flag
    | Begun                // has stored INDEXING
    | Rewriting            // has made the sequence number odd
    | Rewritten(ok: bool)  // the walk is over
    | Closed(ok: bool)     // has made the sequence number even again
    | Settled(ok: bool)    // has run xal_mark_index_done()
    | Recorded             // has stored last_index_err

  datatype State = State(indexing: bool, state: IndexState, seqno: nat, lastErr: bool, pool: seq<Inode>, pcs: map<Caller, Pc>)

  datatype Step =
    | Enter(c: Caller)                      // the exchange finds the flag clear
    | Refuse(c: Caller)                     // the exchange finds it set: -EBUSY
    | FailEarly(c: Caller)                  // the backend returns before it touches the state
    | BeginIndexing(c: Caller)
    | OpenSeq(c: Caller)
    | Rewrite(c: Caller, pool: seq<Inode>)  // any write to the pools
    | Finish(c: Caller, ok: bool)
    | CloseSeq(c: Caller)
    | Settle(c: Caller)
    | Record(c: Caller)
    | Leave(c: Caller)
    | Mark                                  // xal_mark_dirty() by anyone

  function PcOf(s: State, c: Caller): Pc {
    if c in s.pcs then s.pcs[c] else Outside
  }

  function Move(s: State, c: Caller, pc: Pc): State {
    s.(pcs := s.pcs[c := pc])
  }

  /** `exclusive` is false for a variant of the code without the exclusion flag. */
  predicate Enabled(exclusive: bool, s: State, step: Step) {
    match step
    case Enter(c) => PcOf(s, c) == Outside && (exclusive ==> !s.indexing)
    case Refuse(c) => PcOf(s, c) == Outside && exclusive && s.indexing
    case FailEarly(c) => PcOf(s, c) == Acquired
    case BeginIndexing(c) => PcOf(s, c) == Acquired
    case OpenSeq(c) => PcOf(s, c) == Begun
    case Rewrite(c, pool) => PcOf(s, c) == Rewriting && |pool| >= |s.pool|
    case Finish(c, ok) => PcOf(s, c) == Rewriting
    case CloseSeq(c) => PcOf(s, c).Rewritten?
    case Settle(c) => PcOf(s, c).Closed?
    case Record(c) => PcOf(s, c).Settled?
    case Leave(c) => PcOf(s, c) == Recorded
    case Mark => true
  }

  function Do(s: State, step: Step): State {
    match step
    case Enter(c) => Move(s, c, Acquired).(indexing := true)
    case Refuse(_) => s
    case FailEarly(c) => Move(s, c, Settled(false))
    case BeginIndexing(c) => Move(s, c, Begun).(state := Indexing)
    case OpenSeq(c) => Move(s, c, Rewriting).(seqno := s.seqno + 1)
    case Rewrite(_, pool) => s.(pool := pool)
    case Finish(c, ok) => Move(s, c, Rewritten(ok))
    case CloseSeq(c) => if PcOf(s, c).Rewritten? then Move(s, c, Closed(PcOf(s, c).ok)).(seqno := s.seqno + 1) else s
    case Settle(c) =>
      if !PcOf(s, c).Closed? then s
      else if !PcOf(s, c).ok then Move(s, c, Settled(false)).(state := Dirty)
      // the compare-exchange leaves anything but INDEXING alone
      else Move(s, c, Settled(true)).(state := if s.state == Indexing then Clean else s.state)
    case Record(c) => if PcOf(s, c).Settled? then Move(s, c, Recorded).(lastErr := !PcOf(s, c).ok) else s
    case Leave(c) => Move(s, c, Outside).(indexing := false)
    case Mark => s.(state := Dirty)
  }

  /** A handle before its first index: CLEAN on its own, DIRTY when it is shared. */
  predicate Init(s: State) {
    !s.indexing && s.seqno == 0 && s.state != Indexing && s.pcs == map[] && Blank(s.pool)
  }

  /** Nothing has been written. */
  predicate Blank(pool: seq<Inode>) {
    forall k :: 0 <= k < |pool| ==> pool[k] == ZERO_INODE
  }

  function After(init: State, steps: seq<Step>): State {
    if steps == [] then init else Do(After(init, steps[..|steps| - 1]), steps[|steps| - 1])
  }

  /** A run in which every successful walk leaves a well-linked pool. */
  ghost predicate Legal(exclusive: bool, init: State, steps: seq<Step>) {
    if steps == [] then Init(init)
    else
      var n := |steps| - 1;
      && Legal(exclusive, init, steps[..n])
      && Enabled(exclusive, After(init, steps[..n]), steps[n])
      && (steps[n].Finish? && steps[n].ok ==> Linked(After(init, steps[..n]).pool))
  }

  // ----- Questions about the past ---------------------------------------------------------------

  /** The caller whose index stored INDEXING last. */
  function LatestIndexer(steps: seq<Step>): Option<Caller> {
    if steps == [] then None
    else
      var last := steps[|steps| - 1];
      if last.BeginIndexing? then Some(last.c) else LatestIndexer(steps[..|steps| - 1])
  }

  /** Whether the dirty flag was set by anyone after INDEXING was last stored. */
  predicate MarkedSince(steps: seq<Step>) {
    steps != [] &&
    var last := steps[|steps| - 1];
    !last.BeginIndexing? && (last.Mark? || MarkedSince(steps[..|steps| - 1]))
  }

  /** How the index that stored INDEXING last ended, if it has. */
  function LatestOutcome(steps: seq<Step>): Option<bool> {
    if steps == [] then None
    else
      var front, last := steps[..|steps| - 1], steps[|steps| - 1];
      if last.BeginIndexing? then None
      else if last.Finish? && LatestIndexer(front) == Some(last.c) then Some(last.ok)
      else LatestOutcome(front)
  }

  /** The caller that holds the exclusion flag. */
  function Owner(steps: seq<Step>): Option<Caller> {
    if steps == [] then None
    else
      var last := steps[|steps| - 1];
      if last.Enter? then Some(last.c) else if last.Leave? then None else Owner(steps[..|steps| - 1])
  }

  /** The pool of every successful index, under the sequence number it ended with. */
  function Versions(init: State, steps: seq<Step>): map<nat, seq<Inode>> {
    if steps == [] then map[]
    else
      var front, last := steps[..|steps| - 1], steps[|steps| - 1];
      var s := After(init, front);
      if last.CloseSeq? && PcOf(s, last.c) == Rewritten(true) then Versions(init, front)[s.seqno + 1 := s.pool]
      else Versions(init, front)
  }

  // ----- The invariant --------------------------------------------------------------------------

  predicate InCritical(pc: Pc) {
    pc == Begun || pc == Rewriting || pc.Rewritten? || pc.Closed?
  }

  predicate SeqOpen(pc: Pc) {
    pc == Rewriting || pc.Rewritten?
  }

  ghost predicate OneOwner(s: State, steps: seq<Step>) {
    && s.indexing == Owner(steps).Some?
    && (forall c: Caller :: PcOf(s, c) != Outside <==> Owner(steps) == Some(c))
  }

  ghost predicate SeqParity(s: State, steps: seq<Step>) {
    s.seqno % 2 == 1 <==> Owner(steps).Some? && SeqOpen(PcOf(s, Owner(steps).value))
  }

  ghost predicate StateMeaning(init: State, s: State, steps: seq<Step>) {
    && (s.state == Indexing ==> Owner(steps).Some? && InCritical(PcOf(s, Owner(steps).value)))
    && (Owner(steps).Some? && InCritical(PcOf(s, Owner(steps).value)) ==>
          && LatestIndexer(steps) == Owner(steps)
          && s.state == if MarkedSince(steps) then Dirty else Indexing)
    && (s.state == Clean && LatestIndexer(steps).Some? ==>
          && !MarkedSince(steps) && LatestOutcome(steps) == Some(true)
          && s.seqno in Versions(init, steps))
  }

  ghost predicate OutcomeKnown(init: State, s: State, steps: seq<Step>) {
    Owner(steps).Some? ==>
      var pc := PcOf(s, Owner(steps).value);
      && (pc.Rewritten? ==> LatestOutcome(steps) == Some(pc.ok))
      && (pc.Closed? ==> LatestOutcome(steps) == Some(pc.ok) && (pc.ok ==> s.seqno in Versions(init, steps)))
      && (pc == Rewritten(true) ==> Linked(s.pool))
  }

  ghost predicate VersionsKept(init: State, s: State, steps: seq<Step>) {
    && (forall v :: v in Versions(init, steps) ==> v <= s.seqno && v % 2 == 0 && Linked(Versions(init, steps)[v]))
    && (s.seqno % 2 == 0 && s.seqno in Versions(init, steps) ==> Versions(init, steps)[s.seqno] == s.pool)
    && (LatestIndexer(steps).None? ==> s.seqno == 0)
    && (s.seqno == 0 ==> s.pool == init.pool && Blank(s.pool))
    && |s.pool| >= |init.pool|
  }

  ghost predicate Inv(init: State, steps: seq<Step>) {
    var s := After(init, steps);
    && OneOwner(s, steps)
    && SeqParity(s, steps)
    && StateMeaning(init, s, steps)
    && OutcomeKnown(init, s, steps)
    && VersionsKept(init, s, steps)
  }

  lemma {:induction false} RunInv(init: State, steps: seq<Step>)
    requires Legal(true, init, steps)
    ensures Inv(init, steps)
  {
    if steps != [] {
      var n := |steps| - 1;
      RunInv(init, steps[..n]);
      StepOwner(init, steps[..n], steps[n]);
      StepState(init, steps[..n], steps[n]);
      StepOutcome(init, steps[..n], steps[n]);
      StepVersions(init, steps[..n], steps[n]);
      assert steps == steps[..n] + [steps[n]];
    }
  }

  lemma Extend(init: State, front: seq<Step>, step: Step)
    ensures var steps := front + [step];
            && steps[..|steps| - 1] == front && steps[|steps| - 1] == step
            && After(init, steps) == Do(After(init, front), step)
  {
    assert (front + [step])[..|front|] == front;
  }

  /** What one more step adds to the past. */
  lemma PastStep(front: seq<Step>, step: Step)
    ensures Owner(front + [step]) == if step.Enter? then Some(step.c) else if step.Leave? then None else Owner(front)
    ensures LatestIndexer(front + [step]) == if step.BeginIndexing? then Some(step.c) else LatestIndexer(front)
    ensures MarkedSince(front + [step]) == (!step.BeginIndexing? && (step.Mark? || MarkedSince(front)))
    ensures LatestOutcome(front + [step])
         == if step.BeginIndexing? then None
            else if step.Finish? && LatestIndexer(front) == Some(step.c) then Some(step.ok) else LatestOutcome(front)
  {
    assert (front + [step])[..|front|] == front;
  }

  lemma StepOwner(init: State, front: seq<Step>, step: Step)
    requires Inv(init, front) && Enabled(true, After(init, front), step)
    ensures var steps := front + [step];
            OneOwner(After(init, steps), steps) && SeqParity(After(init, steps), steps)
  {
    hide After, Owner, LatestIndexer, MarkedSince, LatestOutcome, Versions, StateMeaning, OutcomeKnown, VersionsKept;
    Extend(init, front, step);
    PastStep(front, step);
  }

  lemma StepState(init: State, front: seq<Step>, step: Step)
    requires Inv(init, front) && Enabled(true, After(init, front), step)
    ensures var steps := front + [step];
            StateMeaning(init, After(init, steps), steps)
  {
    hide After, Owner, LatestIndexer, MarkedSince, LatestOutcome, Versions, SeqParity, VersionsKept;
    Extend(init, front, step);
    PastStep(front, step);
    VersionsStep(init, front, step);
  }

  lemma StepOutcome(init: State, front: seq<Step>, step: Step)
    requires Inv(init, front) && Enabled(true, After(init, front), step)
    requires step.Finish? && step.ok ==> Linked(After(init, front).pool)
    ensures var steps := front + [step];
            OutcomeKnown(init, After(init, steps), steps)
  {
    hide After, Owner, LatestIndexer, MarkedSince, LatestOutcome, Versions, SeqParity, VersionsKept, Linked;
    Extend(init, front, step);
    PastStep(front, step);
    VersionsStep(init, front, step);
  }

  lemma StepVersions(init: State, front: seq<Step>, step: Step)
    requires Inv(init, front) && Enabled(true, After(init, front), step)
    ensures var steps := front + [step];
            VersionsKept(init, After(init, steps), steps)
  {
    hide After, Owner, LatestIndexer, MarkedSince, LatestOutcome, Versions, Linked, Blank;
    Extend(init, front, step);
    PastStep(front, step);
    VersionsStep(init, front, step);
  }

  lemma VersionsStep(init: State, front: seq<Step>, step: Step)
    ensures Versions(init, front + [step])
         == (var s := After(init, front);
             if step.CloseSeq? && PcOf(s, step.c) == Rewritten(true) then Versions(init, front)[s.seqno + 1 := s.pool]
             else Versions(init, front))
  {
    Extend(init, front, step);
  }

  // ----- What every run keeps -------------------------------------------------------------------

  /** At most one index runs at a time. */
  lemma OneIndexAtATime(init: State, steps: seq<Step>, c: Caller, d: Caller)
    requires Legal(true, init, steps)
    requires PcOf(After(init, steps), c) != Outside && PcOf(After(init, steps), d) != Outside
    ensures c == d && After(init, steps).indexing
  {
    RunInv(init, steps);
  }

  /** A second call is refused exactly while the first is inside, and then nothing changes. */
  lemma SecondCallRefused(init: State, steps: seq<Step>, c: Caller, d: Caller)
    requires Legal(true, init, steps) && c != d && PcOf(After(init, steps), c) != Outside
    ensures !Enabled(true, After(init, steps), Enter(d))
    ensures Enabled(true, After(init, steps), Refuse(d)) && Do(After(init, steps), Refuse(d)) == After(init, steps)
  {
    RunInv(init, steps);
  }

  /**
    No mark is lost: once an index has run, CLEAN means that every mark so far came before the
    latest index stored INDEXING, and that this index succeeded.
   */
  lemma CleanMeansUnmarked(init: State, steps: seq<Step>)
    requires Legal(true, init, steps) && LatestIndexer(steps).Some?
    requires After(init, steps).state == Clean
    ensures !MarkedSince(steps) && LatestOutcome(steps) == Some(true)
    ensures After(init, steps).seqno in Versions(init, steps)
    ensures Versions(init, steps)[After(init, steps).seqno] == After(init, steps).pool
  {
    RunInv(init, steps);
  }

  /** A mark that lands while an index runs survives it: the index ends DIRTY, whatever it did. */
  lemma MarkSurvivesIndex(init: State, steps: seq<Step>, c: Caller)
    requires Legal(true, init, steps) && MarkedSince(steps) && LatestIndexer(steps) == Some(c)
    requires PcOf(After(init, steps), c).Closed?
    ensures Do(After(init, steps), Settle(c)).state == Dirty
  {
    RunInv(init, steps);
  }

  /** The sequence number only grows, and while it stays even the pool stays as it is. */
  lemma {:induction false} PoolStable(init: State, steps: seq<Step>, k: nat)
    requires Legal(true, init, steps) && k <= |steps|
    ensures After(init, steps[..k]).seqno <= After(init, steps).seqno
    ensures |After(init, steps[..k]).pool| <= |After(init, steps).pool|
    ensures After(init, steps).seqno == After(init, steps[..k]).seqno && After(init, steps).seqno % 2 == 0
            ==> After(init, steps).pool == After(init, steps[..k]).pool
    decreases |steps| - k
  {
    hide Enabled, Do, Linked, Versions, LatestOutcome, LatestIndexer, MarkedSince, Owner, OneOwner, SeqParity,
      StateMeaning, OutcomeKnown, VersionsKept;
    if k == |steps| {
      assert steps[..k] == steps;
    } else {
      var n := |steps| - 1;
      PoolStable(init, steps[..n], k);
      assert steps[..n][..k] == steps[..k];
      RunInv(init, steps[..n]);
      StepStable(After(init, steps[..n]), steps[..n], steps[n]);
    }
  }

  lemma StepStable(s: State, front: seq<Step>, step: Step)
    requires Enabled(true, s, step) && OneOwner(s, front) && SeqParity(s, front)
    ensures s.seqno <= Do(s, step).seqno && |s.pool| <= |Do(s, step).pool|
    ensures Do(s, step).seqno == s.seqno && s.seqno % 2 == 0 ==> Do(s, step).pool == s.pool
  {
  }

  // ----- Without the exclusion flag -------------------------------------------------------------

  const FRESH: State := State(false, Dirty, 0, false, [], map[])

  /** Two interleaved indexes and one mark. */
  const LOST_MARK: seq<Step> := [
    Enter(0), BeginIndexing(0), OpenSeq(0), Mark, Enter(1), BeginIndexing(1), Finish(0, true), CloseSeq(0), Settle(0)
  ]

  /**
    Without the flag the second INDEXING store erases the mark and the first index then turns it
    into CLEAN: the index is CLEAN although the latest one has not even finished.
   */
  lemma WithoutExclusionMarksAreLost()
    ensures Legal(false, FRESH, LOST_MARK)
    ensures After(FRESH, LOST_MARK).state == Clean
    ensures LatestIndexer(LOST_MARK) == Some(1) && LatestOutcome(LOST_MARK) == None
  {
    forall k | 0 <= k < 9 ensures Follows(false, LOST_MARK_STATES[k], LOST_MARK[k], LOST_MARK_STATES[k + 1]) {
      LostMarkStep(k);
    }
    assert Init(LOST_MARK_STATES[0]) && LOST_MARK[..9] == LOST_MARK && LOST_MARK_STATES[9].state == Clean;
    hide Follows, Init, Legal, After, Enabled, Do;
    RunFollows(false, LOST_MARK_STATES, LOST_MARK, 9);
    LatestOfLostMark();
  }

  lemma LatestOfLostMark()
    ensures LatestIndexer(LOST_MARK) == Some(1) && LatestOutcome(LOST_MARK) == None
  {
    var l := LOST_MARK;
    assert l[..8][..7] == l[..7] && l[..7][..6] == l[..6] && l[..6][..5] == l[..5];
    assert LatestIndexer(l[..6]) == Some(1) && LatestOutcome(l[..6]) == None;
    assert LatestIndexer(l[..7]) == Some(1) && LatestOutcome(l[..7]) == None;
    assert LatestIndexer(l[..8]) == Some(1) && LatestOutcome(l[..8]) == None;
  }

  /** The states that run goes through. */
  const LOST_MARK_STATES: seq<State> := [
    FRESH,
    State(true, Dirty, 0, false, [], map[0 := Acquired]),
    State(true, Indexing, 0, false, [], map[0 := Begun]),
    State(true, Indexing, 1, false, [], map[0 := Rewriting]),
    State(true, Dirty, 1, false, [], map[0 := Rewriting]),
    State(true, Dirty, 1, false, [], map[0 := Rewriting, 1 := Acquired]),
    State(true, Indexing, 1, false, [], map[0 := Rewriting, 1 := Begun]),
    State(true, Indexing, 1, false, [], map[0 := Rewritten(true), 1 := Begun]),
    State(true, Indexing, 2, false, [], map[0 := Closed(true), 1 := Begun]),
    State(true, Clean, 2, false, [], map[0 := Settled(true), 1 := Begun])
  ]

  lemma LostMarkStep(k: nat)
    requires k < 9
    ensures Follows(false, LOST_MARK_STATES[k], LOST_MARK[k], LOST_MARK_STATES[k + 1])
  {
  }

  ghost predicate Follows(exclusive: bool, s: State, step: Step, s': State) {
    Enabled(exclusive, s, step) && Do(s, step) == s' && (step.Finish? && step.ok ==> Linked(s.pool))
  }

  /** A list of states, each the result of an enabled step, is a run. */
  lemma {:induction false} RunFollows(exclusive: bool, states: seq<State>, steps: seq<Step>, k: nat)
    requires k <= |steps| && |states| == |steps| + 1 && Init(states[0])
    requires forall j :: 0 <= j < |steps| ==> Follows(exclusive, states[j], steps[j], states[j + 1])
    ensures Legal(exclusive, states[0], steps[..k]) && After(states[0], steps[..k]) == states[k]
  {
    if k > 0 {
      hide Enabled, Do, Linked, Init;
      RunFollows(exclusive, states, steps, k - 1);
      assert steps[..k][..k - 1] == steps[..k - 1];
      assert Follows(exclusive, states[k - 1], steps[k - 1], states[k]);
    }
  }
}
