/**
  Starting, stopping and joining the watch thread, from any number of callers at once, one step per
  mutex, flag or thread operation.  `joins` and `created` record what has happened to the threads.
 */
module WatchLifecycle {
  import opened Names

  type Caller = nat
  type Tid = nat

  datatype ThreadPc = InLoop | LeftLoop | Raised | Terminated

  datatype CallerPc =
    | Idle
    // xal_watch_filesystem(), from the lock on
    | Locked
    | SeenDead          // the thread is not live
    | ReapExited        // a joinable thread has exited: it is joined under the lock
    | Reaped            // joined, JOINABLE still set
    | ResetStop
    | ClearExited
    | Create
    | Publish(ok: bool)
    | Leaving
    // inotify_claim_join() and the join that follows it
    | ClaimLocked
    | ClaimClear        // JOINABLE is set and the caller is not the thread itself
    | ClaimStop         // JOINABLE is cleared
    | ClaimTake         // stop is stored
    | ClaimLeaving(claim: Option<Tid>)
    | Joining(tid: Tid)

  datatype State = State(
    lock: Option<Caller>,
    joinable: bool,
    exited: bool,
    stop: bool,
    watchId: Tid,
    created: nat,
    threads: map<Tid, ThreadPc>,
    callers: map<Caller, CallerPc>,
    joins: seq<Tid>)

  /** `xal_be_fiemap_inotify_init` */
  const INIT: State := State(None, false, true, false, 0, 0, map[], map[], [])

  datatype Step =
    | LockStart(c: Caller)
    | CheckLive(c: Caller)
    | CheckJoinable(c: Caller)
    | JoinExited(c: Caller)
    | ClearJoinable(c: Caller)
    | StoreNoStop(c: Caller)
    | LowerExited(c: Caller)
    | CreateThread(c: Caller, ok: bool)
    | PublishFlag(c: Caller)
    | UnlockStart(c: Caller)
    | LockClaim(c: Caller)
    | CheckClaim(c: Caller, self: Option<Tid>)  // `self` is the watch thread that makes the call, if one does
    | TakeJoinable(c: Caller)
    | RequestStop(c: Caller)
    | TakeId(c: Caller)
    | UnlockClaim(c: Caller)
    | Join(c: Caller)
    | LeaveLoop(t: Tid)
    | RaiseExited(t: Tid)
    | Terminate(t: Tid)

  function PcOf(s: State, c: Caller): CallerPc {
    if c in s.callers then s.callers[c] else Idle
  }

  predicate IsThread(s: State, t: Tid, pc: ThreadPc) {
    t in s.threads && s.threads[t] == pc
  }

  predicate Enabled(s: State, step: Step) {
    match step
    case LockStart(c) => PcOf(s, c) == Idle && s.lock == None
    case CheckLive(c) => PcOf(s, c) == Locked
    case CheckJoinable(c) => PcOf(s, c) == SeenDead
    case JoinExited(c) => PcOf(s, c) == ReapExited && IsThread(s, s.watchId, Terminated)
    case ClearJoinable(c) => PcOf(s, c) == Reaped
    case StoreNoStop(c) => PcOf(s, c) == ResetStop
    case LowerExited(c) => PcOf(s, c) == ClearExited
    case CreateThread(c, _) => PcOf(s, c) == Create
    case PublishFlag(c) => PcOf(s, c).Publish?
    case UnlockStart(c) => PcOf(s, c) == Leaving
    case LockClaim(c) => PcOf(s, c) == Idle && s.lock == None
    case CheckClaim(c, self) => PcOf(s, c) == ClaimLocked
    case TakeJoinable(c) => PcOf(s, c) == ClaimClear
    case RequestStop(c) => PcOf(s, c) == ClaimStop
    case TakeId(c) => PcOf(s, c) == ClaimTake
    case UnlockClaim(c) => PcOf(s, c).ClaimLeaving?
    case Join(c) => PcOf(s, c).Joining? && IsThread(s, PcOf(s, c).tid, Terminated)
    case LeaveLoop(t) => IsThread(s, t, InLoop)
    case RaiseExited(t) => IsThread(s, t, LeftLoop)
    case Terminate(t) => IsThread(s, t, Raised)
  }

  function Move(s: State, c: Caller, pc: CallerPc): State {
    s.(callers := s.callers[c := pc])
  }

  function Do(s: State, step: Step): State {
    match step
    case LockStart(c) => Move(s, c, Locked).(lock := Some(c))
    case CheckLive(c) => Move(s, c, if s.exited then SeenDead else Leaving)
    case CheckJoinable(c) => Move(s, c, if s.joinable then ReapExited else ResetStop)
    case JoinExited(c) => Move(s, c, Reaped).(joins := s.joins + [s.watchId])
    case ClearJoinable(c) => Move(s, c, ResetStop).(joinable := false)
    case StoreNoStop(c) => Move(s, c, ClearExited).(stop := false)
    case LowerExited(c) => Move(s, c, Create).(exited := false)
    case CreateThread(c, ok) =>
      if ok then
        Move(s, c, Publish(true)).(watchId := s.created, threads := s.threads[s.created := InLoop], created := s.created + 1)
      else Move(s, c, Publish(false))
    case PublishFlag(c) =>
      if PcOf(s, c) == Publish(true) then Move(s, c, Leaving).(joinable := true)
      else Move(s, c, Leaving).(exited := true)
    case UnlockStart(c) => Move(s, c, Idle).(lock := None)
    case LockClaim(c) => Move(s, c, ClaimLocked).(lock := Some(c))
    case CheckClaim(c, self) =>
      Move(s, c, if !s.joinable || self == Some(s.watchId) then ClaimLeaving(None) else ClaimClear)
    case TakeJoinable(c) => Move(s, c, ClaimStop).(joinable := false)
    case RequestStop(c) => Move(s, c, ClaimTake).(stop := true)
    case TakeId(c) => Move(s, c, ClaimLeaving(Some(s.watchId)))
    case UnlockClaim(c) =>
      var pc := PcOf(s, c);
      Move(s, c, if pc.ClaimLeaving? && pc.claim.Some? then Joining(pc.claim.value) else Idle).(lock := None)
    case Join(c) => if PcOf(s, c).Joining? then Move(s, c, Idle).(joins := s.joins + [PcOf(s, c).tid]) else s
    case LeaveLoop(t) => s.(threads := s.threads[t := LeftLoop])
    case RaiseExited(t) => s.(threads := s.threads[t := Raised], exited := true)
    case Terminate(t) => s.(threads := s.threads[t := Terminated])
  }

  // ----- The invariant --------------------------------------------------------------------------

  predicate Critical(pc: CallerPc) {
    pc != Idle && !pc.Joining?
  }

  /** Not yet known to have exited. */
  predicate Live(s: State, t: Tid) {
    IsThread(s, t, InLoop) || IsThread(s, t, LeftLoop)
  }

  function HolderPc(s: State): CallerPc {
    if s.lock.Some? then PcOf(s, s.lock.value) else Idle
  }

  predicate KnownDead(pc: CallerPc) {
    pc == SeenDead || pc == ReapExited || pc == Reaped || pc == ResetStop || pc == ClearExited
  }

  predicate KnownUnjoinable(pc: CallerPc) {
    || pc == ResetStop || pc == ClearExited || pc == Create || pc.Publish?
    || pc == ClaimStop || pc == ClaimTake || (pc.ClaimLeaving? && pc.claim.Some?)
  }

  ghost predicate LockInv(s: State) {
    forall c: Caller :: Critical(PcOf(s, c)) <==> s.lock == Some(c)
  }

  ghost predicate ThreadInv(s: State) {
    && (forall t :: t in s.threads <==> 0 <= t < s.created)
    && (forall t: Tid :: Live(s, t) ==> t == s.created - 1 && !s.exited)
    && (s.exited || (s.created > 0 && Live(s, s.created - 1)) || HolderPc(s) == Create || HolderPc(s) == Publish(false))
    && (KnownDead(HolderPc(s)) ==> s.exited)
    && (HolderPc(s) == Create || HolderPc(s) == Publish(false) ==> !s.exited && forall t: Tid :: !Live(s, t))
  }

  /** The thread whose join is owed by JOINABLE, or by the caller inside the lock. */
  ghost predicate Owed(s: State) {
    || (s.joinable && HolderPc(s) != Reaped)
    || HolderPc(s) == Publish(true)
    || HolderPc(s) == ClaimStop || HolderPc(s) == ClaimTake
    || (HolderPc(s).ClaimLeaving? && HolderPc(s).claim.Some?)
  }

  /** What the flags say about the thread that is still to be joined. */
  ghost predicate FlagInv(s: State) {
    && (s.joinable || Owed(s) ==> s.created > 0 && s.watchId == s.created - 1)
    && (HolderPc(s) == ReapExited || HolderPc(s) == Reaped || HolderPc(s) == ClaimClear ==> s.joinable)
    && (KnownUnjoinable(HolderPc(s)) ==> !s.joinable)
    && (HolderPc(s).ClaimLeaving? && HolderPc(s).claim.Some? ==> HolderPc(s).claim.value == s.watchId)
  }

  /** No thread was joined twice, and one that is owed was not joined. */
  ghost predicate JoinedInv(s: State) {
    && (forall i :: 0 <= i < |s.joins| ==> s.joins[i] < s.created)
    && (forall i, j :: 0 <= i < j < |s.joins| ==> s.joins[i] != s.joins[j])
    && (Owed(s) ==> s.watchId !in s.joins)
  }

  ghost predicate ClaimOk(s: State, c: Caller) {
    PcOf(s, c).Joining? ==>
      PcOf(s, c).tid < s.created && PcOf(s, c).tid !in s.joins && (Owed(s) ==> PcOf(s, c).tid != s.watchId)
  }

  ghost predicate ClaimsDiffer(s: State, c: Caller, d: Caller) {
    c != d && PcOf(s, c).Joining? && PcOf(s, d).Joining? ==> PcOf(s, c).tid != PcOf(s, d).tid
  }

  /** Every claimed thread is still to be joined, by the one caller that claimed it. */
  ghost predicate ClaimInv(s: State) {
    && (forall c: Caller :: ClaimOk(s, c))
    && (forall c: Caller, d: Caller :: ClaimsDiffer(s, c, d))
  }

  /** A claimed thread that has not exited has been told to stop, and the order stands. */
  ghost predicate StopInv(s: State) {
    && (forall c: Caller :: PcOf(s, c).Joining? && Live(s, PcOf(s, c).tid) ==> s.stop)
    && (HolderPc(s) == ClaimTake || (HolderPc(s).ClaimLeaving? && HolderPc(s).claim.Some?) ==> s.stop)
  }

  ghost function Joiners(s: State): set<Caller> {
    set c | c in s.callers && s.callers[c].Joining?
  }

  ghost predicate CountInv(s: State) {
    s.created == |s.joins| + |Joiners(s)| + if Owed(s) then 1 else 0
  }

  ghost predicate Inv(s: State) {
    LockInv(s) && ThreadInv(s) && FlagInv(s) && JoinedInv(s) && ClaimInv(s) && StopInv(s) && CountInv(s)
  }

  lemma StepLock(s: State, step: Step)
    requires LockInv(s) && Enabled(s, step)
    ensures LockInv(Do(s, step))
  {
  }

  predicate OfThread(step: Step) {
    step.LeaveLoop? || step.RaiseExited? || step.Terminate?
  }

  predicate OfStart(step: Step) {
    || step.LockStart? || step.CheckLive? || step.CheckJoinable? || step.JoinExited? || step.ClearJoinable?
    || step.StoreNoStop? || step.LowerExited? || step.CreateThread? || step.PublishFlag? || step.UnlockStart?
  }

  /** The caller that makes the step is the holder of the lock when it is inside, and not otherwise. */
  ghost predicate Placed(s: State, step: Step) {
    Enabled(s, step) && (OfThread(step) || (Critical(PcOf(s, step.c)) <==> s.lock == Some(step.c)))
  }

  lemma LiveSame(s: State, s': State)
    requires s'.threads == s.threads
    ensures forall t: Tid :: Live(s', t) == Live(s, t)
  {
  }

  lemma StepThread(s: State, step: Step)
    requires Placed(s, step) && ThreadInv(s)
    ensures ThreadInv(Do(s, step))
  {
    hide ThreadInv, Live;
    if OfThread(step) {
      StepThreadThread(s, step);
    } else if step.CreateThread? && step.ok {
      StepThreadCreate(s, step);
    } else {
      LiveSame(s, Do(s, step));
      StepThreadFlags(s, step);
    }
  }

  lemma StepThreadThread(s: State, step: Step)
    requires Placed(s, step) && ThreadInv(s) && OfThread(step)
    ensures ThreadInv(Do(s, step))
  {
    var s' := Do(s, step);
    assert !step.Terminate? ==> Live(s, step.t);
    forall t: Tid | Live(s', t) ensures Live(s, t) && t == s'.created - 1 && !s'.exited {
      assert Live(s, t);
    }
  }

  lemma StepThreadCreate(s: State, step: Step)
    requires Placed(s, step) && ThreadInv(s) && step.CreateThread? && step.ok
    ensures ThreadInv(Do(s, step))
  {
    var s' := Do(s, step);
    forall t: Tid | Live(s', t) ensures t == s.created {
      assert !Live(s, t);
    }
    assert Live(s', s.created);
  }

  lemma StepThreadFlags(s: State, step: Step)
    requires Placed(s, step) && ThreadInv(s) && !OfThread(step) && !(step.CreateThread? && step.ok)
    requires forall t: Tid :: Live(Do(s, step), t) == Live(s, t)
    ensures ThreadInv(Do(s, step))
  {
    hide Live;
    if OfStart(step) {
      StepThreadStart(s, step);
    } else {
      StepThreadClaim(s, step);
    }
  }

  lemma StepThreadStart(s: State, step: Step)
    requires Placed(s, step) && ThreadInv(s) && OfStart(step) && !(step.CreateThread? && step.ok)
    requires forall t: Tid :: Live(Do(s, step), t) == Live(s, t)
    ensures ThreadInv(Do(s, step))
  {
    hide Live;
  }

  lemma StepThreadClaim(s: State, step: Step)
    requires Placed(s, step) && ThreadInv(s) && !OfThread(step) && !OfStart(step)
    requires forall t: Tid :: Live(Do(s, step), t) == Live(s, t)
    ensures ThreadInv(Do(s, step))
  {
    hide Live;
  }

  lemma StepFlag(s: State, step: Step)
    requires Placed(s, step) && FlagInv(s)
    ensures FlagInv(Do(s, step))
  {
    if OfStart(step) {
      StepFlagStart(s, step);
    } else {
      StepFlagClaim(s, step);
    }
  }

  lemma StepFlagStart(s: State, step: Step)
    requires Placed(s, step) && FlagInv(s) && OfStart(step)
    ensures FlagInv(Do(s, step))
  {
  }

  lemma StepFlagClaim(s: State, step: Step)
    requires Placed(s, step) && FlagInv(s) && !OfStart(step)
    ensures FlagInv(Do(s, step))
  {
  }

  /** What a step does to the debt of the lock and of JOINABLE. */
  lemma StepOwed(s: State, step: Step)
    requires Placed(s, step) && FlagInv(s)
    ensures var s' := Do(s, step);
            && (Owed(s') && !Owed(s) ==> step.CreateThread? && step.ok && s'.watchId == s.created && s'.joins == s.joins)
            && (step.CreateThread? && step.ok ==> Owed(s') && !Owed(s))
            && (Owed(s) && !Owed(s') ==> step.JoinExited? || (step.UnlockClaim? && PcOf(s', step.c) == Joining(s.watchId)))
            && (Owed(s) && Owed(s') ==> s'.watchId == s.watchId)
            && (step.JoinExited? ==> Owed(s) && !Owed(s'))
            && (step.UnlockClaim? && PcOf(s', step.c).Joining? ==> Owed(s) && !Owed(s') && PcOf(s', step.c).tid == s.watchId)
  {
    if OfStart(step) {
      StepOwedStart(s, step);
    } else {
      StepOwedClaim(s, step);
    }
  }

  lemma StepOwedStart(s: State, step: Step)
    requires Placed(s, step) && FlagInv(s) && OfStart(step)
    ensures var s' := Do(s, step);
            && (Owed(s') && !Owed(s) ==> step.CreateThread? && step.ok && s'.watchId == s.created && s'.joins == s.joins)
            && (step.CreateThread? && step.ok ==> Owed(s') && !Owed(s))
            && (Owed(s) && !Owed(s') ==> step.JoinExited?)
            && (Owed(s) && Owed(s') ==> s'.watchId == s.watchId)
            && (step.JoinExited? ==> Owed(s) && !Owed(s'))
  {
  }

  lemma StepOwedClaim(s: State, step: Step)
    requires Placed(s, step) && FlagInv(s) && !OfStart(step)
    ensures var s' := Do(s, step);
            && (Owed(s') ==> Owed(s))
            && (Owed(s) && !Owed(s') ==> step.UnlockClaim? && PcOf(s', step.c) == Joining(s.watchId))
            && s'.watchId == s.watchId
            && (step.UnlockClaim? && PcOf(s', step.c).Joining? ==> Owed(s) && !Owed(s') && PcOf(s', step.c).tid == s.watchId)
  {
  }

  /** What a step does to the record of joins. */
  lemma StepRecords(s: State, step: Step)
    requires Placed(s, step) && FlagInv(s)
    ensures var s' := Do(s, step);
            && s'.joins == s.joins + (if step.JoinExited? then [s.watchId] else if step.Join? then [PcOf(s, step.c).tid] else [])
            && s'.created == s.created + (if step.CreateThread? && step.ok then 1 else 0)
  {
    hide FlagInv;
  }

  /** Who has claimed a thread: unlocking after a claim adds the caller, joining removes it. */
  lemma StepClaims(s: State, step: Step)
    requires Placed(s, step)
    ensures var s' := Do(s, step);
            && (forall c: Caller :: (!OfThread(step) && c == step.c) || PcOf(s', c) == PcOf(s, c))
            && (step.Join? ==> PcOf(s, step.c).Joining? && !PcOf(s', step.c).Joining?)
            && (!OfThread(step) && !step.Join? ==> !PcOf(s, step.c).Joining?)
            && (!OfThread(step) && PcOf(s', step.c).Joining? ==> step.UnlockClaim?)
  {
  }

  lemma StepJoined(s: State, step: Step)
    requires Placed(s, step) && FlagInv(s) && JoinedInv(s) && ClaimInv(s)
    ensures JoinedInv(Do(s, step))
  {
    hide Do, Enabled, FlagInv, Owed;
    StepOwed(s, step);
    StepRecords(s, step);
    if step.Join? {
      assert ClaimOk(s, step.c);
      JoinStep(s, step);
    }
    if step.JoinExited? {
      assert s.watchId !in s.joins;
      OwedBelow(s);
    }
  }

  lemma JoinStep(s: State, step: Step)
    requires Placed(s, step) && step.Join?
    ensures PcOf(s, step.c).Joining? && Do(s, step).watchId == s.watchId
  {
  }

  lemma OwedBelow(s: State)
    requires FlagInv(s) && Owed(s)
    ensures s.watchId < s.created
  {
  }

  lemma StepClaim(s: State, step: Step)
    requires Placed(s, step) && FlagInv(s) && JoinedInv(s) && ClaimInv(s)
    ensures ClaimInv(Do(s, step))
  {
    hide Do, Enabled, FlagInv, Owed;
    StepOwed(s, step);
    StepRecords(s, step);
    StepClaims(s, step);
    var s' := Do(s, step);
    if Owed(s) {
      OwedBelow(s);
    }
    forall c: Caller ensures ClaimOk(s', c) {
      assert ClaimOk(s, c);
      if step.Join? {
        JoinStep(s, step);
        assert ClaimsDiffer(s, c, step.c);
      }
    }
    forall c: Caller, d: Caller ensures ClaimsDiffer(s', c, d) {
      assert ClaimsDiffer(s, c, d) && ClaimOk(s, c) && ClaimOk(s, d);
    }
  }

  /** No step makes a thread live again, except creating it. */
  lemma StepLive(s: State, step: Step)
    requires Placed(s, step)
    ensures forall t: Tid :: Live(Do(s, step), t) ==> Live(s, t) || (step.CreateThread? && t == s.created)
  {
  }

  /** The order to stop is withdrawn only when no thread is live. */
  lemma StepStopFlag(s: State, step: Step)
    requires Placed(s, step) && ThreadInv(s)
    ensures s.stop && !Do(s, step).stop ==> step.StoreNoStop? && forall t: Tid :: !Live(s, t)
    ensures step.RequestStop? ==> Do(s, step).stop
    ensures step.UnlockClaim? && PcOf(Do(s, step), step.c).Joining? ==> HolderPc(s).ClaimLeaving? && HolderPc(s).claim.Some?
  {
    hide Live;
  }

  lemma StepStop(s: State, step: Step)
    requires Placed(s, step) && ThreadInv(s) && ClaimInv(s) && StopInv(s)
    ensures StopInv(Do(s, step))
  {
    var s' := Do(s, step);
    StepClaims(s, step);
    StepLive(s, step);
    StepStopFlag(s, step);
    StepStopHolder(s, step);
    forall c: Caller | PcOf(s', c).Joining? && Live(s', PcOf(s', c).tid) ensures s'.stop {
      hide Do, Enabled, Live, ThreadInv;
      assert ClaimOk(s, c);
    }
  }

  lemma StepStopHolder(s: State, step: Step)
    requires Placed(s, step) && StopInv(s)
    ensures var s' := Do(s, step);
            HolderPc(s') == ClaimTake || (HolderPc(s').ClaimLeaving? && HolderPc(s').claim.Some?) ==> s'.stop
  {
    hide Live;
  }

  lemma StepCount(s: State, step: Step)
    requires Placed(s, step) && FlagInv(s) && CountInv(s)
    ensures CountInv(Do(s, step))
  {
    hide Do, Enabled, FlagInv, Owed;
    StepOwed(s, step);
    StepRecords(s, step);
    StepClaims(s, step);
    var s' := Do(s, step);
    JoinersByPc(s);
    JoinersByPc(s');
    hide Joiners;
    if step.Join? {
      assert Joiners(s') == Joiners(s) - {step.c} && step.c in Joiners(s);
    } else if step.UnlockClaim? && PcOf(s', step.c).Joining? {
      assert Joiners(s') == Joiners(s) + {step.c};
    } else {
      assert Joiners(s') == Joiners(s);
    }
  }

  lemma JoinersByPc(s: State)
    ensures forall c: Caller :: c in Joiners(s) <==> PcOf(s, c).Joining?
  {
  }

  // ----- Every run ------------------------------------------------------------------------------

  function After(steps: seq<Step>): State {
    if steps == [] then INIT else Do(After(steps[..|steps| - 1]), steps[|steps| - 1])
  }

  ghost predicate Legal(steps: seq<Step>) {
    steps == [] ||
    (Legal(steps[..|steps| - 1]) && Enabled(After(steps[..|steps| - 1]), steps[|steps| - 1]))
  }

  lemma {:induction false} RunInv(steps: seq<Step>)
    requires Legal(steps)
    ensures Inv(After(steps))
  {
    if steps == [] {
      assert Joiners(INIT) == {};
    } else {
      hide Do, Enabled, LockInv, ThreadInv, FlagInv, JoinedInv, ClaimInv, StopInv, CountInv;
      var s, step := After(steps[..|steps| - 1]), steps[|steps| - 1];
      RunInv(steps[..|steps| - 1]);
      LockPlaces(s, step);
      StepLock(s, step);
      StepThread(s, step);
      StepFlag(s, step);
      StepJoined(s, step);
      StepClaim(s, step);
      StepStop(s, step);
      StepCount(s, step);
    }
  }

  lemma LockPlaces(s: State, step: Step)
    requires LockInv(s) && Enabled(s, step)
    ensures Placed(s, step)
  {
  }

  /** No thread is joined twice, whichever of the callers joins it. */
  lemma JoinedAtMostOnce(steps: seq<Step>, i: nat, j: nat)
    requires Legal(steps) && i < j < |After(steps).joins|
    ensures After(steps).joins[i] != After(steps).joins[j]
  {
    RunInv(steps);
  }

  /** Two callers never wait for the same thread, and none waits for one that was joined. */
  lemma ClaimsAreExclusive(steps: seq<Step>, c: Caller, d: Caller)
    requires Legal(steps) && c != d
    requires PcOf(After(steps), c).Joining? && PcOf(After(steps), d).Joining?
    ensures PcOf(After(steps), c).tid != PcOf(After(steps), d).tid
    ensures PcOf(After(steps), c).tid !in After(steps).joins
  {
    RunInv(steps);
    assert ClaimsDiffer(After(steps), c, d) && ClaimOk(After(steps), c);
  }

  /** No thread is forgotten: outside the lock every one is joined, claimed, or named by JOINABLE. */
  lemma ThreadsAccountedFor(steps: seq<Step>)
    requires Legal(steps) && After(steps).lock == None
    ensures var s := After(steps);
            s.created == |s.joins| + |Joiners(s)| + if s.joinable then 1 else 0
  {
    RunInv(steps);
  }

  /** At most one thread is inside the watch loop. */
  lemma OneThreadInLoop(steps: seq<Step>, t: Tid, u: Tid)
    requires Legal(steps) && IsThread(After(steps), t, InLoop) && IsThread(After(steps), u, InLoop)
    ensures t == u
  {
    RunInv(steps);
    assert Live(After(steps), t) && Live(After(steps), u);
  }

  /** A stop stays ordered until the claimed thread has raised EXITED, even against a racing start. */
  lemma StopStands(steps: seq<Step>, c: Caller)
    requires Legal(steps) && PcOf(After(steps), c).Joining?
    ensures var s := After(steps);
            s.stop || IsThread(s, PcOf(s, c).tid, Raised) || IsThread(s, PcOf(s, c).tid, Terminated)
  {
    RunInv(steps);
    assert ClaimOk(After(steps), c);
  }

  /** A start that goes ahead finds no live thread. */
  lemma StartNeverOverlaps(steps: seq<Step>, c: Caller, t: Tid)
    requires Legal(steps) && PcOf(After(steps), c) == Create
    ensures !Live(After(steps), t)
  {
    RunInv(steps);
  }
}
