/**
  How often the watch thread calls the application back.  `lastFire` is the sequence number at the
  last callback since the loop was re-armed, by a clean state or by a surviving event.
 */
module CallbackLatch {
  import opened Names
  import opened WatchLoop

  predicate OpenSequence(pc: IndexPc) {
    pc == Opened || pc == Cleared || pc == Walking || pc.Done?
  }

  predicate Parity(s: State) {
    && (s.seqno % 2 == 1 <==> OpenSequence(s.index))
    && (s.index != NoIndex ==> s.thread == Off || s.thread.InCallback?)
  }

  predicate InCall(t: ThreadPc) {
    t.InCallback? || t.AfterCallback?
  }

  /** What the latch knows between callbacks. */
  predicate Latched(s: State) {
    match s.lastFire
    case None => s.cbSeq == -1
    case Some(q) => q <= s.seqno && s.cbSeq == if s.lastErr then s.seqno else q
  }

  predicate LatchOk(s: State) {
    if InCall(s.thread) then s.lastFire == Some(s.thread.seqno) && s.thread.seqno <= s.seqno
    else s.thread == Off || Latched(s)
  }

  lemma OtherStep(s: State, step: Step)
    requires OfFilesystem(step) || OfWalk(step)
    ensures var t := Do(s, step);
            && t.seqno == s.seqno && t.lastErr == s.lastErr && t.index == s.index && t.thread == s.thread
            && t.cbSeq == s.cbSeq && t.lastFire == s.lastFire
  {
    hide PathTarget, Record, AtPath, Enqueue;
  }

  lemma IndexLatchStep(s: State, step: Step)
    requires Parity(s) && LatchOk(s) && Enabled(true, s, step) && OfIndex(step)
    ensures Parity(Do(s, step)) && LatchOk(Do(s, step))
  {
    hide Complete, PathTarget, AtPath, Resolve, Record, HasNode, Value, OnlyAt, Reserved, Fires;
  }

  lemma ProcessLatch(s: State, dirty: bool, buf: seq<Event>, stale: bool, refused: bool)
    requires buf != [] && Parity(s) && s.thread.Check? && Latched(s)
    ensures var t := Process(s, dirty, buf, stale, refused); Parity(t) && LatchOk(t)
  {
    hide Judge;
  }

  lemma SurviveLatch(s: State, dirty: bool)
    requires Parity(s) && s.thread.Statx? && Latched(s)
    ensures var t := Survive(s, dirty); Parity(t) && LatchOk(t)
  {
  }

  lemma CheckLatchStep(s: State, step: Step)
    requires Parity(s) && LatchOk(s) && Enabled(true, s, step) && OfCheck(step)
    ensures Parity(CheckStep(s, step)) && LatchOk(CheckStep(s, step))
  {
    hide Process, Survive, SkippedNow;
    if step.NextEvent? {
      ProcessLatch(s, s.thread.dirty, s.thread.buf, s.thread.stale, step.refused);
    } else if step.StatxEvent? {
      SurviveLatch(s, s.thread.dirty);
    }
  }

  lemma PollLatchStep(s: State, step: Step)
    requires Parity(s) && LatchOk(s) && Enabled(true, s, step)
    requires step.PollTimeout? || step.PollReady? || step.PollError? || step.Mark? || step.MarkAndExit?
    ensures Parity(LoopStep(s, step)) && LatchOk(LoopStep(s, step))
  {
  }

  lemma LoopLatchStep(s: State, step: Step)
    requires Parity(s) && LatchOk(s) && Enabled(true, s, step) && OfThread(step) && !OfCheck(step)
    ensures Parity(LoopStep(s, step)) && LatchOk(LoopStep(s, step))
  {
    hide Fires, PathTarget, AtPath, Resolve, Record, HasNode, Value, OnlyAt, Reserved, Complete;
    if step.PollTimeout? || step.PollReady? || step.PollError? || step.Mark? || step.MarkAndExit? {
      PollLatchStep(s, step);
    }
  }

  lemma LatchStep(s: State, step: Step)
    requires Parity(s) && LatchOk(s) && Enabled(true, s, step)
    ensures Parity(Do(s, step)) && LatchOk(Do(s, step))
  {
    hide Enabled, FilesystemStep, WalkStep, IndexStep, CheckStep, LoopStep;
    if OfFilesystem(step) || OfWalk(step) {
      OtherStep(s, step);
    } else if OfIndex(step) {
      IndexLatchStep(s, step);
    } else if OfCheck(step) {
      CheckLatchStep(s, step);
    } else {
      LoopLatchStep(s, step);
    }
  }

  lemma {:induction false} RunLatch(init: State, steps: seq<Step>)
    requires Legal(true, init, steps)
    ensures Parity(After(init, steps)) && LatchOk(After(init, steps))
  {
    if steps != [] {
      var n := |steps| - 1;
      RunLatch(init, steps[..n]);
      hide Do, Enabled, Parity, LatchOk;
      LatchStep(After(init, steps[..n]), steps[n]);
    }
  }

  /**
    Whenever the loop finds the index dirty, it calls back exactly if it is re-armed, or if the last
    callback left an index that succeeded and there is a newer version.  A callback whose re-index
    failed is therefore not repeated, and a mark that survived a successful one gets its own.
   */
  lemma FiresExactly(init: State, steps: seq<Step>)
    requires Legal(true, init, steps) && After(init, steps).thread == SawDirty
    ensures var s := After(init, steps);
            Fires(s) <==> s.lastFire.None? || (!s.lastErr && s.seqno != s.lastFire.value)
  {
    RunLatch(init, steps);
  }

  /** Between two re-arms the callbacks come at strictly increasing, even sequence numbers. */
  lemma FiresIncrease(init: State, steps: seq<Step>)
    requires Legal(true, init, steps + [LoadSeq])
    requires var s := After(init, steps); s.lastFire.Some? && Do(s, LoadSeq).thread.InCallback?
    ensures var s, t := After(init, steps), After(init, steps + [LoadSeq]);
            t.lastFire == Some(s.seqno) && s.seqno > s.lastFire.value && s.seqno % 2 == 0
  {
    assert (steps + [LoadSeq])[..|steps|] == steps;
    RunLatch(init, steps);
    var s := After(init, steps);
    assert After(init, steps + [LoadSeq]) == Do(s, LoadSeq) && Enabled(true, s, LoadSeq);
    hide Legal, After, Parity, LatchOk, Do;
    assert s.thread == SawDirty by {
      SawDirtyThen(s);
    }
    FiresNext(s);
  }

  lemma SawDirtyThen(s: State)
    requires Enabled(true, s, LoadSeq)
    ensures s.thread == SawDirty
  {
  }

  lemma FiresNext(s: State)
    requires Parity(s) && LatchOk(s) && s.thread == SawDirty && s.lastFire.Some? && Do(s, LoadSeq).thread.InCallback?
    ensures Do(s, LoadSeq).lastFire == Some(s.seqno) && s.seqno > s.lastFire.value && s.seqno % 2 == 0
  {
  }
}
