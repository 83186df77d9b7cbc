/**
  Runs that lose a change: the three ways that NoLostChange excludes, each with a run that ends with
  a clean index, nothing queued and an idle watch thread, while the index is not what is there.
 */
module LostChanges {
  import opened Names
  import opened WatchLoop
  import opened IndexStates
  import opened NoLostChange

  // ----- Runs, step by step ---------------------------------------------------------------------

  /** `s` is where the steps lead; not `alone`: any thread may index at any time. */
  ghost predicate Leads(alone: bool, init: State, steps: seq<Step>, s: State) {
    Legal(alone, init, steps) && After(init, steps) == s
  }

  /** The step can be taken, and leads to `t`. */
  ghost predicate Goes(alone: bool, s: State, step: Step, t: State) {
    Enabled(alone, s, step) && Do(s, step) == t
  }

  lemma Extend(alone: bool, init: State, steps: seq<Step>, s: State, step: Step, t: State)
    requires Leads(alone, init, steps, s) && Goes(alone, s, step, t)
    ensures Leads(alone, init, steps + [step], t)
  {
    hide Enabled, Do;
    assert (steps + [step])[..|steps|] == steps;
  }

  lemma GoBegin(alone: bool, s: State)
    requires s.index == NoIndex && (alone ==> s.thread == Off)
    ensures Goes(alone, s, IxBegin, s.(index := Begun, state := Indexing))
  {
  }

  lemma GoOpen(alone: bool, s: State)
    requires s.index == Begun
    ensures Goes(alone, s, IxOpen, s.(index := Opened, seqno := s.seqno + 1))
  {
  }

  lemma GoClear(alone: bool, s: State)
    requires s.index == Opened
    ensures Goes(alone, s, IxClear(0), s.(index := Cleared, nodes := [], idx := map[], wd := map[], watched := {}, thread := Outdated(s.thread)))
  {
  }

  lemma GoDrain(alone: bool, s: State)
    requires s.index == Cleared
    ensures Goes(alone, s, IxDrain, s.(index := Walking, queue := [], thread := Outdated(s.thread)))
  {
  }

  lemma GoRoot(alone: bool, s: State)
    requires s.index == Walking && s.nodes == [] && s.watched == {} && s.base == 0
    ensures Goes(alone, s, IxRoot, s.(nodes := [Node(0, 0, "", None)], root := 0, wd := map[0 := 0], watched := {0}))
  {
  }

  lemma GoOpenRoot(alone: bool, s: State)
    requires s.index == Walking && s.nodes == [Node(0, 0, "", None)] && s.base == 0
    ensures Goes(alone, s, IxOpenDir(0), s.(nodes := [Node(0, 0, "", Some(0))]))
  {
    assert s.nodes[0 := s.nodes[0].(listing := Some(0))] == [Node(0, 0, "", Some(0))];
  }

  lemma GoFinish(alone: bool, s: State)
    requires s.index == Walking && Complete(s)
    ensures Goes(alone, s, IxFinish, s.(index := Done(true)))
  {
  }

  lemma GoClose(alone: bool, s: State)
    requires s.index == Done(true)
    ensures Goes(alone, s, IxClose, s.(index := Closed(true), seqno := s.seqno + 1))
  {
  }

  lemma GoSettle(alone: bool, s: State)
    requires s.index == Closed(true) && s.state == Indexing
    ensures Goes(alone, s, IxSettle, s.(index := Settled(true), state := Clean))
  {
  }

  lemma GoRecord(alone: bool, s: State)
    requires s.index == Settled(true)
    ensures Goes(alone, s, IxRecord, s.(index := NoIndex, lastErr := false))
  {
  }

  lemma GoStart(alone: bool, s: State)
    requires s.thread == Off && s.nodes != [] && !s.lastErr && s.index == NoIndex
    ensures Goes(alone, s, Start, s.(thread := Top, cbSeq := -1, lastFire := None))
  {
  }

  lemma GoMarkDirty(alone: bool, s: State)
    ensures Goes(alone, s, MarkDirty, s.(state := Dirty))
  {
  }

  lemma GoLoadState(alone: bool, s: State)
    requires s.thread == Top && s.state != Indexing
    ensures Goes(alone, s, LoadState,
                 if s.state == Dirty then s.(thread := SawDirty) else s.(thread := PollClean, cbSeq := -1, lastFire := None))
  {
  }

  lemma GoLoadSeq(alone: bool, s: State)
    requires s.thread == SawDirty && s.seqno % 2 == 1
    ensures Goes(alone, s, LoadSeq, s.(thread := PollDirty))
  {
  }

  lemma GoPollReady(alone: bool, s: State)
    requires s.thread == PollDirty || s.thread == PollClean
    ensures Goes(alone, s, PollReady, s.(thread := Check(s.thread == PollDirty, [], false)))
  {
  }

  lemma GoRead(alone: bool, s: State, e: Event)
    requires s.thread.Check? && s.thread.buf == [] && s.queue == [e]
    ensures Goes(alone, s, ReadQueue(1), s.(queue := [], thread := Check(s.thread.dirty, [e], false)))
  {
    assert s.queue[..1] == s.queue && s.queue[1..] == [];
  }

  lemma GoReadNone(alone: bool, s: State)
    requires s.thread.Check? && s.thread.buf == [] && s.queue == []
    ensures Goes(alone, s, ReadQueue(0), s.(thread := Top))
  {
  }

  /** A run that ends clean and quiet while an entry is not current is not safe. */
  lemma NotSafe(alone: bool, init: State, steps: seq<Step>, s: State, k: nat, n: Name)
    requires Leads(alone, init, steps, s) && s.state == Clean && s.queue == [] && s.thread == Top
    requires k < |s.nodes| && n in s.names && !Current(s, k, n)
    ensures Legal(alone, init, steps) && After(init, steps) == s && !Safe(init, steps)
  {
    if alone {
      LegalWeaker(init, steps);
    }
    hide Legal, After, Current;
    if Safe(init, steps) {
      CleanMeansCurrent(init, steps, k, n);
    }
  }

  const BEGIN: seq<Step> := [IxBegin, IxOpen]

  lemma BeginPhase(alone: bool, init: State, steps: seq<Step>, s: State)
    requires Leads(alone, init, steps, s) && s.index == NoIndex && (alone ==> s.thread == Off)
    ensures Leads(alone, init, steps + BEGIN, s.(index := Opened, state := Indexing, seqno := s.seqno + 1))
  {
    hide Leads, Goes;
    var t := s.(index := Begun, state := Indexing);
    GoBegin(alone, s);
    Extend(alone, init, steps, s, IxBegin, t);
    GoOpen(alone, t);
    Extend(alone, init, steps + [IxBegin], t, IxOpen, t.(index := Opened, seqno := s.seqno + 1));
    assert steps + [IxBegin] + [IxOpen] == steps + BEGIN;
  }

  const ROOT: seq<Step> := [IxClear(0), IxDrain, IxRoot, IxOpenDir(0)]

  /** The walk has opened the root. */
  function Rooted(s: State): State {
    s.(index := Walking, queue := [], nodes := [Node(0, 0, "", Some(0))], root := 0, wd := map[0 := 0], watched := {0}, idx := map[],
       thread := Outdated(s.thread))
  }

  lemma RootPhase(alone: bool, init: State, steps: seq<Step>, s: State)
    requires Leads(alone, init, steps, s) && s.index == Opened && s.base == 0
    ensures Leads(alone, init, steps + ROOT, Rooted(s))
  {
    hide Leads, Goes;
    var t := s.(index := Cleared, nodes := [], idx := map[], wd := map[], watched := {}, thread := Outdated(s.thread));
    var u := t.(index := Walking, queue := []);
    var v := u.(nodes := [Node(0, 0, "", None)], root := 0, wd := map[0 := 0], watched := {0});
    GoClear(alone, s);
    Extend(alone, init, steps, s, IxClear(0), t);
    GoDrain(alone, t);
    Extend(alone, init, steps + [IxClear(0)], t, IxDrain, u);
    GoRoot(alone, u);
    Extend(alone, init, steps + [IxClear(0)] + [IxDrain], u, IxRoot, v);
    GoOpenRoot(alone, v);
    Extend(alone, init, steps + [IxClear(0)] + [IxDrain] + [IxRoot], v, IxOpenDir(0), Rooted(s));
    assert steps + [IxClear(0)] + [IxDrain] + [IxRoot] + [IxOpenDir(0)] == steps + ROOT;
  }

  const OPEN: seq<Step> := BEGIN + ROOT

  /** The first index of a handle, up to the opened root. */
  lemma OpenPhase(init: State)
    requires Init(init) && init.base == 0
    ensures Leads(true, init, OPEN, Rooted(init).(state := Indexing, seqno := 1))
  {
    assert Leads(true, init, [], init);
    hide Leads, Init;
    BeginPhase(true, init, [], init);
    assert [] + BEGIN == BEGIN;
    RootPhase(true, init, BEGIN, init.(index := Opened, state := Indexing, seqno := 1));
  }

  const END: seq<Step> := [IxFinish, IxClose, IxSettle]

  lemma EndPhase(alone: bool, init: State, steps: seq<Step>, s: State)
    requires Leads(alone, init, steps, s) && s.index == Walking && Complete(s) && s.state == Indexing
    ensures Leads(alone, init, steps + END, s.(index := Settled(true), state := Clean, seqno := s.seqno + 1))
  {
    hide Leads, Goes, Complete;
    var t := s.(index := Done(true));
    var u := s.(index := Closed(true), seqno := s.seqno + 1);
    GoFinish(alone, s);
    Extend(alone, init, steps, s, IxFinish, t);
    GoClose(alone, t);
    Extend(alone, init, steps + [IxFinish], t, IxClose, u);
    GoSettle(alone, u);
    Extend(alone, init, steps + [IxFinish] + [IxClose], u, IxSettle, u.(index := Settled(true), state := Clean));
    assert steps + [IxFinish] + [IxClose] + [IxSettle] == steps + END;
  }

  const WATCH: seq<Step> := [IxRecord, Start]

  lemma WatchPhase(alone: bool, init: State, steps: seq<Step>, s: State)
    requires Leads(alone, init, steps, s) && s.index == Settled(true) && s.thread == Off && s.nodes != []
    requires s.cbSeq == -1 && s.lastFire == None
    ensures Leads(alone, init, steps + WATCH, s.(index := NoIndex, lastErr := false, thread := Top))
  {
    hide Leads, Goes;
    var t := s.(index := NoIndex, lastErr := false);
    GoRecord(alone, s);
    Extend(alone, init, steps, s, IxRecord, t);
    GoStart(alone, t);
    Extend(alone, init, steps + [IxRecord], t, Start, t.(thread := Top));
    assert steps + [IxRecord] + [Start] == steps + WATCH;
  }

  // ----- An index beside the watch --------------------------------------------------------------

  const SKIP: seq<Step> := [IxSkipName(0, "f")]
  const WALK: seq<Step> := ROOT + SKIP

  /** The index of an empty directory. */
  function Walked(s: State): State {
    Rooted(s).(idx := map[(0, "f") := Nothing])
  }

  lemma WalkPhase(init: State, steps: seq<Step>, s: State)
    requires Leads(false, init, steps, s) && s.index == Opened && s.names == {"f"} && s.base == 0 && s.fs == map[]
    ensures Leads(false, init, steps + WALK, Walked(s)) && Complete(Walked(s))
  {
    var t := Rooted(s);
    GoSkipMissing(t);
    WalkedComplete(Walked(s));
    hide Leads, Goes, Complete;
    RootPhase(false, init, steps, s);
    Extend(false, init, steps + ROOT, t, IxSkipName(0, "f"), Walked(s));
    assert steps + ROOT + [IxSkipName(0, "f")] == steps + WALK;
  }

  lemma GoSkipMissing(s: State)
    requires s == Rooted(s) && s.names == {"f"} && s.fs == map[]
    ensures Goes(false, s, IxSkipName(0, "f"), s.(idx := map[(0, "f") := Nothing]))
  {
  }

  lemma WalkedComplete(s: State)
    requires s.names == {"f"} && s.nodes == [Node(0, 0, "", Some(0))] && s.idx == map[(0, "f") := Nothing]
    ensures Complete(s)
  {
  }

  const EMPTY: State :=
    State({"f"}, map[], 0, [], {}, 0, [], map[], map[], Clean, 0, false, NoIndex, Off, -1, None)

  const SEE: seq<Step> := [MarkDirty, LoadState]

  /** After a first index the watch starts, and its thread reads a dirty state. */
  const START: seq<Step> := BEGIN + WALK + END + WATCH + SEE

  lemma StartPhase()
    ensures Leads(false, EMPTY, START, Walked(EMPTY).(index := NoIndex, state := Dirty, seqno := 2, thread := SawDirty))
  {
    assert Leads(false, EMPTY, [], EMPTY);
    hide Leads, Goes, Complete;
    BeginPhase(false, EMPTY, [], EMPTY);
    var s1 := EMPTY.(index := Opened, state := Indexing, seqno := 1);
    assert [] + BEGIN == BEGIN;
    WalkPhase(EMPTY, BEGIN, s1);
    EndPhase(false, EMPTY, BEGIN + WALK, Walked(s1));
    var s2 := Walked(s1).(index := Settled(true), state := Clean, seqno := 2);
    WatchPhase(false, EMPTY, BEGIN + WALK + END, s2);
    var s3 := s2.(index := NoIndex, thread := Top);
    SeePhase(EMPTY, BEGIN + WALK + END + WATCH, s3);
  }

  lemma SeePhase(init: State, l: seq<Step>, s: State)
    requires Leads(false, init, l, s) && s.thread == Top
    ensures Leads(false, init, l + SEE, s.(state := Dirty, thread := SawDirty))
  {
    hide Leads, Goes;
    var t := s.(state := Dirty);
    GoMarkDirty(false, s);
    Extend(false, init, l, s, MarkDirty, t);
    GoLoadState(false, t);
    Extend(false, init, l + [MarkDirty], t, LoadState, t.(thread := SawDirty));
    assert l + [MarkDirty] + [LoadState] == l + SEE;
  }

  const FILE: Val := Reg(Content(7, 1))
  const FILE_APPEARS: Step := Change(0, "f", FILE, false)

  /** The change is read while the second walk runs, after the walk has passed the name. */
  const READ: seq<Step> := [FILE_APPEARS, ReadQueue(1), NextEvent(false)]

  const POLL: seq<Step> := [LoadSeq, PollReady]

  /** The second index is an application thread's: the sequence is odd, so the watch thread polls in its dirty branch. */
  const RACE: seq<Step> := START + BEGIN + POLL + WALK + READ + END

  lemma ReadPhase(init: State, l: seq<Step>, s: State)
    requires Leads(false, init, l, s) && s == Walked(s) && s.names == {"f"} && s.thread == Check(true, [], true) && s.fs == map[]
    requires s.cbSeq == -1 && s.lastFire == None && s.state == Indexing
    ensures Leads(false, init, l + READ, s.(fs := map[(0, "f") := FILE], thread := Top))
  {
    hide Leads, Goes;
    var s1 := s.(fs := map[(0, "f") := FILE], queue := [Named(0, "f")]);
    var s2 := s1.(queue := [], thread := Check(true, [Named(0, "f")], false));
    FileAppears(s, s1);
    Extend(false, init, l, s, FILE_APPEARS, s1);
    GoRead(false, s1, Named(0, "f"));
    Extend(false, init, l + [FILE_APPEARS], s1, ReadQueue(1), s2);
    EventAnswered(s2);
    Extend(false, init, l + [FILE_APPEARS] + [ReadQueue(1)], s2, NextEvent(false), s2.(thread := Top));
    assert l + [FILE_APPEARS] + [ReadQueue(1)] + [NextEvent(false)] == l + READ;
  }

  lemma FileAppears(s: State, t: State)
    requires s.names == {"f"} && s.fs == map[] && s.queue == [] && s.watched == {0}
    requires t == s.(fs := map[(0, "f") := FILE], queue := [Named(0, "f")])
    ensures Goes(false, s, FILE_APPEARS, t)
  {
  }

  lemma EventAnswered(s: State)
    requires s.thread == Check(true, [Named(0, "f")], false) && s.state == Indexing && s.cbSeq == -1 && s.lastFire == None
    ensures Goes(false, s, NextEvent(false), s.(thread := Top))
  {
    assert Judge(s, Named(0, "f"), false) == React;
  }

  lemma PollPhase(init: State, l: seq<Step>, s: State)
    requires Leads(false, init, l, s) && s.thread == SawDirty && s.seqno % 2 == 1
    ensures Leads(false, init, l + POLL, s.(thread := Check(true, [], false)))
  {
    hide Leads, Goes;
    var t := s.(thread := PollDirty);
    GoLoadSeq(false, s);
    Extend(false, init, l, s, LoadSeq, t);
    GoPollReady(false, t);
    Extend(false, init, l + [LoadSeq], t, PollReady, t.(thread := Check(true, [], false)));
    assert l + [LoadSeq] + [PollReady] == l + POLL;
  }

  /** Where the run below ends. */
  const LOST: State := Walked(EMPTY).(fs := map[(0, "f") := FILE], index := Settled(true), state := Clean, seqno := 4, thread := Top)

  lemma RacePhase()
    ensures Leads(false, EMPTY, RACE, LOST)
  {
    hide Leads, Complete;
    StartPhase();
    var s := Walked(EMPTY).(index := NoIndex, state := Dirty, seqno := 2, thread := SawDirty);
    BeginPhase(false, EMPTY, START, s);
    var s1 := s.(index := Opened, state := Indexing, seqno := 3);
    PollPhase(EMPTY, START + BEGIN, s1);
    var s2 := s1.(thread := Check(true, [], false));
    WalkPhase(EMPTY, START + BEGIN + POLL, s2);
    ReadPhase(EMPTY, START + BEGIN + POLL + WALK, Walked(s2));
    var s3 := Walked(s2).(fs := map[(0, "f") := FILE], thread := Top);
    WalkedComplete(s3);
    EndPhase(false, EMPTY, START + BEGIN + POLL + WALK + READ, s3);
  }

  /**
    With an index beside the watch a change is lost: the run ends clean, with nothing queued and the
    watch thread idle, while the index lacks a file that is there.
   */
  lemma RacingIndexLosesChange()
    ensures Legal(false, EMPTY, RACE)
    ensures var s := After(EMPTY, RACE);
            s.state == Clean && s.queue == [] && s.thread == Top && s.idx == map[(0, "f") := Nothing] && AtPath(s, 0, "f") == FILE
    ensures !Safe(EMPTY, RACE)
  {
    RacePhase();
    LostEntry();
    hide Leads, Legal, After, Current, AtPath, Safe;
    NotSafe(false, EMPTY, RACE, LOST, 0, "f");
  }

  lemma LostEntry()
    ensures AtPath(LOST, 0, "f") == FILE && !Current(LOST, 0, "f")
  {
    assert PathTarget(LOST, 0) == Some(0) && !Reserved("f");
  }

  /** What it does in any state: the events that were read are forgotten, and nothing marks the index. */
  lemma SwallowedUnmarked(s: State, step: Step)
    requires Swallows(s, step)
    ensures var t := Do(s, step);
            t.state == s.state && t.queue == s.queue && t.thread == Top && t.idx == s.idx && s.thread.buf != [] && Buf(t) == []
  {
    hide Judge;
  }

  // ----- A watch taken over through a link ------------------------------------------------------

  /** A directory, 1, in the root, 0. */
  const NESTED: State :=
    State({"n"}, map[(0, "n") := SubDir(1)], 0, [], {}, 0, [], map[], map[], Clean, 0, false, NoIndex, Off, -1, None)

  const REPLACED: Step := Change(0, "n", Link(Some(0)), false)

  /**
    After statx() found a directory at "n" it is replaced by a symbolic link to ".".  The watch that
    the walk adds below it is the root's own, which from then on leads to the slot of "n".
   */
  const TAKE: seq<Step> := [IxStat(0, "n"), REPLACED, IxDescend(0, "n"), IxOpenDir(1), IxSkipName(1, "n")]

  function Taken(s: State): State {
    s.(fs := map[(0, "n") := Link(Some(0))], queue := [Named(0, "n")],
       nodes := [Node(0, 0, "", Some(0)), Node(0, 0, "n", Some(0))], wd := map[0 := 1],
       idx := map[(0, "n") := Directory(1), (1, "n") := Nothing])
  }

  lemma GoReplaced(s: State)
    requires s.names == {"n"} && s.base == 0 && s.watched == {0} && s.queue == [] && s.fs == map[(0, "n") := SubDir(1)]
    ensures Goes(true, s, REPLACED, s.(fs := map[(0, "n") := Link(Some(0))], queue := [Named(0, "n")]))
  {
  }

  lemma GoStat(s: State)
    requires s.index == Walking && s.nodes == [Node(0, 0, "", Some(0))] && s.idx == map[] && s.names == {"n"}
    requires s.base == 0 && s.fs == map[(0, "n") := SubDir(1)]
    ensures Goes(true, s, IxStat(0, "n"), s.(idx := map[(0, "n") := Directory(1)]))
  {
  }

  lemma GoDescend(s: State)
    requires s.index == Walking && s.nodes == [Node(0, 0, "", Some(0))] && s.idx == map[(0, "n") := Directory(1)]
    requires s.base == 0 && s.fs == map[(0, "n") := Link(Some(0))] && s.wd == map[0 := 0] && s.watched == {0}
    ensures TakesOver(s, IxDescend(0, "n"))
    ensures Goes(true, s, IxDescend(0, "n"), s.(nodes := [Node(0, 0, "", Some(0)), Node(0, 0, "n", None)], wd := map[0 := 1]))
  {
    assert PlainTarget(s, 0) == Some(0) && AtPath(s, 0, "n") == Link(Some(0));
  }

  lemma GoOpenLink(s: State)
    requires s.index == Walking && s.nodes == [Node(0, 0, "", Some(0)), Node(0, 0, "n", None)]
    requires s.base == 0 && s.fs == map[(0, "n") := Link(Some(0))]
    ensures Goes(true, s, IxOpenDir(1), s.(nodes := [Node(0, 0, "", Some(0)), Node(0, 0, "n", Some(0))]))
  {
    assert PathTarget(s, 0) == Some(0) && PathTarget(s, 1) == Some(0);
  }

  lemma GoSkip(s: State)
    requires s.index == Walking && s.nodes == [Node(0, 0, "", Some(0)), Node(0, 0, "n", Some(0))] && s.names == {"n"}
    requires s.idx == map[(0, "n") := Directory(1)] && s.fs == map[(0, "n") := Link(Some(0))]
    ensures Goes(true, s, IxSkipName(1, "n"), s.(idx := map[(0, "n") := Directory(1), (1, "n") := Nothing]))
  {
  }

  lemma TakePhase(init: State, l: seq<Step>, s: State)
    requires Leads(true, init, l, s) && s == Rooted(s) && s.names == {"n"} && s.base == 0 && s.fs == map[(0, "n") := SubDir(1)]
    ensures Leads(true, init, l + TAKE, Taken(s))
  {
    hide Leads, Goes;
    var t := s.(idx := map[(0, "n") := Directory(1)]);
    var u := t.(fs := map[(0, "n") := Link(Some(0))], queue := [Named(0, "n")]);
    var v := u.(nodes := [Node(0, 0, "", Some(0)), Node(0, 0, "n", None)], wd := map[0 := 1]);
    var w := v.(nodes := [Node(0, 0, "", Some(0)), Node(0, 0, "n", Some(0))]);
    GoStat(s);
    Extend(true, init, l, s, IxStat(0, "n"), t);
    GoReplaced(t);
    Extend(true, init, l + [IxStat(0, "n")], t, REPLACED, u);
    GoDescend(u);
    Extend(true, init, l + [IxStat(0, "n")] + [REPLACED], u, IxDescend(0, "n"), v);
    GoOpenLink(v);
    var m := l + [IxStat(0, "n")] + [REPLACED] + [IxDescend(0, "n")];
    Extend(true, init, m, v, IxOpenDir(1), w);
    GoSkip(w);
    Extend(true, init, m + [IxOpenDir(1)], w, IxSkipName(1, "n"), Taken(s));
    assert m + [IxOpenDir(1)] + [IxSkipName(1, "n")] == l + TAKE;
  }

  const FETCH: seq<Step> := [LoadState, PollReady, ReadQueue(1)]

  lemma FetchPhase(init: State, l: seq<Step>, s: State, e: Event)
    requires Leads(true, init, l, s) && s.queue == [e] && s.state == Clean && s.thread == Top && s.cbSeq == -1 && s.lastFire == None
    ensures Leads(true, init, l + FETCH, s.(queue := [], thread := Check(false, [e], false)))
  {
    hide Leads, Goes;
    var t, u := s.(thread := PollClean), s.(thread := Check(false, [], false));
    GoLoadState(true, s);
    Extend(true, init, l, s, LoadState, t);
    GoPollReady(true, t);
    Extend(true, init, l + [LoadState], t, PollReady, u);
    GoRead(true, u, e);
    Extend(true, init, l + [LoadState] + [PollReady], u, ReadQueue(1), s.(queue := [], thread := Check(false, [e], false)));
    assert l + [LoadState] + [PollReady] + [ReadQueue(1)] == l + FETCH;
  }

  const DROP: seq<Step> := [NextEvent(false), StatxEvent(true), ReadQueue(0)]

  lemma DropPhase(init: State, l: seq<Step>, s: State, e: Event)
    requires Leads(true, init, l, s) && s.thread == Check(false, [e], false) && s.queue == []
    requires e.Named? && !Reserved(e.n) && Missing(s, e.d, e.n) && SkippedNow(s, e)
    ensures Leads(true, init, l + DROP, s.(thread := Top))
  {
    GoLookup(s, e);
    hide Leads, Goes, Missing, SkippedNow, Reserved;
    var t, u := s.(thread := Statx(false, [e], false)), s.(thread := Check(false, [], false));
    Extend(true, init, l, s, NextEvent(false), t);
    Extend(true, init, l + [NextEvent(false)], t, StatxEvent(true), u);
    GoReadNone(true, u);
    Extend(true, init, l + [NextEvent(false)] + [StatxEvent(true)], u, ReadQueue(0), s.(thread := Top));
    assert l + [NextEvent(false)] + [StatxEvent(true)] + [ReadQueue(0)] == l + DROP;
  }

  /** The event is looked up, the index has nothing by that name, and the path is one that is skipped. */
  lemma GoLookup(s: State, e: Event)
    requires s.thread == Check(false, [e], false)
    requires e.Named? && !Reserved(e.n) && Missing(s, e.d, e.n) && SkippedNow(s, e)
    ensures Goes(true, s, NextEvent(false), s.(thread := Statx(false, [e], false)))
    ensures Goes(true, s.(thread := Statx(false, [e], false)), StatxEvent(true), s.(thread := Check(false, [], false)))
  {
    var t := s.(thread := Statx(false, [e], false));
    SameSkipped(s, t, e);
    hide SkippedNow, Reserved;
    assert Judge(s, e, false) == AskStatx;
    assert [e][1..] == [];
  }

  lemma TakenSkipped(s: State)
    requires s == Taken(s).(queue := []) && s.base == 0 && s.state == Clean && s.index == NoIndex
    ensures Missing(s, 0, "n") && SkippedNow(s, Named(0, "n"))
  {
    assert PathTarget(s, 0) == Some(0) && PathTarget(s, 1) == Some(0);
  }

  const INDEXED: seq<Step> := OPEN + TAKE + END

  lemma IndexedPhase()
    ensures Leads(true, NESTED, INDEXED, Taken(Rooted(NESTED)).(index := Settled(true), seqno := 2))
  {
    assert Init(NESTED);
    hide Leads, Init;
    OpenPhase(NESTED);
    var s := Rooted(NESTED).(state := Indexing, seqno := 1);
    TakePhase(NESTED, OPEN, s);
    TakenComplete(Taken(s));
    hide Complete;
    EndPhase(true, NESTED, OPEN + TAKE, Taken(s));
  }

  lemma TakenComplete(s: State)
    requires s == Taken(s) && s.names == {"n"}
    ensures Complete(s)
  {
    assert s.nodes[1].parent == 0 && s.nodes[1].name == "n";
    assert HasNode(s, 0, "n");
  }

  const LINK: seq<Step> := INDEXED + WATCH + FETCH + DROP

  /**
    With one index and the watch alone a change is lost: the run ends clean, with nothing queued and
    the watch thread idle, while the index holds a directory where there is a symbolic link.
   */
  lemma LinkLosesChange()
    ensures Legal(true, NESTED, LINK)
    ensures var s := After(NESTED, LINK);
            && s.state == Clean && s.queue == [] && s.thread == Top
            && (0, "n") in s.idx && s.idx[(0, "n")] == Directory(1) && AtPath(s, 0, "n") == Link(Some(0))
    ensures !Safe(NESTED, LINK)
  {
    LinkPhase();
    LinkedEntry();
    hide Leads, Legal, After, Current, AtPath, Safe;
    NotSafe(true, NESTED, LINK, MISTAKEN, 0, "n");
  }

  const MISTAKEN: State :=
    State({"n"}, map[(0, "n") := Link(Some(0))], 0, [], {0}, 0, [Node(0, 0, "", Some(0)), Node(0, 0, "n", Some(0))], map[0 := 1],
          map[(0, "n") := Directory(1), (1, "n") := Nothing], Clean, 2, false, NoIndex, Top, -1, None)

  lemma LinkPhase()
    ensures Leads(true, NESTED, LINK, MISTAKEN)
  {
    var e := Named(0, "n");
    var s, t := MISTAKEN.(queue := [e]), MISTAKEN.(thread := Check(false, [e], false));
    IndexedPhase();
    assert s.(index := Settled(true), thread := Off) == Taken(Rooted(NESTED)).(index := Settled(true), seqno := 2);
    TakenSkipped(t);
    hide Leads, Missing, SkippedNow;
    WatchPhase(true, NESTED, INDEXED, s.(index := Settled(true), thread := Off));
    FetchPhase(NESTED, INDEXED + WATCH, s, e);
    DropPhase(NESTED, INDEXED + WATCH + FETCH, t, e);
  }

  lemma LinkedEntry()
    ensures AtPath(MISTAKEN, 0, "n") == Link(Some(0)) && !Current(MISTAKEN, 0, "n")
  {
    assert PathTarget(MISTAKEN, 0) == Some(0);
  }

  /** A takeover moves the watch of a directory from the node that has it to the new one. */
  lemma TakeoverMovesWatch(s: State, k: nat, n: Name, c: nat)
    requires Enabled(false, s, IxDescend(k, n)) && c < |s.nodes| && Resolve(AtPath(s, k, n)) == Some(s.nodes[c].dir)
    ensures var t := Do(s, IxDescend(k, n));
            t.nodes[c] == s.nodes[c] && t.nodes[c].dir in t.wd && t.wd[t.nodes[c].dir] != c && !Fresh(t, c)
  {
    DescendIs(s, k, n);
    hide Do, Enabled, AtPath, Resolve;
  }

  /**
    What a takeover does, in any state: once the watch of the directory of node `c` leads to another
    node, which lacks the name while its path is one that is skipped, the event is dropped whatever
    node `c` records for the name.
   */
  lemma TakenOverEventDropped(s: State, c: nat, n: Name, v: Seen)
    requires s.thread.Check? && !s.thread.dirty && s.thread.buf != [] && c < |s.nodes| && s.nodes[c].dir in s.wd
    requires s.thread.buf[0] == Named(s.nodes[c].dir, n) && s.wd[s.nodes[c].dir] != c
    requires Missing(s, s.nodes[c].dir, n) && SkippedNow(s, s.thread.buf[0])
    ensures var r := s.(idx := s.idx[(c, n) := v]); Answered(r) == r.(thread := Check(false, s.thread.buf[1..], s.thread.stale))
  {
    var r := s.(idx := s.idx[(c, n) := v]);
    PathSame(s, r, s.wd[s.nodes[c].dir]);
    SurvivorsAreMarked(r);
    hide Do, PathTarget, Resolve;
  }

  // ----- A file written through another name ----------------------------------------------------

  const OLD: Content := Content(7, 1)
  const NEW: Content := Content(7, 2)

  /** One file is "a" in the root and "a" in directory "b". */
  const SHARED: State :=
    State({"a", "b"}, map[(0, "a") := Reg(OLD), (0, "b") := SubDir(1), (1, "a") := Reg(OLD)], 0, [], {}, 0, [], map[], map[],
          Clean, 0, false, NoIndex, Off, -1, None)

  const AFTER: map<(Dir, Name), Val> := map[(0, "a") := Reg(NEW), (0, "b") := SubDir(1), (1, "a") := Reg(NEW)]

  /** The file is written as "b/a" when the walk has read "a" and does not watch "b" yet. */
  const UNSEEN: Step := Write(7, 1, "a", 2, false)

  const FIRST: seq<Step> := [IxStat(0, "a"), IxMapFile(0, "a"), IxStat(0, "b"), UNSEEN]
  const SECOND: seq<Step> := [IxDescend(0, "b"), IxOpenDir(1)]
  const THIRD: seq<Step> := [IxStat(1, "a"), IxMapFile(1, "a"), IxSkipName(1, "b")]

  const IDX0: map<(nat, Name), Seen> := map[(0, "a") := File(OLD, Some(OLD)), (0, "b") := Directory(1)]
  const IDX1: map<(nat, Name), Seen> :=
    map[(0, "a") := File(OLD, Some(OLD)), (0, "b") := Directory(1), (1, "a") := File(NEW, Some(NEW)), (1, "b") := Nothing]

  lemma GoStatRoot(s: State, n: Name, v: Val, r: Seen)
    requires s.index == Walking && s.nodes == [Node(0, 0, "", Some(0))] && s.base == 0 && n in s.names && (0, n) !in s.idx
    requires (0, n) in s.fs && s.fs[(0, n)] == v && v != Absent && !Reserved(n) && Record(n, v) == r
    ensures Goes(true, s, IxStat(0, n), s.(idx := s.idx[(0, n) := r]))
  {
    hide Reserved;
  }

  lemma GoMap(s: State, k: nat, n: Name, c: Content)
    requires s.index == Walking && k < |s.nodes| && (k, n) in s.idx && s.idx[(k, n)] == File(c, None) && AtPath(s, k, n) == Reg(c)
    ensures Goes(true, s, IxMapFile(k, n), s.(idx := s.idx[(k, n) := File(c, Some(c))]))
  {
    hide AtPath;
  }

  lemma GoUnseen(s: State)
    requires s.watched == {0} && s.names == {"a", "b"} && s.fs == SHARED.fs
    ensures Goes(true, s, UNSEEN, s.(fs := AFTER))
  {
    assert Written(s.fs, 7, 2) == AFTER;
  }

  lemma GoReadA(s: State, t: State, u: State)
    requires s == Rooted(s) && s.names == {"a", "b"} && s.base == 0 && s.fs == SHARED.fs
    requires t == s.(idx := map[(0, "a") := File(OLD, None)]) && u == s.(idx := map[(0, "a") := File(OLD, Some(OLD))])
    ensures Goes(true, s, IxStat(0, "a"), t) && Goes(true, t, IxMapFile(0, "a"), u)
  {
    assert PathTarget(t, 0) == Some(0) && !Reserved("a");
    hide Goes;
    GoStatRoot(s, "a", Reg(OLD), File(OLD, None));
    GoMap(t, 0, "a", OLD);
  }

  lemma GoReadB(s: State, t: State)
    requires s.index == Walking && s.nodes == [Node(0, 0, "", Some(0))] && s.base == 0 && s.names == {"a", "b"} && s.fs == SHARED.fs
    requires s.idx == map[(0, "a") := File(OLD, Some(OLD))] && t == s.(idx := IDX0)
    ensures Goes(true, s, IxStat(0, "b"), t)
  {
    assert !Reserved("b") && s.idx[(0, "b") := Directory(1)] == IDX0;
    hide Goes;
    GoStatRoot(s, "b", SubDir(1), Directory(1));
  }

  lemma FirstPhase(l: seq<Step>, s: State)
    requires Leads(true, SHARED, l, s) && s == Rooted(s) && s.names == {"a", "b"} && s.base == 0 && s.fs == SHARED.fs
    ensures Leads(true, SHARED, l + FIRST, s.(fs := AFTER, idx := IDX0))
  {
    hide Leads, Goes, Written;
    var t := s.(idx := map[(0, "a") := File(OLD, None)]);
    var u := s.(idx := map[(0, "a") := File(OLD, Some(OLD))]);
    var v := s.(idx := IDX0);
    GoReadA(s, t, u);
    GoReadB(u, v);
    GoUnseen(v);
    Extend(true, SHARED, l, s, IxStat(0, "a"), t);
    Extend(true, SHARED, l + [IxStat(0, "a")], t, IxMapFile(0, "a"), u);
    Extend(true, SHARED, l + [IxStat(0, "a")] + [IxMapFile(0, "a")], u, IxStat(0, "b"), v);
    Extend(true, SHARED, l + [IxStat(0, "a")] + [IxMapFile(0, "a")] + [IxStat(0, "b")], v, UNSEEN, s.(fs := AFTER, idx := IDX0));
    assert l + [IxStat(0, "a")] + [IxMapFile(0, "a")] + [IxStat(0, "b")] + [UNSEEN] == l + FIRST;
  }

  /** Where the walk of directory "b" is. */
  predicate InB(s: State, listing: Option<Dir>) {
    && s.index == Walking && s.names == {"a", "b"} && s.base == 0 && s.fs == AFTER
    && s.nodes == [Node(0, 0, "", Some(0)), Node(1, 0, "b", listing)]
  }

  lemma PathB(s: State, listing: Option<Dir>)
    requires InB(s, listing)
    ensures PathTarget(s, 1) == Some(1) && AtPath(s, 1, "a") == Reg(NEW)
  {
    assert PathTarget(s, 0) == Some(0);
  }

  lemma GoDescendB(s: State)
    requires s.index == Walking && s.nodes == [Node(0, 0, "", Some(0))] && s.idx == IDX0 && s.base == 0 && s.fs == AFTER
    requires s.wd == map[0 := 0] && s.watched == {0}
    ensures Goes(true, s, IxDescend(0, "b"),
                 s.(nodes := [Node(0, 0, "", Some(0)), Node(1, 0, "b", None)], wd := map[0 := 0, 1 := 1], watched := {0, 1}))
  {
    assert PathTarget(s, 0) == Some(0) && AtPath(s, 0, "b") == SubDir(1);
    assert s.nodes + [Node(1, 0, "b", None)] == [Node(0, 0, "", Some(0)), Node(1, 0, "b", None)];
  }

  lemma GoOpenB(s: State)
    requires InB(s, None)
    ensures Goes(true, s, IxOpenDir(1), s.(nodes := [Node(0, 0, "", Some(0)), Node(1, 0, "b", Some(1))]))
  {
    PathB(s, None);
    hide PathTarget;
    assert s.nodes[1 := s.nodes[1].(listing := Some(1))] == [Node(0, 0, "", Some(0)), Node(1, 0, "b", Some(1))];
  }

  lemma GoStatB(s: State)
    requires InB(s, Some(1)) && s.idx == IDX0
    ensures Goes(true, s, IxStat(1, "a"), s.(idx := IDX0[(1, "a") := File(NEW, None)]))
  {
    PathB(s, Some(1));
    hide PathTarget, AtPath;
  }

  lemma GoMapB(s: State, t: State)
    requires InB(s, Some(1)) && s.idx == IDX0[(1, "a") := File(NEW, None)] && t == s.(idx := IDX0[(1, "a") := File(NEW, Some(NEW))])
    ensures Goes(true, s, IxMapFile(1, "a"), t)
  {
    PathB(s, Some(1));
    hide Goes, PathTarget, AtPath;
    GoMap(s, 1, "a", NEW);
    assert s.idx[(1, "a") := File(NEW, Some(NEW))] == t.idx;
  }

  lemma GoSkipB(s: State)
    requires InB(s, Some(1)) && s.idx == IDX0[(1, "a") := File(NEW, Some(NEW))]
    ensures Goes(true, s, IxSkipName(1, "b"), s.(idx := IDX1))
  {
    hide Reserved;
    assert s.idx[(1, "b") := Nothing] == IDX1;
  }

  lemma SecondPhase(l: seq<Step>, s: State, t: State)
    requires Leads(true, SHARED, l, s) && s.index == Walking && s.nodes == [Node(0, 0, "", Some(0))] && s.idx == IDX0
    requires s.base == 0 && s.fs == AFTER && s.wd == map[0 := 0] && s.watched == {0} && s.names == {"a", "b"}
    requires t == s.(nodes := [Node(0, 0, "", Some(0)), Node(1, 0, "b", Some(1))], wd := map[0 := 0, 1 := 1], watched := {0, 1})
    ensures Leads(true, SHARED, l + SECOND, t)
  {
    hide Leads, Goes;
    var u := t.(nodes := [Node(0, 0, "", Some(0)), Node(1, 0, "b", None)]);
    GoDescendB(s);
    GoOpenB(u);
    hide InB;
    Extend(true, SHARED, l, s, IxDescend(0, "b"), u);
    Extend(true, SHARED, l + [IxDescend(0, "b")], u, IxOpenDir(1), t);
    assert l + [IxDescend(0, "b")] + [IxOpenDir(1)] == l + SECOND;
  }

  lemma ThirdPhase(l: seq<Step>, s: State)
    requires Leads(true, SHARED, l, s) && InB(s, Some(1)) && s.idx == IDX0
    ensures Leads(true, SHARED, l + THIRD, s.(idx := IDX1))
  {
    hide Leads, Goes;
    var t := s.(idx := IDX0[(1, "a") := File(NEW, None)]);
    var u := s.(idx := IDX0[(1, "a") := File(NEW, Some(NEW))]);
    GoStatB(s);
    GoMapB(t, u);
    GoSkipB(u);
    hide InB;
    Extend(true, SHARED, l, s, IxStat(1, "a"), t);
    Extend(true, SHARED, l + [IxStat(1, "a")], t, IxMapFile(1, "a"), u);
    Extend(true, SHARED, l + [IxStat(1, "a")] + [IxMapFile(1, "a")], u, IxSkipName(1, "b"), s.(idx := IDX1));
    assert l + [IxStat(1, "a")] + [IxMapFile(1, "a")] + [IxSkipName(1, "b")] == l + THIRD;
  }

  lemma SharedComplete(s: State)
    requires s.names == {"a", "b"} && s.nodes == [Node(0, 0, "", Some(0)), Node(1, 0, "b", Some(1))] && s.idx == IDX1
    ensures Complete(s)
  {
    assert s.nodes[1].parent == 0 && s.nodes[1].name == "b";
    assert HasNode(s, 0, "b");
  }

  const SHARED_WALK: seq<Step> := OPEN + FIRST + SECOND + THIRD
  const UNWATCHED: seq<Step> := SHARED_WALK + END + WATCH

  const STALE: State :=
    State({"a", "b"}, AFTER, 0, [], {0, 1}, 0, [Node(0, 0, "", Some(0)), Node(1, 0, "b", Some(1))], map[0 := 0, 1 := 1], IDX1,
          Clean, 2, false, NoIndex, Top, -1, None)

  lemma SharedWalkPhase()
    ensures Leads(true, SHARED, SHARED_WALK, STALE.(index := Walking, state := Indexing, seqno := 1, thread := Off))
  {
    SharedInit();
    hide Leads, Init;
    OpenPhase(SHARED);
    var s := Rooted(SHARED).(state := Indexing, seqno := 1);
    FirstPhase(OPEN, s);
    var t := STALE.(index := Walking, state := Indexing, seqno := 1, thread := Off, idx := IDX0);
    SecondPhase(OPEN + FIRST, s.(fs := AFTER, idx := IDX0), t);
    ThirdPhase(OPEN + FIRST + SECOND, t);
  }

  lemma SharedInit()
    ensures Init(SHARED)
  {
  }

  lemma UnwatchedPhase()
    ensures Leads(true, SHARED, UNWATCHED, STALE)
  {
    var t := STALE.(index := Walking, state := Indexing, seqno := 1, thread := Off);
    SharedComplete(t);
    hide Leads, Complete;
    SharedWalkPhase();
    EndPhase(true, SHARED, SHARED_WALK, t);
    WatchPhase(true, SHARED, SHARED_WALK + END, t.(index := Settled(true), state := Clean, seqno := 2));
  }

  /**
    With one index and the watch alone a change is lost: a file that the walk has read is written
    through another name, in a directory that is not watched yet, and nothing is queued at all.
   */
  lemma SecondNameLosesChange()
    ensures Legal(true, SHARED, UNWATCHED) && !Safe(SHARED, UNWATCHED)
    ensures var s := After(SHARED, UNWATCHED);
            && s.state == Clean && s.queue == [] && s.thread == Top
            && (0, "a") in s.idx && s.idx[(0, "a")] == File(OLD, Some(OLD)) && AtPath(s, 0, "a") == Reg(NEW)
  {
    UnwatchedPhase();
    StaleEntry();
    hide Leads, Legal, After, Current, AtPath, Safe;
    NotSafe(true, SHARED, UNWATCHED, STALE, 0, "a");
  }

  lemma StaleEntry()
    ensures AtPath(STALE, 0, "a") == Reg(NEW) && !Current(STALE, 0, "a")
  {
    assert PathTarget(STALE, 0) == Some(0) && !Reserved("a");
  }

  // ----- A file written through a name that the index lacks -------------------------------------

  /** A file "f" in the root, and nothing else. */
  const PLAIN: State :=
    State({"f", "x"}, map[(0, "f") := Reg(OLD)], 0, [], {}, 0, [], map[], map[], Clean, 0, false, NoIndex, Off, -1, None)

  const READ_F: seq<Step> := [IxStat(0, "f"), IxMapFile(0, "f"), IxSkipName(0, "x")]

  const IDX2: map<(nat, Name), Seen> := map[(0, "f") := File(OLD, Some(OLD)), (0, "x") := Nothing]

  lemma ReadFPhase(l: seq<Step>, s: State)
    requires Leads(true, PLAIN, l, s) && s == Rooted(s) && s.names == {"f", "x"} && s.base == 0 && s.fs == PLAIN.fs
    ensures Leads(true, PLAIN, l + READ_F, s.(idx := IDX2)) && Complete(s.(idx := IDX2))
  {
    var t := s.(idx := map[(0, "f") := File(OLD, None)]);
    var u := s.(idx := map[(0, "f") := File(OLD, Some(OLD))]);
    assert PathTarget(t, 0) == Some(0) && !Reserved("f");
    GoStatRoot(s, "f", Reg(OLD), File(OLD, None));
    GoMap(t, 0, "f", OLD);
    GoSkipX(u);
    PlainComplete(s.(idx := IDX2));
    hide Leads, Goes, Reserved, Complete;
    Extend(true, PLAIN, l, s, IxStat(0, "f"), t);
    Extend(true, PLAIN, l + [IxStat(0, "f")], t, IxMapFile(0, "f"), u);
    Extend(true, PLAIN, l + [IxStat(0, "f")] + [IxMapFile(0, "f")], u, IxSkipName(0, "x"), s.(idx := IDX2));
    assert l + [IxStat(0, "f")] + [IxMapFile(0, "f")] + [IxSkipName(0, "x")] == l + READ_F;
  }

  lemma GoSkipX(s: State)
    requires s.index == Walking && s.nodes == [Node(0, 0, "", Some(0))] && s.names == {"f", "x"} && s.fs == PLAIN.fs
    requires s.idx == map[(0, "f") := File(OLD, Some(OLD))]
    ensures Goes(true, s, IxSkipName(0, "x"), s.(idx := IDX2))
  {
    hide Reserved;
  }

  lemma PlainComplete(s: State)
    requires s.names == {"f", "x"} && s.nodes == [Node(0, 0, "", Some(0))] && s.idx == IDX2
    ensures Complete(s)
  {
  }

  const LINKED: Step := Change(0, "x", Reg(OLD), false)
  const THROUGH_X: Step := Write(7, 0, "x", 2, false)
  const COVERED: Step := Change(0, "x", Special, false)

  /** "x" becomes another name of the file, the file is written through it, and a special file takes its place. */
  const BEHIND: seq<Step> := [LINKED, THROUGH_X, COVERED]

  lemma BehindPhase(l: seq<Step>, s: State)
    requires Leads(true, PLAIN, l, s) && s.names == {"f", "x"} && s.base == 0 && s.watched == {0} && s.queue == [] && s.fs == PLAIN.fs
    ensures Leads(true, PLAIN, l + BEHIND, s.(fs := map[(0, "f") := Reg(NEW), (0, "x") := Special], queue := [Named(0, "x")]))
  {
    var t := s.(fs := map[(0, "f") := Reg(OLD), (0, "x") := Reg(OLD)], queue := [Named(0, "x")]);
    var u := t.(fs := map[(0, "f") := Reg(NEW), (0, "x") := Reg(NEW)]);
    GoLinked(s);
    GoThroughX(t);
    GoCovered(u);
    hide Leads, Goes;
    Extend(true, PLAIN, l, s, LINKED, t);
    Extend(true, PLAIN, l + [LINKED], t, THROUGH_X, u);
    Extend(true, PLAIN, l + [LINKED] + [THROUGH_X], u, COVERED, u.(fs := map[(0, "f") := Reg(NEW), (0, "x") := Special]));
    assert l + [LINKED] + [THROUGH_X] + [COVERED] == l + BEHIND;
  }

  lemma GoLinked(s: State)
    requires s.names == {"f", "x"} && s.base == 0 && s.watched == {0} && s.queue == [] && s.fs == PLAIN.fs
    ensures Goes(true, s, LINKED, s.(fs := map[(0, "f") := Reg(OLD), (0, "x") := Reg(OLD)], queue := [Named(0, "x")]))
  {
  }

  lemma GoThroughX(s: State)
    requires s.names == {"f", "x"} && s.watched == {0} && s.queue == [Named(0, "x")]
    requires s.fs == map[(0, "f") := Reg(OLD), (0, "x") := Reg(OLD)]
    ensures Goes(true, s, THROUGH_X, s.(fs := map[(0, "f") := Reg(NEW), (0, "x") := Reg(NEW)]))
  {
    assert Written(s.fs, 7, 2) == map[(0, "f") := Reg(NEW), (0, "x") := Reg(NEW)];
  }

  lemma GoCovered(s: State)
    requires s.names == {"f", "x"} && s.base == 0 && s.watched == {0} && s.queue == [Named(0, "x")]
    requires s.fs == map[(0, "f") := Reg(NEW), (0, "x") := Reg(NEW)]
    ensures Goes(true, s, COVERED, s.(fs := map[(0, "f") := Reg(NEW), (0, "x") := Special]))
  {
  }

  const LACKED: seq<Step> := OPEN + READ_F + END + WATCH + BEHIND + FETCH + DROP

  const MISSED: State :=
    State({"f", "x"}, map[(0, "f") := Reg(NEW), (0, "x") := Special], 0, [], {0}, 0, [Node(0, 0, "", Some(0))], map[0 := 0], IDX2,
          Clean, 2, false, NoIndex, Top, -1, None)

  lemma XSkipped(s: State)
    requires s == MISSED.(thread := s.thread)
    ensures Missing(s, 0, "x") && SkippedNow(s, Named(0, "x")) && !Reserved("x")
  {
    assert PathTarget(s, 0) == Some(0);
  }

  lemma LackedPhase()
    ensures Leads(true, PLAIN, LACKED, MISSED)
  {
    assert Init(PLAIN);
    hide Leads, Complete, Init;
    OpenPhase(PLAIN);
    var s := Rooted(PLAIN).(state := Indexing, seqno := 1);
    ReadFPhase(OPEN, s);
    var t := s.(idx := IDX2);
    EndPhase(true, PLAIN, OPEN + READ_F, t);
    WatchPhase(true, PLAIN, OPEN + READ_F + END, t.(index := Settled(true), state := Clean, seqno := 2));
    WatchedPhase(OPEN + READ_F + END + WATCH, t.(index := NoIndex, state := Clean, seqno := 2, thread := Top));
  }

  lemma WatchedPhase(l: seq<Step>, s: State)
    requires Leads(true, PLAIN, l, s) && s == MISSED.(fs := PLAIN.fs)
    ensures Leads(true, PLAIN, l + BEHIND + FETCH + DROP, MISSED)
  {
    var e := Named(0, "x");
    var u := MISSED.(thread := Check(false, [e], false));
    XSkipped(u);
    hide Leads, Missing, SkippedNow, Reserved;
    BehindPhase(l, s);
    FetchPhase(PLAIN, l + BEHIND, MISSED.(queue := [e]), e);
    DropPhase(PLAIN, l + BEHIND + FETCH, u, e);
  }

  /** All events name "x", which the index lacks and which is a special file when they are looked at: they are dropped. */
  lemma LackedNameLosesChange()
    ensures Legal(true, PLAIN, LACKED) && !Safe(PLAIN, LACKED)
    ensures var s := After(PLAIN, LACKED);
            && s.state == Clean && s.queue == [] && s.thread == Top
            && (0, "f") in s.idx && s.idx[(0, "f")] == File(OLD, Some(OLD)) && AtPath(s, 0, "f") == Reg(NEW)
  {
    LackedPhase();
    MissedEntry();
    hide Leads, Legal, After, Current, AtPath, Safe;
    NotSafe(true, PLAIN, LACKED, MISSED, 0, "f");
  }

  lemma MissedEntry()
    ensures AtPath(MISSED, 0, "f") == Reg(NEW) && !Current(MISSED, 0, "f")
  {
    assert PathTarget(MISSED, 0) == Some(0) && !Reserved("f");
  }

  /**
    What such a write does in any state: an entry that agreed no longer does, and of the events only
    one, about the other name, is new; there is none at all if that name's directory is not watched.
   */
  lemma SneakLeavesStale(s: State, file: nat, d: Dir, n: Name, version: nat, lost: bool, k: nat, m: Name)
    requires (k, m) in s.idx && Elsewhere(s, file, d, n, k, m) && !Reserved(m) && Agrees(s, k, m)
    requires Value(s.fs, s.nodes[k].dir, m) != Reg(Content(file, version))
    ensures var t := Do(s, Write(file, d, n, version, lost));
            && !Agrees(t, k, m)
            && (d !in s.watched ==> t.queue == s.queue)
            && (d in s.watched ==> t.queue == Enqueue(s.queue, Named(d, n), lost))
  {
    WrittenValue(s.fs, file, version, s.nodes[k].dir, m);
    hide Written, Value, Enqueue, Reserved;
  }
}
