/**
  No change is lost: a clean index with nothing left to report agrees with the filesystem, whatever
  happened during the walk and since, whichever thread indexed, and whatever links and names there
  are; three kinds of steps are excepted, `TakesOver`, `Sneaks` and `Swallows`.

  Every recorded entry agrees with the filesystem, or an event that names it is pending, or there is
  an alarm: something pending that the watch thread can only answer by marking the index dirty.
 */
module NoLostChange {
  import opened Names
  import opened WatchLoop
  import opened IndexStates

  // ----- The invariant --------------------------------------------------------------------------

  /** The events that the thread has read since the index was last rewritten. */
  function Buf(s: State): seq<Event> {
    if (s.thread.Check? || s.thread.Statx?) && !s.thread.stale then s.thread.buf else []
  }

  predicate Pending(s: State, e: Event) {
    e in s.queue || e in Buf(s)
  }

  /** The index has something by that name. */
  predicate Holds(s: State, k: nat, n: Name) {
    (k, n) in s.idx && s.idx[(k, n)] != Nothing
  }

  predicate Marking(s: State) {
    s.thread == MarkNow || s.thread == MarkExit
  }

  /** The watch of the node's directory leads to this node: the directory was not met again later. */
  predicate Fresh(s: State, k: nat) {
    k < |s.nodes| && s.nodes[k].dir in s.wd && s.wd[s.nodes[k].dir] == k
  }

  /** The node is where its parent's entry says, in the index and on the filesystem. */
  predicate LinkHolds(s: State, j: nat) {
    && 0 < j < |s.nodes| && s.nodes[j].parent < j
    && var link, d := (s.nodes[j].parent, s.nodes[j].name), Directory(s.nodes[j].dir);
       link in s.idx && s.idx[link] == d && Record(link.1, Value(s.fs, s.nodes[link.0].dir, link.1)) == d
  }

  predicate Grounded(s: State, k: nat)
    decreases k
  {
    Fresh(s, k) && (k > 0 ==> LinkHolds(s, k) && Grounded(s, s.nodes[k].parent))
  }

  /** An event on a name of a grounded node: the index has the name, so the event is never dropped. */
  predicate Witness(s: State, p: nat, n: Name) {
    Grounded(s, p) && Holds(s, p, n) && Pending(s, Named(s.nodes[p].dir, n))
  }

  predicate SelfAlarm(s: State) {
    Pending(s, Overflow) || Pending(s, Unmounted) || Pending(s, SelfGone(s.root)) || Marking(s)
  }

  ghost predicate Alarm(s: State) {
    SelfAlarm(s) || exists p: nat, n :: Witness(s, p, n)
  }

  /** What the index recorded for a name is what is there now. */
  predicate Agrees(s: State, k: nat, n: Name)
    requires k < |s.nodes| && (k, n) in s.idx
  {
    var now := Record(n, Value(s.fs, s.nodes[k].dir, n));
    match s.idx[(k, n)]
    case Nothing => now == Nothing
    case Directory(d) => now == Directory(d)
    case File(meta, mapped) => now == File(meta, None) && (mapped.Some? ==> mapped.value == meta)
  }

  ghost predicate NodesOk(s: State) {
    && (s.nodes != [] ==> s.nodes[0].dir == s.root)
    && (forall j :: 0 < j < |s.nodes| ==> s.nodes[j].parent < j)
    && (forall j :: 0 <= j < |s.nodes| ==> s.nodes[j].dir in s.watched && s.nodes[j].dir in s.wd)
    && (forall i, j :: 0 < i < j < |s.nodes| ==> (s.nodes[i].parent, s.nodes[i].name) != (s.nodes[j].parent, s.nodes[j].name))
    && (forall d :: d in s.wd ==> s.wd[d] < |s.nodes| && s.nodes[s.wd[d]].dir == d)
  }

  ghost predicate IdxOk(s: State) {
    && (forall k, n :: (k, n) in s.idx ==> k < |s.nodes| && n in s.names && (Reserved(n) ==> s.idx[(k, n)] == Nothing))
    && (forall j :: 0 < j < |s.nodes| ==> LinkOk(s, j))
  }

  predicate LinkOk(s: State, j: nat)
    requires j < |s.nodes|
  {
    var link := (s.nodes[j].parent, s.nodes[j].name);
    link in s.idx && s.idx[link].Directory?
  }

  /** The recorded entry is for the very directory of the node. */
  predicate LinkLeads(s: State, j: nat)
    requires j < |s.nodes|
  {
    LinkOk(s, j) && s.idx[(s.nodes[j].parent, s.nodes[j].name)].d == s.nodes[j].dir
  }

  ghost predicate Shape(s: State) {
    NodesOk(s) && IdxOk(s)
  }

  ghost predicate CellOk(s: State, k: nat, n: Name)
    requires k < |s.nodes| && (k, n) in s.idx
  {
    Agrees(s, k, n) || Pending(s, Named(s.nodes[k].dir, n))
  }

  ghost predicate Calm(s: State)
    requires Shape(s)
  {
    && (s.nodes != [] ==> s.base == s.root)
    && (forall j :: 0 <= j < |s.nodes| ==> Fresh(s, j))
    && (forall j :: 0 < j < |s.nodes| ==> LinkLeads(s, j))
    && (forall j :: 0 <= j < |s.nodes| && s.nodes[j].listing.Some? ==> s.nodes[j].listing.value == s.nodes[j].dir)
    && (forall k, n :: (k, n) in s.idx ==> CellOk(s, k, n))
  }

  /** The root's path leads to the indexed root, or its loss is about to be marked. */
  predicate BaseOk(s: State) {
    s.nodes == [] || s.base == s.root || SelfAlarm(s)
  }

  ghost predicate Sound(s: State) {
    Shape(s) && BaseOk(s) && (Alarm(s) || Calm(s))
  }

  /** When the recorded entries are, or are about to be, a clean index. */
  predicate Trusted(s: State) {
    s.state == Clean || (s.state == Indexing && Filling(s.index))
  }

  predicate Filling(pc: IndexPc) {
    pc == Walking || pc == Done(true) || pc == Closed(true)
  }

  /** Where the index and its state can be together. */
  predicate Phases(s: State) {
    && (s.state == Indexing ==> s.index != NoIndex && !s.index.Settled?)
    && (s.state == Clean ==> s.index == NoIndex || s.index == Settled(true))
    && (s.index == Cleared ==> s.nodes == [] && s.idx == map[] && s.wd == map[] && s.watched == {})
  }

  /** The event that a statx() decides was missing from the index. */
  predicate StatxOk(s: State) {
    s.thread.Statx? ==>
      && s.thread.buf != [] && s.thread.buf[0].Named? && !Reserved(s.thread.buf[0].n)
      && (!s.thread.stale ==> !Filling(s.index) && (s.state == Clean ==> Missing(s, s.thread.buf[0].d, s.thread.buf[0].n)))
  }

  ghost predicate CompleteOk(s: State) {
    && (s.index == Done(true) || s.index == Closed(true) ==> Complete(s))
    && (s.state == Clean ==> s.nodes == [] || Complete(s))
  }

  ghost predicate Control(s: State) {
    Phases(s) && StatxOk(s) && CompleteOk(s)
  }

  ghost predicate Inv(s: State) {
    Forest(s.fs, s.base) && Control(s) && (Trusted(s) ==> Sound(s))
  }

  // ----- Paths lead where the index says --------------------------------------------------------

  lemma {:induction false} GroundedPath(s: State, k: nat)
    requires Grounded(s, k) && s.base == s.root && Shape(s)
    ensures PathTarget(s, k) == Some(s.nodes[k].dir)
  {
    if k > 0 {
      GroundedPath(s, s.nodes[k].parent);
    }
  }

  lemma {:induction false} CalmGrounded(s: State, k: nat)
    requires Sound(s) && !Alarm(s) && k < |s.nodes|
    ensures Grounded(s, k)
  {
    if k > 0 {
      var p := s.nodes[k].parent;
      CalmGrounded(s, p);
      assert LinkLeads(s, k);
      assert CellOk(s, p, s.nodes[k].name);
      assert !Witness(s, p, s.nodes[k].name);
      assert Agrees(s, p, s.nodes[k].name);
    }
  }

  lemma PathsHold(s: State, k: nat)
    requires Sound(s) && !Alarm(s) && k < |s.nodes|
    ensures PathTarget(s, k) == Some(s.nodes[k].dir)
  {
    CalmGrounded(s, k);
    GroundedPath(s, k);
  }

  /** The directory that the path of node `k` names now, if there is no symbolic link on it. */
  function PlainTarget(s: State, k: nat): Option<Dir>
    decreases k
  {
    if k >= |s.nodes| then None
    else if k == 0 then Some(s.base)
    else if s.nodes[k].parent >= k then None
    else
      var up := PlainTarget(s, s.nodes[k].parent);
      if up.None? then None
      else
        var v := Value(s.fs, up.value, s.nodes[k].name);
        if v.SubDir? then Some(v.d) else None
  }

  lemma {:induction false} GroundedPlain(s: State, k: nat)
    requires Grounded(s, k) && s.base == s.root && Shape(s)
    ensures PlainTarget(s, k) == Some(s.nodes[k].dir)
  {
    if k > 0 {
      GroundedPlain(s, s.nodes[k].parent);
    }
  }

  /** Two nodes whose paths name one directory are one node: a directory has one path without links. */
  lemma {:induction false} PathInjective(s: State, k: nat, c: nat)
    requires Forest(s.fs, s.base) && NodesOk(s) && k < |s.nodes| && c < |s.nodes|
    requires PlainTarget(s, k).Some? && PlainTarget(s, k) == PlainTarget(s, c)
    ensures k == c
    decreases k + c
  {
    if k > 0 && c > 0 {
      var kp, cp := s.nodes[k].parent, s.nodes[c].parent;
      assert (PlainTarget(s, kp).value, s.nodes[k].name) == (PlainTarget(s, cp).value, s.nodes[c].name);
      PathInjective(s, kp, cp);
    }
  }

  /** There is no link on the way to name `n` of node `k`, nor in its place. */
  predicate PlainEntry(s: State, k: nat, n: Name) {
    PlainTarget(s, k).Some? && Value(s.fs, PlainTarget(s, k).value, n).SubDir?
  }

  /** The walk descends, through a symbolic link, into a directory that it has under another path. */
  ghost predicate TakesOver(s: State, step: Step) {
    step.IxDescend? && !PlainEntry(s, step.k, step.n)
    && exists c: nat :: c < |s.nodes| && PlainTarget(s, c).Some? && PlainTarget(s, c) == Resolve(AtPath(s, step.k, step.n))
  }

  lemma {:induction false} PlainIsPath(s: State, k: nat)
    requires PlainTarget(s, k).Some?
    ensures PathTarget(s, k) == PlainTarget(s, k)
  {
    if k > 0 {
      PlainIsPath(s, s.nodes[k].parent);
    }
  }

  /** A directory that the walk descends into is not what any node's path names, unless a link led there. */
  lemma NewDirIsNew(s: State, k: nat, n: Name, c: nat)
    requires Forest(s.fs, s.base) && NodesOk(s) && k < |s.nodes| && c < |s.nodes|
    requires Resolve(AtPath(s, k, n)).Some? && !HasNode(s, k, n) && !TakesOver(s, IxDescend(k, n))
    ensures PlainTarget(s, c) != Resolve(AtPath(s, k, n))
  {
    if PlainTarget(s, c) == Resolve(AtPath(s, k, n)) {
      assert PlainEntry(s, k, n);
      PlainIsPath(s, k);
      if c > 0 {
        var cp := s.nodes[c].parent;
        assert (PlainTarget(s, cp).value, s.nodes[c].name) == (PlainTarget(s, k).value, n);
        PathInjective(s, cp, k);
      }
    }
  }

  lemma AtPathHolds(s: State, k: nat, n: Name)
    requires Sound(s) && !Alarm(s) && k < |s.nodes|
    ensures AtPath(s, k, n) == Value(s.fs, s.nodes[k].dir, n)
  {
    PathsHold(s, k);
  }

  // ----- Steps that move events only ------------------------------------------------------------

  predicate SameIndex(s: State, t: State) {
    s.names == t.names && s.root == t.root && s.nodes == t.nodes && s.wd == t.wd && s.idx == t.idx && s.watched == t.watched
  }

  lemma ShapeSame(s: State, t: State)
    requires SameIndex(s, t) && Shape(s)
    ensures Shape(t)
  {
    assert forall j :: 0 < j < |t.nodes| ==> LinkOk(s, j) == LinkOk(t, j);
  }

  predicate SameNode(a: Node, b: Node) {
    a.dir == b.dir && a.parent == b.parent && a.name == b.name
  }

  /** Groundedness carries over along the node's own chain. */
  lemma {:induction false} GroundedKept(s: State, t: State, k: nat)
    requires Grounded(s, k) && |s.nodes| <= |t.nodes| && (forall j :: 0 <= j < |s.nodes| ==> SameNode(s.nodes[j], t.nodes[j]))
    requires forall j: nat :: j <= k && Grounded(s, j) ==> Fresh(t, j)
    requires forall j: nat :: LinkHolds(s, j) ==> LinkHolds(t, j)
    ensures Grounded(t, k)
    decreases k
  {
    if k > 0 {
      assert SameNode(s.nodes[k], t.nodes[k]);
      GroundedKept(s, t, s.nodes[k].parent);
    }
  }

  lemma WitnessKept(s: State, t: State, p: nat, n: Name)
    requires Witness(s, p, n) && |s.nodes| <= |t.nodes| && (forall i :: 0 <= i < |s.nodes| ==> SameNode(s.nodes[i], t.nodes[i]))
    requires forall i: nat :: Grounded(s, i) ==> Fresh(t, i)
    requires forall i: nat :: LinkHolds(s, i) ==> LinkHolds(t, i)
    requires Pending(t, Named(s.nodes[p].dir, n)) && Holds(t, p, n)
    ensures Alarm(t)
  {
    GroundedKept(s, t, p);
    assert SameNode(s.nodes[p], t.nodes[p]);
    assert Witness(t, p, n);
  }

  lemma AlarmStays(s: State, t: State)
    requires SameIndex(s, t) && s.fs == t.fs && Alarm(s)
    requires forall e :: Pending(s, e) && Loud(s, e) ==> Pending(t, e)
    requires Marking(s) ==> Marking(t)
    ensures Alarm(t)
  {
    if !SelfAlarm(s) {
      var p: nat, n :| Witness(s, p, n);
      assert Fresh(s, p) && Loud(s, Named(s.nodes[p].dir, n));
      WitnessKept(s, t, p, n);
    }
  }

  lemma SelfAlarmStays(s: State, t: State)
    requires s.root == t.root
    requires forall e :: Pending(s, e) && Loud(s, e) ==> Pending(t, e)
    requires Marking(s) ==> Marking(t)
    ensures SelfAlarm(s) ==> SelfAlarm(t)
  {
  }

  /** The events that make an alarm. */
  ghost predicate Loud(s: State, e: Event) {
    e == Overflow || e == Unmounted || e == SelfGone(s.root)
    || exists p: nat, n :: Noted(s, p, n) && e == Named(s.nodes[p].dir, n)
  }

  /** An event on the name is looked up in node `p`, which has it. */
  predicate Noted(s: State, p: nat, n: Name) {
    Fresh(s, p) && Holds(s, p, n)
  }

  /** Only the events changed, and an entry whose event is gone agrees with the filesystem. */
  lemma CalmStays(s: State, t: State)
    requires SameIndex(s, t) && s.fs == t.fs && s.base == t.base && Shape(s) && Shape(t) && Calm(s)
    requires forall k, n :: (k, n) in s.idx && Pending(s, Named(s.nodes[k].dir, n)) ==> CellOk(t, k, n)
    ensures Calm(t)
  {
    forall k, n | (k, n) in t.idx ensures CellOk(t, k, n) {
      assert CellOk(s, k, n);
      assert Agrees(s, k, n) ==> Agrees(t, k, n);
    }
    forall j | 0 < j < |t.nodes|
      ensures LinkLeads(t, j)
    {
      assert LinkLeads(s, j);
    }
    assert forall j :: 0 <= j < |t.nodes| ==> Fresh(s, j) == Fresh(t, j);
  }

  lemma EventsKept(s: State, t: State)
    requires SameIndex(s, t) && s.fs == t.fs && s.base == t.base && Sound(s)
    requires forall e :: Pending(s, e) ==> Pending(t, e)
    requires Marking(s) ==> Marking(t)
    ensures Sound(t)
  {
    ShapeSame(s, t);
    SelfAlarmStays(s, t);
    if Alarm(s) {
      AlarmStays(s, t);
    } else {
      CalmStays(s, t);
    }
  }

  // ----- The filesystem changes -----------------------------------------------------------------

  lemma Enqueued(s: State, t: State, e: Event, lost: bool)
    requires t.queue == Enqueue(s.queue, e, lost) && t.thread == s.thread
    ensures forall x :: Pending(s, x) ==> Pending(t, x)
    ensures Pending(t, e) || Pending(t, Overflow)
  {
    var e' := if lost then Overflow else e;
    assert e' in t.queue;
    forall x | x in s.queue ensures x in t.queue {
    }
  }

  /** A change on the way to a grounded node is itself an alarm. */
  lemma {:induction false} GroundedOrAlarm(s: State, t: State, d: Dir, n: Name, v: Val, k: nat)
    requires Shape(s) && SameIndex(s, t) && t.fs == s.fs[(d, n) := v] && Grounded(s, k)
    requires d in s.watched ==> Pending(t, Named(d, n)) || Pending(t, Overflow)
    ensures Grounded(t, k) || Alarm(t)
  {
    if k > 0 {
      var p := s.nodes[k].parent;
      GroundedOrAlarm(s, t, d, n, v, p);
      if Grounded(t, p) && !LinkHolds(t, k) {
        assert (s.nodes[p].dir, s.nodes[k].name) == (d, n);
        assert Pending(t, Named(d, n)) ==> Witness(t, p, n);
      }
    }
  }

  lemma ChangeAlarm(s: State, t: State, d: Dir, n: Name, v: Val)
    requires Shape(s) && SameIndex(s, t) && t.fs == s.fs[(d, n) := v] && Alarm(s) && s.thread == t.thread
    requires d in s.watched ==> Pending(t, Named(d, n)) || Pending(t, Overflow)
    requires forall e :: Pending(s, e) ==> Pending(t, e)
    ensures Alarm(t)
  {
    if !SelfAlarm(s) {
      var p: nat, m :| Witness(s, p, m);
      GroundedOrAlarm(s, t, d, n, v, p);
      assert Grounded(t, p) ==> Witness(t, p, m);
    }
  }

  lemma ChangeSound(s: State, d: Dir, n: Name, v: Val, lost: bool)
    requires Sound(s) && n in s.names
    ensures Sound(Do(s, Change(d, n, v, lost)))
  {
    var t := Do(s, Change(d, n, v, lost));
    if d in s.watched {
      Enqueued(s, t, Named(d, n), lost);
    }
    ShapeSame(s, t);
    SelfAlarmStays(s, t);
    if Alarm(s) {
      ChangeAlarm(s, t, d, n, v);
    } else if !Alarm(t) {
      forall k, m | (k, m) in t.idx ensures CellOk(t, k, m) {
        ChangedCell(s, d, n, v, lost, k, m);
      }
      forall j | 0 < j < |t.nodes|
        ensures LinkLeads(t, j)
      {
        assert LinkLeads(s, j);
      }
      assert forall j :: 0 <= j < |t.nodes| ==> Fresh(s, j) == Fresh(t, j);
    }
  }

  lemma ChangedCell(s: State, d: Dir, n: Name, v: Val, lost: bool, k: nat, m: Name)
    requires Shape(s) && Calm(s) && (k, m) in s.idx
    requires !Alarm(Do(s, Change(d, n, v, lost)))
    ensures CellOk(Do(s, Change(d, n, v, lost)), k, m)
  {
    var t := Do(s, Change(d, n, v, lost));
    assert CellOk(s, k, m) && s.nodes[k].dir in s.watched;
    if d in s.watched {
      Enqueued(s, t, Named(d, n), lost);
    }
    if (s.nodes[k].dir, m) != (d, n) {
      assert Value(t.fs, s.nodes[k].dir, m) == Value(s.fs, s.nodes[k].dir, m);
      assert Agrees(s, k, m) ==> Agrees(t, k, m);
    }
  }

  lemma MoveRootSound(s: State, d: Dir, lost: bool)
    requires Sound(s)
    ensures Sound(Do(s, MoveRoot(d, lost)))
  {
    var t := Do(s, MoveRoot(d, lost));
    if s.base in s.watched {
      Enqueued(s, t, SelfGone(s.base), lost);
    }
    ShapeSame(s, t);
    SelfAlarmStays(s, t);
    if s.nodes != [] {
      assert s.nodes[0].dir in s.watched;
      assert s.base == s.root ==> SelfAlarm(t);
    }
    if Alarm(s) {
      AlarmStays(s, t);
    }
  }

  /** A link that leads elsewhere is still a link, which the index does not hold. */
  lemma RetargetSound(s: State, d: Dir, n: Name, to: Option<Dir>)
    requires Sound(s) && Value(s.fs, d, n).Link?
    ensures Sound(Do(s, Retarget(d, n, to)))
  {
    var t := s.(fs := s.fs[(d, n) := Link(to)]);
    assert t == Do(s, Retarget(d, n, to));
    hide Do;
    ShapeSame(s, t);
    RetargetRecords(s, t, d, n, to);
    if Alarm(s) {
      RetargetAlarm(s, t);
    } else {
      RetargetCalm(s, t);
    }
  }

  ghost predicate SameRecords(s: State, t: State) {
    forall d: Dir, n :: Record(n, Value(s.fs, d, n)) == Record(n, Value(t.fs, d, n))
  }

  lemma RetargetRecords(s: State, t: State, d: Dir, n: Name, to: Option<Dir>)
    requires Value(s.fs, d, n).Link? && t.fs == s.fs[(d, n) := Link(to)]
    ensures SameRecords(s, t)
  {
    hide Reserved;
    forall e: Dir, m ensures Record(m, Value(s.fs, e, m)) == Record(m, Value(t.fs, e, m)) {
      if (e, m) != (d, n) {
        assert Value(s.fs, e, m) == Value(t.fs, e, m);
      }
    }
  }

  lemma RetargetAlarm(s: State, t: State)
    requires Shape(s) && Alarm(s) && SameRecords(s, t) && t == s.(fs := t.fs)
    ensures Alarm(t)
  {
    hide Record, Value;
    if !SelfAlarm(s) {
      var p: nat, n :| Witness(s, p, n);
      assert forall i: nat :: LinkHolds(s, i) ==> LinkHolds(t, i);
      assert forall i: nat :: Fresh(s, i) ==> Fresh(t, i);
      WitnessKept(s, t, p, n);
    }
  }

  lemma RetargetCalm(s: State, t: State)
    requires Shape(s) && Calm(s) && SameRecords(s, t) && t == s.(fs := t.fs) && Shape(t)
    ensures Calm(t)
  {
    hide Record, Value;
    forall k, n | (k, n) in t.idx ensures CellOk(t, k, n) {
      assert CellOk(s, k, n);
      assert Agrees(s, k, n) ==> Agrees(t, k, n);
    }
    forall j | 0 < j < |t.nodes| ensures LinkLeads(t, j) {
      assert LinkLeads(s, j);
    }
    assert forall j :: 0 <= j < |t.nodes| ==> Fresh(s, j) == Fresh(t, j);
  }

  // ----- Files with several names ---------------------------------------------------------------

  /** The index has something by the name that an event would be about. */
  predicate Known(s: State, d: Dir, n: Name) {
    d in s.wd && Holds(s, s.wd[d], n)
  }

  /** The index has the file as name `m` of node `k`, which is not name `n` of directory `d`. */
  predicate Elsewhere(s: State, file: nat, d: Dir, n: Name, k: nat, m: Name) {
    k < |s.nodes| && Holds(s, k, m) && IsFile(Value(s.fs, s.nodes[k].dir, m), file) && (s.nodes[k].dir, m) != (d, n)
  }

  /** A file that the index has is written through another name, which the index lacks. */
  ghost predicate Sneaks(s: State, step: Step) {
    step.Write? && !Known(s, step.d, step.n) && exists k: nat, m :: Elsewhere(s, step.file, step.d, step.n, k, m)
  }

  lemma WrittenValue(fs: map<(Dir, Name), Val>, file: nat, version: nat, d: Dir, n: Name)
    ensures Value(Written(fs, file, version), d, n) ==
            if IsFile(Value(fs, d, n), file) then Reg(Content(file, version)) else Value(fs, d, n)
  {
  }

  lemma WriteLinks(s: State, t: State, file: nat, version: nat)
    requires SameIndex(s, t) && t.fs == Written(s.fs, file, version)
    ensures forall j: nat :: LinkHolds(s, j) ==> LinkHolds(t, j)
  {
    forall j: nat | LinkHolds(s, j) ensures LinkHolds(t, j) {
      WrittenValue(s.fs, file, version, s.nodes[s.nodes[j].parent].dir, s.nodes[j].name);
    }
  }

  lemma WriteAlarm(s: State, t: State, file: nat, version: nat)
    requires Shape(s) && Alarm(s) && SameIndex(s, t) && t.fs == Written(s.fs, file, version) && s.thread == t.thread
    requires forall e :: Pending(s, e) ==> Pending(t, e)
    ensures Alarm(t)
  {
    WriteLinks(s, t, file, version);
    hide LinkHolds, Written;
    if !SelfAlarm(s) {
      var p: nat, n :| Witness(s, p, n);
      assert forall i: nat :: Fresh(s, i) ==> Fresh(t, i);
      WitnessKept(s, t, p, n);
    }
  }

  /** The event of a write through a name that the index has raises an alarm. */
  lemma KnownAlarm(s: State, t: State, file: nat, version: nat, d: Dir, n: Name)
    requires Sound(s) && !Alarm(s) && SameIndex(s, t) && t.fs == Written(s.fs, file, version)
    requires Known(s, d, n) && (Pending(t, Named(d, n)) || Pending(t, Overflow))
    ensures Alarm(t)
  {
    var p := s.wd[d];
    assert p < |s.nodes| && s.nodes[p].dir == d;
    CalmGrounded(s, p);
    WriteLinks(s, t, file, version);
    hide LinkHolds, Written, Sound, Alarm;
    assert forall i: nat :: Fresh(s, i) ==> Fresh(t, i);
    GroundedKept(s, t, p);
    assert Pending(t, Named(d, n)) ==> Witness(t, p, n);
    assert Pending(t, Overflow) ==> SelfAlarm(t);
    AlarmOf(t);
  }

  lemma AlarmOf(s: State)
    ensures SelfAlarm(s) ==> Alarm(s)
    ensures forall p: nat, n :: Witness(s, p, n) ==> Alarm(s)
  {
  }

  lemma WrittenCell(s: State, t: State, file: nat, d: Dir, n: Name, version: nat, k: nat, m: Name)
    requires Sound(s) && !Alarm(s) && !Alarm(t) && SameIndex(s, t) && t.fs == Written(s.fs, file, version) && (k, m) in s.idx
    requires forall e :: Pending(s, e) ==> Pending(t, e)
    requires d in s.watched ==> Pending(t, Named(d, n)) || Pending(t, Overflow)
    requires Elsewhere(s, file, d, n, k, m) ==> Known(s, d, n)
    ensures CellOk(t, k, m)
  {
    assert CellOk(s, k, m) && s.nodes[k].dir in s.watched;
    WrittenValue(s.fs, file, version, s.nodes[k].dir, m);
    hide Written, Value;
    if Agrees(s, k, m) {
      if !IsFile(Value(s.fs, s.nodes[k].dir, m), file) || Reserved(m) {
        assert Agrees(t, k, m);
      } else if (s.nodes[k].dir, m) != (d, n) {
        assert Elsewhere(s, file, d, n, k, m);
        assert d in s.wd && s.nodes[s.wd[d]].dir == d;
        KnownAlarm(s, t, file, version, d, n);
      }
    }
  }

  lemma WriteSound(s: State, file: nat, d: Dir, n: Name, version: nat, lost: bool)
    requires Sound(s) && !Sneaks(s, Write(file, d, n, version, lost))
    ensures Sound(Do(s, Write(file, d, n, version, lost)))
  {
    var t := Do(s, Write(file, d, n, version, lost));
    assert t.fs == Written(s.fs, file, version);
    if d in s.watched {
      Enqueued(s, t, Named(d, n), lost);
    }
    ShapeSame(s, t);
    SelfAlarmStays(s, t);
    hide Do, Written;
    if Alarm(s) {
      WriteAlarm(s, t, file, version);
    } else if !Alarm(t) {
      WriteCalm(s, t, file, d, n, version, lost);
    }
  }

  lemma WriteCalm(s: State, t: State, file: nat, d: Dir, n: Name, version: nat, lost: bool)
    requires Sound(s) && !Alarm(s) && !Alarm(t) && SameIndex(s, t) && t.fs == Written(s.fs, file, version) && s.base == t.base && Shape(t)
    requires forall e :: Pending(s, e) ==> Pending(t, e)
    requires d in s.watched ==> Pending(t, Named(d, n)) || Pending(t, Overflow)
    requires !Sneaks(s, Write(file, d, n, version, lost))
    ensures Calm(t)
  {
    forall k, m | (k, m) in t.idx ensures CellOk(t, k, m) {
      WrittenCell(s, t, file, d, n, version, k, m);
    }
    forall j | 0 < j < |t.nodes| ensures LinkLeads(t, j) {
      assert LinkLeads(s, j);
    }
    assert forall j :: 0 <= j < |t.nodes| ==> Fresh(s, j) == Fresh(t, j);
  }

  // ----- The walk -------------------------------------------------------------------------------

  /** Changes to the recorded entries and to `listing` silence no alarm. */
  lemma AlarmGrows(s: State, t: State)
    requires Shape(s) && Alarm(s) && s.queue == t.queue && s.thread == t.thread && s.root == t.root && s.wd == t.wd && s.fs == t.fs
    requires |s.nodes| == |t.nodes| && forall j :: 0 <= j < |s.nodes| ==> SameNode(s.nodes[j], t.nodes[j])
    requires forall c :: c in s.idx && s.idx[c].Directory? ==> c in t.idx && t.idx[c] == s.idx[c]
    requires forall c :: c in s.idx && s.idx[c] != Nothing ==> c in t.idx && t.idx[c] != Nothing
    ensures Alarm(t)
  {
    if !SelfAlarm(s) {
      var p: nat, n :| Witness(s, p, n);
      forall i: nat | LinkHolds(s, i) ensures LinkHolds(t, i) {
        assert SameNode(s.nodes[i], t.nodes[i]) && SameNode(s.nodes[s.nodes[i].parent], t.nodes[t.nodes[i].parent]);
      }
      forall i: nat | Grounded(s, i) ensures Fresh(t, i) {
        assert SameNode(s.nodes[i], t.nodes[i]);
      }
      WitnessKept(s, t, p, n);
    }
  }

  /** A new or updated entry keeps the invariant if it agrees, or if its event is pending. */
  lemma EntrySound(s: State, k: nat, n: Name, v: Seen)
    requires Sound(s) && k < |s.nodes| && n in s.names && (Reserved(n) ==> v == Nothing)
    requires (k, n) in s.idx ==> !s.idx[(k, n)].Directory? && (s.idx[(k, n)] != Nothing ==> v != Nothing)
    requires Alarm(s) || CellOk(s.(idx := s.idx[(k, n) := v]), k, n)
    ensures Sound(s.(idx := s.idx[(k, n) := v]))
  {
    var t := s.(idx := s.idx[(k, n) := v]);
    EntryShape(s, t, k, n, v);
    hide Grounded, LinkHolds, Fresh, LinkLeads, CellOk, Shape;
    if Alarm(s) {
      AlarmGrows(s, t);
    } else {
      EntryCalm(s, t, k, n, v);
    }
  }

  lemma EntryShape(s: State, t: State, k: nat, n: Name, v: Seen)
    requires Shape(s) && k < |s.nodes| && n in s.names && (Reserved(n) ==> v == Nothing)
    requires (k, n) in s.idx ==> !s.idx[(k, n)].Directory?
    requires t == s.(idx := s.idx[(k, n) := v])
    ensures Shape(t)
  {
    hide Reserved;
    forall j | 0 < j < |t.nodes| ensures LinkOk(t, j) {
      assert LinkOk(s, j);
    }
  }

  lemma EntryCalm(s: State, t: State, k: nat, n: Name, v: Seen)
    requires Shape(s) && Calm(s) && k < |s.nodes| && ((k, n) in s.idx ==> !s.idx[(k, n)].Directory?)
    requires t == s.(idx := s.idx[(k, n) := v]) && Shape(t) && CellOk(t, k, n)
    ensures Calm(t)
  {
    forall l, m | (l, m) in t.idx ensures CellOk(t, l, m) {
      if (l, m) != (k, n) {
        assert CellOk(s, l, m);
        assert Agrees(s, l, m) ==> Agrees(t, l, m);
      }
    }
    forall j | 0 < j < |t.nodes|
      ensures LinkLeads(t, j)
    {
      assert LinkLeads(s, j);
    }
    assert forall j :: 0 <= j < |t.nodes| ==> Fresh(s, j) == Fresh(t, j);
  }

  lemma SkipNameSound(s: State, k: nat, n: Name)
    requires Sound(s) && Enabled(false, s, IxSkipName(k, n))
    ensures Sound(Do(s, IxSkipName(k, n)))
  {
    if !Alarm(s) {
      assert Agrees(s.(idx := s.idx[(k, n) := Nothing]), k, n);
    }
    EntrySound(s, k, n, Nothing);
  }

  lemma StatSound(s: State, k: nat, n: Name)
    requires Sound(s) && Enabled(false, s, IxStat(k, n))
    ensures Sound(Do(s, IxStat(k, n)))
  {
    var v := Record(n, AtPath(s, k, n));
    if !Alarm(s) {
      AtPathHolds(s, k, n);
      assert Agrees(s.(idx := s.idx[(k, n) := v]), k, n);
    }
    EntrySound(s, k, n, v);
  }

  lemma MapFileSound(s: State, k: nat, n: Name)
    requires Sound(s) && Enabled(false, s, IxMapFile(k, n))
    ensures Sound(Do(s, IxMapFile(k, n)))
  {
    var v := s.idx[(k, n)].(mapped := Some(AtPath(s, k, n).version));
    var t := s.(idx := s.idx[(k, n) := v]);
    if !Alarm(s) {
      AtPathHolds(s, k, n);
      assert CellOk(s, k, n);
      assert Agrees(s, k, n) ==> Agrees(t, k, n);
    }
    EntrySound(s, k, n, v);
  }

  lemma OpenDirSound(s: State, k: nat)
    requires Sound(s) && Enabled(false, s, IxOpenDir(k))
    ensures Sound(Do(s, IxOpenDir(k)))
  {
    var t := Do(s, IxOpenDir(k));
    assert t == s.(nodes := s.nodes[k := s.nodes[k].(listing := PathTarget(s, k))]);
    assert Relisted(s, t, k);
    hide Do, Enabled, PathTarget, Grounded, LinkHolds, Fresh, LinkLeads, CellOk;
    OpenDirShape(s, t, k);
    if Alarm(s) {
      AlarmGrows(s, t);
    } else {
      PathsHold(s, k);
      OpenDirCalm(s, t, k);
    }
  }

  lemma OpenDirCalm(s: State, t: State, k: nat)
    requires Shape(s) && Calm(s) && k < |s.nodes|
    requires t == s.(nodes := s.nodes[k := s.nodes[k].(listing := Some(s.nodes[k].dir))]) && Shape(t)
    ensures Calm(t)
  {
    forall l, m | (l, m) in t.idx ensures CellOk(t, l, m) {
      assert CellOk(s, l, m);
      assert Agrees(s, l, m) ==> Agrees(t, l, m);
    }
    forall j | 0 < j < |t.nodes|
      ensures LinkLeads(t, j)
    {
      assert LinkLeads(s, j);
    }
    assert forall j :: 0 <= j < |t.nodes| ==> Fresh(s, j) == Fresh(t, j);
  }

  /** Only the `listing` of a node changes. */
  predicate Relisted(s: State, t: State, k: nat) {
    k < |s.nodes| && |t.nodes| == |s.nodes| && t == s.(nodes := t.nodes)
    && forall j :: 0 <= j < |s.nodes| ==> SameNode(s.nodes[j], t.nodes[j])
  }

  lemma OpenDirShape(s: State, t: State, k: nat)
    requires Shape(s) && Relisted(s, t, k)
    ensures Shape(t)
  {
    hide Reserved;
    forall j | 0 < j < |t.nodes| ensures LinkOk(t, j) && t.nodes[j].parent < j {
      assert LinkOk(s, j) && SameNode(s.nodes[j], t.nodes[j]);
    }
    forall i, j | 0 < i < j < |t.nodes| ensures (t.nodes[i].parent, t.nodes[i].name) != (t.nodes[j].parent, t.nodes[j].name) {
      assert SameNode(s.nodes[i], t.nodes[i]) && SameNode(s.nodes[j], t.nodes[j]);
    }
    forall j | 0 <= j < |t.nodes| ensures t.nodes[j].dir in t.watched && t.nodes[j].dir in t.wd {
      assert SameNode(s.nodes[j], t.nodes[j]);
    }
    hide LinkOk;
    assert NodesOk(t);
  }

  /** What descending does. */
  lemma DescendIs(s: State, k: nat, n: Name)
    requires Enabled(false, s, IxDescend(k, n))
    ensures k < |s.nodes| && (k, n) in s.idx && s.idx[(k, n)].Directory? && !HasNode(s, k, n)
    ensures Resolve(AtPath(s, k, n)).Some?
    ensures var d := Resolve(AtPath(s, k, n)).value;
            Do(s, IxDescend(k, n)) ==
            s.(nodes := s.nodes + [Node(d, k, n, None)], wd := s.wd[d := |s.nodes|], watched := s.watched + {d})
  {
    hide HasNode, AtPath, Resolve;
  }

  /** A step that descends into directory `d` by entry `n` of node `k`. */
  predicate Descended(s: State, t: State, k: nat, n: Name, d: Dir) {
    && k < |s.nodes| && (k, n) in s.idx && s.idx[(k, n)].Directory? && !HasNode(s, k, n)
    && t == s.(nodes := s.nodes + [Node(d, k, n, None)], wd := s.wd[d := |s.nodes|], watched := s.watched + {d})
  }

  lemma DescendShape(s: State, t: State, k: nat, n: Name, d: Dir)
    requires Shape(s) && Descended(s, t, k, n, d)
    ensures Shape(t)
  {
    forall j | 0 < j < |t.nodes| ensures LinkOk(t, j) && t.nodes[j].parent < j {
      if j < |s.nodes| {
        assert LinkOk(s, j) && t.nodes[j] == s.nodes[j];
      }
    }
    forall j | 0 <= j < |t.nodes| ensures t.nodes[j].dir in t.watched && t.nodes[j].dir in t.wd {
      if j < |s.nodes| {
        assert t.nodes[j] == s.nodes[j];
      }
    }
    forall i, j | 0 < i < j < |t.nodes| ensures (t.nodes[i].parent, t.nodes[i].name) != (t.nodes[j].parent, t.nodes[j].name) {
      assert t.nodes[i] == s.nodes[i] && (j < |s.nodes| ==> t.nodes[j] == s.nodes[j]);
    }
    assert NodesOk(t);
  }

  /** No directory but the new one changes its node, and no link changes. */
  lemma DescendKeeps(s: State, t: State, k: nat, n: Name, d: Dir)
    requires Descended(s, t, k, n, d)
    ensures forall j :: 0 <= j < |s.nodes| ==> SameNode(s.nodes[j], t.nodes[j])
    ensures forall j: nat :: Fresh(s, j) && s.nodes[j].dir != d ==> Fresh(t, j)
    ensures forall j: nat :: LinkHolds(s, j) ==> LinkHolds(t, j)
    ensures Fresh(t, |s.nodes|)
  {
    assert forall j :: 0 <= j < |s.nodes| ==> t.nodes[j] == s.nodes[j];
  }

  lemma DescendAlarm(s: State, t: State, k: nat, n: Name, d: Dir)
    requires Forest(s.fs, s.base) && Shape(s) && BaseOk(s) && Alarm(s)
    requires Descended(s, t, k, n, d) && Resolve(AtPath(s, k, n)) == Some(d) && !TakesOver(s, IxDescend(k, n))
    ensures Alarm(t)
  {
    if !SelfAlarm(s) {
      var p: nat, m :| Witness(s, p, m);
      DescendKeeps(s, t, k, n, d);
      forall i: nat | Grounded(s, i) ensures Fresh(t, i) {
        GroundedPlain(s, i);
        NewDirIsNew(s, k, n, i);
      }
      hide Grounded, LinkHolds, AtPath, Fresh, HasNode, TakesOver;
      WitnessKept(s, t, p, m);
    }
  }

  lemma DescendSound(s: State, k: nat, n: Name)
    requires Forest(s.fs, s.base) && Sound(s) && Enabled(false, s, IxDescend(k, n)) && !TakesOver(s, IxDescend(k, n))
    ensures Sound(Do(s, IxDescend(k, n)))
  {
    DescendIs(s, k, n);
    var t, d := Do(s, IxDescend(k, n)), Resolve(AtPath(s, k, n)).value;
    hide Do, Enabled, TakesOver;
    DescendShape(s, t, k, n, d);
    if Alarm(s) {
      DescendAlarm(s, t, k, n, d);
    } else {
      DescendCalm(s, t, k, n, d);
    }
  }

  lemma DescendCalm(s: State, t: State, k: nat, n: Name, d: Dir)
    requires Forest(s.fs, s.base) && Sound(s) && !Alarm(s) && Shape(t)
    requires Descended(s, t, k, n, d) && Resolve(AtPath(s, k, n)) == Some(d) && !TakesOver(s, IxDescend(k, n))
    ensures Alarm(t) || Calm(t)
  {
    AtPathHolds(s, k, n);
    AllFresh(s, t, k, n, d);
    assert CellOk(s, k, n);
    if Pending(s, Named(s.nodes[k].dir, n)) {
      CalmGrounded(s, k);
      hide Alarm, Calm, Sound, Forest, AtPath;
      DescendPending(s, t, k, n, d);
    } else {
      assert Agrees(s, k, n);
      hide Alarm, Forest, AtPath, Fresh;
      CalmGrows(s, t, k, n, d);
    }
  }

  lemma DescendPending(s: State, t: State, k: nat, n: Name, d: Dir)
    requires Grounded(s, k) && Descended(s, t, k, n, d) && Pending(s, Named(s.nodes[k].dir, n))
    requires forall j :: 0 <= j < |t.nodes| ==> Fresh(t, j)
    ensures Alarm(t)
  {
    DescendKeeps(s, t, k, n, d);
    assert forall j: nat :: Grounded(s, j) ==> Fresh(t, j);
    hide LinkHolds, Fresh, HasNode, Grounded;
    GroundedKept(s, t, k);
    assert Witness(t, k, n);
  }

  lemma AllFresh(s: State, t: State, k: nat, n: Name, d: Dir)
    requires Forest(s.fs, s.base) && Sound(s) && !Alarm(s)
    requires Descended(s, t, k, n, d) && Resolve(AtPath(s, k, n)) == Some(d) && !TakesOver(s, IxDescend(k, n))
    ensures forall j :: 0 <= j < |t.nodes| ==> Fresh(t, j)
  {
    DescendKeeps(s, t, k, n, d);
    forall j | 0 <= j < |s.nodes| ensures Fresh(t, j) {
      CalmGrounded(s, j);
      GroundedPlain(s, j);
      NewDirIsNew(s, k, n, j);
    }
  }

  lemma CalmGrows(s: State, t: State, k: nat, n: Name, d: Dir)
    requires Shape(s) && Calm(s) && Shape(t) && Descended(s, t, k, n, d) && s.idx[(k, n)].d == d
    requires forall j :: 0 <= j < |t.nodes| ==> Fresh(t, j)
    ensures Calm(t)
  {
    hide Fresh, HasNode, CellOk, LinkLeads;
    forall l, m | (l, m) in t.idx ensures CellOk(t, l, m) {
      GrownCell(s, t, k, n, d, l, m);
    }
    forall j | 0 < j < |t.nodes|
      ensures LinkLeads(t, j)
    {
      GrownLink(s, t, k, n, d, j);
    }
    assert forall j :: 0 <= j < |s.nodes| ==> t.nodes[j] == s.nodes[j];
  }

  lemma GrownLink(s: State, t: State, k: nat, n: Name, d: Dir, j: nat)
    requires Shape(s) && Calm(s) && Descended(s, t, k, n, d) && s.idx[(k, n)].d == d && 0 < j < |t.nodes|
    ensures LinkLeads(t, j)
  {
    if j < |s.nodes| {
      assert LinkLeads(s, j) && t.nodes[j] == s.nodes[j];
    }
  }

  lemma GrownCell(s: State, t: State, k: nat, n: Name, d: Dir, l: nat, m: Name)
    requires Shape(s) && Calm(s) && Descended(s, t, k, n, d) && (l, m) in s.idx
    ensures l < |s.nodes| && t.nodes[l] == s.nodes[l] && CellOk(t, l, m)
  {
    hide Fresh, HasNode;
    assert CellOk(s, l, m) && t.nodes[l] == s.nodes[l];
    assert Agrees(s, l, m) ==> Agrees(t, l, m);
  }

  // ----- The watch thread -----------------------------------------------------------------------

  lemma ReadQueueSound(s: State, m: nat)
    requires Sound(s) && Enabled(false, s, ReadQueue(m))
    ensures Sound(Do(s, ReadQueue(m)))
  {
    var t := Do(s, ReadQueue(m));
    assert s.queue == s.queue[..m] + s.queue[m..];
    forall e | Pending(s, e) ensures Pending(t, e) {
    }
    EventsKept(s, t);
  }

  /** An event on a name that the index lacks, and whose entry agrees, may go. */
  lemma DropSound(s: State, t: State, e: Event)
    requires Sound(s) && Buf(s) != [] && Buf(s)[0] == e
    requires t == s.(thread := Check(s.thread.dirty, Buf(s)[1..], false))
    requires !Loud(s, e)
    requires Alarm(s) || forall k, n :: (k, n) in s.idx && e == Named(s.nodes[k].dir, n) ==> Agrees(s, k, n)
    ensures Sound(t)
  {
    assert Buf(s) == [e] + Buf(t);
    assert forall x :: Pending(s, x) && x != e ==> Pending(t, x);
    ShapeSame(s, t);
    SelfAlarmStays(s, t);
    if Alarm(s) {
      AlarmStays(s, t);
    } else {
      forall k, n | (k, n) in s.idx && Pending(s, Named(s.nodes[k].dir, n)) ensures CellOk(t, k, n) {
        assert CellOk(s, k, n);
        assert Agrees(s, k, n) ==> Agrees(t, k, n);
      }
      CalmStays(s, t);
    }
  }

  /** An event about a name that the index lacks is none that makes an alarm. */
  lemma MissingIsQuiet(s: State, d: Dir, n: Name)
    requires Shape(s)
    requires Reserved(n) || (d in s.wd && (s.wd[d], n) in s.idx && s.idx[(s.wd[d], n)] == Nothing)
    ensures !Loud(s, Named(d, n))
  {
    forall p: nat, m | Noted(s, p, m) ensures Named(s.nodes[p].dir, m) != Named(d, n) {
    }
    hide Shape, Noted;
  }

  lemma NextEventIs(s: State, refused: bool)
    requires Enabled(false, s, NextEvent(refused))
    ensures s.thread.Check? && s.thread.buf != []
    ensures Do(s, NextEvent(refused)) == Process(s, s.thread.dirty, s.thread.buf, s.thread.stale, refused)
  {
    hide Process;
  }

  lemma StatxEventIs(s: State, skipped: bool)
    requires Enabled(false, s, StatxEvent(skipped))
    ensures s.thread.Statx? && s.thread.buf != [] && (s.thread.stale || skipped == SkippedNow(s, s.thread.buf[0]))
    ensures Do(s, StatxEvent(skipped)) ==
            if skipped then s.(thread := Check(s.thread.dirty, s.thread.buf[1..], s.thread.stale))
            else Survive(s, s.thread.dirty)
  {
    hide SkippedNow, Survive;
  }

  /** The dirty branch consumes an event, without a mark, that a walk or a clean index has yet to hear of. */
  predicate Swallows(s: State, step: Step) {
    && Trusted(s) && (s.thread.Check? || s.thread.Statx?) && s.thread.dirty && !s.thread.stale && s.thread.buf != []
    && match step
       case NextEvent(refused) => s.thread.Check? && Judge(s, s.thread.buf[0], refused) == React
       case StatxEvent(skipped) => s.thread.Statx? && !skipped
       case _ => false
  }

  /** The events that the thread forgets are from before the index. */
  lemma ForgetSound(s: State, t: State)
    requires Sound(s) && Buf(s) == [] && !Marking(s)
    requires t == s.(thread := t.thread, cbSeq := t.cbSeq, lastFire := t.lastFire)
    ensures Sound(t)
  {
    EventsKept(s, t);
  }

  /** What the next event leads to. */
  lemma NextEventForm(s: State, refused: bool)
    requires Enabled(false, s, NextEvent(refused))
    ensures var t, e := Do(s, NextEvent(refused)), s.thread.buf[0];
            || (t == s.(thread := t.thread) && (Marking(t) || t.thread == Statx(s.thread.dirty, s.thread.buf, s.thread.stale)))
            || (t == s.(thread := Check(s.thread.dirty, s.thread.buf[1..], s.thread.stale)) && (e == Ignored || (e.Named? && Reserved(e.n))))
            || (t == s.(thread := Top, cbSeq := -1, lastFire := None) && s.thread.dirty && Judge(s, e, refused) == React)
  {
    NextEventIs(s, refused);
    hide Do, Enabled, Missing, Reserved;
  }

  lemma QuietDropSound(s: State, e: Event)
    requires Sound(s) && s.thread.Check? && s.thread.buf != [] && s.thread.buf[0] == e
    requires e == Ignored || (e.Named? && Reserved(e.n))
    ensures Sound(s.(thread := Check(s.thread.dirty, s.thread.buf[1..], s.thread.stale)))
  {
    var t := s.(thread := Check(s.thread.dirty, s.thread.buf[1..], s.thread.stale));
    if s.thread.stale {
      ForgetSound(s, t);
    } else {
      if e.Named? {
        MissingIsQuiet(s, e.d, e.n);
      }
      DropSound(s, t, e);
    }
  }

  lemma NextEventSound(s: State, refused: bool)
    requires Sound(s) && Trusted(s) && Enabled(false, s, NextEvent(refused)) && !Swallows(s, NextEvent(refused))
    ensures Sound(Do(s, NextEvent(refused)))
  {
    var t := Do(s, NextEvent(refused));
    var e := s.thread.buf[0];
    NextEventForm(s, refused);
    hide Do, Enabled, Process, Calm, Sound;
    if Marking(t) {
      MarkingSound(s, t);
    } else if t.thread.Statx? {
      assert forall x :: Pending(s, x) ==> Pending(t, x);
      EventsKept(s, t);
    } else if t.thread == Top {
      ForgetSound(s, t);
    } else {
      QuietDropSound(s, e);
    }
  }

  lemma MarkingSound(s: State, t: State)
    requires Sound(s) && SameIndex(s, t) && Marking(t)
    ensures Sound(t)
  {
    ShapeSame(s, t);
  }

  lemma StatxEventSound(s: State, skipped: bool)
    requires Sound(s) && Trusted(s) && Enabled(false, s, StatxEvent(skipped)) && !Swallows(s, StatxEvent(skipped)) && Control(s)
    ensures Sound(Do(s, StatxEvent(skipped)))
  {
    var t := Do(s, StatxEvent(skipped));
    var e := s.thread.buf[0];
    StatxEventIs(s, skipped);
    hide Do, Enabled, CompleteOk, Sound, SkippedNow, Missing, Reserved;
    if Marking(t) {
      MarkingSound(s, t);
    } else if s.thread.stale {
      ForgetSound(s, t);
    } else {
      assert skipped && s.state == Clean;
      SkippedDropSound(s, t, e);
    }
  }

  lemma SkippedDropSound(s: State, t: State, e: Event)
    requires Sound(s) && s.thread.Statx? && !s.thread.stale && s.thread.buf != [] && s.thread.buf[0] == e && e.Named?
    requires t == s.(thread := Check(s.thread.dirty, s.thread.buf[1..], false))
    requires Missing(s, e.d, e.n) && SkippedNow(s, e)
    ensures Sound(t)
  {
    MissingIsQuiet(s, e.d, e.n);
    if !Alarm(s) {
      SkippedAgrees(s, e);
    }
    hide Alarm, Calm, PathTarget, SkippedNow, Missing;
    DropSound(s, t, e);
  }

  /** A skipped type that the index does not hold is recorded rightly. */
  lemma SkippedAgrees(s: State, e: Event)
    requires Sound(s) && !Alarm(s) && e.Named? && Missing(s, e.d, e.n) && SkippedNow(s, e)
    ensures forall k, n :: (k, n) in s.idx && e == Named(s.nodes[k].dir, n) ==> Agrees(s, k, n)
  {
    AtPathHolds(s, s.wd[e.d], e.n);
    forall k, n | (k, n) in s.idx && e == Named(s.nodes[k].dir, n) ensures Agrees(s, k, n) {
      assert Fresh(s, k);
    }
  }

  // ----- Every step -----------------------------------------------------------------------------

  lemma CompleteSame(s: State, t: State)
    requires SameIndex(s, t)
    ensures Complete(s) == Complete(t)
  {
    assert forall k: nat, n :: HasNode(s, k, n) == HasNode(t, k, n);
  }

  lemma ControlFilesystem(s: State, step: Step)
    requires Control(s) && Enabled(false, s, step) && OfFilesystem(step)
    ensures Control(Do(s, step))
  {
    CompleteSame(s, Do(s, step));
    hide Complete, PathTarget, Reserved, Record;
  }

  lemma PhasesIndex(s: State, step: Step)
    requires Phases(s) && Enabled(false, s, step) && OfIndex(step)
    ensures Phases(Do(s, step))
  {
    hide Complete;
  }

  lemma StatxOkIndex(s: State, step: Step)
    requires Phases(s) && StatxOk(s) && Enabled(false, s, step) && OfIndex(step)
    ensures StatxOk(Do(s, step))
  {
    hide Complete, Reserved, HasNode, PathTarget, AtPath, Resolve, Record, Value;
  }

  lemma IndexSame(s: State, step: Step)
    requires OfIndex(step) && !step.IxClear?
    ensures SameIndex(s, Do(s, step))
  {
  }

  lemma CompleteOkIndex(s: State, step: Step)
    requires Phases(s) && CompleteOk(s) && Enabled(false, s, step) && OfIndex(step)
    ensures CompleteOk(Do(s, step))
  {
    if !step.IxClear? {
      IndexSame(s, step);
      CompleteSame(s, Do(s, step));
    }
    hide Complete, SameIndex;
  }

  lemma ControlIndex(s: State, step: Step)
    requires Control(s) && Enabled(false, s, step) && OfIndex(step)
    ensures Control(Do(s, step))
  {
    hide Do, Enabled, Phases, StatxOk, CompleteOk;
    PhasesIndex(s, step);
    StatxOkIndex(s, step);
    CompleteOkIndex(s, step);
  }

  lemma ControlWalk(s: State, step: Step)
    requires Control(s) && Enabled(false, s, step) && OfWalk(step)
    ensures Control(Do(s, step))
  {
    hide Complete, PathTarget, Reserved, Record, HasNode, AtPath, Value;
  }

  /** The watch thread changes its own variables, takes from the queue and may mark. */
  predicate ThreadOnly(s: State, t: State) {
    && t == s.(thread := t.thread, state := t.state, queue := t.queue, cbSeq := t.cbSeq, lastFire := t.lastFire)
    && (t.state == s.state || t.state == Dirty)
  }

  lemma SurviveForm(s: State, dirty: bool)
    ensures ThreadOnly(s, Survive(s, dirty))
  {
  }

  lemma ProcessForm(s: State, dirty: bool, buf: seq<Event>, stale: bool, refused: bool)
    requires buf != []
    ensures ThreadOnly(s, Process(s, dirty, buf, stale, refused))
  {
    hide Judge;
  }

  lemma CheckForm(s: State, step: Step)
    requires OfCheck(step)
    ensures ThreadOnly(s, CheckStep(s, step))
  {
    hide SkippedNow, Process, Survive;
    if step.NextEvent? && s.thread.Check? && s.thread.buf != [] {
      ProcessForm(s, s.thread.dirty, s.thread.buf, s.thread.stale, step.refused);
    } else if step.StatxEvent? && s.thread.Statx? {
      SurviveForm(s, s.thread.dirty);
    }
  }

  lemma LoopForm(s: State, step: Step)
    requires OfThread(step) && !OfCheck(step)
    ensures ThreadOnly(s, LoopStep(s, step))
  {
    hide Fires;
  }

  lemma ThreadForm(s: State, step: Step)
    requires OfThread(step)
    ensures ThreadOnly(s, Do(s, step))
  {
    hide CheckStep, LoopStep, ThreadOnly;
    if OfCheck(step) {
      CheckForm(s, step);
    } else {
      LoopForm(s, step);
    }
  }

  lemma PhasesThread(s: State, step: Step)
    requires Phases(s) && OfThread(step)
    ensures Phases(Do(s, step))
  {
    ThreadForm(s, step);
    hide Do;
  }

  lemma StatxOkThread(s: State, step: Step)
    requires Enabled(false, s, step) && OfThread(step)
    ensures StatxOk(Do(s, step))
  {
    hide PathTarget, Reserved, Record, HasNode, AtPath, Value, Complete, SkippedNow, Fires, Missing, Judge;
    if step.NextEvent? {
      NextEventStatx(s, step.refused);
    }
  }

  lemma NextEventStatx(s: State, refused: bool)
    requires Enabled(false, s, NextEvent(refused))
    ensures StatxOk(Do(s, NextEvent(refused)))
  {
    NextEventIs(s, refused);
    hide Do, Enabled, Reserved;
  }

  lemma ControlThread(s: State, step: Step)
    requires Control(s) && Enabled(false, s, step) && OfThread(step)
    ensures Control(Do(s, step))
  {
    ThreadForm(s, step);
    CompleteSame(s, Do(s, step));
    PhasesThread(s, step);
    StatxOkThread(s, step);
    hide Do, Enabled, Complete, StatxOk, Phases, OfThread;
  }

  lemma SoundFilesystem(s: State, step: Step)
    requires Sound(s) && Enabled(false, s, step) && OfFilesystem(step) && !Sneaks(s, step)
    ensures Sound(Do(s, step))
  {
    var t := Do(s, step);
    match step
    case Change(d, n, v, lost) => ChangeSound(s, d, n, v, lost);
    case Write(file, d, n, version, lost) => WriteSound(s, file, d, n, version, lost);
    case MoveRoot(d, lost) => MoveRootSound(s, d, lost);
    case Retarget(d, n, to) => RetargetSound(s, d, n, to);
    case TouchDir(d) =>
      if d in s.watched {
        Enqueued(s, t, SelfGone(d), false);
      }
      EventsKept(s, t);
    case UnmountFs =>
      if s.watched != {} {
        Enqueued(s, t, Unmounted, false);
      }
      EventsKept(s, t);
  }

  lemma RootSound(s: State)
    requires Sound(s) && s.nodes == []
    ensures Sound(Do(s, IxRoot))
  {
    hide Enabled, Alarm;
    forall k: nat, n: Name ensures (k, n) !in s.idx {
    }
    assert Calm(Do(s, IxRoot));
  }

  lemma ForestFilesystem(s: State, step: Step)
    requires Forest(s.fs, s.base) && Enabled(false, s, step) && OfFilesystem(step)
    ensures Forest(Do(s, step).fs, Do(s, step).base)
  {
    hide PathTarget, AtPath, Resolve, Record, HasNode, Complete, Reserved, Enqueue;
    match step
    case Change(d, n, v, _) => ForestChange(s.fs, s.base, d, n, v);
    case Retarget(d, n, to) => ForestChange(s.fs, s.base, d, n, Link(to));
    case _ =>
  }

  lemma ForestChange(fs: map<(Dir, Name), Val>, base: Dir, d: Dir, n: Name, v: Val)
    requires Forest(fs, base) && OnlyAt(fs, (d, n), v) && v != SubDir(base)
    ensures Forest(fs[(d, n) := v], base)
  {
  }

  lemma OthersKeepFilesystem(s: State, step: Step)
    requires OfWalk(step) || OfIndex(step)
    ensures Do(s, step).fs == s.fs && Do(s, step).base == s.base
  {
    hide PathTarget, AtPath, Resolve, Record, HasNode, Complete, Reserved;
  }

  /** The filesystem stays a forest, and only its own steps change it. */
  lemma ForestStep(s: State, step: Step)
    requires Forest(s.fs, s.base) && Enabled(false, s, step)
    ensures Forest(Do(s, step).fs, Do(s, step).base)
  {
    hide Do, Enabled, Forest;
    if OfFilesystem(step) {
      ForestFilesystem(s, step);
    } else if OfThread(step) {
      ThreadForm(s, step);
    } else {
      OthersKeepFilesystem(s, step);
    }
  }

  lemma SoundWalk(s: State, step: Step)
    requires Forest(s.fs, s.base) && Sound(s) && Enabled(false, s, step) && OfWalk(step) && !TakesOver(s, step)
    ensures Sound(Do(s, step))
  {
    match step
    case IxRoot => RootSound(s);
    case IxOpenDir(k) => OpenDirSound(s, k);
    case IxSkipName(k, n) => SkipNameSound(s, k, n);
    case IxStat(k, n) => StatSound(s, k, n);
    case IxMapFile(k, n) => MapFileSound(s, k, n);
    case IxDescend(k, n) => DescendSound(s, k, n);
  }

  lemma SoundThread(s: State, step: Step)
    requires Sound(s) && Control(s) && Enabled(false, s, step) && OfThread(step) && Trusted(Do(s, step)) && Trusted(s)
    requires !Swallows(s, step)
    ensures Sound(Do(s, step))
  {
    var t := Do(s, step);
    ThreadForm(s, step);
    if step.ReadQueue? {
      ReadQueueSound(s, step.m);
    } else if step.NextEvent? {
      NextEventSound(s, step.refused);
    } else if step.StatxEvent? {
      StatxEventSound(s, step.skipped);
    } else {
      OtherThreadStep(s, step);
      hide Do, Enabled, Control, OfThread;
      EventsKept(s, t);
    }
  }

  lemma OtherThreadStep(s: State, step: Step)
    requires Enabled(false, s, step) && OfThread(step) && !step.ReadQueue? && !step.NextEvent? && !step.StatxEvent?
    requires Control(s) && Trusted(Do(s, step))
    ensures forall e :: Pending(s, e) ==> Pending(Do(s, step), e)
    ensures Marking(s) ==> Marking(Do(s, step))
  {
    hide PathTarget, Reserved, Record, HasNode, AtPath, Value, Complete, SkippedNow, Fires, Missing, StatxOk, CompleteOk;
  }

  lemma SoundIndex(s: State, step: Step)
    requires Inv(s) && Enabled(false, s, step) && OfIndex(step) && Trusted(Do(s, step))
    ensures Sound(Do(s, step))
  {
    var t := Do(s, step);
    if !step.IxDrain? {
      IndexForm(s, step);
      hide Do, Enabled, Control, OfIndex;
      EventsKept(s, t);
    }
  }

  lemma IndexForm(s: State, step: Step)
    requires Control(s) && Enabled(false, s, step) && OfIndex(step) && !step.IxDrain? && Trusted(Do(s, step))
    ensures Trusted(s)
    ensures var t := Do(s, step);
            SameIndex(s, t) && s.fs == t.fs && s.base == t.base && s.queue == t.queue && s.thread == t.thread
  {
    hide PathTarget, Reserved, Record, HasNode, AtPath, Value, Complete, StatxOk;
  }

  lemma WalkKeepsTrust(s: State, step: Step)
    requires Enabled(false, s, step) && (OfWalk(step) || OfFilesystem(step))
    ensures Trusted(Do(s, step)) == Trusted(s)
  {
    hide PathTarget, Reserved, Record, HasNode, AtPath, Value, Complete;
  }

  lemma ThreadGainsNoTrust(s: State, step: Step)
    requires Enabled(false, s, step) && OfThread(step) && Trusted(Do(s, step))
    ensures Trusted(s)
  {
    ThreadForm(s, step);
    hide Do, Enabled;
  }

  /** The three ways in which a change can be lost. */
  ghost predicate Hazard(s: State, step: Step) {
    TakesOver(s, step) || Sneaks(s, step) || Swallows(s, step)
  }

  lemma StepInv(s: State, step: Step)
    requires Inv(s) && Enabled(false, s, step) && !Hazard(s, step)
    ensures Inv(Do(s, step))
  {
    ForestStep(s, step);
    hide Do, Enabled, Control, Sound, Trusted, Forest, TakesOver, Sneaks, Swallows;
    if OfFilesystem(step) {
      ControlFilesystem(s, step);
      WalkKeepsTrust(s, step);
      if Trusted(s) {
        SoundFilesystem(s, step);
      }
    } else if OfWalk(step) {
      ControlWalk(s, step);
      WalkKeepsTrust(s, step);
      if Trusted(s) {
        SoundWalk(s, step);
      }
    } else if OfThread(step) {
      ControlThread(s, step);
      if Trusted(Do(s, step)) {
        ThreadGainsNoTrust(s, step);
        SoundThread(s, step);
      }
    } else {
      IndexStepInv(s, step);
    }
  }

  lemma IndexStepInv(s: State, step: Step)
    requires Inv(s) && Enabled(false, s, step) && OfIndex(step)
    ensures Inv(Do(s, step))
  {
    ControlIndex(s, step);
    ForestStep(s, step);
    hide Do, Enabled, Control, Sound, Trusted, Forest;
    if Trusted(Do(s, step)) {
      SoundIndex(s, step);
    }
  }

  ghost predicate Safe(init: State, steps: seq<Step>) {
    forall i :: 0 <= i < |steps| ==> !Hazard(After(init, steps[..i]), steps[i])
  }

  lemma {:induction false} RunInv(init: State, steps: seq<Step>)
    requires Legal(false, init, steps) && Safe(init, steps)
    ensures Inv(After(init, steps))
  {
    if steps != [] {
      var n := |steps| - 1;
      assert forall i :: 0 <= i < n ==> steps[..n][..i] == steps[..i];
      RunInv(init, steps[..n]);
      hide Do, Enabled, Inv, Hazard;
      StepInv(After(init, steps[..n]), steps[n]);
    } else {
      hide Complete;
      assert Shape(init);
    }
  }

  // ----- No lost change -------------------------------------------------------------------------

  /** The events that a check against a clean index answers by marking it dirty. */
  predicate Survives(s: State, e: Event) {
    match e
    case Ignored => false
    case Named(d, n) => !Reserved(n) && !(Missing(s, d, n) && SkippedNow(s, e))
    case _ => true
  }

  /** The watch thread has read events that it has not answered yet. */
  predicate Deciding(t: ThreadPc) {
    t.Check? || t.Statx? || t == MarkNow || t == MarkExit
  }

  /** The recorded entry is what is there now, by path, and complete. */
  predicate Current(s: State, k: nat, n: Name) {
    && k < |s.nodes| && (k, n) in s.idx && PathTarget(s, k) == Some(s.nodes[k].dir)
    && match AtPath(s, k, n)
       case SubDir(d) =>
         !Reserved(n) ==> s.idx[(k, n)] == Directory(d) && HasNode(s, k, n)
       case Reg(version) =>
         !Reserved(n) ==> s.idx[(k, n)] == File(version, Some(version))
       case _ =>
         s.idx[(k, n)] == Nothing
  }

  lemma WitnessSurvives(s: State, p: nat, n: Name)
    requires Shape(s) && Grounded(s, p) && Holds(s, p, n)
    ensures Survives(s, Named(s.nodes[p].dir, n))
  {
    assert Fresh(s, p);
    hide SkippedNow, Reserved;
  }

  lemma NothingPending(s: State)
    requires Sound(s) && s.state == Clean && !Deciding(s.thread)
    requires forall e :: e in s.queue ==> !Survives(s, e)
    ensures !Alarm(s)
  {
    assert Buf(s) == [];
    assert Survives(s, Overflow) && Survives(s, Unmounted) && Survives(s, SelfGone(s.root));
    forall p: nat, n | Witness(s, p, n) ensures false {
      WitnessSurvives(s, p, n);
    }
  }

  lemma QuietAgrees(s: State, k: nat, n: Name)
    requires Sound(s) && !Alarm(s) && s.state == Clean && !Deciding(s.thread)
    requires forall e :: e in s.queue ==> !Survives(s, e)
    requires (k, n) in s.idx
    ensures Agrees(s, k, n)
  {
    assert CellOk(s, k, n);
    var e := Named(s.nodes[k].dir, n);
    if Pending(s, e) {
      assert !Survives(s, e);
      if !Reserved(n) {
        SkippedAgrees(s, e);
      }
      hide Sound, Alarm, Missing, SkippedNow;
    }
  }

  /**
    While the index is clean, no surviving event is queued and the watch thread is not between
    reading events and marking, every indexed entry is what the filesystem holds now.  Any thread may
    index at any time, as long as no change is lost in one of the three ways.
   */
  lemma CleanMeansCurrent(init: State, steps: seq<Step>, k: nat, n: Name)
    requires Legal(false, init, steps) && Safe(init, steps)
    requires var s := After(init, steps);
             && s.state == Clean && !Deciding(s.thread) && (forall e :: e in s.queue ==> !Survives(s, e))
             && k < |s.nodes| && n in s.names
    ensures Current(After(init, steps), k, n)
  {
    RunInv(init, steps);
    var s := After(init, steps);
    hide Legal, After;
    QuietIsCurrent(s, k, n);
  }

  lemma QuietIsCurrent(s: State, k: nat, n: Name)
    requires Inv(s) && s.state == Clean && !Deciding(s.thread) && (forall e :: e in s.queue ==> !Survives(s, e))
    requires k < |s.nodes| && n in s.names
    ensures Current(s, k, n)
  {
    assert Sound(s) && Complete(s);
    hide Sound, Forest, Control, HasNode, Survives;
    NothingPending(s);
    QuietAgrees(s, k, n);
    PathsHold(s, k);
  }

  /** What the clean branch makes of the event at the head of its buffer. */
  function Answered(s: State): State {
    var t := Do(s, NextEvent(false));
    if t.thread.Statx? && t.thread.buf != [] then Do(t, StatxEvent(SkippedNow(t, t.thread.buf[0]))) else t
  }

  /** `Survives` is what the loop's clean branch does: such an event, and no other, is answered by a mark. */
  lemma SurvivorsAreMarked(s: State)
    requires s.thread.Check? && !s.thread.dirty && s.thread.buf != []
    ensures Survives(s, s.thread.buf[0]) <==> Marking(Answered(s))
    ensures !Survives(s, s.thread.buf[0]) <==> Answered(s) == s.(thread := Check(false, s.thread.buf[1..], s.thread.stale))
  {
    AnsweredIs(s);
    hide Answered, SkippedNow, Reserved;
  }

  lemma AnsweredIs(s: State)
    requires s.thread.Check? && !s.thread.dirty && s.thread.buf != []
    ensures var e := s.thread.buf[0];
            Answered(s) == match Judge(s, e, false)
                           case Ignore => s.(thread := Check(false, s.thread.buf[1..], s.thread.stale))
                           case React => s.(thread := MarkNow)
                           case Fatal => s.(thread := MarkExit)
                           case AskStatx =>
                             if SkippedNow(s, e) then s.(thread := Check(false, s.thread.buf[1..], s.thread.stale))
                             else s.(thread := MarkNow)
  {
    var e := s.thread.buf[0];
    var t := s.(thread := Statx(false, s.thread.buf, s.thread.stale));
    SameSkipped(s, t, e);
    hide Judge, SkippedNow;
    CheckNext(s);
    CheckStatx(t, SkippedNow(t, e));
    hide Do;
  }

  lemma CheckNext(s: State)
    requires s.thread.Check? && s.thread.buf != []
    ensures Do(s, NextEvent(false)) == Process(s, s.thread.dirty, s.thread.buf, s.thread.stale, false)
  {
    hide Process;
  }

  lemma CheckStatx(s: State, skipped: bool)
    requires s.thread.Statx? && s.thread.buf != []
    ensures Do(s, StatxEvent(skipped)) ==
            if skipped then s.(thread := Check(s.thread.dirty, s.thread.buf[1..], s.thread.stale)) else Survive(s, s.thread.dirty)
  {
    hide Survive;
  }

  lemma SameSkipped(s: State, t: State, e: Event)
    requires s.nodes == t.nodes && s.fs == t.fs && s.base == t.base && s.wd == t.wd
    ensures SkippedNow(t, e) == SkippedNow(s, e)
  {
    if e.Named? && e.d in s.wd {
      PathSame(s, t, s.wd[e.d]);
    }
  }

  lemma {:induction false} PathSame(s: State, t: State, k: nat)
    requires s.nodes == t.nodes && s.fs == t.fs && s.base == t.base
    ensures PathTarget(s, k) == PathTarget(t, k)
  {
    if 0 < k < |s.nodes| && s.nodes[k].parent < k {
      PathSame(s, t, s.nodes[k].parent);
    }
  }

  // ----- When only the callback re-indexes ------------------------------------------------------

  lemma {:induction false} LegalWeaker(init: State, steps: seq<Step>)
    requires Legal(true, init, steps)
    ensures Legal(false, init, steps)
  {
    if steps != [] {
      LegalWeaker(init, steps[..|steps| - 1]);
      EnabledWeaker(After(init, steps[..|steps| - 1]), steps[|steps| - 1]);
      hide Enabled, After;
    }
  }

  lemma EnabledWeaker(s: State, step: Step)
    requires Enabled(true, s, step)
    ensures Enabled(false, s, step)
  {
    hide Complete, PathTarget, AtPath, Resolve, Record, HasNode, Value, OnlyAt, SameContent, SkippedNow, Reserved;
  }

  predicate InDirtyBranch(t: ThreadPc) {
    t == SawDirty || t == PollDirty || ((t.Check? || t.Statx?) && t.dirty)
  }

  /** The thread waits while its callback indexes, and in its dirty branch the index is dirty. */
  predicate Waits(s: State) {
    && (s.index != NoIndex ==> s.thread == Off || s.thread.InCallback?)
    && (InDirtyBranch(s.thread) ==> s.state == Dirty)
  }

  lemma WaitsCheck(s: State, step: Step)
    requires Waits(s) && Enabled(true, s, step) && OfCheck(step)
    ensures Waits(CheckStep(s, step))
  {
    hide Judge, SkippedNow, PathTarget, AtPath, Resolve, Record, HasNode, Value, OnlyAt, SameContent, Reserved, Complete;
  }

  lemma WaitsLoop(s: State, step: Step)
    requires Waits(s) && Enabled(true, s, step) && OfThread(step) && !OfCheck(step)
    ensures Waits(LoopStep(s, step))
  {
    hide Fires, SkippedNow, PathTarget, AtPath, Resolve, Record, HasNode, Value, OnlyAt, SameContent, Reserved, Complete;
  }

  lemma WaitsIndex(s: State, step: Step)
    requires Waits(s) && Enabled(true, s, step) && OfIndex(step)
    ensures Waits(Do(s, step))
  {
    hide SkippedNow, PathTarget, AtPath, Resolve, Record, HasNode, Value, OnlyAt, SameContent, Reserved, Complete;
  }

  lemma WaitsOther(s: State, step: Step)
    requires Waits(s) && (OfFilesystem(step) || OfWalk(step))
    ensures Waits(Do(s, step))
  {
    hide SkippedNow, PathTarget, AtPath, Resolve, Record, HasNode, Value, Reserved, Complete, Written, Enqueue;
  }

  lemma WaitsStep(s: State, step: Step)
    requires Waits(s) && Enabled(true, s, step)
    ensures Waits(Do(s, step))
  {
    hide Enabled, FilesystemStep, WalkStep, IndexStep, CheckStep, LoopStep, Waits;
    if OfFilesystem(step) || OfWalk(step) {
      WaitsOther(s, step);
    } else if OfIndex(step) {
      WaitsIndex(s, step);
    } else if OfCheck(step) {
      WaitsCheck(s, step);
    } else {
      WaitsLoop(s, step);
    }
  }

  lemma {:induction false} RunWaits(init: State, steps: seq<Step>)
    requires Legal(true, init, steps)
    ensures Waits(After(init, steps))
  {
    if steps != [] {
      var n := |steps| - 1;
      RunWaits(init, steps[..n]);
      hide Do, Enabled, Waits;
      WaitsStep(After(init, steps[..n]), steps[n]);
    }
  }

  lemma {:induction false} LegalPrefix(alone: bool, init: State, steps: seq<Step>, i: nat)
    requires Legal(alone, init, steps) && i <= |steps|
    ensures Legal(alone, init, steps[..i])
    decreases |steps|
  {
    hide Enabled, After, Init;
    if i < |steps| {
      var n := |steps| - 1;
      LegalPrefix(alone, init, steps[..n], i);
      assert steps[..n][..i] == steps[..i];
    } else {
      assert steps[..i] == steps;
    }
  }

  /** While only the callback re-indexes the dirty branch consumes nothing that matters. */
  lemma AloneSwallowsNothing(init: State, steps: seq<Step>, i: nat)
    requires Legal(true, init, steps) && i < |steps|
    ensures !Swallows(After(init, steps[..i]), steps[i])
  {
    LegalPrefix(true, init, steps, i);
    RunWaits(init, steps[..i]);
    hide Legal, After, Judge;
  }

  // ----- When every file has one name -----------------------------------------------------------

  /** The name that the file is written through is the only one it has. */
  predicate OnlyName(s: State, file: nat, d: Dir, n: Name) {
    forall c :: c in s.fs && IsFile(s.fs[c], file) ==> c == (d, n)
  }

  lemma OneNameSneaksNothing(s: State, file: nat, d: Dir, n: Name, version: nat, lost: bool)
    requires OnlyName(s, file, d, n)
    ensures !Sneaks(s, Write(file, d, n, version, lost))
  {
    hide Holds;
  }

  /**
    The form for an application that leaves the index to its callback, whose files have one name each
    and whose directories are not replaced by links while they are indexed.
   */
  lemma CallbackCleanMeansCurrent(init: State, steps: seq<Step>, k: nat, n: Name)
    requires Legal(true, init, steps)
    requires forall i :: 0 <= i < |steps| ==> Plain(After(init, steps[..i]), steps[i])
    requires var s := After(init, steps);
             && s.state == Clean && !Deciding(s.thread) && (forall e :: e in s.queue ==> !Survives(s, e))
             && k < |s.nodes| && n in s.names
    ensures Current(After(init, steps), k, n)
  {
    LegalWeaker(init, steps);
    forall i | 0 <= i < |steps| ensures !Hazard(After(init, steps[..i]), steps[i]) {
      AloneSwallowsNothing(init, steps, i);
      hide Legal, After, Swallows;
      PlainIsSafe(After(init, steps[..i]), steps[i]);
    }
    assert Safe(init, steps);
    hide Legal, After, Safe, Survives;
    CleanMeansCurrent(init, steps, k, n);
  }

  /** The step writes a file through its only name, or descends without a link. */
  predicate Plain(s: State, step: Step) {
    && (step.Write? ==> OnlyName(s, step.file, step.d, step.n))
    && (step.IxDescend? ==> PlainEntry(s, step.k, step.n))
  }

  lemma PlainIsSafe(s: State, step: Step)
    requires Plain(s, step)
    ensures !TakesOver(s, step) && !Sneaks(s, step)
  {
    if step.Write? {
      OneNameSneaksNothing(s, step.file, step.d, step.n, step.version, step.lost);
    }
    hide PlainEntry, Sneaks;
  }
}
