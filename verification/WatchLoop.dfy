/**
  The inotify watch: a filesystem that changes at any time, the kernel's event queue, an index walk
  that adds its watches as it goes, and the watch thread with its callback.  One step per atomic
  operation, queue read or filesystem call.

  The index is modelled by what the walk saw: `nodes` are the directories it descended into, in
  order, and `idx` is what it recorded for each name under each of them.
 */
module WatchLoop {
  import opened Names
  import FiemapTree
  import opened IndexStates

  type Dir = nat
  type Name = string

  /** What a regular file is at some moment; the file may have several names. */
  datatype Content = Content(file: nat, version: nat)

  /** What a name is at some moment: nothing, a directory, a regular file, a symbolic link, or another type that is skipped. */
  datatype Val = Absent | SubDir(d: Dir) | Reg(version: Content) | Link(to: Option<Dir>) | Special

  /** What the walk recorded; a file is read twice, by statx() and by its mapping. */
  datatype Seen = Nothing | Directory(d: Dir) | File(meta: Content, mapped: Option<Content>)

  /** A directory of the walk: where its watch is, and what opendir() opened. */
  datatype Node = Node(dir: Dir, parent: nat, name: Name, listing: Option<Dir>)

  datatype Event = Named(d: Dir, n: Name) | SelfGone(d: Dir) | Ignored | Overflow | Unmounted

  datatype IndexPc = NoIndex | Begun | Opened | Cleared | Walking | Done(ok: bool) | Closed(ok: bool) | Settled(ok: bool)

  /**
    `dirty` tells which of the two branches of the loop called check_events().  `stale` tells that the
    events were read before the index was rewritten; no step depends on it but a statx() of a path that
    was assembled from the earlier index.
   */
  datatype ThreadPc =
    | Off
    | Top
    | SawDirty
    | InCallback(seqno: nat)
    | AfterCallback(seqno: nat)
    | PollDirty
    | PollClean
    | Check(dirty: bool, buf: seq<Event>, stale: bool)
    | Statx(dirty: bool, buf: seq<Event>, stale: bool)  // the event at the head names an entry the index lacks
    | MarkNow
    | MarkExit

  datatype State = State(
    names: set<Name>,                // every name there can be
    fs: map<(Dir, Name), Val>,
    base: Dir,                       // what the path of the indexed root names
    queue: seq<Event>,
    watched: set<Dir>,
    root: Dir,
    nodes: seq<Node>,
    wd: map<Dir, nat>,
    idx: map<(nat, Name), Seen>,
    state: IndexState,
    seqno: nat,
    lastErr: bool,
    index: IndexPc,
    thread: ThreadPc,
    cbSeq: int,
    lastFire: Option<nat>)           // the last callback since the loop was re-armed

  datatype Step =
    // the filesystem and other threads
    | Change(d: Dir, n: Name, v: Val, lost: bool)
    | Write(file: nat, d: Dir, n: Name, version: nat, lost: bool)  // through name `n` in `d`, whether or not that is in the tree
    | MoveRoot(d: Dir, lost: bool)
    | Retarget(d: Dir, n: Name, to: Option<Dir>)  // a link comes to lead elsewhere, which no watch reports
    | TouchDir(d: Dir)                 // an event on a watched directory itself
    | UnmountFs
    | MarkDirty
    // xal_index()
    | IxBegin
    | IxOpen
    | IxClear(ignored: nat)
    | IxDrain
    | IxRoot
    | IxOpenDir(k: nat)
    | IxSkipName(k: nat, n: Name)
    | IxStat(k: nat, n: Name)
    | IxMapFile(k: nat, n: Name)
    | IxDescend(k: nat, n: Name)
    | IxFinish
    | IxFail
    | IxClose
    | IxSettle
    | IxRecord
    // the watch thread
    | Start
    | Stop
    | LoadState
    | LoadSeq
    | CallbackReturns
    | Latch
    | PollTimeout
    | PollReady
    | PollError
    | ReadQueue(m: nat)
    | ReadError
    | NextEvent(refused: bool)         // `refused`: the lookup itself fails
    | StatxEvent(skipped: bool)
    | Mark
    | MarkAndExit

  // ----- The filesystem -------------------------------------------------------------------------

  function Value(fs: map<(Dir, Name), Val>, d: Dir, n: Name): Val {
    if (d, n) in fs then fs[(d, n)] else Absent
  }

  /** A directory is in one place: `v` may appear at cell `at` if it is no directory linked elsewhere. */
  predicate OnlyAt(fs: map<(Dir, Name), Val>, at: (Dir, Name), v: Val) {
    forall c :: c in fs && c != at && v.SubDir? ==> fs[c] != v
  }

  /** No directory is in two places, and that of the root's path is in none. */
  predicate Forest(fs: map<(Dir, Name), Val>, base: Dir) {
    && (forall a, b :: a in fs && b in fs && fs[a].SubDir? && fs[a] == fs[b] ==> a == b)
    && (forall a :: a in fs ==> fs[a] != SubDir(base))
  }

  /** A file is the same under all its names: `v` may appear at cell `at` if it is so elsewhere. */
  predicate SameContent(fs: map<(Dir, Name), Val>, at: (Dir, Name), v: Val) {
    forall c :: c in fs && c != at && v.Reg? && IsFile(fs[c], v.version.file) ==> fs[c] == v
  }

  predicate Consistent(fs: map<(Dir, Name), Val>) {
    forall c :: c in fs ==> SameContent(fs, c, fs[c])
  }

  predicate IsFile(v: Val, file: nat) {
    v.Reg? && v.version.file == file
  }

  /** A write changes the file under all its names. */
  function Written(fs: map<(Dir, Name), Val>, file: nat, version: nat): map<(Dir, Name), Val> {
    map c | c in fs :: if IsFile(fs[c], file) then Reg(Content(file, version)) else fs[c]
  }

  predicate Reserved(n: Name) {
    FiemapTree.IsSnapshotName(n)
  }

  /** The directory that a path ending in `v` leads to; symbolic links are followed. */
  function Resolve(v: Val): Option<Dir> {
    match v
    case SubDir(d) => Some(d)
    case Link(to) => to
    case _ => None
  }

  /** The directory that the path of node `k` leads to now. */
  function PathTarget(s: State, k: nat): Option<Dir>
    decreases k
  {
    if k >= |s.nodes| then None
    else if k == 0 then Some(s.base)
    else if s.nodes[k].parent >= k then None
    else
      var up := PathTarget(s, s.nodes[k].parent);
      if up.None? then None else Resolve(Value(s.fs, up.value, s.nodes[k].name))
  }

  /** What the path of name `n` in node `k` is now; a link in the last place is not followed. */
  function AtPath(s: State, k: nat, n: Name): Val {
    var up := PathTarget(s, k);
    if up.None? then Absent else Value(s.fs, up.value, n)
  }

  /** The kernel drops an event equal to the last one, and one that does not fit. */
  function Enqueue(queue: seq<Event>, e: Event, lost: bool): seq<Event> {
    var e' := if lost then Overflow else e;
    if queue != [] && queue[|queue| - 1] == e' then queue else queue + [e']
  }

  // ----- The index ------------------------------------------------------------------------------

  function Record(n: Name, v: Val): Seen {
    if Reserved(n) then Nothing
    else match v
      case SubDir(d) => Directory(d)
      case Reg(version) => File(version, None)
      case _ => Nothing
  }

  /** The walk has recorded every name, descended into every directory and mapped every file. */
  predicate Complete(s: State) {
    && s.nodes != []
    && (forall k, n :: 0 <= k < |s.nodes| && n in s.names ==> (k, n) in s.idx && (s.idx[(k, n)].File? ==> s.idx[(k, n)].mapped.Some?))
    && (forall k, n :: 0 <= k < |s.nodes| && n in s.names && (k, n) in s.idx && s.idx[(k, n)].Directory? ==> HasNode(s, k, n))
  }

  predicate HasNode(s: State, k: nat, n: Name) {
    exists j :: 0 < j < |s.nodes| && s.nodes[j].parent == k && s.nodes[j].name == n
  }

  // ----- check_events ---------------------------------------------------------------------------

  /** The index is clean and holds the directory, and it lacks the name. */
  predicate Missing(s: State, d: Dir, n: Name) {
    s.state == Clean && s.index == NoIndex && d in s.wd && (s.wd[d], n) in s.idx && s.idx[(s.wd[d], n)] == Nothing
  }

  /** A surviving event: in the clean branch it is about to be marked, in the dirty one it re-arms. */
  function Survive(s: State, dirty: bool): State {
    if dirty then s.(thread := Top, cbSeq := -1, lastFire := None) else s.(thread := MarkNow)
  }

  /** What check_events() makes of one event, before any statx(). */
  datatype Verdict = Ignore | React | Fatal | AskStatx

  function Judge(s: State, e: Event, refused: bool): Verdict {
    match e
    case Overflow => React
    case Ignored => Ignore
    case Unmounted => Fatal
    case SelfGone(_) => React
    case Named(d, n) =>
      if Reserved(n) then Ignore
      else if !refused && Missing(s, d, n) then AskStatx
      else React
  }

  function Process(s: State, dirty: bool, buf: seq<Event>, stale: bool, refused: bool): State
    requires buf != []
  {
    match Judge(s, buf[0], refused)
    case Ignore => s.(thread := Check(dirty, buf[1..], stale))
    case React => Survive(s, dirty)
    case Fatal => s.(thread := MarkExit)
    case AskStatx => s.(thread := Statx(dirty, buf, stale))
  }

  /** The thread's events are from before the index that is being written. */
  function Outdated(t: ThreadPc): ThreadPc {
    match t
    case Check(dirty, buf, _) => Check(dirty, buf, true)
    case Statx(dirty, buf, _) => Statx(dirty, buf, true)
    case _ => t
  }

  /** `path_is_skipped` for the event at the head. */
  predicate SkippedNow(s: State, e: Event) {
    e.Named? && e.d in s.wd && var v := AtPath(s, s.wd[e.d], e.n); v.Special? || v.Link?
  }

  // ----- Steps ----------------------------------------------------------------------------------

  /** `alone`: after the watch starts only its callback re-indexes. */
  predicate Enabled(alone: bool, s: State, step: Step) {
    match step
    case Change(d, n, v, _) => n in s.names && OnlyAt(s.fs, (d, n), v) && SameContent(s.fs, (d, n), v) && v != SubDir(s.base)
    case Write(_, _, n, _, _) => n in s.names
    case MoveRoot(d, _) => forall c :: c in s.fs ==> s.fs[c] != SubDir(d)
    case Retarget(d, n, _) => Value(s.fs, d, n).Link?
    case TouchDir(_) => true
    case UnmountFs => true
    case MarkDirty => true
    case IxBegin => s.index == NoIndex && (alone ==> s.thread == Off || s.thread.InCallback?)
    case IxOpen => s.index == Begun
    case IxClear(_) => s.index == Opened
    case IxDrain => s.index == Cleared
    case IxRoot => s.index == Walking && s.nodes == []
    case IxOpenDir(k) => s.index == Walking && k < |s.nodes| && s.nodes[k].listing.None? && PathTarget(s, k).Some?
    case IxSkipName(k, n) =>
      && s.index == Walking && k < |s.nodes| && s.nodes[k].listing.Some? && n in s.names && (k, n) !in s.idx
      && Record(n, Value(s.fs, s.nodes[k].listing.value, n)) == Nothing
    case IxStat(k, n) =>
      && s.index == Walking && k < |s.nodes| && s.nodes[k].listing.Some? && n in s.names && (k, n) !in s.idx
      && !Reserved(n) && AtPath(s, k, n) != Absent
    case IxMapFile(k, n) =>
      && s.index == Walking && k < |s.nodes| && (k, n) in s.idx && s.idx[(k, n)].File? && s.idx[(k, n)].mapped.None?
      && AtPath(s, k, n).Reg?
    case IxDescend(k, n) =>
      && s.index == Walking && k < |s.nodes| && (k, n) in s.idx && s.idx[(k, n)].Directory? && !HasNode(s, k, n)
      && Resolve(AtPath(s, k, n)).Some?
    case IxFinish => s.index == Walking && Complete(s)
    case IxFail => s.index == Opened || s.index == Cleared || s.index == Walking
    case IxClose => s.index.Done?
    case IxSettle => s.index.Closed?
    case IxRecord => s.index.Settled?
    case Start => s.thread == Off && s.nodes != [] && !s.lastErr && (alone ==> s.index == NoIndex)
    case Stop => s.thread == Top
    case LoadState => s.thread == Top
    case LoadSeq => s.thread == SawDirty
    case CallbackReturns => s.thread.InCallback? && (alone ==> s.index == NoIndex)
    case Latch => s.thread.AfterCallback?
    case PollTimeout => s.thread == PollDirty || s.thread == PollClean
    case PollReady => s.thread == PollDirty || s.thread == PollClean
    case PollError => s.thread == PollDirty || s.thread == PollClean
    case ReadQueue(m) => s.thread.Check? && s.thread.buf == [] && m <= |s.queue| && (m == 0 ==> s.queue == [])
    case ReadError => s.thread.Check? && s.thread.buf == []
    case NextEvent(_) => s.thread.Check? && s.thread.buf != []
    case StatxEvent(skipped) =>
      s.thread.Statx? && s.thread.buf != [] && (s.thread.stale || skipped == SkippedNow(s, s.thread.buf[0]))
    case Mark => s.thread == MarkNow
    case MarkAndExit => s.thread == MarkExit
  }

  predicate OfFilesystem(step: Step) {
    step.Change? || step.Write? || step.MoveRoot? || step.Retarget? || step.TouchDir? || step.UnmountFs?
  }

  predicate OfWalk(step: Step) {
    step.IxRoot? || step.IxOpenDir? || step.IxSkipName? || step.IxStat? || step.IxMapFile? || step.IxDescend?
  }

  predicate OfIndex(step: Step) {
    || step.MarkDirty? || step.IxBegin? || step.IxOpen? || step.IxClear? || step.IxDrain? || step.IxFinish?
    || step.IxFail? || step.IxClose? || step.IxSettle? || step.IxRecord?
  }

  predicate OfThread(step: Step) {
    !OfFilesystem(step) && !OfWalk(step) && !OfIndex(step)
  }

  function Do(s: State, step: Step): State {
    if OfFilesystem(step) then FilesystemStep(s, step)
    else if OfWalk(step) then WalkStep(s, step)
    else if OfIndex(step) then IndexStep(s, step)
    else ThreadStep(s, step)
  }

  function FilesystemStep(s: State, step: Step): State
    requires OfFilesystem(step)
  {
    match step
    case Change(d, n, v, lost) =>
      s.(fs := s.fs[(d, n) := v], queue := if d in s.watched then Enqueue(s.queue, Named(d, n), lost) else s.queue)
    case Write(file, d, n, version, lost) =>
      s.(fs := Written(s.fs, file, version), queue := if d in s.watched then Enqueue(s.queue, Named(d, n), lost) else s.queue)
    case MoveRoot(d, lost) =>
      s.(base := d, queue := if s.base in s.watched then Enqueue(s.queue, SelfGone(s.base), lost) else s.queue)
    case Retarget(d, n, to) => s.(fs := s.fs[(d, n) := Link(to)])
    case TouchDir(d) => s.(queue := if d in s.watched then Enqueue(s.queue, SelfGone(d), false) else s.queue)
    case UnmountFs => s.(queue := if s.watched == {} then s.queue else Enqueue(s.queue, Unmounted, false))
  }

  function WalkStep(s: State, step: Step): State
    requires OfWalk(step)
  {
    match step
    case IxRoot => s.(nodes := [Node(s.base, 0, "", None)], root := s.base, wd := map[s.base := 0], watched := s.watched + {s.base})
    case IxOpenDir(k) =>
      if k < |s.nodes| then s.(nodes := s.nodes[k := s.nodes[k].(listing := PathTarget(s, k))]) else s
    case IxSkipName(k, n) => s.(idx := s.idx[(k, n) := Nothing])
    case IxStat(k, n) => s.(idx := s.idx[(k, n) := Record(n, AtPath(s, k, n))])
    case IxMapFile(k, n) =>
      if (k, n) in s.idx && s.idx[(k, n)].File? && AtPath(s, k, n).Reg? then
        s.(idx := s.idx[(k, n) := s.idx[(k, n)].(mapped := Some(AtPath(s, k, n).version))])
      else s
    case IxDescend(k, n) =>
      var d := Resolve(AtPath(s, k, n));
      if d.None? then s
      else
        s.(nodes := s.nodes + [Node(d.value, k, n, None)], wd := s.wd[d.value := |s.nodes|], watched := s.watched + {d.value})
  }

  function IndexStep(s: State, step: Step): State
    requires OfIndex(step)
  {
    match step
    case MarkDirty => s.(state := Dirty)
    case IxBegin => s.(index := Begun, state := Indexing)
    case IxOpen => s.(index := Opened, seqno := s.seqno + 1)
    case IxClear(ignored) =>
      s.(index := Cleared, nodes := [], idx := map[], wd := map[], watched := {},
         queue := s.queue + seq(ignored, _ => Ignored), thread := Outdated(s.thread))
    case IxDrain => s.(index := Walking, queue := [], thread := Outdated(s.thread))
    case IxFinish => s.(index := Done(true))
    case IxFail => s.(index := Done(false))
    case IxClose => if s.index.Done? then s.(index := Closed(s.index.ok), seqno := s.seqno + 1) else s
    case IxSettle =>
      if !s.index.Closed? then s
      else if !s.index.ok then s.(index := Settled(false), state := Dirty)
      else s.(index := Settled(true), state := if s.state == Indexing then Clean else s.state)
    case IxRecord => if s.index.Settled? then s.(index := NoIndex, lastErr := !s.index.ok) else s
  }

  function ThreadStep(s: State, step: Step): State
    requires OfThread(step)
  {
    if OfCheck(step) then CheckStep(s, step) else LoopStep(s, step)
  }

  predicate OfCheck(step: Step) {
    step.ReadQueue? || step.ReadError? || step.NextEvent? || step.StatxEvent?
  }

  function CheckStep(s: State, step: Step): State
    requires OfCheck(step)
  {
    match step
    case ReadQueue(m) =>
      if !s.thread.Check? || m > |s.queue| then s
      else if m == 0 then s.(thread := Top)
      else s.(thread := Check(s.thread.dirty, s.queue[..m], false), queue := s.queue[m..])
    case ReadError => s.(thread := MarkExit)
    case NextEvent(refused) =>
      if s.thread.Check? && s.thread.buf != [] then Process(s, s.thread.dirty, s.thread.buf, s.thread.stale, refused) else s
    case StatxEvent(skipped) =>
      if !s.thread.Statx? || s.thread.buf == [] then s
      else if skipped then s.(thread := Check(s.thread.dirty, s.thread.buf[1..], s.thread.stale))
      else Survive(s, s.thread.dirty)
  }

  function LoopStep(s: State, step: Step): State
    requires OfThread(step) && !OfCheck(step)
  {
    match step
    case Start => s.(thread := Top, cbSeq := -1, lastFire := None)
    case Stop => s.(thread := Off)
    case LoadState =>
      (match s.state
       case Indexing => s
       case Dirty => s.(thread := SawDirty)
       case Clean => s.(thread := PollClean, cbSeq := -1, lastFire := None))
    case LoadSeq =>
      if Fires(s) then s.(thread := InCallback(s.seqno), lastFire := Some(s.seqno)) else s.(thread := PollDirty)
    case CallbackReturns => if s.thread.InCallback? then s.(thread := AfterCallback(s.thread.seqno)) else s
    case Latch =>
      if s.thread.AfterCallback? then s.(thread := Top, cbSeq := if s.lastErr then s.seqno else s.thread.seqno) else s
    case PollTimeout => s.(thread := Top)
    case PollReady => s.(thread := Check(s.thread == PollDirty, [], false))
    case PollError => s.(thread := MarkExit)
    case Mark => s.(thread := Top, state := Dirty)
    case MarkAndExit => s.(thread := Off, state := Dirty)
  }

  /** The condition under which the loop calls the callback. */
  predicate Fires(s: State) {
    s.seqno % 2 == 0 && s.seqno != s.cbSeq
  }

  predicate Init(s: State) {
    && s.queue == [] && s.watched == {} && s.nodes == [] && s.idx == map[] && s.wd == map[]
    && s.state != Indexing && s.seqno == 0 && !s.lastErr && s.index == NoIndex && s.thread == Off
    && s.cbSeq == -1 && s.lastFire == None && Forest(s.fs, s.base) && Consistent(s.fs)
  }

  function After(init: State, steps: seq<Step>): State {
    if steps == [] then init else Do(After(init, steps[..|steps| - 1]), steps[|steps| - 1])
  }

  ghost predicate Legal(alone: bool, init: State, steps: seq<Step>) {
    if steps == [] then Init(init)
    else
      var n := |steps| - 1;
      Legal(alone, init, steps[..n]) && Enabled(alone, After(init, steps[..n]), steps[n])
  }
}
