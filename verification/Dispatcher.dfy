/** One owner runtime: start, failed-start teardown and stop, beside any number of admitted
    invocations and operations. The lifecycle gate lets one control task run at a time; the
    invocation lock is first in, first out. Every awaited or foreign call is a step of its own
    and may fail or raise. */
module Dispatcher {
  import opened Wrappers
  import Bytes
  import Media
  import Session

  type TaskId = nat

  /** Who waits for or holds the invocation lock. */
  datatype Who = Task(t: TaskId) | Stopper

  /** An invocation or operation in progress, with the artifacts to unpin when it is over. */
  datatype Work = Work(admitted: bool, refs: seq<Media.Ref>)

  const PLAIN := Work(true, [])
  const OUTSIDE := Work(false, [])

  datatype Control =
    | Idle
    // start(), under the gate
    | Hydrating | Launching | Installing | Binding
    // _teardown_failed_start()
    | Revoking | Quiescing | Aborting
    // stop()
    | Queued | Draining | Drained | Retiring | Ending

  /** `held` is the operating-system lock, `handle` the Dispatcher's reference to it; `sb` is
      the session manager's browser reference, `live` the browser itself. `residue` are the
      files the last cleanup could not delete. */
  datatype Runtime = Runtime(session: bool, fence: Session.Fence, handle: bool, held: bool, sb: bool, live: bool,
                             control: Control, holder: Option<Who>, queue: seq<Who>, tasks: map<TaskId, Work>,
                             media: Media.Registry, residue: set<Media.Digest>)

  datatype Acquire = Busy | Owned | Dropped

  datatype ReleaseOutcome = Released | ReleaseRaises(stillHeld: bool)

  datatype Event =
    | CallStart(acquire: Acquire)
    | LaunchBrowser
    | BrowserTurns(alive: bool)
    | StartTick(good: bool, stopped: bool)
    | TearTick(good: bool, failing: set<nat>, release: ReleaseOutcome)
    | CallStop(caller: Option<TaskId>, transportStops: bool, stuck: set<Media.Digest>, release: ReleaseOutcome)
    | StopTick(good: bool, failing: set<nat>, stuck: set<Media.Digest>, release: ReleaseOutcome)
    | Grant
    | Invoke(t: TaskId)
    | Operate(t: TaskId)
    | Leave(t: TaskId)
    | Ingress(t: TaskId, items: seq<(Media.Ref, bool)>, killed: bool)
    | IngestBy(t: TaskId, staged: Media.Staged, ref: Media.Ref)
    | ReleaseBy(t: TaskId, ref: Media.Ref, unlinks: bool)

  // ---- ownership ----------------------------------------------------------------------------

  /** _release_authority(): refused over a session that is not TERMINAL; the handle goes only
      after the release worked. */
  function ReleaseAuthority(s: Runtime, o: ReleaseOutcome): Runtime {
    if (s.session && !s.fence.state.Terminal?) || !s.handle then s
    else match o
         case Released => s.(held := false, handle := false)
         case ReleaseRaises(stillHeld) => s.(held := s.held && stillHeld)
  }

  /** terminalize() and abort_from_starting(): legal from one state, and only once revocation
      has completed. */
  function Terminalize(f: Session.Fence, from: Session.State, failing: set<nat>): (Session.Fence, bool) {
    if f.state.Terminal? then (f, true)
    else if f.state != from then (f, false)
    else
      var (g, r) := Session.Revoke(f, failing);
      if !r.Revoked? then (g, false)
      else match Session.EnterTerminal(g, from)
           case Ok(h) => (h, true)
           case Err(_) => (g, false)
  }

  // ---- start ----------------------------------------------------------------------------------

  function Start(s: Runtime, a: Acquire): Runtime {
    if s.control != Idle || s.session then s
    else match a
         case Busy => s
         case Owned => s.(session := true, fence := Session.FRESH.(revokers := 1), handle := true, held := true, control := Hydrating)
         case Dropped => s.(held := true)
  }

  /** activate(), and with it the end of start(). */
  function Bound(s: Runtime): Runtime {
    var r := Session.Activate(s.fence);
    s.(fence := if r.Ok? then r.value else s.fence, control := Idle)
  }

  /** One awaited step of start(). `stopped`: on failure, whether the clean-up the step itself
      tries could stop the browser. */
  function StartStep(s: Runtime, good: bool, stopped: bool): Runtime {
    match s.control
    case Hydrating => s.(control := if good then Launching else Revoking)
    case Launching =>
      if good && s.sb then s.(control := Installing)
      else s.(control := Revoking, sb := s.sb && !stopped, live := s.live && !stopped)
    case Installing =>
      if good then s.(control := Binding)
      else s.(control := Revoking, sb := s.sb && !stopped, live := s.live && !stopped)
    case Binding =>
      if good then Bound(s) else s.(control := Revoking)
    case _ => s
  }

  function TearStep(s: Runtime, good: bool, failing: set<nat>, o: ReleaseOutcome): Runtime {
    match s.control
    case Revoking =>
      var (f, r) := Session.Revoke(s.fence, failing);
      s.(fence := f, control := if r.Revoked? then Quiescing else Idle)
    case Quiescing => if good then s.(sb := false, live := false, control := Aborting) else s.(control := Idle)
    case Aborting =>
      if !good then s.(control := Idle)
      else
        var (f, done) := Terminalize(s.fence, Session.Starting, failing);
        var n := s.(fence := f, control := Idle);
        if done then ReleaseAuthority(n, o) else n
    case _ => s
  }

  // ---- stop -----------------------------------------------------------------------------------

  function Enqueue(s: Runtime, w: Who): Runtime {
    if s.holder.None? && s.queue == [] then s.(holder := Some(w)) else s.(queue := s.queue + [w])
  }

  function Sweep(s: Runtime, stuck: set<Media.Digest>): Runtime {
    s.(media := Media.Cleanup(s.media, stuck), residue := stuck)
  }

  /** Reject new admission, then reclaim what is not pinned. */
  function CloseAdmission(s: Runtime, stuck: set<Media.Digest>): Runtime {
    var r := Session.BeginDrain(s.fence);
    Sweep(s.(fence := if r.Ok? then r.value else s.fence), stuck)
  }

  function QueueStopper(s: Runtime): Runtime {
    Enqueue(s, Stopper).(control := if s.holder.None? && s.queue == [] then Draining else Queued)
  }

  function Stop(s: Runtime, caller: Option<TaskId>, transportStops: bool, stuck: set<Media.Digest>, o: ReleaseOutcome): Runtime {
    if s.control != Idle then s
    else if caller.Some? && s.holder == Some(Task(caller.value)) then s
    else if !s.session || !s.handle then s
    else if s.fence.state.Terminal? then ReleaseAuthority(s, o)
    else
      var n := CloseAdmission(s, stuck);
      if !transportStops then n else QueueStopper(n)
  }

  /** Leaving the `async with` block of stop(). */
  function ExitStop(s: Runtime): Runtime {
    s.(holder := None, control := Idle)
  }

  function StopStep(s: Runtime, good: bool, failing: set<nat>, stuck: set<Media.Digest>, o: ReleaseOutcome): Runtime {
    match s.control
    case Queued => if good then s else s.(queue := Drop(s.queue, Stopper), control := Idle)
    case Draining =>
      if !good then ExitStop(s) else if s.fence.active == 0 then s.(control := Drained) else s
    case Drained =>
      var (f, r) := Session.Revoke(s.fence, failing);
      if r.Revoked? then Sweep(s.(fence := f), stuck).(control := Retiring) else ExitStop(s.(fence := f))
    case Retiring => if good then s.(sb := false, live := false, control := Ending) else ExitStop(s)
    case Ending =>
      var (f, done) := Terminalize(s.fence, Session.Draining, failing);
      var n := ExitStop(s.(fence := f));
      if done then ReleaseAuthority(n, o) else n
    case _ => s
  }

  // ---- work -----------------------------------------------------------------------------------

  /** The queue without one entry, order kept. */
  function Drop(q: seq<Who>, w: Who): seq<Who>
    decreases |q|
  {
    if q == [] then [] else (if q[0] == w then [] else [q[0]]) + Drop(q[1..], w)
  }

  function GrantLock(s: Runtime): Runtime {
    if s.holder.Some? || s.queue == [] then s
    else
      var w := s.queue[0];
      s.(holder := Some(w), queue := s.queue[1..], control := if w.Stopper? then Draining else s.control)
  }

  /** invoke(): admission and queueing with nothing in between. Without a session there is
      nothing to admit to. */
  function InvokeTask(s: Runtime, t: TaskId): Runtime {
    if t in s.tasks then s
    else if !s.session then Enqueue(s.(tasks := s.tasks[t := OUTSIDE]), Task(t))
    else match Session.Admit(s.fence, 0, None)
         case Ok(f) => Enqueue(s.(fence := f, tasks := s.tasks[t := PLAIN]), Task(t))
         case Err(_) => s
  }

  /** Admitted work that does not take the lock: reconciliation and media ingress. */
  function OperateTask(s: Runtime, t: TaskId): Runtime {
    if t in s.tasks || !s.session then s
    else match Session.Admit(s.fence, 0, None)
         case Ok(f) => s.(fence := f, tasks := s.tasks[t := PLAIN])
         case Err(_) => s
  }

  /** An admitted media request up to its first suspension: resolve all, pin each, and enter the
      invocation under the same admission. A failing resolution or pin leaves at once; a tripped
      kill switch lets the invocation return at once. */
  function IngressTask(s: Runtime, t: TaskId, items: seq<(Media.Ref, bool)>, killed: bool): Runtime {
    if t in s.tasks || !s.session then s
    else match Session.Admit(s.fence, 0, None)
         case Err(_) => s
         case Ok(f) => if Media.ResolveOrdered(s.media, items).Err? then s else PinAndCall(s, f, t, Media.Refs(items), killed)
  }

  function PinAndCall(s: Runtime, f: Session.Fence, t: TaskId, refs: seq<Media.Ref>, killed: bool): Runtime {
    var (g, code) := Media.PinEach(s.media, refs, t);
    if code.Some? then s.(media := g)
    else
      var n := s.(media := g, fence := f, tasks := s.tasks[t := Work(true, refs)]);
      if killed then LeaveTask(n, t) else Enqueue(n, Task(t))
  }

  /** The end of a task, however its invocation ended, cancellation included: unpin each, leave
      the lock or its queue, leave the admission. */
  function LeaveTask(s: Runtime, t: TaskId): Runtime {
    if t !in s.tasks then s else Depart(s.(media := Media.UnpinEach(s.media, s.tasks[t].refs, t)), t)
  }

  function Depart(s: Runtime, t: TaskId): Runtime
    requires t in s.tasks
  {
    s.(tasks := s.tasks - {t}, fence := if s.tasks[t].admitted then Session.Leave(s.fence) else s.fence,
       holder := if s.holder == Some(Task(t)) then None else s.holder, queue := Drop(s.queue, Task(t)))
  }

  predicate Admitted(s: Runtime, t: TaskId) {
    t in s.tasks && s.tasks[t].admitted
  }

  function MediaStep(s: Runtime, e: Event): Runtime {
    match e
    case IngestBy(t, staged, ref) =>
      if Admitted(s, t) && ref !in s.media.entries then s.(media := Media.Ingest(s.media, staged, ref).0) else s
    case ReleaseBy(t, ref, unlinks) =>
      if Admitted(s, t) then s.(media := Media.Release(s.media, ref, unlinks).0) else s
    case _ => s
  }

  function ControlStep(s: Runtime, e: Event): Runtime {
    match e
    case CallStart(a) => Start(s, a)
    case LaunchBrowser => if s.control == Launching then s.(sb := true) else s
    case BrowserTurns(alive) => if s.sb then s.(live := alive) else s
    case StartTick(good, stopped) => StartStep(s, good, stopped)
    case TearTick(good, failing, o) => TearStep(s, good, failing, o)
    case CallStop(caller, transportStops, stuck, o) => Stop(s, caller, transportStops, stuck, o)
    case StopTick(good, failing, stuck, o) => StopStep(s, good, failing, stuck, o)
    case _ => s
  }

  function TaskStep(s: Runtime, e: Event): Runtime {
    match e
    case Grant => GrantLock(s)
    case Invoke(t) => InvokeTask(s, t)
    case Operate(t) => OperateTask(s, t)
    case Leave(t) => LeaveTask(s, t)
    case Ingress(t, items, killed) => IngressTask(s, t, items, killed)
    case _ => s
  }

  predicate OfTask(e: Event) { e.Grant? || e.Invoke? || e.Operate? || e.Leave? || e.Ingress? }
  predicate OfMedia(e: Event) { e.IngestBy? || e.ReleaseBy? }

  function Step(s: Runtime, e: Event): Runtime {
    if OfTask(e) then TaskStep(s, e) else if OfMedia(e) then MediaStep(s, e) else ControlStep(s, e)
  }

  function Run(s: Runtime, es: seq<Event>): Runtime
    decreases |es|
  {
    if es == [] then s else Run(Step(s, es[0]), es[1..])
  }

  /** A Dispatcher before its first start, over whatever files an earlier owner left. */
  function Initial(store: map<Media.Digest, Bytes.ByteSeq>, maxArtifacts: nat): Runtime {
    Runtime(false, Session.FRESH, false, false, false, false, Idle, None, [], map[], Media.Registry(map[], store, maxArtifacts), {})
  }

  // ---- the invariant --------------------------------------------------------------------------

  predicate StartPhase(c: Control) { c.Hydrating? || c.Launching? || c.Installing? || c.Binding? }
  predicate TearPhase(c: Control) { c.Revoking? || c.Quiescing? || c.Aborting? }
  predicate StopHolds(c: Control) { c.Draining? || c.Drained? || c.Retiring? || c.Ending? }
  predicate Swept(c: Control) { c.Retiring? || c.Ending? }

  predicate AdmittedWho(tasks: map<TaskId, Work>, w: Who) {
    w.Task? && w.t in tasks && tasks[w.t].admitted
  }

  ghost predicate NoneAdmitted(tasks: map<TaskId, Work>, q: seq<Who>) {
    forall w | w in q :: !AdmittedWho(tasks, w)
  }

  /** The stopper queues at most once, and nothing admitted queues behind it. */
  ghost predicate StopperLast(tasks: map<TaskId, Work>, q: seq<Who>)
    decreases |q|
  {
    q != [] ==> if q[0].Stopper? then NoneAdmitted(tasks, q[1..]) && Stopper !in q[1..] else StopperLast(tasks, q[1..])
  }

  function Inside(tasks: map<TaskId, Work>): set<TaskId> {
    set t | t in tasks && tasks[t].admitted
  }

  ghost predicate FenceOk(s: Runtime) {
    && Session.Sound(s.fence) && !s.fence.running
    && s.fence.active == |Inside(s.tasks)|
    && (s.fence.state.Starting? || s.fence.state.Terminal? ==> s.fence.active == 0)
    && (s.control != Idle ==> s.session && s.handle && !s.fence.state.Ready? && !s.fence.state.Terminal?)
    && (StartPhase(s.control) ==> s.fence.state.Starting? && !s.fence.started)
    && (TearPhase(s.control) ==> s.fence.state.Starting?)
    && (s.control.Drained? || Swept(s.control) ==> s.fence.active == 0)
    && (Swept(s.control) || s.control.Quiescing? || s.control.Aborting? ==> s.fence.complete)
    && (!s.session ==> s.fence == Session.FRESH && !s.handle)
  }

  ghost predicate RootOk(s: Runtime) {
    && (s.live ==> s.sb)
    && (s.sb ==> s.session && s.handle && s.held && !s.fence.state.Terminal?)
    && (s.handle && !s.fence.state.Terminal? ==> s.held)
    && (s.control.Aborting? || s.control.Ending? ==> !s.sb)
    && (s.session && !s.handle ==> s.fence.state.Terminal?)
  }

  ghost predicate QueueKnown(tasks: map<TaskId, Work>, q: seq<Who>) {
    forall w: Who | w in q && w.Task? :: w.t in tasks
  }

  /** The task holds the invocation lock or waits for it. */
  predicate AtLock(holder: Option<Who>, q: seq<Who>, t: TaskId) {
    holder == Some(Task(t)) || Task(t) in q
  }

  ghost predicate LockOk(s: Runtime) {
    && QueueKnown(s.tasks, s.queue)
    && (s.holder.Some? && s.holder.value.Task? ==> s.holder.value.t in s.tasks)
    && (forall t | t in s.tasks && s.tasks[t].refs != [] :: AtLock(s.holder, s.queue, t))
    && (Stopper in s.queue <==> s.control.Queued?)
    && (s.holder == Some(Stopper) <==> StopHolds(s.control))
    && StopperLast(s.tasks, s.queue)
    && (StopHolds(s.control) ==> NoneAdmitted(s.tasks, s.queue))
  }

  /** Task `p` has an admission and has yet to unpin `ref`. */
  predicate Holding(tasks: map<TaskId, Work>, p: TaskId, ref: Media.Ref) {
    p in tasks && tasks[p].admitted && ref in tasks[p].refs
  }

  predicate Pinned(entries: map<Media.Ref, Media.Entry>, p: TaskId, ref: Media.Ref) {
    ref in entries && p in entries[ref].pins
  }

  /** The pins in the registry are those the tasks have yet to take off. */
  ghost predicate PinsMatch(tasks: map<TaskId, Work>, entries: map<Media.Ref, Media.Entry>) {
    forall p, ref :: Pinned(entries, p, ref) <==> Holding(tasks, p, ref)
  }

  /** Only admitted work has something to unpin. */
  ghost predicate TasksOk(tasks: map<TaskId, Work>) {
    forall t | t in tasks && tasks[t].refs != [] :: tasks[t].admitted
  }

  ghost predicate PinsOk(s: Runtime) {
    && TasksOk(s.tasks)
    && PinsMatch(s.tasks, s.media.entries)
    && (s.fence.state.Starting? || s.fence.state.Terminal? || Swept(s.control) ==> s.media.entries == map[])
    && (Swept(s.control) ==> s.media.store.Keys <= s.residue)
  }

  ghost predicate RuntimeOk(s: Runtime) {
    FenceOk(s) && RootOk(s) && LockOk(s) && PinsOk(s)
  }

  lemma InitialOk(store: map<Media.Digest, Bytes.ByteSeq>, maxArtifacts: nat)
    ensures RuntimeOk(Initial(store, maxArtifacts))
  {
    assert Inside(map[]) == {};
  }

  lemma RevokeKeeps(f: Session.Fence, failing: set<nat>)
    requires Session.Sound(f) && !f.running
    ensures var (g, r) := Session.Revoke(f, failing);
            && Session.Sound(g) && !g.running && g.state == f.state && g.active == f.active
            && (r.Revoked? ==> g.complete) && (r.RevokeRefused? ==> f.state.Ready?)
  {
    Session.RevokeExact(f, failing);
  }

  /** Becoming TERMINAL takes the one legal state and a completed revocation. */
  lemma TerminalizeExact(f: Session.Fence, from: Session.State, failing: set<nat>)
    requires Session.Sound(f) && !f.running && !f.state.Terminal? && (from.Starting? || from.Draining?)
    ensures var (g, done) := Terminalize(f, from, failing);
            && Session.Sound(g) && !g.running && g.active == f.active
            && (done ==> f.state == from && g.state.Terminal? && g.complete)
            && (!done ==> g.state == f.state)
            && (f.state != from ==> g == f && !done)
            && (f.state == from && f.complete ==> done)
  {
    if f.state == from { RevokeKeeps(f, failing); }
  }

  // ---- start and teardown keep it ---------------------------------------------------------------

  lemma StartOk(s: Runtime, a: Acquire)
    requires RuntimeOk(s)
    ensures RuntimeOk(Start(s, a))
  {
  }

  /** A control step outside stop() that leaves work, lock and registry alone. */
  lemma WorkUntouched(s: Runtime, n: Runtime)
    requires RuntimeOk(s) && FenceOk(n) && RootOk(n)
    requires n.tasks == s.tasks && n.holder == s.holder && n.queue == s.queue && n.media == s.media
    requires StartPhase(s.control) || TearPhase(s.control)
    requires StartPhase(n.control) || TearPhase(n.control) || n.control.Idle?
    ensures RuntimeOk(n)
  {
  }

  lemma LaunchStepOk(s: Runtime, good: bool, stopped: bool)
    requires RuntimeOk(s) && (s.control.Launching? || s.control.Installing?)
    ensures RuntimeOk(StartStep(s, good, stopped))
  {
    WorkUntouched(s, StartStep(s, good, stopped));
  }

  lemma BindStepOk(s: Runtime, good: bool, stopped: bool)
    requires RuntimeOk(s) && s.control.Binding?
    ensures RuntimeOk(StartStep(s, good, stopped))
  {
    if good {
      BoundFence(s);
      WorkUntouched(s, Bound(s));
    } else {
      WorkUntouched(s, s.(control := Revoking));
    }
  }

  /** READY at last: nothing was admitted before, and no control task is left. */
  lemma BoundFence(s: Runtime)
    requires FenceOk(s) && RootOk(s) && s.control.Binding?
    ensures var n := Bound(s); FenceOk(n) && RootOk(n) && n.fence.state.Ready? && n.control.Idle?
  {
  }

  lemma StartStepOk(s: Runtime, good: bool, stopped: bool)
    requires RuntimeOk(s)
    ensures RuntimeOk(StartStep(s, good, stopped))
  {
    match s.control
    case Launching => LaunchStepOk(s, good, stopped);
    case Installing => LaunchStepOk(s, good, stopped);
    case Binding => BindStepOk(s, good, stopped);
    case _ =>
  }

  lemma RevokeStepOk(s: Runtime, good: bool, failing: set<nat>, o: ReleaseOutcome)
    requires RuntimeOk(s) && s.control.Revoking?
    ensures RuntimeOk(TearStep(s, good, failing, o))
  {
    RevokeFence(s, good, failing, o);
    WorkUntouched(s, TearStep(s, good, failing, o));
  }

  lemma RevokeFence(s: Runtime, good: bool, failing: set<nat>, o: ReleaseOutcome)
    requires FenceOk(s) && RootOk(s) && s.control.Revoking?
    ensures FenceOk(TearStep(s, good, failing, o)) && RootOk(TearStep(s, good, failing, o))
  {
    RevokeKeeps(s.fence, failing);
    var (f, r) := Session.Revoke(s.fence, failing);
    RevokedFence(s, f, if r.Revoked? then Quiescing else Idle);
  }

  /** What a revocation does to the fence disturbs nothing else. */
  lemma RevokedFence(s: Runtime, f: Session.Fence, c: Control)
    requires FenceOk(s) && RootOk(s) && (s.control.Revoking? || s.control.Drained?)
    requires Session.Sound(f) && !f.running && f.state == s.fence.state && f.active == s.fence.active
    requires c.Idle? || (f.complete && if s.control.Revoking? then c.Quiescing? else c.Retiring?)
    ensures FenceOk(s.(fence := f, control := c)) && RootOk(s.(fence := f, control := c))
  {
  }

  lemma AbortStepOk(s: Runtime, good: bool, failing: set<nat>, o: ReleaseOutcome)
    requires RuntimeOk(s) && s.control.Aborting?
    ensures RuntimeOk(TearStep(s, good, failing, o))
  {
    AbortFence(s, good, failing, o);
    WorkUntouched(s, TearStep(s, good, failing, o));
  }

  lemma AbortFence(s: Runtime, good: bool, failing: set<nat>, o: ReleaseOutcome)
    requires FenceOk(s) && RootOk(s) && s.control.Aborting?
    ensures FenceOk(TearStep(s, good, failing, o)) && RootOk(TearStep(s, good, failing, o))
  {
    TerminalizeExact(s.fence, Session.Starting, failing);
  }

  lemma TearStepOk(s: Runtime, good: bool, failing: set<nat>, o: ReleaseOutcome)
    requires RuntimeOk(s)
    ensures RuntimeOk(TearStep(s, good, failing, o))
  {
    match s.control
    case Revoking => RevokeStepOk(s, good, failing, o);
    case Aborting => AbortStepOk(s, good, failing, o);
    case _ =>
  }

  // ---- stop keeps it ----------------------------------------------------------------------------

  /** What is pinned survives a sweep, and with no admitted work nothing is pinned. */
  lemma SweepExact(s: Runtime, stuck: set<Media.Digest>)
    requires PinsMatch(s.tasks, s.media.entries)
    ensures var n := Sweep(s, stuck);
            && (forall p, ref :: Pinned(n.media.entries, p, ref) <==> Pinned(s.media.entries, p, ref))
            && (s.media.entries == map[] ==> n.media.entries == map[])
            && (Inside(s.tasks) == {} ==> n.media.entries == map[] && n.media.store.Keys <= stuck)
  {
    if Inside(s.tasks) == {} {
      forall ref | ref in s.media.entries ensures s.media.entries[ref].pins == {} { NoPins(s, ref); }
      assert Media.Survivors(s.media.entries) == map[];
      assert Media.Referenced(map[]) == {};
    }
  }

  lemma NoPins(s: Runtime, ref: Media.Ref)
    requires PinsMatch(s.tasks, s.media.entries) && Inside(s.tasks) == {} && ref in s.media.entries
    ensures s.media.entries[ref].pins == {}
  {
    forall p ensures p !in s.media.entries[ref].pins {
      assert Pinned(s.media.entries, p, ref) <==> Holding(s.tasks, p, ref);
      assert Holding(s.tasks, p, ref) ==> p in Inside(s.tasks);
    }
  }

  lemma SweepPins(s: Runtime, stuck: set<Media.Digest>)
    requires PinsOk(s) && !Swept(s.control)
    ensures PinsOk(Sweep(s, stuck))
  {
    SweepExact(s, stuck);
  }

  lemma {:induction false} StopperAppended(tasks: map<TaskId, Work>, q: seq<Who>)
    requires Stopper !in q
    ensures StopperLast(tasks, q + [Stopper])
    decreases |q|
  {
    if q == [] {
      assert ([] + [Stopper])[1..] == [];
    } else {
      assert (q + [Stopper])[1..] == q[1..] + [Stopper];
      StopperAppended(tasks, q[1..]);
    }
  }

  lemma {:induction false} DropExact(q: seq<Who>, w: Who)
    ensures forall x :: x in Drop(q, w) <==> x in q && x != w
    decreases |q|
  {
    if q != [] { DropExact(q[1..], w); }
  }

  lemma {:induction false} DropKeepsLast(tasks: map<TaskId, Work>, q: seq<Who>, w: Who)
    requires StopperLast(tasks, q)
    ensures StopperLast(tasks, Drop(q, w))
    decreases |q|
  {
    if q != [] {
      DropExact(q[1..], w);
      if q[0].Stopper? {
        if w == Stopper {
          NoneAdmittedIsLast(tasks, Drop(q[1..], w));
          assert Drop(q, w) == Drop(q[1..], w);
        } else {
          assert Drop(q, w)[1..] == Drop(q[1..], w);
        }
      } else {
        DropKeepsLast(tasks, q[1..], w);
        if q[0] != w {
          assert Drop(q, w)[1..] == Drop(q[1..], w);
        } else {
          assert Drop(q, w) == Drop(q[1..], w);
        }
      }
    }
  }

  lemma {:induction false} NoneAdmittedIsLast(tasks: map<TaskId, Work>, q: seq<Who>)
    requires NoneAdmitted(tasks, q) && Stopper !in q
    ensures StopperLast(tasks, q)
    decreases |q|
  {
    if q != [] { NoneAdmittedIsLast(tasks, q[1..]); }
  }

  lemma StopOk(s: Runtime, caller: Option<TaskId>, transportStops: bool, stuck: set<Media.Digest>, o: ReleaseOutcome)
    requires RuntimeOk(s)
    ensures RuntimeOk(Stop(s, caller, transportStops, stuck, o))
  {
    if s.control == Idle && s.session && s.handle && !s.fence.state.Terminal? {
      CloseOk(s, stuck);
      QueueStopperOk(CloseAdmission(s, stuck));
    }
  }

  lemma CloseOk(s: Runtime, stuck: set<Media.Digest>)
    requires RuntimeOk(s) && s.control == Idle && s.session
    ensures RuntimeOk(CloseAdmission(s, stuck)) && !CloseAdmission(s, stuck).fence.state.Ready?
  {
    SweepPins(s, stuck);
    SweepExact(s, stuck);
  }

  lemma QueueStopperOk(s: Runtime)
    requires RuntimeOk(s) && s.control == Idle && s.session && s.handle && !s.fence.state.Ready? && !s.fence.state.Terminal?
    ensures RuntimeOk(QueueStopper(s))
  {
    StopperAppended(s.tasks, s.queue);
  }

  lemma QueuedStepOk(s: Runtime, good: bool, failing: set<nat>, stuck: set<Media.Digest>, o: ReleaseOutcome)
    requires RuntimeOk(s) && s.control.Queued?
    ensures RuntimeOk(StopStep(s, good, failing, stuck, o))
  {
    DropExact(s.queue, Stopper);
    DropKeepsLast(s.tasks, s.queue, Stopper);
  }

  lemma DrainedStepOk(s: Runtime, good: bool, failing: set<nat>, stuck: set<Media.Digest>, o: ReleaseOutcome)
    requires RuntimeOk(s) && s.control.Drained?
    ensures RuntimeOk(StopStep(s, good, failing, stuck, o))
  {
    DrainedFence(s, good, failing, stuck, o);
    DrainedWork(s, good, failing, stuck, o);
  }

  lemma DrainedFence(s: Runtime, good: bool, failing: set<nat>, stuck: set<Media.Digest>, o: ReleaseOutcome)
    requires FenceOk(s) && RootOk(s) && s.control.Drained?
    ensures FenceOk(StopStep(s, good, failing, stuck, o)) && RootOk(StopStep(s, good, failing, stuck, o))
  {
    RevokeKeeps(s.fence, failing);
    var (f, r) := Session.Revoke(s.fence, failing);
    RevokedFence(s, f, if r.Revoked? then Retiring else Idle);
  }

  lemma DrainedWork(s: Runtime, good: bool, failing: set<nat>, stuck: set<Media.Digest>, o: ReleaseOutcome)
    requires FenceOk(s) && LockOk(s) && PinsOk(s) && s.control.Drained?
    ensures LockOk(StopStep(s, good, failing, stuck, o)) && PinsOk(StopStep(s, good, failing, stuck, o))
  {
    RevokeKeeps(s.fence, failing);
    var (f, r) := Session.Revoke(s.fence, failing);
    if r.Revoked? { SweptWork(s, f, stuck); } else { ExitWork(s, f); }
  }

  lemma SweptWork(s: Runtime, f: Session.Fence, stuck: set<Media.Digest>)
    requires s.fence.active == |Inside(s.tasks)| == 0 && LockOk(s) && PinsOk(s) && s.control.Drained? && f.state == s.fence.state
    ensures var n := Sweep(s.(fence := f), stuck).(control := Retiring); LockOk(n) && PinsOk(n)
  {
    SweepExact(s, stuck);
  }

  lemma ExitWork(s: Runtime, f: Session.Fence)
    requires LockOk(s) && PinsOk(s) && s.control.Drained? && f.state == s.fence.state
    ensures LockOk(ExitStop(s.(fence := f))) && PinsOk(ExitStop(s.(fence := f)))
  {
  }

  lemma EndingStepOk(s: Runtime, good: bool, failing: set<nat>, stuck: set<Media.Digest>, o: ReleaseOutcome)
    requires RuntimeOk(s) && s.control.Ending?
    ensures RuntimeOk(StopStep(s, good, failing, stuck, o))
  {
    TerminalizeExact(s.fence, Session.Draining, failing);
  }

  lemma StopStepOk(s: Runtime, good: bool, failing: set<nat>, stuck: set<Media.Digest>, o: ReleaseOutcome)
    requires RuntimeOk(s)
    ensures RuntimeOk(StopStep(s, good, failing, stuck, o))
  {
    match s.control
    case Queued => QueuedStepOk(s, good, failing, stuck, o);
    case Drained => DrainedStepOk(s, good, failing, stuck, o);
    case Ending => EndingStepOk(s, good, failing, stuck, o);
    case _ =>
  }

  // ---- work keeps it ----------------------------------------------------------------------------

  lemma GrantOk(s: Runtime)
    requires RuntimeOk(s)
    ensures RuntimeOk(GrantLock(s))
  {
    if s.queue != [] && s.queue[0].Stopper? { NoneAdmittedIsLast(s.tasks, s.queue[1..]); }
  }

  /** Another task does not change who of the queue is admitted. */
  lemma {:induction false} LastFrame(a: map<TaskId, Work>, b: map<TaskId, Work>, q: seq<Who>)
    requires StopperLast(a, q) && forall w | w in q :: AdmittedWho(b, w) ==> AdmittedWho(a, w)
    ensures StopperLast(b, q)
    decreases |q|
  {
    if q != [] && !q[0].Stopper? { LastFrame(a, b, q[1..]); }
  }

  lemma {:induction false} LastAppend(tasks: map<TaskId, Work>, q: seq<Who>, w: Who)
    requires StopperLast(tasks, q) && w.Task? && (Stopper in q ==> !AdmittedWho(tasks, w))
    ensures StopperLast(tasks, q + [w])
    decreases |q|
  {
    if q == [] {
      assert ([] + [w])[1..] == [];
    } else {
      assert (q + [w])[1..] == q[1..] + [w];
      if !q[0].Stopper? { LastAppend(tasks, q[1..], w); }
    }
  }

  lemma InsideAdd(tasks: map<TaskId, Work>, t: TaskId, w: Work)
    requires t !in tasks
    ensures Inside(tasks[t := w]) == if w.admitted then Inside(tasks) + {t} else Inside(tasks)
  {
  }

  lemma InsideRemove(tasks: map<TaskId, Work>, t: TaskId)
    requires t in tasks
    ensures Inside(tasks - {t}) == Inside(tasks) - {t}
    ensures |Inside(tasks - {t})| == |Inside(tasks)| - if tasks[t].admitted then 1 else 0
  {
  }

  /** One more task that is not admitted or is admitted now, with nothing pinned. */
  lemma AddOk(s: Runtime, t: TaskId, w: Work, f: Session.Fence)
    requires RuntimeOk(s) && t !in s.tasks
    requires (w == OUTSIDE && f == s.fence) || (w == PLAIN && s.session && Session.Admit(s.fence, 0, None) == Ok(f))
    ensures RuntimeOk(s.(fence := f, tasks := s.tasks[t := w]))
  {
    InsideAdd(s.tasks, t, w);
    AddLock(s, t, w);
    AddPins(s, t, w);
  }

  lemma AddLock(s: Runtime, t: TaskId, w: Work)
    requires LockOk(s) && t !in s.tasks && w.refs == []
    ensures LockOk(s.(tasks := s.tasks[t := w]))
  {
    LastFrame(s.tasks, s.tasks[t := w], s.queue);
  }

  lemma AddPins(s: Runtime, t: TaskId, w: Work)
    requires PinsOk(s) && t !in s.tasks && w.refs == []
    ensures PinsOk(s.(tasks := s.tasks[t := w]))
  {
    var tasks := s.tasks[t := w];
    forall p, ref ensures Holding(tasks, p, ref) <==> Holding(s.tasks, p, ref) {}
  }

  lemma OperateOk(s: Runtime, t: TaskId)
    requires RuntimeOk(s)
    ensures RuntimeOk(OperateTask(s, t))
  {
    if t !in s.tasks && s.session && s.fence.state.Ready? { AddOk(s, t, PLAIN, Session.Admit(s.fence, 0, None).value); }
  }

  /** A task joins the queue; behind the stopper only if it is not admitted. */
  lemma EnqueueOk(s: Runtime, t: TaskId)
    requires RuntimeOk(s) && t in s.tasks && (s.tasks[t].admitted ==> s.fence.state.Ready?)
    ensures RuntimeOk(Enqueue(s, Task(t)))
  {
    if s.holder.Some? || s.queue != [] { AppendOk(s, t); }
  }

  lemma AppendOk(s: Runtime, t: TaskId)
    requires RuntimeOk(s) && t in s.tasks && (s.tasks[t].admitted ==> s.fence.state.Ready?)
    ensures RuntimeOk(s.(queue := s.queue + [Task(t)]))
  {
    LastAppend(s.tasks, s.queue, Task(t));
  }

  lemma InvokeOk(s: Runtime, t: TaskId)
    requires RuntimeOk(s)
    ensures RuntimeOk(InvokeTask(s, t))
  {
    if t !in s.tasks {
      if !s.session {
        AddOk(s, t, OUTSIDE, s.fence);
        EnqueueOk(s.(tasks := s.tasks[t := OUTSIDE]), t);
      } else if s.fence.state.Ready? {
        var f := Session.Admit(s.fence, 0, None).value;
        AddOk(s, t, PLAIN, f);
        EnqueueOk(s.(fence := f, tasks := s.tasks[t := PLAIN]), t);
      }
    }
  }

  lemma DepartLock(s: Runtime, t: TaskId)
    requires LockOk(s) && t in s.tasks
    ensures LockOk(Depart(s, t))
  {
    DropExact(s.queue, Task(t));
    DropKeepsLast(s.tasks, s.queue, Task(t));
    LastFrame(s.tasks, s.tasks - {t}, Drop(s.queue, Task(t)));
  }

  lemma DepartOk(s: Runtime, t: TaskId, g: Media.Registry)
    requires RuntimeOk(s) && t in s.tasks && g.store == s.media.store
    requires PinsMatch(s.tasks - {t}, g.entries) && (s.media.entries == map[] ==> g.entries == map[])
    ensures RuntimeOk(Depart(s.(media := g), t))
  {
    InsideRemove(s.tasks, t);
    DepartLock(s, t);
  }

  /** Taking off its pins is what a task owes when it leaves. */
  lemma UnpinMatches(s: Runtime, t: TaskId)
    requires PinsOk(s) && t in s.tasks
    ensures PinsMatch(s.tasks - {t}, Media.UnpinEach(s.media, s.tasks[t].refs, t).entries)
  {
    var refs := s.tasks[t].refs;
    var n := Media.UnpinEach(s.media, refs, t);
    Media.UnpinEachExact(s.media, refs, t);
    forall p, ref ensures Pinned(n.entries, p, ref) <==> Holding(s.tasks - {t}, p, ref) {
      assert Pinned(s.media.entries, p, ref) <==> Holding(s.tasks, p, ref);
    }
  }

  lemma LeaveOk(s: Runtime, t: TaskId)
    requires RuntimeOk(s)
    ensures RuntimeOk(LeaveTask(s, t))
  {
    if t in s.tasks {
      UnpinMatches(s, t);
      Media.UnpinEachExact(s.media, s.tasks[t].refs, t);
      DepartOk(s, t, Media.UnpinEach(s.media, s.tasks[t].refs, t));
    }
  }

  lemma PinMatches(s: Runtime, t: TaskId, refs: seq<Media.Ref>)
    requires PinsMatch(s.tasks, s.media.entries) && Media.PinEach(s.media, refs, t).1.None?
    requires t in s.tasks ==> s.tasks[t].refs == []
    ensures PinsMatch(s.tasks[t := Work(true, refs)], Media.PinEach(s.media, refs, t).0.entries)
  {
    var n := Media.PinEach(s.media, refs, t).0;
    var tasks := s.tasks[t := Work(true, refs)];
    Media.PinEachExact(s.media, refs, t);
    forall p, ref ensures Pinned(n.entries, p, ref) <==> Holding(tasks, p, ref) {
      assert Pinned(s.media.entries, p, ref) <==> Holding(s.tasks, p, ref);
    }
  }

  /** Pinning changes neither who is admitted nor who is queued. */
  lemma PinnedOk(s: Runtime, t: TaskId, refs: seq<Media.Ref>)
    requires RuntimeOk(s) && t in s.tasks && s.tasks[t] == PLAIN && AtLock(s.holder, s.queue, t)
    requires Media.PinEach(s.media, refs, t).1.None?
    ensures RuntimeOk(s.(media := Media.PinEach(s.media, refs, t).0, tasks := s.tasks[t := Work(true, refs)]))
  {
    var tasks := s.tasks[t := Work(true, refs)];
    assert Inside(tasks) == Inside(s.tasks);
    LastFrame(s.tasks, tasks, s.queue);
    PinMatches(s, t, refs);
    Media.PinEachExact(s.media, refs, t);
  }

  lemma EnqueueFrame(s: Runtime, t: TaskId)
    ensures var n := Enqueue(s, Task(t)); n == s.(holder := n.holder, queue := n.queue) && AtLock(n.holder, n.queue, t)
  {
  }

  /** To pin and then queue is to queue and then pin. */
  lemma PinThenQueue(s: Runtime, f: Session.Fence, t: TaskId, refs: seq<Media.Ref>)
    requires t !in s.tasks && s.session && Session.Admit(s.fence, 0, None) == Ok(f) && Media.PinEach(s.media, refs, t).1.None?
    ensures var n := InvokeTask(s, t);
            && n.tasks == s.tasks[t := PLAIN] && n.media == s.media && AtLock(n.holder, n.queue, t)
            && PinAndCall(s, f, t, refs, false)
               == n.(media := Media.PinEach(n.media, refs, t).0, tasks := n.tasks[t := Work(true, refs)])
  {
    EnqueueFrame(s.(fence := f, tasks := s.tasks[t := PLAIN]), t);
    assert s.tasks[t := PLAIN][t := Work(true, refs)] == s.tasks[t := Work(true, refs)];
  }

  /** Pin and queue end where admit, queue and pin would. */
  lemma StartedOk(s: Runtime, f: Session.Fence, t: TaskId, refs: seq<Media.Ref>)
    requires RuntimeOk(s) && t !in s.tasks && s.session && Session.Admit(s.fence, 0, None) == Ok(f)
    requires Media.PinEach(s.media, refs, t).1.None?
    ensures RuntimeOk(PinAndCall(s, f, t, refs, false))
  {
    InvokeOk(s, t);
    PinThenQueue(s, f, t, refs);
    PinnedOk(InvokeTask(s, t), t, refs);
  }

  lemma {:induction false} DropAbsent(q: seq<Who>, w: Who)
    requires w !in q
    ensures Drop(q, w) == q
    decreases |q|
  {
    if q != [] { DropAbsent(q[1..], w); }
  }

  lemma NotPinned(s: Runtime, t: TaskId, ref: Media.Ref)
    requires PinsOk(s) && !Holding(s.tasks, t, ref)
    ensures !Pinned(s.media.entries, t, ref)
  {
  }

  /** An invocation that returns at once leaves everything as it was. */
  lemma KilledIngress(s: Runtime, f: Session.Fence, t: TaskId, refs: seq<Media.Ref>)
    requires PinsOk(s) && LockOk(s) && t !in s.tasks
    requires Session.Admit(s.fence, 0, None) == Ok(f) && Media.PinEach(s.media, refs, t).1.None?
    ensures PinAndCall(s, f, t, refs, true) == s
  {
    forall ref | ref in s.media.entries ensures t !in s.media.entries[ref].pins { NotPinned(s, t, ref); }
    Media.UnpinUndoesPin(s.media, refs, t);
    assert s.tasks[t := Work(true, refs)] - {t} == s.tasks;
    DropAbsent(s.queue, Task(t));
  }

  lemma IngressOk(s: Runtime, t: TaskId, items: seq<(Media.Ref, bool)>, killed: bool)
    requires RuntimeOk(s)
    ensures RuntimeOk(IngressTask(s, t, items, killed))
  {
    if t !in s.tasks && s.session && s.fence.state.Ready? && Media.ResolveOrdered(s.media, items).Ok? {
      var f := Session.Admit(s.fence, 0, None).value;
      Media.ResolvedCanBePinned(s.media, items, t);
      if killed { KilledIngress(s, f, t, Media.Refs(items)); } else { StartedOk(s, f, t, Media.Refs(items)); }
    }
  }

  /** Work inside an admission is never at a point where the registry must be empty. */
  lemma InsideMeansActive(s: Runtime, t: TaskId)
    requires RuntimeOk(s) && Admitted(s, t)
    ensures s.fence.active > 0 && !s.fence.state.Starting? && !s.fence.state.Terminal? && !Swept(s.control)
  {
    assert t in Inside(s.tasks);
  }

  /** Another registry with the same pins, in a state that does not demand an empty one. */
  lemma ReplaceMediaOk(s: Runtime, g: Media.Registry)
    requires RuntimeOk(s) && PinsMatch(s.tasks, g.entries)
    requires !s.fence.state.Starting? && !s.fence.state.Terminal? && !Swept(s.control)
    ensures RuntimeOk(s.(media := g))
  {
  }

  lemma IngestHeld(tasks: map<TaskId, Work>, g: Media.Registry, staged: Media.Staged, ref: Media.Ref)
    requires PinsMatch(tasks, g.entries) && ref !in g.entries
    ensures PinsMatch(tasks, Media.Ingest(g, staged, ref).0.entries)
  {
    var n := Media.Ingest(g, staged, ref).0;
    forall p, r ensures Pinned(n.entries, p, r) <==> Pinned(g.entries, p, r) {}
  }

  lemma ReleaseHeld(tasks: map<TaskId, Work>, g: Media.Registry, ref: Media.Ref, unlinks: bool)
    requires PinsMatch(tasks, g.entries)
    ensures PinsMatch(tasks, Media.Release(g, ref, unlinks).0.entries)
  {
    var n := Media.Release(g, ref, unlinks).0;
    forall p, r ensures Pinned(n.entries, p, r) <==> Pinned(g.entries, p, r) {}
  }

  lemma IngestOk(s: Runtime, t: TaskId, staged: Media.Staged, ref: Media.Ref)
    requires RuntimeOk(s) && Admitted(s, t) && ref !in s.media.entries
    ensures RuntimeOk(s.(media := Media.Ingest(s.media, staged, ref).0))
  {
    InsideMeansActive(s, t);
    IngestHeld(s.tasks, s.media, staged, ref);
    ReplaceMediaOk(s, Media.Ingest(s.media, staged, ref).0);
  }

  lemma UnregisterOk(s: Runtime, t: TaskId, ref: Media.Ref, unlinks: bool)
    requires RuntimeOk(s) && Admitted(s, t)
    ensures RuntimeOk(s.(media := Media.Release(s.media, ref, unlinks).0))
  {
    InsideMeansActive(s, t);
    ReleaseHeld(s.tasks, s.media, ref, unlinks);
    ReplaceMediaOk(s, Media.Release(s.media, ref, unlinks).0);
  }

  lemma MediaStepOk(s: Runtime, e: Event)
    requires RuntimeOk(s)
    ensures RuntimeOk(MediaStep(s, e))
  {
    match e
    case IngestBy(t, staged, ref) => if Admitted(s, t) && ref !in s.media.entries { IngestOk(s, t, staged, ref); }
    case ReleaseBy(t, ref, unlinks) => if Admitted(s, t) { UnregisterOk(s, t, ref, unlinks); }
    case _ =>
  }

  lemma ControlOk(s: Runtime, e: Event)
    requires RuntimeOk(s)
    ensures RuntimeOk(ControlStep(s, e))
  {
    match e
    case CallStart(a) => StartOk(s, a);
    case StartTick(good, stopped) => StartStepOk(s, good, stopped);
    case TearTick(good, failing, o) => TearStepOk(s, good, failing, o);
    case CallStop(caller, transportStops, stuck, o) => StopOk(s, caller, transportStops, stuck, o);
    case StopTick(good, failing, stuck, o) => StopStepOk(s, good, failing, stuck, o);
    case _ =>
  }

  lemma TaskOk(s: Runtime, e: Event)
    requires RuntimeOk(s)
    ensures RuntimeOk(TaskStep(s, e))
  {
    match e
    case Grant => GrantOk(s);
    case Invoke(t) => InvokeOk(s, t);
    case Operate(t) => OperateOk(s, t);
    case Leave(t) => LeaveOk(s, t);
    case Ingress(t, items, killed) => IngressOk(s, t, items, killed);
    case _ =>
  }

  lemma StepOk(s: Runtime, e: Event)
    requires RuntimeOk(s)
    ensures RuntimeOk(Step(s, e))
  {
    TaskOk(s, e);
    MediaStepOk(s, e);
    ControlOk(s, e);
  }

  lemma {:induction false} RunOk(s: Runtime, es: seq<Event>)
    requires RuntimeOk(s)
    ensures RuntimeOk(Run(s, es))
    decreases |es|
  {
    if es != [] { StepOk(s, es[0]); RunOk(Step(s, es[0]), es[1..]); }
  }

  // ---- what every run has ---------------------------------------------------------------------

  lemma ReachedOk(store: map<Media.Digest, Bytes.ByteSeq>, max: nat, es: seq<Event>)
    ensures RuntimeOk(Run(Initial(store, max), es))
  {
    InitialOk(store, max);
    RunOk(Initial(store, max), es);
  }

  /** In every run a pin is held exactly by a media request whose invocation runs or waits for
      the lock, inside its admission: none outlives its request, none is gone while the
      invocation runs. */
  lemma PinsAreInsideAdmission(store: map<Media.Digest, Bytes.ByteSeq>, max: nat, es: seq<Event>, t: TaskId, ref: Media.Ref)
    ensures var s := Run(Initial(store, max), es);
            && (Pinned(s.media.entries, t, ref) <==> t in s.tasks && ref in s.tasks[t].refs)
            && (Pinned(s.media.entries, t, ref) ==> s.tasks[t].admitted && AtLock(s.holder, s.queue, t) && s.fence.active > 0)
  {
    ReachedOk(store, max, es);
    var s := Run(Initial(store, max), es);
    assert Pinned(s.media.entries, t, ref) <==> Holding(s.tasks, t, ref);
    if Admitted(s, t) { InsideMeansActive(s, t); }
  }

  /** A media request ends its first stretch in one of two ways: at the invocation lock with
      every ref pinned and one admission, or as if it had never come. A failing resolution, a
      tripped kill switch and a closed admission leave no pin behind, and no pin fails. */
  lemma IngressAllOrNothing(s: Runtime, t: TaskId, items: seq<(Media.Ref, bool)>, killed: bool)
    requires RuntimeOk(s) && t !in s.tasks
    ensures var n := Step(s, Ingress(t, items, killed));
            && (t in n.tasks ==> n.fence.active == s.fence.active + 1 && AtLock(n.holder, n.queue, t)
                                 && forall i | 0 <= i < |items| :: Pinned(n.media.entries, t, items[i].0))
            && (t !in n.tasks ==> n == s)
            && (t in n.tasks <==> s.session && s.fence.state.Ready? && !killed && Media.ResolveOrdered(s.media, items).Ok?)
  {
    if s.session && s.fence.state.Ready? && Media.ResolveOrdered(s.media, items).Ok? {
      var f := Session.Admit(s.fence, 0, None).value;
      Media.ResolvedCanBePinned(s.media, items, t);
      if killed { KilledIngress(s, f, t, Media.Refs(items)); } else { StartedIngress(s, f, t, items); }
    }
  }

  lemma StartedIngress(s: Runtime, f: Session.Fence, t: TaskId, items: seq<(Media.Ref, bool)>)
    requires Media.PinEach(s.media, Media.Refs(items), t).1.None?
    ensures var n := PinAndCall(s, f, t, Media.Refs(items), false);
            && t in n.tasks && n.fence == f && AtLock(n.holder, n.queue, t)
            && forall i | 0 <= i < |items| :: Pinned(n.media.entries, t, items[i].0)
  {
    var refs := Media.Refs(items);
    EnqueueFrame(s.(media := Media.PinEach(s.media, refs, t).0, fence := f, tasks := s.tasks[t := Work(true, refs)]), t);
    Media.PinEachExact(s.media, refs, t);
    forall i | 0 <= i < |items| ensures Pinned(Media.PinEach(s.media, refs, t).0.entries, t, items[i].0) {
      assert refs[i] == items[i].0 && refs[i] in refs;
    }
  }

  /** While stop() holds the invocation lock, no admitted work waits for that lock and nothing
      is pinned: each can finish on its own, and stop() never blocks the drain it waits for. */
  lemma DrainIsNotSelfBlocked(store: map<Media.Digest, Bytes.ByteSeq>, max: nat, es: seq<Event>, t: TaskId)
    requires var s := Run(Initial(store, max), es); s.holder == Some(Stopper) && Admitted(s, t)
    ensures var s := Run(Initial(store, max), es); var n := Step(s, Leave(t));
            && Task(t) !in s.queue && s.control == Draining
            && n.fence.active == s.fence.active - 1 && n.holder == Some(Stopper) && !Admitted(n, t)
            && forall p, ref :: !Pinned(s.media.entries, p, ref)
  {
    ReachedOk(store, max, es);
    var s := Run(Initial(store, max), es);
    InsideMeansActive(s, t);
    assert AdmittedWho(s.tasks, Task(t));
    forall p, ref ensures !Pinned(s.media.entries, p, ref) { NothingPinned(s, p, ref); }
  }

  lemma NothingPinned(s: Runtime, p: TaskId, ref: Media.Ref)
    requires RuntimeOk(s) && s.holder == Some(Stopper)
    ensures !Pinned(s.media.entries, p, ref)
  {
    assert Pinned(s.media.entries, p, ref) <==> Holding(s.tasks, p, ref);
    assert Holding(s.tasks, p, ref) ==> AdmittedWho(s.tasks, Task(p)) && AtLock(s.holder, s.queue, p);
  }

  /** A live browser implies the owner lock. */
  lemma LiveMeansLocked(store: map<Media.Digest, Bytes.ByteSeq>, max: nat, es: seq<Event>)
    ensures var s := Run(Initial(store, max), es); s.live ==> s.held && s.handle && s.session && !s.fence.state.Terminal?
  {
    ReachedOk(store, max, es);
  }

  /** All that must be over when ownership goes. */
  ghost predicate Over(s: Runtime) {
    && s.session && s.fence.state.Terminal? && s.fence.complete && s.fence.active == 0
    && !s.sb && !s.live && Inside(s.tasks) == {} && s.media.entries == map[]
  }

  lemma TerminalIsOver(s: Runtime)
    requires RuntimeOk(s) && s.session && s.fence.state.Terminal?
    ensures Over(s)
  {
  }

  /** In every run, the step that gives the lock up, or the handle to it, ends with everything
      over: nothing released ownership before. */
  lemma ReleaseIsLast(store: map<Media.Digest, Bytes.ByteSeq>, max: nat, es: seq<Event>, e: Event)
    requires var s := Run(Initial(store, max), es); var n := Step(s, e);
             s.session && Freed(s, n)
    ensures var s := Run(Initial(store, max), es); var n := Step(s, e);
            Over(n) && (s.control == Ending ==> n.media.store.Keys <= n.residue)
  {
    ReachedOk(store, max, es);
    var s := Run(Initial(store, max), es);
    StepOk(s, e);
    ReleaseNeedsTerminal(s, e);
    TerminalIsOver(Step(s, e));
  }

  /** Ownership went in this step. */
  predicate Freed(s: Runtime, n: Runtime) {
    (s.held && !n.held) || (s.handle && !n.handle)
  }

  lemma TearFrees(s: Runtime, good: bool, failing: set<nat>, o: ReleaseOutcome)
    requires RuntimeOk(s) && Freed(s, TearStep(s, good, failing, o))
    ensures var n := TearStep(s, good, failing, o);
            n.session && n.fence.state.Terminal? && n.residue == s.residue && n.media == s.media
  {
    if s.control.Aborting? { TerminalizeExact(s.fence, Session.Starting, failing); }
  }

  lemma StopFrees(s: Runtime, good: bool, failing: set<nat>, stuck: set<Media.Digest>, o: ReleaseOutcome)
    requires RuntimeOk(s) && Freed(s, StopStep(s, good, failing, stuck, o))
    ensures var n := StopStep(s, good, failing, stuck, o);
            n.session && n.fence.state.Terminal? && n.residue == s.residue && n.media == s.media
  {
    if s.control.Ending? { TerminalizeExact(s.fence, Session.Draining, failing); }
  }

  lemma ReleaseNeedsTerminal(s: Runtime, e: Event)
    requires RuntimeOk(s) && s.session && Freed(s, Step(s, e))
    ensures var n := Step(s, e); n.session && n.fence.state.Terminal? && n.residue == s.residue && n.media == s.media
  {
    if e.TearTick? {
      TearFrees(s, e.good, e.failing, e.release);
    } else if e.StopTick? {
      StopFrees(s, e.good, e.failing, e.stuck, e.release);
    } else if OfTask(e) || OfMedia(e) {
      WorkFreesNothing(s, e);
    } else {
      RestFrees(s, e);
    }
  }

  lemma WorkFreesNothing(s: Runtime, e: Event)
    requires OfTask(e) || OfMedia(e)
    ensures !Freed(s, Step(s, e))
  {
    if e.Ingress? { IngressFreesNothing(s, e.t, e.items, e.killed); }
  }

  lemma IngressFreesNothing(s: Runtime, t: TaskId, items: seq<(Media.Ref, bool)>, killed: bool)
    ensures !Freed(s, IngressTask(s, t, items, killed))
  {
  }

  /** Of the rest only a stop() over a TERMINAL session gives anything up. */
  lemma RestFrees(s: Runtime, e: Event)
    requires s.session && Freed(s, Step(s, e)) && !OfTask(e) && !OfMedia(e) && !e.TearTick? && !e.StopTick?
    ensures var n := Step(s, e); n.session && n.fence.state.Terminal? && n.residue == s.residue && n.media == s.media
  {
    if !e.CallStop? {
      StartFreesNothing(s, e);
    } else if !s.fence.state.Terminal? {
      StopCallFrees(s, e.caller, e.transportStops, e.stuck, e.release);
    }
  }

  lemma StopCallFrees(s: Runtime, caller: Option<TaskId>, transportStops: bool, stuck: set<Media.Digest>, o: ReleaseOutcome)
    requires s.session && !s.fence.state.Terminal?
    ensures !Freed(s, Stop(s, caller, transportStops, stuck, o))
  {
  }

  lemma StartFreesNothing(s: Runtime, e: Event)
    requires e.CallStart? || e.LaunchBrowser? || e.BrowserTurns? || e.StartTick?
    ensures !Freed(s, Step(s, e))
  {
  }

  lemma TerminalStays(s: Runtime, e: Event)
    requires RuntimeOk(s) && s.session && s.fence.state.Terminal?
    ensures Step(s, e).session && Step(s, e).fence.state.Terminal?
  {
  }

  /** TERMINAL is for good: no event starts the session, the browser or any admitted work again. */
  lemma {:induction false} TerminalIsForGood(s: Runtime, es: seq<Event>)
    requires RuntimeOk(s) && s.session && s.fence.state.Terminal?
    ensures Over(Run(s, es))
    decreases |es|
  {
    if es == [] {
      TerminalIsOver(s);
    } else {
      StepOk(s, es[0]);
      TerminalStays(s, es[0]);
      TerminalIsForGood(Step(s, es[0]), es[1..]);
    }
  }

  /** A step of stop() in which nothing fails. */
  function Smooth(stuck: set<Media.Digest>): Event {
    StopTick(true, {}, stuck, Released)
  }

  /** Where a smooth step of a draining stop() leads. */
  lemma SmoothStep(s: Runtime, stuck: set<Media.Digest>)
    requires RuntimeOk(s) && (s.control.Draining? || s.control.Drained? || s.control.Retiring?)
    requires s.fence.state.Draining? && s.fence.active == 0
    ensures var n := Step(s, Smooth(stuck));
            && RuntimeOk(n) && n.fence.state.Draining? && n.fence.active == 0
            && (s.control.Retiring? ==> n.control.Ending? && n.residue == s.residue)
            && (s.control.Drained? ==> n.control.Retiring? && n.residue == stuck)
            && (s.control.Draining? ==> n.control.Drained?)
  {
    StepOk(s, Smooth(stuck));
    if s.control.Drained? { Session.RevokeExact(s.fence, {}); }
  }

  lemma SmoothEnd(s: Runtime, stuck: set<Media.Digest>)
    requires RuntimeOk(s) && s.control.Ending? && s.fence.state.Draining?
    ensures var n := Step(s, Smooth(stuck)); Over(n) && !n.held && !n.handle && n.media == s.media
  {
    StepOk(s, Smooth(stuck));
    TerminalizeExact(s.fence, Session.Draining, {});
    TerminalIsOver(Step(s, Smooth(stuck)));
  }

  lemma RunFirst(s: Runtime, e: Event, es: seq<Event>)
    ensures Run(s, [e] + es) == Run(Step(s, e), es)
  {
    assert ([e] + es)[1..] == es;
  }

  /** A runtime on which a stop() can begin with the admitted work done: READY, or DRAINING after
      a stop() that failed. */
  ghost predicate Stoppable(s: Runtime) {
    && RuntimeOk(s) && (s.fence.state.Ready? || s.fence.state.Draining?) && s.control.Idle?
    && s.handle && s.fence.active == 0 && s.holder.None? && s.queue == []
  }

  /** With the admitted work done, a stop in which nothing fails ends it all, also after one that
      failed: the lock is released, the registry is empty, and of the files only undeletable
      ones remain. */
  lemma StopFromReady(s: Runtime, stuck: set<Media.Digest>)
    requires Stoppable(s)
    ensures var t := Smooth(stuck);
            var n := Run(s, [CallStop(None, true, stuck, Released)] + ([t] + ([t] + ([t] + ([t] + [])))));
            Over(n) && !n.held && !n.handle && n.media.store.Keys <= stuck
  {
    var t := Smooth(stuck);
    var s1 := Step(s, CallStop(None, true, stuck, Released));
    StopBegins(s, stuck);
    var s2 := Step(s1, t);
    SmoothStep(s1, stuck);
    var s3 := Step(s2, t);
    SmoothStep(s2, stuck);
    var s4 := Step(s3, t);
    SmoothStep(s3, stuck);
    SmoothEnd(s4, stuck);
    RunFirst(s, CallStop(None, true, stuck, Released), [t] + ([t] + ([t] + ([t] + []))));
    RunFirst(s1, t, [t] + ([t] + ([t] + [])));
    RunFirst(s2, t, [t] + ([t] + []));
    RunFirst(s3, t, [t] + []);
    RunFirst(s4, t, []);
  }

  lemma StopBegins(s: Runtime, stuck: set<Media.Digest>)
    requires Stoppable(s)
    ensures var n := Step(s, CallStop(None, true, stuck, Released));
            RuntimeOk(n) && n.control.Draining? && n.fence.state.Draining? && n.fence.active == 0
  {
    StepOk(s, CallStop(None, true, stuck, Released));
  }

  /** A failed release is retried by the next stop. */
  lemma ReleaseRetried(s: Runtime, stuck: set<Media.Digest>)
    requires RuntimeOk(s) && s.fence.state.Terminal? && s.handle && s.session
    ensures var n := Step(s, CallStop(None, true, stuck, Released)); !n.held && !n.handle && Over(n)
  {
    StepOk(s, CallStop(None, true, stuck, Released));
    TerminalIsOver(Step(s, CallStop(None, true, stuck, Released)));
  }

  /** A teardown that could not finish leaves the session STARTING with no control task. */
  predicate Stuck(s: Runtime) {
    s.session && s.handle && s.held && s.fence.state.Starting? && (s.control.Idle? || s.control.Queued? || StopHolds(s.control))
  }

  lemma StuckTick(s: Runtime, good: bool, failing: set<nat>, stuck: set<Media.Digest>, o: ReleaseOutcome)
    requires FenceOk(s) && Stuck(s)
    ensures Stuck(StopStep(s, good, failing, stuck, o))
  {
    if s.control.Drained? { RevokeKeeps(s.fence, failing); }
    if s.control.Ending? { TerminalizeExact(s.fence, Session.Draining, failing); }
  }

  lemma StuckCall(s: Runtime, caller: Option<TaskId>, transportStops: bool, stuck: set<Media.Digest>, o: ReleaseOutcome)
    requires FenceOk(s) && Stuck(s)
    ensures Stuck(Stop(s, caller, transportStops, stuck, o))
  {
  }

  lemma StuckWork(s: Runtime, e: Event)
    requires Stuck(s) && (OfTask(e) || OfMedia(e))
    ensures Stuck(Step(s, e))
  {
    if e.Ingress? { assert Step(s, e) == s; }
  }

  lemma StuckControl(s: Runtime, e: Event)
    requires FenceOk(s) && Stuck(s)
    ensures Stuck(ControlStep(s, e))
  {
    match e
    case StopTick(good, failing, stuck, o) => StuckTick(s, good, failing, stuck, o);
    case CallStop(caller, transportStops, stuck, o) => StuckCall(s, caller, transportStops, stuck, o);
    case _ =>
  }

  lemma StuckStep(s: Runtime, e: Event)
    requires RuntimeOk(s) && Stuck(s)
    ensures Stuck(Step(s, e))
  {
    if OfTask(e) || OfMedia(e) { StuckWork(s, e); } else { StuckControl(s, e); }
  }

  /** From there nothing frees the domain: every later stop ends in the refused terminalize,
      every later start is refused, and the lock is kept. Safe, and no progress. */
  lemma {:induction false} StuckForever(s: Runtime, es: seq<Event>)
    requires RuntimeOk(s) && Stuck(s)
    ensures Stuck(Run(s, es))
    decreases |es|
  {
    if es != [] {
      StuckStep(s, es[0]);
      StepOk(s, es[0]);
      StuckForever(Step(s, es[0]), es[1..]);
    }
  }

  /** Revocation has yet to call a revoker that raises. */
  predicate OpenRaises(f: Session.Fence, failing: set<nat>) {
    !f.complete && exists k :: k in failing && k < f.revokers && k !in f.success
  }

  /** A teardown step leaves the domain stuck exactly when it ends the teardown short of
      TERMINAL: a raising revoker, a browser not proven stopped, or a raising clean-up. */
  lemma TeardownSticks(s: Runtime, good: bool, failing: set<nat>, o: ReleaseOutcome)
    requires RuntimeOk(s) && TearPhase(s.control)
    ensures var n := TearStep(s, good, failing, o);
            && (Stuck(n) <==> n.control.Idle? && !n.fence.state.Terminal?)
            && (s.control.Revoking? ==> (Stuck(n) <==> OpenRaises(s.fence, failing)))
            && (!s.control.Revoking? ==> (Stuck(n) <==> !good))
  {
    if s.control.Revoking? { Session.RevokeExact(s.fence, failing); }
    if s.control.Aborting? { TerminalizeExact(s.fence, Session.Starting, failing); }
  }
}
