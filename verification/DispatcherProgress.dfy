/** How start() gets to READY, where a failure on the way leads, and what a READY runtime lets
    in. */
module DispatcherProgress {
  import opened Wrappers
  import opened Dispatcher
  import Bytes
  import Media
  import Session

  /** start() has worked: READY under the lock, with a live browser and no work yet. */
  ghost predicate Started(s: Runtime, media: Media.Registry) {
    && s.control.Idle? && s.session && s.handle && s.held && s.sb && s.live && s.fence.state.Ready? && s.fence.active == 0
    && s.holder.None? && s.queue == [] && s.tasks == map[] && s.media == media
  }

  /** Taking the lock, hydrating, launching a browser that comes up, installing and binding. */
  const GOOD_START: seq<Event> :=
    [CallStart(Owned), StartTick(true, false), LaunchBrowser, BrowserTurns(true), StartTick(true, false), StartTick(true, false),
     StartTick(true, false)]

  /** The state of a good start after its first `n` events. */
  function StartState(store: map<Media.Digest, Bytes.ByteSeq>, max: nat, n: nat): Runtime {
    var up := n >= 1;
    Runtime(up, if n < 1 then Session.FRESH else if n < 7 then Session.FRESH.(revokers := 1)
                else Session.FRESH.(revokers := 1, state := Session.Ready),
            up, up, n >= 3, n >= 4,
            if n < 1 then Idle else if n < 2 then Hydrating else if n < 5 then Launching else if n < 6 then Installing
            else if n < 7 then Binding else Idle,
            None, [], map[], Media.Registry(map[], store, max), {})
  }

  lemma StartOn(store: map<Media.Digest, Bytes.ByteSeq>, max: nat, n: nat)
    requires n < 7
    ensures Step(StartState(store, max, n), GOOD_START[n]) == StartState(store, max, n + 1)
  {
  }

  lemma {:induction false} StartFrom(store: map<Media.Digest, Bytes.ByteSeq>, max: nat, n: nat)
    requires n <= 7
    ensures Run(StartState(store, max, n), GOOD_START[n..]) == StartState(store, max, 7)
    decreases 7 - n
  {
    if n < 7 {
      StartOn(store, max, n);
      StartFrom(store, max, n + 1);
      assert GOOD_START[n..][0] == GOOD_START[n] && GOOD_START[n..][1..] == GOOD_START[n + 1..];
    }
  }

  /** A start in which nothing fails makes a new runtime READY, with its browser, and the session
      it made is the one that admits work. */
  lemma GoodStartIsReady(store: map<Media.Digest, Bytes.ByteSeq>, max: nat)
    ensures Started(Run(Initial(store, max), GOOD_START), Media.Registry(map[], store, max))
  {
    StartFrom(store, max, 0);
    assert GOOD_START[0..] == GOOD_START;
  }

  /** A domain another process has, or a session already made, refuses the start: nothing
      changes, but that an acquire which fails while it gives up may leave the lock behind. */
  lemma RefusedStartChangesNothing(s: Runtime, a: Acquire)
    requires s.session || a.Busy? || a.Dropped?
    ensures var n := Step(s, CallStart(a)); n == s || (a.Dropped? && !s.session && n == s.(held := true))
  {
  }

  /** Each awaited step of start() moves it on if it works, and into the teardown if it does
      not; only the last one makes the session READY, and a launch works only with a browser. */
  lemma StartGoesOn(s: Runtime, good: bool, stopped: bool)
    requires RuntimeOk(s) && StartPhase(s.control)
    ensures var n, worked := Step(s, StartTick(good, stopped)), good && (s.control.Launching? ==> s.sb);
            && (!worked ==> n.control.Revoking? && (n.sb <==> s.sb && !(stopped && (s.control.Launching? || s.control.Installing?))))
            && (worked ==> n.sb == s.sb && n.live == s.live
                           && n.control == (if s.control.Hydrating? then Launching else if s.control.Launching? then Installing
                                            else if s.control.Installing? then Binding else Idle))
            && n.fence.state == (if worked && s.control.Binding? then Session.Ready else Session.Starting)
            && n.held && n.handle && n.tasks == s.tasks && n.media == s.media && n.fence.active == s.fence.active
  {
  }

  /** A READY runtime lets in what comes: an invocation to the lock, other work straight away. */
  lemma ReadyAdmits(s: Runtime, t: TaskId)
    requires s.session && s.fence.state.Ready? && t !in s.tasks
    ensures var n := Step(s, Invoke(t));
            && Admitted(n, t) && AtLock(n.holder, n.queue, t) && n.fence.active == s.fence.active + 1
            && (s.holder.None? && s.queue == [] ==> n.holder == Some(Task(t)))
    ensures var n := Step(s, Operate(t));
            Admitted(n, t) && n.holder == s.holder && n.queue == s.queue && n.fence.active == s.fence.active + 1
  {
  }

  /** Before any start an invocation waits for the lock all the same, outside any admission. */
  lemma InvokedWithoutSession(s: Runtime, t: TaskId)
    requires !s.session && t !in s.tasks
    ensures var n := Step(s, Invoke(t)); t in n.tasks && !Admitted(n, t) && AtLock(n.holder, n.queue, t) && n.fence == s.fence
  {
  }

  /** Admitted work reaches the media registry; anyone else does not. */
  lemma RegistryWork(s: Runtime, t: TaskId, staged: Media.Staged, ref: Media.Ref, unlinks: bool)
    ensures Step(s, ReleaseBy(t, ref, unlinks)) ==
              if Admitted(s, t) then s.(media := Media.Step(s.media, Media.DoRelease(ref, unlinks))) else s
    ensures ref !in s.media.entries ==>
              Step(s, IngestBy(t, staged, ref)) == if Admitted(s, t) then s.(media := Media.Step(s.media, Media.DoIngest(staged, ref))) else s
  {
  }

  /** Neither start(), teardown, stop() nor the registry adds or removes a task. */
  lemma OnlyTasksComeAndGo(s: Runtime, e: Event)
    requires !OfTask(e)
    ensures Step(s, e).tasks == s.tasks
  {
    if e.TearTick? { TearKeepsTasks(s, e.good, e.failing, e.release); }
    else if e.StopTick? { StopKeepsTasks(s, e.good, e.failing, e.stuck, e.release); }
    else if e.CallStop? { CallKeepsTasks(s, e.caller, e.transportStops, e.stuck, e.release); }
    else { RestKeepsTasks(s, e); }
  }

  lemma TearKeepsTasks(s: Runtime, good: bool, failing: set<nat>, o: ReleaseOutcome)
    ensures TearStep(s, good, failing, o).tasks == s.tasks
  {
  }

  lemma StopKeepsTasks(s: Runtime, good: bool, failing: set<nat>, stuck: set<Media.Digest>, o: ReleaseOutcome)
    ensures StopStep(s, good, failing, stuck, o).tasks == s.tasks
  {
    if s.control.Ending? { EndKeepsTasks(s, good, failing, stuck, o); }
  }

  lemma EndKeepsTasks(s: Runtime, good: bool, failing: set<nat>, stuck: set<Media.Digest>, o: ReleaseOutcome)
    requires s.control.Ending?
    ensures StopStep(s, good, failing, stuck, o).tasks == s.tasks
  {
    var f := Terminalize(s.fence, Session.Draining, failing).0;
    ReleaseKeepsTasks(ExitStop(s.(fence := f)), o);
  }

  lemma ReleaseKeepsTasks(s: Runtime, o: ReleaseOutcome)
    ensures ReleaseAuthority(s, o).tasks == s.tasks
  {
  }

  lemma CallKeepsTasks(s: Runtime, caller: Option<TaskId>, transportStops: bool, stuck: set<Media.Digest>, o: ReleaseOutcome)
    ensures Stop(s, caller, transportStops, stuck, o).tasks == s.tasks
  {
  }

  lemma RestKeepsTasks(s: Runtime, e: Event)
    requires !OfTask(e) && !e.TearTick? && !e.StopTick? && !e.CallStop?
    ensures Step(s, e).tasks == s.tasks
  {
    if e.StartTick? { StartKeepsTasks(s, e.good, e.stopped); }
    else if e.CallStart? { BeginKeepsTasks(s, e.acquire); }
    else if OfMedia(e) { MediaKeepsTasks(s, e); }
    else { assert e.LaunchBrowser? || e.BrowserTurns?; }
  }

  lemma StartKeepsTasks(s: Runtime, good: bool, stopped: bool)
    ensures StartStep(s, good, stopped).tasks == s.tasks
  {
  }

  lemma BeginKeepsTasks(s: Runtime, a: Acquire)
    ensures Start(s, a).tasks == s.tasks
  {
  }

  lemma MediaKeepsTasks(s: Runtime, e: Event)
    requires OfMedia(e)
    ensures Step(s, e).tasks == s.tasks
  {
  }

  lemma IngressNeedsReady(s: Runtime, t: TaskId, items: seq<(Media.Ref, bool)>, killed: bool)
    requires s.session && !s.fence.state.Ready?
    ensures Step(s, Ingress(t, items, killed)) == s
  {
  }

  /** Once the session is not READY nothing more is admitted. */
  lemma OnlyReadyAdmits(s: Runtime, e: Event)
    requires s.session && !s.fence.state.Ready?
    ensures Inside(Step(s, e).tasks) <= Inside(s.tasks)
  {
    if !OfTask(e) { OnlyTasksComeAndGo(s, e); }
    else if e.Leave? { if e.t in s.tasks { InsideRemove(s.tasks, e.t); } }
    else if e.Ingress? { IngressNeedsReady(s, e.t, e.items, e.killed); }
    else { assert Step(s, e).tasks == s.tasks; }
  }

  /** The lock goes to who has waited longest, once it is free. */
  lemma LockIsFair(s: Runtime)
    requires s.queue != []
    ensures var n := Step(s, Grant);
            if s.holder.Some? then n == s else n.holder == Some(s.queue[0]) && [s.queue[0]] + n.queue == s.queue && n.tasks == s.tasks
  {
  }

  /** stop() from inside the invocation that holds the lock is refused with no effect; from
      anywhere else, over a session that has not ended, it closes admission. */
  lemma StopClosesAdmission(s: Runtime, caller: Option<TaskId>, transportStops: bool, stuck: set<Media.Digest>, o: ReleaseOutcome)
    requires RuntimeOk(s) && s.control.Idle? && s.session && s.handle && !s.fence.state.Terminal?
    ensures var n := Step(s, CallStop(caller, transportStops, stuck, o));
            if caller.Some? && s.holder == Some(Task(caller.value)) then n == s
            else
              && !n.fence.state.Ready? && n.fence.active == s.fence.active && n.held && n.handle
              && (transportStops <==> n.control.Draining? || n.control.Queued?)
              && (n.control.Draining? <==> transportStops && s.holder.None? && s.queue == [])
              && (n.control.Queued? ==> n.queue == s.queue + [Stopper])
  {
  }

  /** stop() moves past its drain exactly when no admitted work is left, and gives up on it, with
      the lock free for the work that remains, when the wait fails. */
  lemma DrainWaits(s: Runtime, good: bool, failing: set<nat>, stuck: set<Media.Digest>, o: ReleaseOutcome)
    requires RuntimeOk(s) && s.control.Draining?
    ensures var n := Step(s, StopTick(good, failing, stuck, o));
            && (n.control.Drained? <==> good && Inside(s.tasks) == {})
            && (good && Inside(s.tasks) != {} ==> n == s)
            && (!good ==> n == s.(holder := None, control := Idle))
  {
  }
}
