/** The Dispatcher's own fields and the parts of start() and stop() that change them with no
    other task in between: releasing the lock, tearing a failed start down, and retiring the
    root once the drain is done. */
module DispatcherObject {
  import opened Wrappers
  import opened Dispatcher
  import Bytes
  import Media
  import Session

  class OwnerRuntime {
    var session: bool
    var fence: Session.Fence
    var handle: bool
    var held: bool
    var sb: bool
    var live: bool
    var holder: Option<Who>
    var queue: seq<Who>
    var tasks: map<TaskId, Work>
    var media: Media.Registry
    var residue: set<Media.Digest>

    /** The runtime with its control task at `c`. */
    ghost function At(c: Control): Runtime
      reads this
    {
      Runtime(session, fence, handle, held, sb, live, c, holder, queue, tasks, media, residue)
    }

    constructor (store: map<Media.Digest, Bytes.ByteSeq>, maxArtifacts: nat)
      ensures RuntimeOk(At(Idle)) && !session && !held && !live && tasks == map[] && media.store == store
    {
      session, fence, handle, held, sb, live := false, Session.FRESH, false, false, false, false;
      holder, queue, tasks, media, residue := None, [], map[], Media.Registry(map[], store, maxArtifacts), {};
      new;
      InitialOk(store, maxArtifacts);
    }

    /** Whether the release happened; a refusal or a raising release keeps the handle. */
    method Release(o: ReleaseOutcome) returns (released: bool)
      modifies `handle, `held
      ensures forall c :: At(c) == ReleaseAuthority(old(At(c)), o)
      ensures released <==> old(handle) && !handle
      ensures released ==> old(!session || fence.state.Terminal?)
    {
      released := false;
      if session && !fence.state.Terminal? {
        return;
      }
      if !handle {
        return;
      }
      match o
      case Released => held, handle, released := false, false, true;
      case ReleaseRaises(stillHeld) => held := held && stillHeld;
    }

    /** The statements of _teardown_failed_start(), to its return or exception. */
    method TearDown(failing: set<nat>, quiesces: bool, closes: bool, o: ReleaseOutcome)
      modifies `fence, `sb, `live, `handle, `held
      ensures At(Idle) == Torn(old(At(Revoking)), failing, quiesces, closes, o)
    {
      var (f, r) := Session.Revoke(fence, failing);
      fence := f;
      if !r.Revoked? {
        return;
      }
      if !quiesces {
        return;
      }
      sb, live := false, false;
      if !closes {
        return;
      }
      var (ended, done) := Terminalize(fence, Session.Starting, failing);
      fence := ended;
      if done {
        var _ := Release(o);
      }
    }

    /** _teardown_failed_start() on a runtime in order: the domain ends free, or TERMINAL with
        the handle kept for another release, or stuck. */
    method TeardownFailedStart(failing: set<nat>, quiesces: bool, closes: bool, o: ReleaseOutcome)
      requires RuntimeOk(At(Revoking))
      modifies `fence, `sb, `live, `handle, `held
      ensures RuntimeOk(At(Idle))
      ensures fence.state.Terminal? <==> !OpenRaises(old(fence), failing) && quiesces && closes
      ensures fence.state.Terminal? ==> Over(At(Idle)) && (handle <==> o.ReleaseRaises?) && (held ==> handle)
      ensures !fence.state.Terminal? ==> Stuck(At(Idle)) && (sb ==> old(sb)) && (quiesces && !OpenRaises(old(fence), failing) ==> !sb)
    {
      TeardownExact(At(Revoking), failing, quiesces, closes, o);
      TornInSteps(At(Revoking), failing, quiesces, closes, o);
      TearDown(failing, quiesces, closes, o);
    }

    /** The statements of stop() once it holds the lock and the drain is over. */
    method Retire(failing: set<nat>, retires: bool, stuck: set<Media.Digest>, o: ReleaseOutcome)
      modifies `fence, `media, `residue, `sb, `live, `holder, `handle, `held
      ensures At(Idle) == Retired(old(At(Drained)), failing, retires, stuck, o)
    {
      var (f, r) := Session.Revoke(fence, failing);
      fence := f;
      if !r.Revoked? {
        holder := None;
        return;
      }
      media, residue := Media.Cleanup(media, stuck), stuck;
      if !retires {
        holder := None;
        return;
      }
      sb, live := false, false;
      var (ended, done) := Terminalize(fence, Session.Draining, failing);
      fence, holder := ended, None;
      if done {
        var _ := Release(o);
      }
    }

    /** stop() from there on a runtime in order. The session ends TERMINAL exactly when it was
        DRAINING, no revoker raised and the browser went; otherwise the lock and the handle
        stay for the next stop. */
    method RetireRoot(failing: set<nat>, retires: bool, stuck: set<Media.Digest>, o: ReleaseOutcome)
      requires RuntimeOk(At(Drained))
      modifies `fence, `media, `residue, `sb, `live, `holder, `handle, `held
      ensures RuntimeOk(At(Idle)) && holder.None?
      ensures fence.state.Terminal? <==> old(fence.state.Draining?) && !OpenRaises(old(fence), failing) && retires
      ensures fence.state.Terminal? ==> Over(At(Idle)) && (handle <==> o.ReleaseRaises?) && (held ==> handle)
      ensures !fence.state.Terminal? ==> held && handle && fence.state == old(fence.state)
      ensures if OpenRaises(old(fence), failing) then media == old(media) && sb == old(sb)
              else media.entries == map[] && media.store.Keys <= stuck && (sb <==> old(sb) && !retires)
    {
      RetirementExact(At(Drained), failing, retires, stuck, o);
      RetiredInSteps(At(Drained), failing, retires, stuck, o);
      Retire(failing, retires, stuck, o);
    }
  }

  /** Three teardown steps in a row, as far as they go. */
  ghost function Teardown(s: Runtime, failing: set<nat>, quiesces: bool, closes: bool, o: ReleaseOutcome): Runtime {
    TearStep(TearStep(TearStep(s, true, failing, o), quiesces, failing, o), closes, failing, o)
  }

  /** Three steps of stop() in a row, as far as they go. */
  ghost function Retirement(s: Runtime, failing: set<nat>, retires: bool, stuck: set<Media.Digest>, o: ReleaseOutcome): Runtime {
    StopStep(StopStep(StopStep(s, true, failing, stuck, o), retires, failing, stuck, o), true, failing, stuck, o)
  }

  /** What the statements of the teardown come to. */
  function Torn(s: Runtime, failing: set<nat>, quiesces: bool, closes: bool, o: ReleaseOutcome): Runtime {
    var (f, r) := Session.Revoke(s.fence, failing);
    var n := s.(fence := f, control := Idle);
    if !r.Revoked? || !quiesces then n
    else if !closes then n.(sb := false, live := false)
    else
      var (ended, done) := Terminalize(f, Session.Starting, failing);
      var m := n.(sb := false, live := false, fence := ended);
      if done then ReleaseAuthority(m, o) else m
  }

  lemma TornInSteps(s: Runtime, failing: set<nat>, quiesces: bool, closes: bool, o: ReleaseOutcome)
    requires s.control.Revoking?
    ensures Torn(s, failing, quiesces, closes, o) == Teardown(s, failing, quiesces, closes, o)
  {
    var a := TearStep(s, true, failing, o);
    if a.control.Quiescing? && quiesces { assert TearStep(a, true, failing, o).control.Aborting?; }
  }

  /** What the statements of a stop whose drain is over come to. */
  function Retired(s: Runtime, failing: set<nat>, retires: bool, stuck: set<Media.Digest>, o: ReleaseOutcome): Runtime {
    var (f, r) := Session.Revoke(s.fence, failing);
    if !r.Revoked? then ExitStop(s.(fence := f))
    else if !retires then ExitStop(Sweep(s.(fence := f), stuck))
    else Ended(ExitStop(Sweep(s.(fence := f), stuck)), failing, o)
  }

  /** The browser is gone: the last statements. */
  function Ended(s: Runtime, failing: set<nat>, o: ReleaseOutcome): Runtime {
    var (ended, done) := Terminalize(s.fence, Session.Draining, failing);
    var n := s.(sb := false, live := false, fence := ended);
    if done then ReleaseAuthority(n, o) else n
  }

  lemma EndedInSteps(s: Runtime, failing: set<nat>, retires: bool, stuck: set<Media.Digest>, o: ReleaseOutcome)
    requires s.control.Retiring?
    ensures StopStep(StopStep(s, retires, failing, stuck, o), true, failing, stuck, o)
         == if retires then Ended(ExitStop(s), failing, o) else ExitStop(s)
  {
  }

  /** Where the first of the three steps leads. */
  lemma FirstStep(s: Runtime, failing: set<nat>, stuck: set<Media.Digest>, o: ReleaseOutcome)
    requires s.control.Drained?
    ensures var n := StopStep(s, true, failing, stuck, o); var (f, r) := Session.Revoke(s.fence, failing);
            if r.Revoked? then n == Sweep(s.(fence := f), stuck).(control := Retiring) else n == ExitStop(s.(fence := f))
  {
  }

  lemma RetiredInSteps(s: Runtime, failing: set<nat>, retires: bool, stuck: set<Media.Digest>, o: ReleaseOutcome)
    requires s.control.Drained?
    ensures Retired(s, failing, retires, stuck, o) == Retirement(s, failing, retires, stuck, o)
  {
    FirstStep(s, failing, stuck, o);
    var a := StopStep(s, true, failing, stuck, o);
    if a.control.Retiring? {
      EndedInSteps(a, failing, retires, stuck, o);
      assert ExitStop(a) == ExitStop(Sweep(s.(fence := a.fence), stuck));
    } else {
      assert a.control.Idle?;
    }
  }

  lemma FirstTear(s: Runtime, failing: set<nat>, o: ReleaseOutcome)
    requires RuntimeOk(s) && s.control.Revoking?
    ensures var n := TearStep(s, true, failing, o);
            && RuntimeOk(n) && n.sb == s.sb && n.fence.state.Starting?
            && (if OpenRaises(s.fence, failing) then n.control.Idle? && Stuck(n) else n.control.Quiescing?)
  {
    TearStepOk(s, true, failing, o);
    TeardownSticks(s, true, failing, o);
    Session.RevokeExact(s.fence, failing);
  }

  lemma SecondTear(s: Runtime, quiesces: bool, failing: set<nat>, o: ReleaseOutcome)
    requires RuntimeOk(s) && s.control.Quiescing?
    ensures var n := TearStep(s, quiesces, failing, o);
            && RuntimeOk(n) && (n.sb <==> s.sb && !quiesces) && n.fence.state.Starting?
            && (if quiesces then n.control.Aborting? else n.control.Idle? && Stuck(n))
  {
    TearStepOk(s, quiesces, failing, o);
    TeardownSticks(s, quiesces, failing, o);
  }

  lemma LastTear(s: Runtime, closes: bool, failing: set<nat>, o: ReleaseOutcome)
    requires RuntimeOk(s) && s.control.Aborting?
    ensures var n := TearStep(s, closes, failing, o);
            && RuntimeOk(n) && n.control.Idle? && n.sb == s.sb && (n.fence.state.Terminal? <==> closes)
            && (if closes then Over(n) && (n.handle <==> o.ReleaseRaises?) && (n.held ==> n.handle) else Stuck(n))
  {
    TearStepOk(s, closes, failing, o);
    TeardownSticks(s, closes, failing, o);
    TerminalizeExact(s.fence, Session.Starting, failing);
  }

  /** A teardown ends with the domain free, TERMINAL with a handle to retry, or stuck. */
  lemma TeardownExact(s: Runtime, failing: set<nat>, quiesces: bool, closes: bool, o: ReleaseOutcome)
    requires RuntimeOk(s) && s.control.Revoking?
    ensures var n := Teardown(s, failing, quiesces, closes, o);
            && RuntimeOk(n) && n.control.Idle?
            && (n.fence.state.Terminal? <==> !OpenRaises(s.fence, failing) && quiesces && closes)
            && (n.fence.state.Terminal? ==> Over(n) && (n.handle <==> o.ReleaseRaises?) && (n.held ==> n.handle))
            && (!n.fence.state.Terminal? ==> Stuck(n) && (n.sb ==> s.sb) && (quiesces && !OpenRaises(s.fence, failing) ==> !n.sb))
  {
    FirstTear(s, failing, o);
    if !OpenRaises(s.fence, failing) {
      var a := TearStep(s, true, failing, o);
      SecondTear(a, quiesces, failing, o);
      if quiesces { LastTear(TearStep(a, true, failing, o), closes, failing, o); }
    }
  }

  lemma FirstRetire(s: Runtime, failing: set<nat>, stuck: set<Media.Digest>, o: ReleaseOutcome)
    requires RuntimeOk(s) && s.control.Drained?
    ensures var n := StopStep(s, true, failing, stuck, o);
            && RuntimeOk(n) && n.sb == s.sb && n.held && n.handle && n.fence.state == s.fence.state
            && (if OpenRaises(s.fence, failing) then n.control.Idle? && n.holder.None? && n.media == s.media
                else n.control.Retiring? && n.media.entries == map[] && n.media.store.Keys <= stuck)
  {
    StopStepOk(s, true, failing, stuck, o);
    Session.RevokeExact(s.fence, failing);
    SweepExact(s, stuck);
  }

  lemma SecondRetire(s: Runtime, retires: bool, failing: set<nat>, stuck: set<Media.Digest>, o: ReleaseOutcome)
    requires RuntimeOk(s) && s.control.Retiring?
    ensures var n := StopStep(s, retires, failing, stuck, o);
            && RuntimeOk(n) && (n.sb <==> s.sb && !retires) && n.held && n.handle && n.fence == s.fence && n.media == s.media
            && (if retires then n.control.Ending? else n.control.Idle? && n.holder.None?)
  {
    StopStepOk(s, retires, failing, stuck, o);
  }

  lemma LastRetire(s: Runtime, failing: set<nat>, stuck: set<Media.Digest>, o: ReleaseOutcome)
    requires RuntimeOk(s) && s.control.Ending?
    ensures var n := StopStep(s, true, failing, stuck, o);
            && RuntimeOk(n) && n.control.Idle? && n.holder.None? && n.sb == s.sb && n.media == s.media
            && (n.fence.state.Terminal? <==> s.fence.state.Draining?)
            && (if n.fence.state.Terminal? then Over(n) && (n.handle <==> o.ReleaseRaises?) && (n.held ==> n.handle)
                else n.held && n.handle && n.fence.state == s.fence.state)
  {
    StopStepOk(s, true, failing, stuck, o);
    TerminalizeExact(s.fence, Session.Draining, failing);
  }

  /** The tail of a stop, whole or cut short by a revoker or the browser. */
  lemma RetirementExact(s: Runtime, failing: set<nat>, retires: bool, stuck: set<Media.Digest>, o: ReleaseOutcome)
    requires RuntimeOk(s) && s.control.Drained?
    ensures var n := Retirement(s, failing, retires, stuck, o);
            && RuntimeOk(n) && n.control.Idle? && n.holder.None?
            && (n.fence.state.Terminal? <==> s.fence.state.Draining? && !OpenRaises(s.fence, failing) && retires)
            && (n.fence.state.Terminal? ==> Over(n) && (n.handle <==> o.ReleaseRaises?) && (n.held ==> n.handle))
            && (!n.fence.state.Terminal? ==> n.held && n.handle && n.fence.state == s.fence.state)
            && (if OpenRaises(s.fence, failing) then n.media == s.media && n.sb == s.sb
                else n.media.entries == map[] && n.media.store.Keys <= stuck && (n.sb <==> s.sb && !retires))
  {
    FirstRetire(s, failing, stuck, o);
    if !OpenRaises(s.fence, failing) {
      var a := StopStep(s, true, failing, stuck, o);
      SecondRetire(a, retires, failing, stuck, o);
      if retires { LastRetire(StopStep(a, true, failing, stuck, o), failing, stuck, o); }
    }
  }
}
