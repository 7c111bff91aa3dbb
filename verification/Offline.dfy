/** The standalone recovery owner: it acquires the domain, admits operator work, and closes
    by the same shutdown law, but with no retry of its drain. */
module Offline {
  import opened Wrappers
  import Session

  /** `held` is the operating-system lock, `handle` the owner's reference to it; `closing` says
      a close() is waiting for the drain. */
  datatype Owner = Owner(session: Option<Session.Fence>, handle: bool, held: bool, closing: bool)

  const NONE := Owner(None, false, false, false)

  datatype ReleaseOutcome = Released | ReleaseRaises(stillHeld: bool)

  /** How acquire() goes: the lock is busy, the root cannot be built under it, or both work. */
  datatype Acquiring = LockBusy | BuildFails(release: ReleaseOutcome) | Built

  datatype Event =
    | Acquire(how: Acquiring)
    | Admit
    | Leave
    | Close(release: ReleaseOutcome)
    | Wait(drained: bool, release: ReleaseOutcome)

  function Release(o: Owner, r: ReleaseOutcome): Owner {
    match r
    case Released => NONE
    case ReleaseRaises(stillHeld) => o.(held := o.held && stillHeld)
  }

  function AcquireStep(o: Owner, how: Acquiring): Owner {
    if o.handle || o.held then o
    else match how
         case LockBusy => o
         case BuildFails(release) => o.(held := release.ReleaseRaises? && release.stillHeld)
         case Built => Owner(Some(Session.FRESH.(state := Session.Ready)), true, true, false)
  }

  /** close() up to its wait: a retry of the release when TERMINAL, else begin_drain(), which
      refuses any state but READY. */
  function CloseStep(o: Owner, r: ReleaseOutcome): Owner {
    if o.session.None? || !o.handle then o
    else if o.session.value.state.Terminal? then Release(o, r)
    else
      var drain := Session.BeginDrain(o.session.value);
      if drain.Ok? then o.(session := Some(drain.value), closing := true) else o
  }

  /** The rest of close(): the wait ends drained or timed out. */
  function WaitStep(o: Owner, drained: bool, r: ReleaseOutcome): Owner {
    if !o.closing || o.session.None? then o
    else if !drained then o.(closing := false)
    else if o.session.value.active != 0 then o
    else
      var (f, revoked) := Session.Revoke(o.session.value, {});
      var end := Session.EnterTerminal(f, Session.Draining);
      if revoked.Revoked? && end.Ok? then Release(o.(session := Some(end.value), closing := false), r)
      else o.(session := Some(f), closing := false)
  }

  function Step(o: Owner, e: Event): Owner {
    match e
    case Acquire(how) => AcquireStep(o, how)
    case Admit =>
      if o.session.None? then o
      else
        var r := Session.Admit(o.session.value, 0, None);
        if r.Ok? then o.(session := Some(r.value)) else o
    case Leave =>
      if o.session.Some? && o.session.value.active > 0 then o.(session := Some(Session.Leave(o.session.value))) else o
    case Close(r) => CloseStep(o, r)
    case Wait(drained, r) => WaitStep(o, drained, r)
  }

  function Run(o: Owner, es: seq<Event>): Owner
    decreases |es|
  {
    if es == [] then o else Run(Step(o, es[0]), es[1..])
  }

  ghost predicate OwnerOk(o: Owner) {
    && (o.session.Some? <==> o.handle)
    && (o.closing ==> o.session.Some? && o.session.value.state.Draining?)
    && (o.session.Some? ==>
          var f := o.session.value;
          && Session.Sound(f) && !f.running && f.revokers == 0 && f.active >= 0
          && (f.state.Ready? || f.state.Draining? || f.state.Terminal?)
          && (!f.state.Terminal? ==> o.held)
          && (f.state.Terminal? ==> f.active == 0))
  }

  lemma WaitOk(o: Owner, drained: bool, r: ReleaseOutcome)
    requires OwnerOk(o)
    ensures OwnerOk(WaitStep(o, drained, r))
    ensures o.closing && drained && o.session.value.active == 0 ==>
              var n := WaitStep(o, drained, r); n == NONE || (n.handle && n.session.value.state.Terminal? && r.ReleaseRaises?)
  {
    if o.closing && o.session.Some? { Session.RevokeExact(o.session.value, {}); }
  }

  lemma StepOk(o: Owner, e: Event)
    requires OwnerOk(o)
    ensures OwnerOk(Step(o, e))
  {
    if e.Wait? { WaitOk(o, e.drained, e.release); }
  }

  lemma {:induction false} RunOk(o: Owner, es: seq<Event>)
    requires OwnerOk(o)
    ensures OwnerOk(Run(o, es))
    decreases |es|
  {
    if es != [] { StepOk(o, es[0]); RunOk(Step(o, es[0]), es[1..]); }
  }

  /** In every run, ownership is given up only by a close() whose drain was complete. */
  lemma ReleaseIsLast(es: seq<Event>, e: Event)
    requires var o := Run(NONE, es); o.handle && !Step(o, e).handle
    ensures var o := Run(NONE, es);
            && o.session.value.active == 0
            && ((e.Close? && o.session.value.state.Terminal?) || (e.Wait? && e.drained && o.closing))
  {
    RunOk(NONE, es);
    var o := Run(NONE, es);
    if e.Wait? { WaitOk(o, e.drained, e.release); }
  }

  /** Operator work is admitted exactly while the owner is READY. */
  lemma ReadyAdmits(o: Owner)
    ensures var n := Step(o, Admit);
            if o.session.Some? && o.session.value.state.Ready? then
              n == o.(session := Some(o.session.value.(active := o.session.value.active + 1)))
            else n == o
    ensures o.session.Some? && o.session.value.active > 0 ==>
              Step(o, Leave) == o.(session := Some(o.session.value.(active := o.session.value.active - 1)))
  {
  }

  /** Draining, with no close() in it. */
  predicate Stuck(o: Owner) {
    o.session.Some? && o.session.value.state.Draining? && !o.closing && o.handle && o.held
  }

  /** A wait leaves the owner stuck exactly when it timed out. */
  lemma TimeoutSticks(o: Owner, drained: bool, r: ReleaseOutcome)
    requires OwnerOk(o) && o.closing && (drained ==> o.session.value.active == 0)
    ensures Stuck(WaitStep(o, drained, r)) <==> !drained
  {
    WaitOk(o, drained, r);
  }

  /** After that no close() gets past begin_drain(), even once the work has finished: the
      domain stays locked. */
  lemma {:induction false} StuckForever(o: Owner, es: seq<Event>)
    requires Stuck(o)
    ensures Stuck(Run(o, es))
    decreases |es|
  {
    if es != [] { StuckForever(Step(o, es[0]), es[1..]); }
  }

  /** A close whose release raised stays TERMINAL with its handle, and the next one retries. */
  lemma ReleaseRetried(o: Owner)
    requires OwnerOk(o) && o.handle && o.session.value.state.Terminal?
    ensures Step(o, Close(Released)) == NONE
    ensures forall stillHeld :: Step(o, Close(ReleaseRaises(stillHeld))).handle
  {
  }

  /** While close() waits, the admitted work goes down to `remaining`. */
  function WorkLeaves(o: Owner, remaining: nat): Owner {
    if o.closing && o.session.Some? then o.(session := Some(o.session.value.(active := remaining))) else o
  }

  class OfflineRecoveryAuthority {
    var session: Option<Session.Fence>
    var handle: bool
    var held: bool

    /** The owner outside of close(). */
    function Value(): Owner
      reads this
    {
      Owner(session, handle, held, false)
    }

    ghost predicate Valid()
      reads this
    {
      OwnerOk(Value())
    }

    constructor ()
      ensures Valid() && Value() == NONE
    {
      session, handle, held := None, false, false;
    }

    /** acquire(): a READY session under the lock, or nothing. Only a release that raises while
        a failed build is undone leaves the lock behind. */
    method AcquireDomain(how: Acquiring) returns (acquired: bool)
      requires Valid()
      modifies this
      ensures Valid() && Value() == AcquireStep(old(Value()), how)
      ensures acquired <==> how.Built? && !old(held || handle)
      ensures acquired ==> handle && held && session.Some? && session.value.state.Ready? && session.value.active == 0
      ensures !acquired ==> handle == old(handle) && session == old(session)
      ensures held <==> old(held) || acquired || (!old(handle) && how == BuildFails(ReleaseRaises(true)))
    {
      if handle || held || how.LockBusy? {
        return false;
      }
      held := true;
      if how.BuildFails? {
        held := how.release.ReleaseRaises? && how.release.stillHeld;
        return false;
      }
      session, handle := Some(Session.FRESH.(state := Session.Ready)), true;
      return true;
    }

    /** lock.release(): the owner's state is discarded only when it works. */
    method ReleaseLock(r: ReleaseOutcome) returns (released: bool)
      modifies this
      ensures Value() == Release(old(Value()), r) && (released <==> r.Released?)
    {
      match r
      case Released => session, handle, held, released := None, false, false, true;
      case ReleaseRaises(stillHeld) => held, released := held && stillHeld, false;
    }

    /** close(), in whose wait the admitted work goes down to `remaining`. It gives the domain up
        exactly with all work gone, or over a TERMINAL session, and a release that works. A
        release that raises keeps the handle for the next close; a timeout does too, but then no
        close gets through any more. */
    method Close(remaining: nat, r: ReleaseOutcome) returns (closed: bool)
      requires Valid() && (session.Some? ==> remaining <= session.value.active)
      modifies this
      ensures Valid() && Value() == WaitStep(WorkLeaves(CloseStep(old(Value()), r), remaining), remaining == 0, r)
      ensures closed <==> old(handle) && !handle
      ensures closed <==> old(handle) && r.Released?
                          && old(session.value.state.Terminal? || (session.value.state.Ready? && remaining == 0))
      ensures closed ==> Value() == NONE
      ensures old(handle && session.value.state.Ready?) && remaining > 0 ==> Stuck(Value())
      ensures old(handle && session.value.state.Ready?) && remaining == 0 && r.ReleaseRaises? ==>
                handle && session.value.state.Terminal?
      ensures old(Stuck(Value())) ==> Value() == old(Value())
    {
      if session.None? || !handle {
        return false;
      }
      if session.value.state.Terminal? {
        closed := ReleaseLock(r);
        return;
      }
      var drain := Session.BeginDrain(session.value);
      if drain.Err? {
        return false;
      }
      ghost var waiting := WorkLeaves(CloseStep(Value(), r), remaining);
      session := Some(drain.value.(active := remaining));
      if remaining > 0 {
        return false;
      }
      WaitOk(waiting, true, r);
      Session.RevokeExact(session.value, {});
      var (f, revoked) := Session.Revoke(session.value, {});
      session := Some(f);
      if !revoked.Revoked? {
        return false;
      }
      var end := Session.EnterTerminal(f, Session.Draining);
      if end.Err? {
        return false;
      }
      session := Some(end.value);
      closed := ReleaseLock(r);
    }
  }
}
