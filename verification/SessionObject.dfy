/** The session object: the critical sections of Session, run in place on its fields. */
module SessionObject {
  import opened Wrappers
  import opened Session

  /** The session object. Each method runs one critical section in place, except Revoke,
      which is the whole loop of a caller that meets no other. */
  class AuthoritySession {
    const instance: nat
    var state: State
    var active: int
    var revokers: nat
    var success: set<nat>
    var started: bool
    var running: bool
    var complete: bool

    constructor (instance: nat)
      ensures this.instance == instance && Value() == FRESH
    {
      this.instance := instance;
      state, active, revokers, success := Starting, 0, 0, {};
      started, running, complete := false, false, false;
    }

    function Value(): Fence
      reads this
    {
      Fence(state, active, revokers, success, started, running, complete)
    }

    /** The invariant of a session whose callers come one at a time. */
    ghost predicate Valid()
      reads this
    {
      Sound(Value()) && !running && active >= 0 && (complete ==> started || state == Terminal)
    }

    /** Succeeds exactly before READY and before revocation; from there revocation is refused
        until begin_drain(). */
    method Activate() returns (error: Option<Error>)
      requires Valid()
      modifies this`state
      ensures Valid()
      ensures error.None? ==> state == Ready && forall failing :: Session.Revoke(Value(), failing) == (Value(), RevokeRefused)
      ensures error.None? <==> old(state == Starting && !started)
      ensures error.Some? ==> error.value == Illegal && state == old(state)
    {
      if started { return Some(Illegal); }
      if state != Starting { return Some(Illegal); }
      state := Ready;
      return None;
    }

    /** From here nothing is admitted, and nothing will be. */
    method BeginDrain() returns (error: Option<Error>)
      requires Valid()
      modifies this`state
      ensures Valid()
      ensures state != Ready && forall expected :: Session.Admit(Value(), instance, expected) == Err(AdmissionClosed)
      ensures error.None? <==> old(state == Ready)
      ensures if error.None? then state == Draining else error.value == Illegal && state == old(state)
    {
      if state != Ready { return Some(Illegal); }
      state := Draining;
      return None;
    }

    /** A revoker is accepted exactly while a revocation that completes must still call it. */
    method RegisterRevoker() returns (error: Option<Error>)
      requires Valid()
      modifies this`revokers
      ensures Valid()
      ensures error.None? <==> !complete
      ensures error.None? ==> revokers == old(revokers) + 1 && old(revokers) in Pending(Value(), 0)
      ensures error.Some? ==> error.value == Illegal && revokers == old(revokers)
    {
      if complete || running { return Some(Illegal); }
      revokers := revokers + 1;
      assert revokers - 1 !in UpTo(revokers - 1);
      PendingExact(Value(), 0);
      return None;
    }

    /** The entry of `with admit()`: only to a READY session, and only for this instance; leave()
        undoes it. */
    method Admit(expected: Option<nat>) returns (error: Option<Error>)
      requires Valid()
      modifies this`active
      ensures Valid()
      ensures error.None? <==> state == Ready && (expected.None? || expected.value == instance)
      ensures error.None? ==> active > 0 && Session.Leave(Value()) == old(Value())
      ensures error.Some? ==> active == old(active) && error.value == if state == Ready then StaleInstance else AdmissionClosed
    {
      if state != Ready { return Some(AdmissionClosed); }
      if expected.Some? && expected.value != instance { return Some(StaleInstance); }
      active := active + 1;
      return None;
    }

    method Leave()
      requires Valid() && active > 0
      modifies this`active
      ensures Valid()
      ensures Value() == Session.Leave(old(Value()))
    {
      active := active - 1;
    }

    /** The revocation loop; `failing` is the set of revokers that raise when called. */
    method Revoke(failing: set<nat>) returns (r: RevokeResult)
      requires success <= UpTo(revokers) && !running
      modifies this`success, this`started, this`running, this`complete
      ensures old(Valid()) ==> Valid()
      ensures (Value(), r) == Session.Revoke(old(Value()), failing)
    {
      if Valid() { RevokeExact(Value(), failing); }
      ghost var entered := Value();
      var passes := 0;
      while true
        invariant passes == 0 ==> Value() == entered
        invariant passes > 0 ==> complete && (Value(), Revoked) == Session.Revoke(entered, failing)
        decreases 1 - passes
      {
        if complete { return Revoked; }
        if state == Ready { return RevokeRefused; }
        if state == Terminal { complete := true; return Revoked; }
        started, running := true, true;
        PendingSame(entered, Value(), 0);
        var raised := RunPass(failing);
        running := false;
        if |success| >= revokers { complete := true; }
        if raised { return RevokerRaised; }
        QuietPassCompletes(entered, failing);
        passes := passes + 1;
      }
    }

    /** Calls the pending revokers and records each success, up to the first that raises. */
    method RunPass(failing: set<nat>) returns (raised: bool)
      requires running
      modifies this`success
      ensures (Value(), raised) == RunPending(old(Value()), Pending(old(Value()), 0), failing)
    {
      ghost var entered := Value();
      var i := 0;
      while i < revokers
        invariant i <= revokers && Value() == entered.(success := success)
        invariant forall k | k >= i :: k in success <==> k in entered.success
        invariant RunPending(entered, Pending(entered, 0), failing) == RunPending(Value(), Pending(entered, i), failing)
      {
        if i !in success {
          if i in failing { return true; }
          success := success + {i};
        }
        i := i + 1;
      }
      return false;
    }
  }
}
