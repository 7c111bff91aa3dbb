/** The objects behind the lease: the write state every broker of one browser shares, and a
    leased writer. A method is one wrapped operation under the browser's mutex; what the
    awaited operation itself does is given. */
module LeaseObject {
  import opened Wrappers
  import opened Lease

  class BrowserWriteState {
    var contentOwner: Option<Broker>

    constructor ()
      ensures contentOwner == None
    {
      contentOwner := None;
    }
  }

  class LeasedWriteBroker {
    const leaseOwner: Broker
    const state: BrowserWriteState
    var token: Option<Token>

    /** A bound token needs the lease. */
    ghost predicate Valid()
      reads this, state
    {
      token.Some? ==> state.contentOwner == Some(leaseOwner)
    }

    /** The other brokers of the same browser. */
    ghost predicate Beside(others: set<LeasedWriteBroker>)
      reads this, state, others
    {
      this !in others && forall b | b in others :: b.state == state && b.leaseOwner != leaseOwner && b.Valid()
    }

    constructor (leaseOwner: Broker, state: BrowserWriteState)
      ensures this.leaseOwner == leaseOwner && this.state == state && token == None && Valid()
    {
      this.leaseOwner, this.state, token := leaseOwner, state, None;
    }

    method ClaimContentOwner() returns (granted: bool)
      modifies state
      ensures granted <==> old(state.contentOwner).None?
      ensures state.contentOwner == if granted then Some(leaseOwner) else old(state.contentOwner)
    {
      granted := state.contentOwner.None?;
      if granted {
        state.contentOwner := Some(leaseOwner);
      }
    }

    method ReleaseContentOwner()
      modifies state
      ensures state.contentOwner != Some(leaseOwner)
      ensures old(state.contentOwner) != Some(leaseOwner) ==> state.contentOwner == old(state.contentOwner)
      ensures old(state.contentOwner) == Some(leaseOwner) ==> state.contentOwner.None?
    {
      if state.contentOwner == Some(leaseOwner) {
        state.contentOwner := None;
      }
    }

    /** The lease and the token go together. */
    method EndContext()
      requires Valid() && state.contentOwner == Some(leaseOwner)
      modifies `token, state
      ensures token.None? && state.contentOwner.None?
    {
      token := None;
      ReleaseContentOwner();
    }

    /** _start_content: `bound` is the token the operation leaves, whether it returns or raises.
        It is let in exactly when no broker of the browser owns the composer, and it keeps the
        lease exactly when it leaves a token; no other broker gains or loses anything. */
    method StartContent(bound: Option<Token>, end: End, ghost others: set<LeasedWriteBroker>) returns (granted: bool)
      requires Valid() && Beside(others)
      modifies `token, state
      ensures Valid() && Beside(others)
      ensures granted <==> old(state.contentOwner).None?
      ensures granted ==> token == bound && state.contentOwner == if bound.Some? then Some(leaseOwner) else None
      ensures granted ==> forall b | b in others :: b.token.None?
      ensures granted ==> (state.contentOwner, token) == AfterEnd(Op(Writer(leaseOwner), Start, Working), end, Some(leaseOwner), bound)
      ensures !granted ==> token == old(token) && state.contentOwner == old(state.contentOwner)
    {
      granted := ClaimContentOwner();
      if !granted {
        return;
      }
      token := bound;
      if token.None? {
        EndContext();
      }
    }

    /** _owned_content: let in exactly with the lease, and then no other broker has a token. */
    method OwnedContent(ghost others: set<LeasedWriteBroker>) returns (allowed: bool)
      requires Valid() && Beside(others)
      ensures allowed <==> state.contentOwner == Some(leaseOwner)
      ensures allowed ==> forall b | b in others :: b.token.None?
      ensures token.Some? ==> allowed
    {
      allowed := state.contentOwner == Some(leaseOwner);
    }

    /** _one_shot: let in exactly while the lease is free, and then no broker at all has a token. */
    method OneShot(ghost others: set<LeasedWriteBroker>) returns (allowed: bool)
      requires Valid() && Beside(others)
      ensures allowed <==> state.contentOwner.None?
      ensures allowed ==> token.None? && forall b | b in others :: b.token.None?
    {
      allowed := state.contentOwner.None?;
    }

    /** close_composer: `drops` says that the close got as far as dropping the token, which the
        clean-up after a kill does not. The lease is free afterwards exactly when the close
        worked; a failed one keeps it, and with it every other broker out. */
    method CloseComposer(drops: bool, end: End, ghost others: set<LeasedWriteBroker>) returns (allowed: bool)
      requires Valid() && Beside(others)
      modifies `token, state
      ensures Valid() && Beside(others)
      ensures allowed <==> old(state.contentOwner) == Some(leaseOwner)
      ensures !allowed ==> token == old(token) && state.contentOwner == old(state.contentOwner)
      ensures allowed ==> state.contentOwner == if end.Succeeds? then None else Some(leaseOwner)
      ensures allowed ==> token == if drops || end.Succeeds? then None else old(token)
      ensures allowed ==>
                (state.contentOwner, token) == AfterEnd(Op(Writer(leaseOwner), Lease.CloseComposer, Working), end, Some(leaseOwner),
                                                        if drops then None else old(token))
    {
      allowed := state.contentOwner == Some(leaseOwner);
      if !allowed {
        return;
      }
      if drops {
        token := None;
      }
      if end.Succeeds? {
        EndContext();
      }
    }

    /** click_submit: once the commit gate is crossed and the click returns, whatever it returns,
        the context is spent: lease and token are gone, and no second submit gets in. */
    method ClickSubmit(crossed: bool, end: End, ghost others: set<LeasedWriteBroker>) returns (allowed: bool)
      requires Valid() && Beside(others)
      modifies `token, state
      ensures Valid() && Beside(others)
      ensures allowed <==> old(state.contentOwner) == Some(leaseOwner)
      ensures !allowed || !crossed || end.Raises? ==> token == old(token) && state.contentOwner == old(state.contentOwner)
      ensures allowed && crossed && !end.Raises? ==> token.None? && state.contentOwner.None? && forall b | b in others :: b.token.None?
      ensures allowed ==>
                (state.contentOwner, token) == AfterEnd(Op(Writer(leaseOwner), Submit, if crossed then Crossed else Proven), end,
                                                        Some(leaseOwner), old(token))
    {
      allowed := state.contentOwner == Some(leaseOwner);
      if allowed && crossed && !end.Raises? {
        EndContext();
      }
    }
  }
}
