/** What an acquire() or a release() that goes wrong at one statement ends in, when nothing else
    goes wrong: a failed acquire() is undone, a failed release() has worked, or changed nothing,
    or flagged its owner. */
module OwnerUndo {
  import opened Wrappers
  import opened OwnerLock
  import opened OwnerProgress

  /** The statement does not end normally. */
  predicate Disturbs(pc: Pc, c: Choice) {
    || c.Intr?
    || (c.Fail? && (pc.Mkdir? || pc.KernelOpen? || pc.Harden? || pc.Flock?))
    || (c.FailBusy? && pc.Flock?)
    || (c.Seam? && pc.ReturnFd?)
  }

  /** An exception on the way into or out of the kernel's open, before the descriptor is
      published: the process exits, or the descriptor is lost. */
  predicate Hidden(pc: Pc, c: Choice) {
    (pc.StorePending? && c.Intr?) || (pc.KernelOpen? && c == Intr(Async))
  }

  /** Consecutive states of a process whose owner `o` runs on with nothing going wrong. */
  ghost predicate Quietly(run: seq<Proc>, o: OwnerId, fd: Fd, serial: nat) {
    && (forall p | p in run :: o in p.owners)
    && (forall i | 0 <= i < |run| - 1 :: Step(run[i], o, Quiet(run[i].owners[o].pc, fd, serial)) == Live(run[i + 1]))
  }

  lemma OneMore(p: Proc, run: seq<Proc>, o: OwnerId, fd: Fd, serial: nat)
    requires run != [] && Quietly(run, o, fd, serial) && o in p.owners
    requires Step(p, o, Quiet(p.owners[o].pc, fd, serial)) == Live(run[0])
    ensures Quietly([p] + run, o, fd, serial)
  {
    var all := [p] + run;
    forall i | 0 <= i < |all| - 1
      ensures Step(all[i], o, Quiet(all[i].owners[o].pc, fd, serial)) == Live(all[i + 1])
    {
      if i > 0 { assert all[i] == run[i - 1] && all[i + 1] == run[i]; }
    }
  }

  /** The most statements an undo takes. */
  const ENOUGH := 12

  predicate AtRest(w: Owner) {
    w.pc.Idle? && w.fd.None? && w.pending.None? && !w.opening && !w.broken
  }

  predicate HasFd(w: Owner) {
    w.pending.Some? || w.fd.Some?
  }

  predicate Only(field: Option<Fd>, fd: Fd) {
    field.None? || field == Some(fd)
  }

  /** Statements left until the owner is at rest. */
  function UndoLeft(w: Owner): (n: nat)
    ensures n <= ENOUGH
  {
    match w.pc
    case Handler(_, _) => if HasFd(w) then 12 else 6
    case Rollback(_) => if HasFd(w) then 11 else 5
    case CloseGate(_, ret) => Back(ret) + 6
    case Close(_, ret) => Back(ret) + 5
    case DropPending(_, ret) => Back(ret) + 4
    case DropFd(_, ret) => Back(ret) + 3
    case DropFlag(ret) => Back(ret) + 2
    case LeaveCloseGate(ret) => Back(ret) + 1
    case Verify => 4
    case ClearOwner => 3
    case FreeSlot => 2
    case LeaveRollback => 1
    case _ => 0
  }

  function Back(ret: Ret): nat {
    if ret.ToOpenHandler? then 6 else 4
  }

  /** The owner part of the way through its undo. */
  predicate Undoing(w: Owner, fd: Fd) {
    && !w.broken && Only(w.pending, fd) && Only(w.fd, fd)
    && match w.pc
       case Handler(e, local) => Only(local, fd) && (local.Some? ==> HasFd(w)) && (e.Async? && w.opening ==> HasFd(w))
       case Rollback(local) => Only(local, fd) && (local.Some? ==> HasFd(w))
       case CloseGate(f, ret) => f == fd && !ret.ToRelease?
       case Close(f, ret) => f == fd && !ret.ToRelease?
       case DropPending(f, ret) => f == fd && !ret.ToRelease?
       case DropFd(f, ret) => f == fd && !ret.ToRelease? && w.pending.None?
       case DropFlag(ret) => !ret.ToRelease? && !HasFd(w)
       case LeaveCloseGate(ret) => !ret.ToRelease? && !HasFd(w) && !w.opening
       case Verify => !HasFd(w)
       case ClearOwner => !HasFd(w)
       case FreeSlot => !HasFd(w) && !w.opening
       case LeaveRollback => !HasFd(w) && !w.opening
       case _ => false
  }

  lemma UndoOne(w: Owner, s: Sees, fd: Fd)
    requires Undoing(w, fd) && s.gateFree == !GatePc(w.pc)
    ensures var e := Statement(w, s, Go);
            && e.Then? && e.w.domain == w.domain
            && (if UndoLeft(w) > 1 then Undoing(e.w, fd) && UndoLeft(e.w) == UndoLeft(w) - 1 else AtRest(e.w))
            && e.fds == (if w.pc.Close? then CloseFd(fd) else SameFds)
            && e.slot == (if w.pc.FreeSlot? then FreeSlotIfOwn else SameSlot)
            && e.gate == (if w.pc.CloseGate? then TakeGate else if w.pc.LeaveCloseGate? then FreeGate else SameGate)
            && (StillOpen(e.w) <==> StillOpen(w) && !w.pc.Close?)
            && (GatePc(e.w.pc) <==> w.pc.CloseGate? || (GatePc(w.pc) && !w.pc.LeaveCloseGate?))
            && (e.w.pc.LeaveRollback? <==> w.pc.FreeSlot?) && (e.w.pc.Idle? <==> w.pc.LeaveRollback?)
  {
  }

  /** Whether the descriptor is still open. */
  predicate StillOpen(w: Owner) {
    w.pc.CloseGate? || w.pc.Close? || ((w.pc.Handler? || w.pc.Rollback?) && HasFd(w))
  }

  /** The tables during the undo, from tables `fds` and `registry` before the acquire(). */
  predicate TablesBack(p: Proc, o: OwnerId, w: Owner, fds: map<Fd, Entry>, registry: map<Domain, OwnerId>, fd: Fd, serial: nat) {
    && fd !in fds && (w.domain in registry ==> registry[w.domain] != o)
    && p.gate == (if GatePc(w.pc) then Some(o) else None)
    && p.fds == (if StillOpen(w) then fds[fd := LockFile(Ofd(p.pid, o, w.domain, serial))] else fds)
    && (p.registry == registry
        || (!w.pc.LeaveRollback? && !w.pc.Idle? && w.domain !in registry && p.registry == registry[w.domain := o]))
  }

  predicate Backing(p: Proc, o: OwnerId, fds: map<Fd, Entry>, registry: map<Domain, OwnerId>, fd: Fd, serial: nat) {
    o in p.owners && Undoing(p.owners[o], fd) && TablesBack(p, o, p.owners[o], fds, registry, fd, serial)
  }

  /** At rest over the tables from before, with only the owner's own entry touched. */
  predicate Undone(p: Proc, q: Proc, o: OwnerId) {
    && o in p.owners && o in q.owners && AtRest(q.owners[o]) && q.owners[o].domain == p.owners[o].domain
    && q.gate.None? && q.fds == p.fds && q.registry == p.registry && OthersSame(p, q, o)
  }

  lemma BackOne(p: Proc, o: OwnerId, fds: map<Fd, Entry>, registry: map<Domain, OwnerId>, fd: Fd, serial: nat) returns (q: Proc)
    requires Backing(p, o, fds, registry, fd, serial)
    ensures Step(p, o, Go) == Live(q) && OthersSame(p, q, o) && q.owners[o].domain == p.owners[o].domain
    ensures if UndoLeft(p.owners[o]) > 1
            then Backing(q, o, fds, registry, fd, serial) && UndoLeft(q.owners[o]) == UndoLeft(p.owners[o]) - 1
            else AtRest(q.owners[o]) && q.gate.None? && q.fds == fds && q.registry == registry
  {
    var e := Statement(p.owners[o], View(p, o), Go);
    UndoOne(p.owners[o], View(p, o), fd);
    q := Apply(p, o, e);
    BackTables(p, o, e, fds, registry, fd, serial);
  }

  /** What such a statement leaves of the tables. */
  lemma BackTables(p: Proc, o: OwnerId, e: Effect, fds: map<Fd, Entry>, registry: map<Domain, OwnerId>, fd: Fd, serial: nat)
    requires o in p.owners && TablesBack(p, o, p.owners[o], fds, registry, fd, serial) && e.Then? && e.w.domain == p.owners[o].domain
    requires var w := p.owners[o];
             && e.fds == (if w.pc.Close? then CloseFd(fd) else SameFds)
             && e.slot == (if w.pc.FreeSlot? then FreeSlotIfOwn else SameSlot)
             && e.gate == (if w.pc.CloseGate? then TakeGate else if w.pc.LeaveCloseGate? then FreeGate else SameGate)
             && (StillOpen(e.w) <==> StillOpen(w) && !w.pc.Close?)
             && (GatePc(e.w.pc) <==> w.pc.CloseGate? || (GatePc(w.pc) && !w.pc.LeaveCloseGate?))
             && (e.w.pc.LeaveRollback? <==> w.pc.FreeSlot?) && (e.w.pc.Idle? <==> w.pc.LeaveRollback?)
    ensures TablesBack(Apply(p, o, e), o, e.w, fds, registry, fd, serial)
  {
    var w := p.owners[o];
    assert fds[fd := LockFile(Ofd(p.pid, o, w.domain, serial))] - {fd} == fds;
    if w.domain !in registry { assert registry[w.domain := o] - {w.domain} == registry; }
  }

  /** Once in the handler everything is undone. */
  lemma {:induction false} BackRest(p: Proc, o: OwnerId, fds: map<Fd, Entry>, registry: map<Domain, OwnerId>, fd: Fd, serial: nat)
    returns (run: seq<Proc>)
    requires Backing(p, o, fds, registry, fd, serial)
    ensures Quietly(run, o, fd, serial) && |run| == UndoLeft(p.owners[o]) + 1 && run[0] == p
    ensures var q := run[|run| - 1];
            && OthersSame(p, q, o) && q.owners[o].domain == p.owners[o].domain
            && AtRest(q.owners[o]) && q.gate.None? && q.fds == fds && q.registry == registry
    decreases UndoLeft(p.owners[o])
  {
    var q := BackOne(p, o, fds, registry, fd, serial);
    if UndoLeft(p.owners[o]) > 1 {
      run := BackRest(q, o, fds, registry, fd, serial);
    } else {
      run := [q];
    }
    OneMore(p, run, o, fd, serial);
    run := [p] + run;
  }

  // ---- acquire() --------------------------------------------------------------------------

  lemma {:induction false} AcquireSome(p: Proc, o: OwnerId, fds: map<Fd, Entry>, registry: map<Domain, OwnerId>, fd: Fd, serial: nat, k: nat)
    returns (run: seq<Proc>)
    requires Acquiring(p, o, fds, registry, fd, serial) && k < Left(p.owners[o].pc)
    ensures Quietly(run, o, fd, serial) && |run| == k + 1 && run[0] == p
    ensures var at := run[k];
            && Acquiring(at, o, fds, registry, fd, serial) && Left(at.owners[o].pc) == Left(p.owners[o].pc) - k
            && at.owners[o].domain == p.owners[o].domain && OthersSame(p, at, o)
    decreases k
  {
    if k == 0 {
      run := [p];
    } else {
      var q := AcquireOne(p, o, fds, registry, fd, serial);
      run := AcquireSome(q, o, fds, registry, fd, serial, k - 1);
      OneMore(p, run, o, fd, serial);
      run := [p] + run;
    }
  }

  /** Where the disturbed statement leads. */
  lemma FailOne(w: Owner, s: Sees, fd: Fd, c: Choice)
    requires Climbing(w, fd, s.pid) && s.slotFree == w.pc.Reserve? && s.gateFree == !GatePc(w.pc)
    requires Disturbs(w.pc, c) && !Hidden(w.pc, c)
    ensures var e := Statement(w, s, c);
            && e.Then? && e.w.domain == w.domain && Undoing(e.w, fd) && !GatePc(e.w.pc) && !e.w.pc.LeaveRollback?
            && (StillOpen(e.w) <==> Left(w.pc) <= 9)
            && e.fds.SameFds? && e.slot.SameSlot? && (if GatePc(w.pc) then e.gate.FreeGate? else e.gate.SameGate?)
  {
  }

  lemma FailsInto(p: Proc, o: OwnerId, fds: map<Fd, Entry>, registry: map<Domain, OwnerId>, fd: Fd, serial: nat, c: Choice) returns (q: Proc)
    requires Acquiring(p, o, fds, registry, fd, serial) && Disturbs(p.owners[o].pc, c) && !Hidden(p.owners[o].pc, c)
    ensures Step(p, o, c) == Live(q) && Backing(q, o, fds, registry, fd, serial)
    ensures OthersSame(p, q, o) && q.owners[o].domain == p.owners[o].domain
  {
    FailOne(p.owners[o], View(p, o), fd, c);
    q := Step(p, o, c).p;
  }

  /** `back` is how a process goes on whose statement ended with `c`: until the owner is at rest
      over the tables of `p`. */
  ghost predicate UndoneBy(p: Proc, at: Proc, o: OwnerId, c: Choice, back: seq<Proc>, fd: Fd, serial: nat)
    requires o in at.owners
  {
    && Quietly(back, o, fd, serial) && 0 < |back| <= ENOUGH + 1
    && Step(at, o, c) == Live(back[0]) && Undone(p, back[|back| - 1], o)
  }

  lemma FailureUndone(p: Proc, at: Proc, o: OwnerId, fd: Fd, serial: nat, c: Choice) returns (back: seq<Proc>)
    requires Acquiring(at, o, p.fds, p.registry, fd, serial) && Disturbs(at.owners[o].pc, c) && !Hidden(at.owners[o].pc, c)
    requires o in p.owners && at.owners[o].domain == p.owners[o].domain && OthersSame(p, at, o)
    ensures UndoneBy(p, at, o, c, back, fd, serial)
  {
    var failed := FailsInto(at, o, p.fds, p.registry, fd, serial, c);
    back := BackRest(failed, o, p.fds, p.registry, fd, serial);
  }

  /** An acquire() whose statement number `k` fails or is interrupted, anywhere outside the
      window around the kernel's open, and that is left alone otherwise: the descriptor is
      closed, the slot is free, and the same owner can try again. */
  lemma FailedAcquireIsUndone(p: Proc, o: OwnerId, fd: Fd, serial: nat, k: nat, c: Choice) returns (run: seq<Proc>, back: seq<Proc>)
    requires Fresh(p, o) && fd !in p.fds && k < 15
    ensures Quietly(run, o, fd, serial) && |run| == k + 1 && Call(p, o, true) == Live(run[0])
    ensures Disturbs(run[k].owners[o].pc, c) && !Hidden(run[k].owners[o].pc, c) ==>
              UndoneBy(p, run[k], o, c, back, fd, serial) && Fresh(back[|back| - 1], o)
  {
    run := AcquireSome(Call(p, o, true).p, o, p.fds, p.registry, fd, serial, k);
    back := [];
    if Disturbs(run[k].owners[o].pc, c) && !Hidden(run[k].owners[o].pc, c) {
      back := FailureUndone(p, run[k], o, fd, serial, c);
    }
  }

  /** The failures the kernel can give, by the statement that asks it: mkdir, open, harden, and
      the request for a lock, which another process may have. */
  lemma KernelFailuresAreUndone(p: Proc, o: OwnerId, fd: Fd, serial: nat, k: nat, c: Choice) returns (run: seq<Proc>, back: seq<Proc>)
    requires Fresh(p, o) && fd !in p.fds
    requires (c == Fail && (k == 1 || k == 4 || k == 8 || k == 10)) || (c == FailBusy && k == 10)
    ensures Quietly(run, o, fd, serial) && |run| == k + 1 && Call(p, o, true) == Live(run[0])
    ensures var pc := run[k].owners[o].pc;
            && (k == 1 ==> pc.Mkdir?) && (k == 4 ==> pc.KernelOpen?) && (k == 8 ==> pc == Harden(fd)) && (k == 10 ==> pc == Flock(fd))
    ensures UndoneBy(p, run[k], o, c, back, fd, serial) && Fresh(back[|back| - 1], o)
  {
    run := AcquireSome(Call(p, o, true).p, o, p.fds, p.registry, fd, serial, k);
    LeftNames(run[k].owners[o], fd, p.pid);
    back := FailureUndone(p, run[k], o, fd, serial, c);
  }

  lemma LeftNames(w: Owner, fd: Fd, pid: Pid)
    requires Climbing(w, fd, pid)
    ensures (Left(w.pc) == 14 ==> w.pc.Mkdir?) && (Left(w.pc) == 11 ==> w.pc.KernelOpen?)
    ensures (Left(w.pc) == 7 ==> w.pc == Harden(fd)) && (Left(w.pc) == 5 ==> w.pc == Flock(fd))
  {
  }

  /** A domain another owner of the process has reserved: the acquire() is refused, the slot
      stays the other owner's, and nothing is left behind. */
  lemma BusySlotIsRefused(p: Proc, o: OwnerId, fd: Fd, serial: nat) returns (called: Proc, back: seq<Proc>)
    requires o in p.owners && AtRest(p.owners[o]) && p.gate.None? && fd !in p.fds
    requires p.owners[o].domain in p.registry && p.registry[p.owners[o].domain] != o
    ensures Call(p, o, true) == Live(called) && o in called.owners && UndoneBy(p, called, o, Go, back, fd, serial)
  {
    called := Call(p, o, true).p;
    var refused := BusyOne(called, o, fd, serial);
    back := BackRest(refused, o, p.fds, p.registry, fd, serial);
  }

  lemma BusyOne(p: Proc, o: OwnerId, fd: Fd, serial: nat) returns (q: Proc)
    requires o in p.owners && AtRest(p.owners[o].(pc := Idle)) && p.owners[o].pc.Reserve? && p.gate.None? && fd !in p.fds
    requires p.owners[o].domain in p.registry && p.registry[p.owners[o].domain] != o
    ensures Step(p, o, Go) == Live(q) && Backing(q, o, p.fds, p.registry, fd, serial)
    ensures OthersSame(p, q, o) && q.owners[o].domain == p.owners[o].domain
  {
    q := Step(p, o, Go).p;
  }

  /** A call on an idle owner starts exactly when it may: acquire() on one that neither holds nor
      has anything pending, release() on one that this very process holds, neither on a flagged
      one; a call that does not start changes nothing. */
  lemma CallStartsExactly(p: Proc, o: OwnerId, acquire: bool)
    requires o in p.owners && p.owners[o].pc.Idle?
    ensures var w, r := p.owners[o], Call(p, o, acquire);
            var usable := !w.broken && !w.opening && w.pending.None?;
            var starts := usable && if acquire then w.fd.None? else w.fd.Some? && w.ownerPid == Some(p.pid);
            && r.Live? && r.p == p.(owners := p.owners[o := r.p.owners[o]])
            && r.p.owners[o] == if !starts then w else if acquire then w.(pc := Reserve) else w.(pc := CheckSlot(w.fd.value))
  {
  }

  // ---- release() --------------------------------------------------------------------------

  /** The same owner further down, with `n` statements left. */
  predicate FurtherDown(p: Proc, at: Proc, o: OwnerId, n: nat) {
    && OthersSame(p, at, o) && o in p.owners && o in at.owners && at.owners[o].domain == p.owners[o].domain
    && Left(at.owners[o].pc) == n && (n >= 4 ==> at.owners[o].ownerPid == p.owners[o].ownerPid)
  }

  lemma StillFurther(p: Proc, q: Proc, r: Proc, o: OwnerId, n: nat, m: nat)
    requires FurtherDown(p, q, o, n) && FurtherDown(q, r, o, m) && m <= n
    ensures FurtherDown(p, r, o, m)
  {
  }

  lemma {:induction false} ReleaseSome(p: Proc, o: OwnerId, fds: map<Fd, Entry>, registry: map<Domain, OwnerId>, fd: Fd, serial: nat, k: nat)
    returns (run: seq<Proc>)
    requires Releasing(p, o, fds, registry, fd, serial) && k < Left(p.owners[o].pc)
    ensures Quietly(run, o, fd, serial) && |run| == k + 1 && run[0] == p
    ensures Releasing(run[k], o, fds, registry, fd, serial) && FurtherDown(p, run[k], o, Left(p.owners[o].pc) - k)
    decreases k
  {
    if k == 0 {
      run := [p];
    } else {
      var q := ReleaseOne(p, o, fds, registry, fd, serial);
      run := ReleaseSome(q, o, fds, registry, fd, serial, k - 1);
      StillFurther(p, q, run[k - 1], o, Left(p.owners[o].pc) - 1, Left(p.owners[o].pc) - k);
      OneMore(p, run, o, fd, serial);
      run := [p] + run;
    }
  }

  /** Where the disturbed statement of release() leads, and where the owner is after the one more
      statement that a finished close still takes. */
  lemma DisturbedRelease(w: Owner, s: Sees, fd: Fd, c: Choice)
    requires Descending(w, fd) && s.slotMine && s.gateFree == !GatePc(w.pc)
    requires c.Intr? || (w.pc.Close? && (c.Fail? || c.FailClosed?))
    ensures var e := Statement(w, s, c);
            && e.Then? && e.w.domain == w.domain && e.slot.SameSlot? && (if GatePc(w.pc) then e.gate.FreeGate? else e.gate.SameGate?)
            && e.fds == (if c.FailClosed? then CloseFd(fd) else SameFds)
            && (if Left(w.pc) >= 7 then e.w == w.(pc := e.w.pc)
                else if Left(w.pc) >= 3 then e.w.broken
                else e.w.fd.None? && e.w.pending.None? && !e.w.opening && !e.w.broken)
            && e.w.pc == (if w.pc.CheckSlot? then Idle else ReleaseExcept)
  {
  }

  lemma AfterException(w: Owner, s: Sees)
    requires w.pc.ReleaseExcept?
    ensures var e := Statement(w, s, Go);
            && e.Then? && e.w == w.(pc := Idle) && e.fds.SameFds? && e.gate.SameGate?
            && e.slot == if !w.broken && w.fd.None? && w.pending.None? then FreeSlotIfOwn else SameSlot
  {
  }

  /** What the failed release() of owner `o`, which held its domain in `p`, ends in. */
  ghost predicate Ended(p: Proc, q: Proc, o: OwnerId, k: nat, c: Choice, fds: map<Fd, Entry>, registry: map<Domain, OwnerId>, fd: Fd) {
    && o in p.owners && o in q.owners && OthersSame(p, q, o) && q.gate.None? && q.owners[o].domain == p.owners[o].domain
    && (k < 2 ==> q.fds == p.fds && q.registry == p.registry && HoldingQuietly(q.owners[o], fd, p.pid))
    && (2 <= k < 6 ==> q.owners[o].broken && q.owners[o].pc.Idle? && q.registry == p.registry
                       && q.fds == if k == 2 && !c.FailClosed? then p.fds else fds)
    && (k >= 6 ==> AtRest(q.owners[o]) && q.fds == fds && q.registry == registry)
  }

  /** A release() whose statement number `k` fails. Before the close has begun nothing has
      changed and the domain is still held; after it has been unpublished the release is
      finished; in between the owner is flagged, keeps its slot, and its descriptor is gone
      exactly if the close got that far. */
  lemma FailedReleaseExactly(p: Proc, o: OwnerId, fds: map<Fd, Entry>, registry: map<Domain, OwnerId>, fd: Fd, serial: nat, k: nat, c: Choice)
    returns (run: seq<Proc>, back: seq<Proc>)
    requires Held(p, o, fds, registry, fd, serial) && k < 8
    requires c.Intr? || (k == 2 && (c.Fail? || c.FailClosed?))
    ensures Quietly(run, o, fd, serial) && |run| == k + 1 && Call(p, o, false) == Live(run[0])
    ensures Quietly(back, o, fd, serial) && 0 < |back| <= 2 && Step(run[k], o, c) == Live(back[0])
    ensures Ended(p, back[|back| - 1], o, k, c, fds, registry, fd)
  {
    var called := Call(p, o, false).p;
    run := ReleaseSome(called, o, fds, registry, fd, serial, k);
    back := FailedRelease(run[k], o, fds, registry, fd, serial, c);
  }

  /** The owner and the tables after the disturbed statement with `n` statements left. */
  ghost predicate Unreleased(p: Proc, q: Proc, o: OwnerId, n: nat, registry: map<Domain, OwnerId>, fd: Fd) {
    && o in p.owners && o in q.owners
    && var w := q.owners[o];
    if n >= 7 then
      && q.registry == p.registry && w.fd == Some(fd) && w.pending.None? && !w.opening && !w.broken
      && w.ownerPid == p.owners[o].ownerPid
    else if n >= 3 then q.registry == p.registry && w.broken
    else q.registry == registry && AtRest(w.(pc := Idle))
  }

  lemma UnreleasedVia(p: Proc, m: Proc, q: Proc, o: OwnerId, n: nat, registry: map<Domain, OwnerId>, fd: Fd)
    requires o in p.owners && o in m.owners && o in q.owners && q.owners[o] == m.owners[o].(pc := Idle)
    requires n >= 3 ==> Unreleased(p, m, o, n, registry, fd)
    requires m.owners[o].broken || m.owners[o].fd.Some? ==> q.registry == m.registry
    requires n < 3 ==> AtRest(m.owners[o].(pc := Idle)) && q.registry == registry
    ensures Unreleased(p, q, o, n, registry, fd)
  {
  }

  /** The disturbed statement and what follows it. */
  lemma FailedRelease(p: Proc, o: OwnerId, fds: map<Fd, Entry>, registry: map<Domain, OwnerId>, fd: Fd, serial: nat, c: Choice)
    returns (back: seq<Proc>)
    requires Releasing(p, o, fds, registry, fd, serial)
    requires c.Intr? || (p.owners[o].pc.Close? && (c.Fail? || c.FailClosed?))
    ensures Quietly(back, o, fd, serial) && 0 < |back| <= 2 && Step(p, o, c) == Live(back[0])
    ensures var q := back[|back| - 1];
            && OthersSame(p, q, o) && q.gate.None? && q.owners[o].domain == p.owners[o].domain && q.owners[o].pc.Idle?
            && q.fds == (if c.FailClosed? then fds else p.fds) && Unreleased(p, q, o, Left(p.owners[o].pc), registry, fd)
  {
    var failed := FailedOne(p, o, fds, registry, fd, serial, c);
    back := [failed];
    if !failed.owners[o].pc.Idle? {
      var q := Excepted(failed, o, p.owners[o].domain, registry);
      OneMore(failed, [q], o, fd, serial);
      back := [failed] + [q];
      UnreleasedVia(p, failed, q, o, Left(p.owners[o].pc), registry, fd);
    }
  }

  lemma FailedOne(p: Proc, o: OwnerId, fds: map<Fd, Entry>, registry: map<Domain, OwnerId>, fd: Fd, serial: nat, c: Choice) returns (q: Proc)
    requires Releasing(p, o, fds, registry, fd, serial)
    requires c.Intr? || (p.owners[o].pc.Close? && (c.Fail? || c.FailClosed?))
    ensures Step(p, o, c) == Live(q) && OthersSame(p, q, o) && q.gate.None? && q.owners[o].domain == p.owners[o].domain
    ensures q.fds == (if c.FailClosed? then fds else p.fds) && q.registry == p.registry
    ensures q.owners[o].pc == (if p.owners[o].pc.CheckSlot? then Idle else ReleaseExcept)
    ensures Left(p.owners[o].pc) >= 3 ==> Unreleased(p, q, o, Left(p.owners[o].pc), registry, fd)
    ensures Left(p.owners[o].pc) < 3 ==> AtRest(q.owners[o].(pc := Idle)) && q.registry == registry[q.owners[o].domain := o]
                                         && q.owners[o].domain !in registry
  {
    var w := p.owners[o];
    DisturbedRelease(w, View(p, o), fd, c);
    q := Step(p, o, c).p;
    assert fds[fd := LockFile(Ofd(p.pid, o, w.domain, serial))] - {fd} == fds;
  }

  lemma Excepted(p: Proc, o: OwnerId, d: Domain, registry: map<Domain, OwnerId>) returns (q: Proc)
    requires o in p.owners && p.owners[o].domain == d && p.owners[o].pc.ReleaseExcept? && p.gate.None?
    ensures Step(p, o, Go) == Live(q) && OthersSame(p, q, o) && q.gate.None? && q.fds == p.fds && q.owners[o] == p.owners[o].(pc := Idle)
    ensures p.owners[o].broken || p.owners[o].fd.Some? ==> q.registry == p.registry
    ensures AtRest(q.owners[o]) && d !in registry && p.registry == registry[d := o] ==> q.registry == registry
  {
    AfterException(p.owners[o], View(p, o));
    q := Step(p, o, Go).p;
    if d !in registry { assert registry[d := o] - {d} == registry; }
  }
}
