/** Many processes with many owners over one kernel: descriptor tables, open-file
    descriptions shared by fork, and the exclusive lock each description may hold. */
module OwnerSystem {
  import opened Wrappers
  import opened OwnerLock

  /** A process runs, or is a fork child still inside the at-fork callback with some
      inherited descriptors left to close, or has exited. */
  datatype ProcState = Up(p: Proc) | Detaching(p: Proc, todo: set<Fd>) | Gone

  datatype Sys = Sys(procs: map<Pid, ProcState>, locks: map<Domain, Ofd>, serial: nat)

  datatype Event =
    | Spawn(pid: Pid)
    | NewOwner(pid: Pid, o: OwnerId, domain: Domain)
    | Enter(pid: Pid, o: OwnerId, acquire: bool)
    | Run(pid: Pid, o: OwnerId, c: Choice)
    | OpenOther(pid: Pid, f: Fd)
    | CloseOther(pid: Pid, f: Fd)
    | Fork(pid: Pid, child: Pid)
    | DetachOne(pid: Pid, f: Fd)
    | DetachDone(pid: Pid)
    | Die(pid: Pid)

  function Table(ps: ProcState): map<Fd, Entry> {
    if ps.Gone? then map[] else ps.p.fds
  }

  ghost predicate RefersTo(procs: map<Pid, ProcState>, pid: Pid, f: Fd, d: Ofd) {
    pid in procs && f in Table(procs[pid]) && Table(procs[pid])[f] == LockFile(d)
  }

  ghost predicate Referenced(procs: map<Pid, ProcState>, d: Ofd) {
    exists pid, f :: RefersTo(procs, pid, f, d)
  }

  /** The kernel drops a lock when the last descriptor of its open-file description goes. */
  ghost function Reap(procs: map<Pid, ProcState>, locks: map<Domain, Ofd>): map<Domain, Ofd> {
    map d | d in locks && Referenced(procs, locks[d]) :: locks[d]
  }

  ghost function Settle(s: Sys, pid: Pid, ps: ProcState, locks: map<Domain, Ofd>, serial: nat): Sys {
    var procs := s.procs[pid := ps];
    Sys(procs, Reap(procs, locks), serial)
  }

  predicate LockRequest(p: Proc, o: OwnerId, c: Choice)
    requires o in p.owners
  {
    p.owners[o].pc.Flock? && c.Go?
  }

  predicate Grantable(s: Sys, p: Proc, o: OwnerId)
    requires o in p.owners && p.owners[o].pc.Flock?
  {
    var f := p.owners[o].pc.f;
    && f in p.fds && p.fds[f].LockFile?
    && (p.fds[f].ofd.domain in s.locks ==> s.locks[p.fds[f].ofd.domain] == p.fds[f].ofd)
  }

  /** The kernel decides the outcome of a lock request and the identity of a new description. */
  function Arbitrate(s: Sys, p: Proc, o: OwnerId, c: Choice): Choice
    requires o in p.owners
  {
    if LockRequest(p, o, c) then if Grantable(s, p, o) then Go else FailBusy
    else if c.Opened? then Opened(c.fd, s.serial)
    else c
  }

  function LocksAfter(s: Sys, p: Proc, o: OwnerId, c: Choice): map<Domain, Ofd>
    requires o in p.owners
  {
    if LockRequest(p, o, c) && Grantable(s, p, o)
    then var d := p.fds[p.owners[o].pc.f].ofd; s.locks[d.domain := d]
    else s.locks
  }

  /** The descriptors the at-fork callback closes: what registered owners publish. */
  function HookFds(p: Proc): set<Fd> {
    (set d | d in p.registry && p.registry[d] in p.owners && p.owners[p.registry[d]].pending.Some?
       :: p.owners[p.registry[d]].pending.value)
    + (set d | d in p.registry && p.registry[d] in p.owners && p.owners[p.registry[d]].fd.Some?
         :: p.owners[p.registry[d]].fd.value)
  }

  predicate AnyFlagged(p: Proc) {
    exists d :: d in p.registry && p.registry[d] in p.owners && Flagged(p.owners[p.registry[d]])
  }

  /** The child's copy of memory. No other thread survives, so no operation is in flight. */
  function ChildCopy(p: Proc, child: Pid): Proc {
    p.(pid := child, owners := map o | o in p.owners :: p.owners[o].(pc := Idle))
  }

  predicate Registered(p: Proc, o: OwnerId) {
    exists d :: d in p.registry && p.registry[d] == o
  }

  function Reset(p: Proc): Proc {
    p.(owners := map o | o in p.owners ::
                   if Registered(p, o)
                   then p.owners[o].(pending := None, fd := None, ownerPid := None, broken := false, opening := false)
                   else p.owners[o],
       registry := map[], gate := None)
  }

  /** A fresh interpreter with nothing open. */
  function NewProc(pid: Pid): Proc {
    Proc(pid, map[], map[], map[], None)
  }

  ghost function StepSys(s: Sys, e: Event): Sys {
    if e.Spawn? then if e.pid in s.procs then s else Settle(s, e.pid, Up(NewProc(e.pid)), s.locks, s.serial)
    else if e.pid !in s.procs then s
    else
      var ps := s.procs[e.pid];
      match e
      case Spawn(_) => s
      case NewOwner(pid, o, d) =>
        if ps.Up? && o !in ps.p.owners
        then Settle(s, pid, Up(ps.p.(owners := ps.p.owners[o := Owner(d, None, None, None, false, false, Idle)])), s.locks, s.serial)
        else s
      case Enter(pid, o, acquire) =>
        if ps.Up? && o in ps.p.owners then
          var r := Call(ps.p, o, acquire);
          Settle(s, pid, if r.Live? then Up(r.p) else Gone, s.locks, s.serial)
        else s
      case Run(pid, o, c) =>
        if ps.Up? && o in ps.p.owners then
          Settle(s, pid, StateAfter(s, ps.p, o, c), LocksAfter(s, ps.p, o, c), s.serial + 1)
        else s
      case OpenOther(pid, f) =>
        if ps.Up? && f !in ps.p.fds
        then Settle(s, pid, Up(ps.p.(fds := ps.p.fds[f := Foreign])), s.locks, s.serial) else s
      case CloseOther(pid, f) =>
        if ps.Up? && f in ps.p.fds && ps.p.fds[f].Foreign?
        then Settle(s, pid, Up(ps.p.(fds := ps.p.fds - {f})), s.locks, s.serial) else s
      case Fork(pid, child) =>
        if ps.Up? && ps.p.gate.None? && child !in s.procs
        then Settle(s, child, if AnyFlagged(ps.p) then Gone else Detaching(ChildCopy(ps.p, child), HookFds(ps.p)), s.locks, s.serial)
        else s
      case DetachOne(pid, f) =>
        if ps.Detaching? && f in ps.todo
        then Settle(s, pid, Detaching(ps.p.(fds := ps.p.fds - {f}), ps.todo - {f}), s.locks, s.serial) else s
      case DetachDone(pid) =>
        if ps.Detaching? && ps.todo == {} then Settle(s, pid, Up(Reset(ps.p)), s.locks, s.serial) else s
      case Die(pid) => Settle(s, pid, Gone, s.locks, s.serial)
  }

  ghost function RunSys(s: Sys, es: seq<Event>): Sys
    decreases |es|
  {
    if es == [] then s else RunSys(StepSys(s, es[0]), es[1..])
  }

  /** No exception of an ordinary kind lands in the hidden-open window. */
  predicate EventDiscoverable(s: Sys, e: Event) {
    e.Run? && e.pid in s.procs && s.procs[e.pid].Up? && e.o in s.procs[e.pid].p.owners
    ==> Discoverable(s.procs[e.pid].p.owners[e.o], e.c)
  }

  ghost predicate RunDiscoverable(s: Sys, es: seq<Event>)
    decreases |es|
  {
    es == [] || (EventDiscoverable(s, es[0]) && RunDiscoverable(StepSys(s, es[0]), es[1..]))
  }

  // ---- the invariant ------------------------------------------------------------------

  function LockFiles(fds: map<Fd, Entry>): set<Fd> {
    set f | f in fds && fds[f].LockFile?
  }

  ghost predicate HeldLocked(p: Proc, locks: map<Domain, Ofd>) {
    forall o, f | o in p.owners && f in Mine(p.fds, o) && (p.owners[o].fd == Some(f) || p.owners[o].pc == StoreFd(f)) ::
      p.owners[o].domain in locks && locks[p.owners[o].domain] == p.fds[f].ofd
  }

  /** The child's table holds exactly the lock files still to be closed. */
  ghost predicate DetachOk(p: Proc, todo: set<Fd>) {
    && p.gate.None? && LockFiles(p.fds) == todo
    && (forall o | o in p.owners ::
          var w := p.owners[o];
          w.pc.Idle? && (Registered(p, o) || (Blank(w) && !Flagged(w))))
  }

  ghost predicate ProcStateOk(pid: Pid, ps: ProcState, locks: map<Domain, Ofd>) {
    match ps
    case Up(p) =>
      && p.pid == pid && ProcOk(p) && HeldLocked(p, locks)
      && (forall f | f in p.fds && p.fds[f].LockFile? :: p.fds[f].ofd.pid == pid)
    case Detaching(p, todo) => p.pid == pid && DetachOk(p, todo)
    case Gone => true
  }

  ghost predicate SysOk(s: Sys) {
    forall pid | pid in s.procs :: ProcStateOk(pid, s.procs[pid], s.locks)
  }

  // ---- preservation -------------------------------------------------------------------

  /** What one statement publishes as held was locked, and stays in the table. */
  lemma PublishesLocked(p: Proc, o: OwnerId, c: Choice, f: Fd)
    requires ProcOk(p) && o in p.owners && Discoverable(p.owners[o], c) && Step(p, o, c).Live?
    requires var q := Step(p, o, c).p; f in Mine(q.fds, o) && (q.owners[o].fd == Some(f) || q.owners[o].pc == StoreFd(f))
    ensures f in Mine(p.fds, o) && Step(p, o, c).p.fds[f] == p.fds[f]
    ensures p.owners[o].fd == Some(f) || p.owners[o].pc == StoreFd(f) || (p.owners[o].pc == Flock(f) && c.Go?)
  {
    var w := p.owners[o];
    assert OwnerOk(p, o);
    StatementPublishes(w, View(p, o), Mine(p.fds, o), p.gate == Some(o), c);
    AnyStatementOk(w, View(p, o), Mine(p.fds, o), p.gate == Some(o), c);
    MineApplied(p, o, Statement(w, View(p, o), c), o);
  }

  /** What is published as held after a statement was so before, or had just been locked. */
  predicate OnlyLocked(w: Owner, c: Choice, e: Effect) {
    e.Then? ==>
      && (e.w.fd.Some? ==> e.w.fd == w.fd || w.pc == StoreFd(e.w.fd.value))
      && (e.w.pc.StoreFd? ==> w.pc == Flock(e.w.pc.f) && c.Go?)
      && (e.fds.OpenFd? ==> Blank(e.w) && !e.w.pc.StoreFd?)
  }

  lemma AcquirePublishes(w: Owner, s: Sees, mine: set<Fd>, gated: bool, c: Choice)
    requires LocalOk(w, mine, s.slotMine, gated) && AcquirePc(w.pc)
    ensures OnlyLocked(w, c, AcquireStep(w, s, c))
  {
  }

  lemma ClosePublishes(w: Owner, s: Sees, c: Choice)
    requires ClosePc(w.pc)
    ensures OnlyLocked(w, c, CloseStep(w, s, c))
  {
  }

  lemma StatementPublishes(w: Owner, s: Sees, mine: set<Fd>, gated: bool, c: Choice)
    requires LocalOk(w, mine, s.slotMine, gated)
    ensures OnlyLocked(w, c, Statement(w, s, c))
  {
    if AcquirePc(w.pc) { AcquirePublishes(w, s, mine, gated, c); }
    else if ClosePc(w.pc) { ClosePublishes(w, s, c); }
  }

  lemma LockKept(procs: map<Pid, ProcState>, locks: map<Domain, Ofd>, pid: Pid, f: Fd, d: Domain)
    requires d in locks && RefersTo(procs, pid, f, locks[d])
    ensures d in Reap(procs, locks) && Reap(procs, locks)[d] == locks[d]
  {
  }

  /** A process that did not move keeps its state when locks only gained entries on free
      domains and lost unreferenced ones. */
  lemma BystanderKept(procs: map<Pid, ProcState>, before: map<Domain, Ofd>, after: map<Domain, Ofd>, pid: Pid)
    requires pid in procs && ProcStateOk(pid, procs[pid], before)
    requires forall d | d in before :: d in after && after[d] == before[d]
    ensures ProcStateOk(pid, procs[pid], Reap(procs, after))
  {
    if procs[pid].Up? {
      var p := procs[pid].p;
      forall o, f | o in p.owners && f in Mine(p.fds, o) && (p.owners[o].fd == Some(f) || p.owners[o].pc == StoreFd(f))
        ensures p.owners[o].domain in Reap(procs, after) && Reap(procs, after)[p.owners[o].domain] == p.fds[f].ofd
      {
        assert RefersTo(procs, pid, f, after[p.owners[o].domain]);
        LockKept(procs, after, pid, f, p.owners[o].domain);
      }
    }
  }

  lemma SettleKeeps(s: Sys, pid: Pid, ps: ProcState, locks: map<Domain, Ofd>, serial: nat)
    requires SysOk(s) && ProcStateOk(pid, ps, locks)
    requires forall d | d in s.locks :: d in locks && locks[d] == s.locks[d]
    ensures SysOk(Settle(s, pid, ps, locks, serial))
  {
    var procs := s.procs[pid := ps];
    forall x | x in procs
      ensures ProcStateOk(x, procs[x], Reap(procs, locks))
    {
      if x == pid { BystanderKept(procs, locks, locks, x); } else { BystanderKept(procs, s.locks, locks, x); }
    }
  }

  lemma RunSettles(s: Sys, pid: Pid, o: OwnerId, c: Choice)
    requires pid in s.procs && s.procs[pid].Up? && o in s.procs[pid].p.owners
    ensures var p := s.procs[pid].p;
            StepSys(s, Run(pid, o, c)) == Settle(s, pid, StateAfter(s, p, o, c), LocksAfter(s, p, o, c), s.serial + 1)
  {
  }

  lemma RunKeeps(s: Sys, pid: Pid, o: OwnerId, c: Choice)
    requires SysOk(s) && pid in s.procs && s.procs[pid].Up? && o in s.procs[pid].p.owners
    requires Discoverable(s.procs[pid].p.owners[o], c)
    ensures SysOk(StepSys(s, Run(pid, o, c)))
  {
    var p := s.procs[pid].p;
    if Step(p, o, Arbitrate(s, p, o, c)).Live? { RunLives(s, pid, o, c); }
    LocksGrow(s, p, o, c);
    RunSettles(s, pid, o, c);
    SettleKeeps(s, pid, StateAfter(s, p, o, c), LocksAfter(s, p, o, c), s.serial + 1);
  }

  /** A process after one statement. */
  function StateAfter(s: Sys, p: Proc, o: OwnerId, c: Choice): ProcState
    requires o in p.owners
  {
    var r := Step(p, o, Arbitrate(s, p, o, c));
    if r.Live? then Up(r.p) else Gone
  }

  lemma LocksGrow(s: Sys, p: Proc, o: OwnerId, c: Choice)
    requires o in p.owners
    ensures forall d | d in s.locks :: d in LocksAfter(s, p, o, c) && LocksAfter(s, p, o, c)[d] == s.locks[d]
  {
  }

  lemma RunLives(s: Sys, pid: Pid, o: OwnerId, c: Choice)
    requires SysOk(s) && pid in s.procs && s.procs[pid].Up? && o in s.procs[pid].p.owners
    requires Discoverable(s.procs[pid].p.owners[o], c)
    requires Step(s.procs[pid].p, o, Arbitrate(s, s.procs[pid].p, o, c)).Live?
    ensures var p := s.procs[pid].p; var q := Step(p, o, Arbitrate(s, p, o, c)).p;
            ProcStateOk(pid, Up(q), LocksAfter(s, p, o, c))
  {
    var p := s.procs[pid].p;
    var c' := Arbitrate(s, p, o, c);
    assert Discoverable(p.owners[o], c');
    StepOk(p, o, c');
    RunHeldLocked(s, p, o, c);
    RunTags(p, o, c');
  }

  lemma RunTags(p: Proc, o: OwnerId, c: Choice)
    requires ProcOk(p) && o in p.owners && Step(p, o, c).Live?
    requires forall f | f in p.fds && p.fds[f].LockFile? :: p.fds[f].ofd.pid == p.pid
    ensures var q := Step(p, o, c).p;
            q.pid == p.pid && forall f | f in q.fds && q.fds[f].LockFile? :: q.fds[f].ofd.pid == p.pid
  {
  }

  lemma StepKeepsOther(p: Proc, o: OwnerId, c: Choice, x: OwnerId, f: Fd)
    requires ProcOk(p) && o in p.owners && x in p.owners && x != o && Discoverable(p.owners[o], c) && Step(p, o, c).Live?
    requires f in Mine(Step(p, o, c).p.fds, x)
    ensures var q := Step(p, o, c).p; q.owners[x] == p.owners[x] && f in Mine(p.fds, x) && q.fds[f] == p.fds[f]
  {
    assert OwnerOk(p, o);
    AnyStatementOk(p.owners[o], View(p, o), Mine(p.fds, o), p.gate == Some(o), c);
    MineApplied(p, o, Statement(p.owners[o], View(p, o), c), x);
  }

  lemma StepKeepsDomains(p: Proc, o: OwnerId, c: Choice)
    requires ProcOk(p) && o in p.owners && Discoverable(p.owners[o], c) && Step(p, o, c).Live?
    ensures Step(p, o, c).p.owners.Keys == p.owners.Keys && Step(p, o, c).p.owners[o].domain == p.owners[o].domain
  {
    assert OwnerOk(p, o);
    AnyStatementOk(p.owners[o], View(p, o), Mine(p.fds, o), p.gate == Some(o), c);
  }

  lemma RunHeldLocked(s: Sys, p: Proc, o: OwnerId, c: Choice)
    requires ProcOk(p) && HeldLocked(p, s.locks) && o in p.owners && Discoverable(p.owners[o], c)
    requires Step(p, o, Arbitrate(s, p, o, c)).Live?
    ensures HeldLocked(Step(p, o, Arbitrate(s, p, o, c)).p, LocksAfter(s, p, o, c))
  {
    var c' := Arbitrate(s, p, o, c);
    var locks := LocksAfter(s, p, o, c);
    var q := Step(p, o, c').p;
    StepKeepsDomains(p, o, c');
    forall x, f | x in q.owners && f in Mine(q.fds, x) && (q.owners[x].fd == Some(f) || q.owners[x].pc == StoreFd(f))
      ensures q.owners[x].domain in locks && locks[q.owners[x].domain] == q.fds[f].ofd
    {
      if x == o {
        PublishesLocked(p, o, c', f);
        assert p.fds[f].ofd.domain == p.owners[o].domain;
      } else {
        StepKeepsOther(p, o, c', x, f);
      }
    }
  }

  lemma BeginPublishesNothing(w: Owner, s: Sees, acquire: bool)
    ensures var e := Begin(w, s, acquire);
            e.Then? && e.w.fd == w.fd && e.fds == SameFds && e.w.domain == w.domain && (e.w.pc.StoreFd? ==> e.w.pc == w.pc)
  {
  }

  lemma CallOk(p: Proc, o: OwnerId, acquire: bool)
    requires ProcOk(p) && o in p.owners
    ensures Call(p, o, acquire).Live? && ProcOk(Call(p, o, acquire).p)
  {
    var e := Begin(p.owners[o], View(p, o), acquire);
    BeginPublishesNothing(p.owners[o], View(p, o), acquire);
    assert OwnerOk(p, o);
    BeginOk(p.owners[o], View(p, o), Mine(p.fds, o), p.gate == Some(o), acquire);
    Applied(p, o, e);
  }

  lemma CallPublishesNothing(p: Proc, o: OwnerId, acquire: bool)
    requires o in p.owners
    ensures var q := Call(p, o, acquire).p;
            && q.pid == p.pid && q.fds == p.fds && q.owners.Keys == p.owners.Keys
            && (forall x | x in p.owners :: q.owners[x].fd == p.owners[x].fd && q.owners[x].domain == p.owners[x].domain
                                         && (q.owners[x].pc.StoreFd? ==> q.owners[x].pc == p.owners[x].pc))
  {
    BeginPublishesNothing(p.owners[o], View(p, o), acquire);
  }

  lemma EnterKeeps(s: Sys, pid: Pid, o: OwnerId, acquire: bool)
    requires SysOk(s) && pid in s.procs && s.procs[pid].Up? && o in s.procs[pid].p.owners
    ensures SysOk(StepSys(s, Enter(pid, o, acquire)))
  {
    var p := s.procs[pid].p;
    CallOk(p, o, acquire);
    CallPublishesNothing(p, o, acquire);
    var q := Call(p, o, acquire).p;
    assert HeldLocked(q, s.locks);
    SettleKeeps(s, pid, Up(q), s.locks, s.serial);
  }

  lemma OthersKeep(s: Sys, e: Event)
    requires SysOk(s) && e.pid in s.procs && (e.NewOwner? || e.OpenOther? || e.CloseOther? || e.Die?)
    ensures SysOk(StepSys(s, e))
  {
    var ps := s.procs[e.pid];
    if e.Die? {
      SettleKeeps(s, e.pid, Gone, s.locks, s.serial);
    } else if ps.Up? {
      var q := if e.NewOwner? then ps.p.(owners := ps.p.owners[e.o := Owner(e.domain, None, None, None, false, false, Idle)])
               else if e.OpenOther? then ps.p.(fds := ps.p.fds[e.f := Foreign]) else ps.p.(fds := ps.p.fds - {e.f});
      if StepSys(s, e) != s {
        forall x ensures Mine(q.fds, x) == Mine(ps.p.fds, x) {}
        if e.NewOwner? { NewOwnerOk(ps.p, e.o, e.domain); } else { FdsOk(ps.p, q); }
        SettleKeeps(s, e.pid, Up(q), s.locks, s.serial);
      }
    }
  }

  lemma NewOwnerOk(p: Proc, o: OwnerId, d: Domain)
    requires ProcOk(p) && o !in p.owners
    ensures ProcOk(p.(owners := p.owners[o := Owner(d, None, None, None, false, false, Idle)]))
  {
    var q := p.(owners := p.owners[o := Owner(d, None, None, None, false, false, Idle)]);
    forall x | x in q.owners ensures OwnerOk(q, x) {
      if x == o { assert Mine(q.fds, o) == {}; } else { assert OwnerOk(p, x); }
    }
  }

  lemma FdsOk(p: Proc, q: Proc)
    requires ProcOk(p) && q == p.(fds := q.fds)
    requires forall f :: f in q.fds && q.fds[f].LockFile? ==> f in p.fds && p.fds[f] == q.fds[f]
    requires forall x :: Mine(q.fds, x) == Mine(p.fds, x)
    ensures ProcOk(q)
  {
    forall x | x in q.owners ensures OwnerOk(q, x) { assert OwnerOk(p, x); }
  }

  /** With the gate free and no registered owner flagged, what the callback will close is
      exactly what owners have open. */
  lemma HookFdsExact(p: Proc)
    requires ProcOk(p) && p.gate.None? && !AnyFlagged(p)
    ensures HookFds(p) == LockFiles(p.fds)
  {
    GateFreeAccounting(p);
    forall f | f in HookFds(p) ensures f in LockFiles(p.fds) {
      var d :| d in p.registry && p.registry[d] in p.owners && Names(p.owners[p.registry[d]], f);
      assert f in Mine(p.fds, p.registry[d]);
    }
    forall f | f in LockFiles(p.fds) ensures f in HookFds(p) {
      var o := p.fds[f].ofd.owner;
      assert Slot(p, o) && p.registry[p.owners[o].domain] == o;
      assert !Flagged(p.owners[o]) && Names(p.owners[o], f);
    }
  }

  lemma ForkKeeps(s: Sys, pid: Pid, child: Pid)
    requires SysOk(s) && pid in s.procs
    ensures SysOk(StepSys(s, Fork(pid, child)))
  {
    var ps := s.procs[pid];
    if ps.Up? && ps.p.gate.None? && child !in s.procs {
      var p := ps.p;
      if !AnyFlagged(p) {
        HookFdsExact(p);
        var q := ChildCopy(p, child);
        forall o | o in q.owners
          ensures Registered(q, o) || (Blank(q.owners[o]) && !Flagged(q.owners[o]))
        {
          assert OwnerOk(p, o);
          if Slot(p, o) { assert q.registry[p.owners[o].domain] == o; }
        }
        SettleKeeps(s, child, Detaching(q, HookFds(p)), s.locks, s.serial);
      } else {
        SettleKeeps(s, child, Gone, s.locks, s.serial);
      }
    }
  }

  lemma DetachKeeps(s: Sys, e: Event)
    requires SysOk(s) && e.pid in s.procs && (e.DetachOne? || e.DetachDone?)
    ensures SysOk(StepSys(s, e))
  {
    var ps := s.procs[e.pid];
    if ps.Detaching? && e.DetachOne? && e.f in ps.todo {
      var q := ps.p.(fds := ps.p.fds - {e.f});
      assert LockFiles(q.fds) == LockFiles(ps.p.fds) - {e.f};
      assert forall o | o in q.owners :: Registered(ps.p, o) ==> Registered(q, o);
      SettleKeeps(s, e.pid, Detaching(q, ps.todo - {e.f}), s.locks, s.serial);
    } else if ps.Detaching? && e.DetachDone? && ps.todo == {} {
      ResetOk(ps.p);
      SettleKeeps(s, e.pid, Up(Reset(ps.p)), s.locks, s.serial);
    }
  }

  lemma ResetOk(p: Proc)
    requires DetachOk(p, {})
    ensures var q := Reset(p);
            ProcOk(q) && q.pid == p.pid && (forall locks :: HeldLocked(q, locks)) && LockFiles(q.fds) == {} && q.registry == map[]
  {
    var q := Reset(p);
    assert forall f :: f in p.fds && p.fds[f].LockFile? ==> f in LockFiles(p.fds);
    forall o | o in q.owners ensures OwnerOk(q, o) {
      assert Mine(q.fds, o) == {};
    }
  }

  lemma StepSysOk(s: Sys, e: Event)
    requires SysOk(s) && EventDiscoverable(s, e)
    ensures SysOk(StepSys(s, e))
  {
    if e.Spawn? {
      if e.pid !in s.procs { SettleKeeps(s, e.pid, Up(NewProc(e.pid)), s.locks, s.serial); }
    } else if e.pid in s.procs {
      match e
      case Run(pid, o, c) => if s.procs[pid].Up? && o in s.procs[pid].p.owners { RunKeeps(s, pid, o, c); }
      case Enter(pid, o, acquire) => if s.procs[pid].Up? && o in s.procs[pid].p.owners { EnterKeeps(s, pid, o, acquire); }
      case Fork(pid, child) => ForkKeeps(s, pid, child);
      case DetachOne(_, _) => DetachKeeps(s, e);
      case DetachDone(_) => DetachKeeps(s, e);
      case _ => OthersKeep(s, e);
    }
  }

  /** The invariant holds after every run of every set of processes. */
  lemma {:induction false} RunSysOk(s: Sys, es: seq<Event>)
    requires SysOk(s) && RunDiscoverable(s, es)
    ensures SysOk(RunSys(s, es))
    decreases |es|
  {
    if es != [] {
      StepSysOk(s, es[0]);
      RunSysOk(StepSys(s, es[0]), es[1..]);
    }
  }

  /** Before any interpreter has started. */
  const EMPTY := Sys(map[], map[], 0)

  lemma ReachedOk(es: seq<Event>)
    requires RunDiscoverable(EMPTY, es)
    ensures SysOk(RunSys(EMPTY, es))
  {
    RunSysOk(EMPTY, es);
  }

  /** Over every run of any number of interpreters, started independently or by fork, with
      exceptions at any statement: in every process whose gate is free, the descriptors are
      exactly accounted for. */
  lemma AccountingOverRuns(es: seq<Event>, x: Pid)
    requires RunDiscoverable(EMPTY, es)
    requires var s := RunSys(EMPTY, es); x in s.procs && s.procs[x].Up? && s.procs[x].p.gate.None?
    ensures var p := RunSys(EMPTY, es).procs[x].p; Accounted(p) && Truthful(p)
  {
    ReachedOk(es);
    GateFreeAccounting(RunSys(EMPTY, es).procs[x].p);
  }

  /** The owner is broken and has its slot. */
  ghost predicate BrokenWithSlot(s: Sys, pid: Pid, o: OwnerId) {
    && pid in s.procs && s.procs[pid].Up? && o in s.procs[pid].p.owners
    && s.procs[pid].p.owners[o].broken && Slot(s.procs[pid].p, o)
  }

  lemma BrokenHasSlot(s: Sys, pid: Pid, o: OwnerId)
    requires SysOk(s) && pid in s.procs && s.procs[pid].Up? && o in s.procs[pid].p.owners && s.procs[pid].p.owners[o].broken
    ensures BrokenWithSlot(s, pid, o)
  {
    assert OwnerOk(s.procs[pid].p, o);
  }

  /** A statement or a call of any owner of the process leaves a broken one broken. */
  lemma BrokenInProc(p: Proc, x: OwnerId, e: Effect, o: OwnerId)
    requires ProcOk(p) && x in p.owners && o in p.owners && p.owners[o].broken && e.Then?
    requires (exists c :: e == Statement(p.owners[x], View(p, x), c)) || (exists acquire :: e == Begin(p.owners[x], View(p, x), acquire))
    ensures o in Apply(p, x, e).owners && Apply(p, x, e).owners[o].broken
  {
    if x == o {
      assert OwnerOk(p, o);
      if c :| e == Statement(p.owners[x], View(p, x), c) { BrokenStays(p.owners[x], View(p, x), c); }
    }
  }

  lemma BrokenRun(s: Sys, pid: Pid, x: OwnerId, c: Choice, o: OwnerId)
    requires SysOk(s) && BrokenWithSlot(s, pid, o) && x in s.procs[pid].p.owners
    ensures var n := StepSys(s, Run(pid, x, c)).procs[pid];
            n.Gone? || (n.Up? && o in n.p.owners && n.p.owners[o].broken)
  {
    BrokenState(s, pid, x, c, o);
    RunSettles(s, pid, x, c);
  }

  lemma BrokenState(s: Sys, pid: Pid, x: OwnerId, c: Choice, o: OwnerId)
    requires SysOk(s) && BrokenWithSlot(s, pid, o) && x in s.procs[pid].p.owners
    ensures var n := StateAfter(s, s.procs[pid].p, x, c);
            n.Gone? || (n.Up? && o in n.p.owners && n.p.owners[o].broken)
  {
    var p := s.procs[pid].p;
    var e := Statement(p.owners[x], View(p, x), Arbitrate(s, p, x, c));
    if e.Then? { BrokenInProc(p, x, e, o); }
  }

  lemma BrokenEnter(s: Sys, pid: Pid, x: OwnerId, acquire: bool, o: OwnerId)
    requires SysOk(s) && BrokenWithSlot(s, pid, o) && x in s.procs[pid].p.owners
    ensures var n := StepSys(s, Enter(pid, x, acquire)).procs[pid];
            n.Gone? || (n.Up? && o in n.p.owners && n.p.owners[o].broken)
  {
    var p := s.procs[pid].p;
    var e := Begin(p.owners[x], View(p, x), acquire);
    if e.Then? { BrokenInProc(p, x, e, o); }
  }

  /** An event of one process moves no other, but for the child a fork adds. */
  lemma BystanderSame(s: Sys, e: Event, pid: Pid)
    requires pid in s.procs && e.pid != pid
    ensures pid in StepSys(s, e).procs && StepSys(s, e).procs[pid] == s.procs[pid]
  {
  }

  lemma BrokenElse(s: Sys, e: Event, pid: Pid, o: OwnerId)
    requires SysOk(s) && BrokenWithSlot(s, pid, o) && e.pid == pid
    requires !(e.Run? || e.Enter?) || e.o !in s.procs[pid].p.owners
    ensures pid in StepSys(s, e).procs
    ensures var n := StepSys(s, e).procs[pid]; n.Gone? || (n.Up? && o in n.p.owners && n.p.owners[o].broken)
  {
  }

  lemma BrokenStep(s: Sys, e: Event, pid: Pid, o: OwnerId)
    requires SysOk(s) && EventDiscoverable(s, e) && BrokenWithSlot(s, pid, o)
    ensures pid in StepSys(s, e).procs && (StepSys(s, e).procs[pid].Gone? || BrokenWithSlot(StepSys(s, e), pid, o))
  {
    StepSysOk(s, e);
    if e.pid != pid { BystanderSame(s, e, pid); }
    else if e.Run? && e.o in s.procs[pid].p.owners { BrokenRun(s, pid, e.o, e.c, o); }
    else if e.Enter? && e.o in s.procs[pid].p.owners { BrokenEnter(s, pid, e.o, e.acquire, o); }
    else { BrokenElse(s, e, pid, o); }
    if StepSys(s, e).procs[pid].Up? { BrokenHasSlot(StepSys(s, e), pid, o); }
  }

  lemma GoneStays(s: Sys, e: Event, pid: Pid)
    requires pid in s.procs && s.procs[pid].Gone?
    ensures pid in StepSys(s, e).procs && StepSys(s, e).procs[pid].Gone?
  {
  }

  lemma {:induction false} RunGone(s: Sys, es: seq<Event>, pid: Pid)
    requires pid in s.procs && s.procs[pid].Gone?
    ensures pid in RunSys(s, es).procs && RunSys(s, es).procs[pid].Gone?
    decreases |es|
  {
    if es != [] { GoneStays(s, es[0], pid); RunGone(StepSys(s, es[0]), es[1..], pid); }
  }

  lemma {:induction false} RunBroken(s: Sys, es: seq<Event>, pid: Pid, o: OwnerId)
    requires SysOk(s) && RunDiscoverable(s, es) && BrokenWithSlot(s, pid, o)
    ensures pid in RunSys(s, es).procs && (RunSys(s, es).procs[pid].Gone? || BrokenWithSlot(RunSys(s, es), pid, o))
    decreases |es|
  {
    if es != [] {
      var t := StepSys(s, es[0]);
      StepSysOk(s, es[0]);
      BrokenStep(s, es[0], pid, o);
      if t.procs[pid].Gone? { RunGone(t, es[1..], pid); } else { RunBroken(t, es[1..], pid, o); }
    }
  }

  /** In every run, an owner that is broken at some point keeps its slot through everything that
      follows, for as long as its process lives. */
  lemma BrokenKeepsSlot(es: seq<Event>, more: seq<Event>, pid: Pid, o: OwnerId)
    requires RunDiscoverable(EMPTY, es) && RunDiscoverable(RunSys(EMPTY, es), more)
    requires var s := RunSys(EMPTY, es);
             pid in s.procs && s.procs[pid].Up? && o in s.procs[pid].p.owners && s.procs[pid].p.owners[o].broken
    ensures var t := RunSys(RunSys(EMPTY, es), more);
            pid in t.procs && (t.procs[pid].Gone? || BrokenWithSlot(t, pid, o))
  {
    ReachedOk(es);
    BrokenHasSlot(RunSys(EMPTY, es), pid, o);
    RunBroken(RunSys(EMPTY, es), more, pid, o);
  }

  // ---- exclusive ownership ------------------------------------------------------------

  /** The `held` property of an owner object. */
  predicate Held(p: Proc, o: OwnerId)
    requires o in p.owners
  {
    p.owners[o].fd.Some? && p.owners[o].ownerPid == Some(p.pid) && !p.owners[o].broken
  }

  /** Between the kernel close and the clearing of the published field. */
  predicate InCloseWindow(w: Owner) {
    w.pc.DropPending? || w.pc.DropFd?
  }

  /** A held owner has the domain's lock, unless it is inside that window. */
  lemma HeldMeansLocked(s: Sys, pid: Pid, o: OwnerId)
    requires SysOk(s) && pid in s.procs && s.procs[pid].Up? && o in s.procs[pid].p.owners && Held(s.procs[pid].p, o)
    requires !InCloseWindow(s.procs[pid].p.owners[o])
    ensures var w := s.procs[pid].p.owners[o];
            w.domain in s.locks && s.locks[w.domain].pid == pid && s.locks[w.domain].owner == o
  {
    var p := s.procs[pid].p;
    assert OwnerOk(p, o);
    assert p.owners[o].fd.value in Mine(p.fds, o);
  }

  /** At most one held owner per domain over all processes and objects, outside the window. */
  lemma Exclusive(s: Sys, p1: Pid, o1: OwnerId, p2: Pid, o2: OwnerId)
    requires SysOk(s) && p1 in s.procs && p2 in s.procs && s.procs[p1].Up? && s.procs[p2].Up?
    requires o1 in s.procs[p1].p.owners && o2 in s.procs[p2].p.owners
    requires Held(s.procs[p1].p, o1) && Held(s.procs[p2].p, o2)
    requires s.procs[p1].p.owners[o1].domain == s.procs[p2].p.owners[o2].domain
    requires !InCloseWindow(s.procs[p1].p.owners[o1]) && !InCloseWindow(s.procs[p2].p.owners[o2])
    ensures p1 == p2 && o1 == o2
  {
    HeldMeansLocked(s, p1, o1);
    HeldMeansLocked(s, p2, o2);
  }

  /** Held, and not between its kernel close and the clearing of its field. */
  ghost predicate HoldsDomain(s: Sys, pid: Pid, o: OwnerId, d: Domain) {
    && pid in s.procs && s.procs[pid].Up? && o in s.procs[pid].p.owners && Held(s.procs[pid].p, o)
    && s.procs[pid].p.owners[o].domain == d && !InCloseWindow(s.procs[pid].p.owners[o])
  }

  /** In every run of any number of interpreters, started independently or by fork, at most one
      owner object anywhere holds a domain. */
  lemma ExclusiveOverRuns(es: seq<Event>, p1: Pid, o1: OwnerId, p2: Pid, o2: OwnerId, d: Domain)
    requires RunDiscoverable(EMPTY, es)
    requires HoldsDomain(RunSys(EMPTY, es), p1, o1, d) && HoldsDomain(RunSys(EMPTY, es), p2, o2, d)
    ensures p1 == p2 && o1 == o2
  {
    ReachedOk(es);
    Exclusive(RunSys(EMPTY, es), p1, o1, p2, o2);
  }

  /** The window is real: in it an owner still reports held while its own descriptor is
      gone, so with no other copy of the description the kernel has let the lock go. */
  lemma CloseWindowIsUnlocked(s: Sys, pid: Pid, o: OwnerId)
    requires SysOk(s) && pid in s.procs && s.procs[pid].Up? && o in s.procs[pid].p.owners
    requires var w := s.procs[pid].p.owners[o];
             w.pc.Close? && w.fd == Some(w.pc.f) && w.ownerPid == Some(pid) && !w.broken
    requires var p := s.procs[pid].p; var f := p.owners[o].pc.f;
             f in p.fds && p.fds[f].LockFile?
             && forall x, g :: RefersTo(s.procs, x, g, p.fds[f].ofd) ==> x == pid && g == f
    ensures var t := StepSys(s, Run(pid, o, Go));
            && t.procs[pid].Up? && o in t.procs[pid].p.owners && Held(t.procs[pid].p, o)
            && s.procs[pid].p.owners[o].domain !in t.locks
  {
    var p := s.procs[pid].p;
    var w := p.owners[o];
    var f := w.pc.f;
    assert OwnerOk(p, o);
    assert f in Mine(p.fds, o);
    assert s.locks[w.domain] == p.fds[f].ofd;
    var t := StepSys(s, Run(pid, o, Go));
    var q := t.procs[pid].p;
    assert q.fds == p.fds - {f};
    LastCopyGone(s.procs, t.procs, pid, f, p.fds[f].ofd);
  }

  /** One process closed the only descriptor of a description. */
  lemma LastCopyGone(procs: map<Pid, ProcState>, after: map<Pid, ProcState>, pid: Pid, f: Fd, ofd: Ofd)
    requires pid in procs && procs[pid].Up? && pid in after && after[pid].Up?
    requires after == procs[pid := after[pid]] && after[pid].p.fds == procs[pid].p.fds - {f}
    requires forall x, g :: RefersTo(procs, x, g, ofd) ==> x == pid && g == f
    ensures forall x, g :: !RefersTo(after, x, g, ofd)
  {
    forall x, g ensures !RefersTo(after, x, g, ofd) {
      assert RefersTo(after, x, g, ofd) ==> RefersTo(procs, x, g, ofd);
    }
  }

  /** A new owner object starts at rest, and its calls and statements are the owner lock's, with the
      kernel's answer in place of the choice. */
  lemma OwnersRun(s: Sys, pid: Pid, o: OwnerId, d: Domain, acquire: bool, c: Choice)
    requires pid in s.procs && s.procs[pid].Up?
    ensures o !in s.procs[pid].p.owners ==>
              var n := StepSys(s, NewOwner(pid, o, d));
              && n.procs[pid].Up? && o in n.procs[pid].p.owners && n.procs[pid].p.fds == s.procs[pid].p.fds
              && var w := n.procs[pid].p.owners[o];
              w.domain == d && w.pc.Idle? && w.fd.None? && w.pending.None? && !w.broken && !w.opening
    ensures o in s.procs[pid].p.owners ==>
              var r := Call(s.procs[pid].p, o, acquire);
              StepSys(s, Enter(pid, o, acquire)).procs[pid] == if r.Live? then Up(r.p) else Gone
    ensures o in s.procs[pid].p.owners ==>
              var r := Step(s.procs[pid].p, o, Arbitrate(s, s.procs[pid].p, o, c));
              StepSys(s, Run(pid, o, c)).procs[pid] == if r.Live? then Up(r.p) else Gone
  {
    if o !in s.procs[pid].p.owners { NewOwnerRests(s, pid, o, d); } else { CallReaches(s, pid, o, acquire); RunReaches(s, pid, o, c); }
  }

  lemma NewOwnerRests(s: Sys, pid: Pid, o: OwnerId, d: Domain)
    requires pid in s.procs && s.procs[pid].Up? && o !in s.procs[pid].p.owners
    ensures var n := StepSys(s, NewOwner(pid, o, d));
            && n.procs[pid].Up? && o in n.procs[pid].p.owners && n.procs[pid].p.fds == s.procs[pid].p.fds
            && var w := n.procs[pid].p.owners[o];
            w.domain == d && w.pc.Idle? && w.fd.None? && w.pending.None? && !w.broken && !w.opening
  {
  }

  lemma CallReaches(s: Sys, pid: Pid, o: OwnerId, acquire: bool)
    requires pid in s.procs && s.procs[pid].Up? && o in s.procs[pid].p.owners
    ensures var r := Call(s.procs[pid].p, o, acquire);
            StepSys(s, Enter(pid, o, acquire)).procs[pid] == if r.Live? then Up(r.p) else Gone
  {
  }

  lemma RunReaches(s: Sys, pid: Pid, o: OwnerId, c: Choice)
    requires pid in s.procs && s.procs[pid].Up? && o in s.procs[pid].p.owners
    ensures var r := Step(s.procs[pid].p, o, Arbitrate(s, s.procs[pid].p, o, c));
            StepSys(s, Run(pid, o, c)).procs[pid] == if r.Live? then Up(r.p) else Gone
  {
    RunSettles(s, pid, o, c);
  }

  /** A request for the domain's lock is granted exactly if no other description has it, and then
      the lock is this description's; otherwise the acquire() is told it is busy. */
  lemma LockRequestExactly(s: Sys, pid: Pid, o: OwnerId)
    requires SysOk(s) && pid in s.procs && s.procs[pid].Up? && o in s.procs[pid].p.owners && s.procs[pid].p.owners[o].pc.Flock?
    ensures var p, n := s.procs[pid].p, StepSys(s, Run(pid, o, Go));
            var d, f := p.owners[o].domain, p.owners[o].pc.f;
            && f in p.fds && p.fds[f].LockFile? && n.procs[pid].Up? && o in n.procs[pid].p.owners && n.procs[pid].p.fds == p.fds
            && if d !in s.locks || s.locks[d] == p.fds[f].ofd then
                 n.procs[pid].p.owners[o].pc == StoreFd(f) && d in n.locks && n.locks[d] == p.fds[f].ofd
               else
                 n.procs[pid].p.owners[o].pc == Handler(Busy, Some(f))
                 && (Referenced(s.procs, s.locks[d]) ==> d in n.locks && n.locks[d] == s.locks[d])
  {
    var p := s.procs[pid].p;
    var d, f := p.owners[o].domain, p.owners[o].pc.f;
    assert OwnerOk(p, o);
    assert f in Mine(p.fds, o);
    RunSettles(s, pid, o, Go);
    RequestedState(s, pid, o);
    var n := StepSys(s, Run(pid, o, Go));
    if d !in s.locks || s.locks[d] == p.fds[f].ofd {
      assert RefersTo(n.procs, pid, f, p.fds[f].ofd);
    } else if Referenced(s.procs, s.locks[d]) {
      StillReferred(s, n, pid, d);
    }
  }

  lemma RequestedState(s: Sys, pid: Pid, o: OwnerId)
    requires SysOk(s) && pid in s.procs && s.procs[pid].Up? && o in s.procs[pid].p.owners && s.procs[pid].p.owners[o].pc.Flock?
    ensures var p := s.procs[pid].p;
            var d, f, ps := p.owners[o].domain, p.owners[o].pc.f, StateAfter(s, p, o, Go);
            && f in p.fds && p.fds[f].LockFile? && ps.Up? && ps.p.fds == p.fds && o in ps.p.owners
            && if d !in s.locks || s.locks[d] == p.fds[f].ofd then
                 ps.p.owners[o].pc == StoreFd(f) && LocksAfter(s, p, o, Go) == s.locks[d := p.fds[f].ofd]
               else ps.p.owners[o].pc == Handler(Busy, Some(f)) && LocksAfter(s, p, o, Go) == s.locks
  {
    var p := s.procs[pid].p;
    KernelDecides(s, p, o);
    FlockEnds(p.owners[o], View(p, o), Arbitrate(s, p, o, Go));
    FlockKeepsTables(p, o, Arbitrate(s, p, o, Go));
  }

  lemma KernelDecides(s: Sys, p: Proc, o: OwnerId)
    requires ProcOk(p) && o in p.owners && p.owners[o].pc.Flock?
    ensures var d, f := p.owners[o].domain, p.owners[o].pc.f;
            && f in p.fds && p.fds[f].LockFile?
            && var free := d !in s.locks || s.locks[d] == p.fds[f].ofd;
            && Arbitrate(s, p, o, Go) == (if free then Go else FailBusy)
            && LocksAfter(s, p, o, Go) == if free then s.locks[d := p.fds[f].ofd] else s.locks
  {
    assert OwnerOk(p, o);
    assert p.owners[o].pc.f in Mine(p.fds, o);
  }

  lemma FlockKeepsTables(p: Proc, o: OwnerId, c: Choice)
    requires o in p.owners && p.owners[o].pc.Flock? && (c == Go || c == FailBusy)
    ensures var r := Step(p, o, c);
            r.Live? && r.p.fds == p.fds && o in r.p.owners && r.p.owners[o] == Statement(p.owners[o], View(p, o), c).w
  {
    FlockEnds(p.owners[o], View(p, o), c);
  }

  /** The statement that asks for the lock, once the kernel has decided. */
  lemma FlockEnds(w: Owner, v: Sees, c: Choice)
    requires w.pc.Flock? && (c == Go || c == FailBusy)
    ensures Statement(w, v, c) == Goto(w, if c == Go then StoreFd(w.pc.f) else Handler(Busy, Some(w.pc.f)))
  {
  }

  /** A process that keeps its descriptors keeps every lock referred to. */
  lemma StillReferred(s: Sys, n: Sys, pid: Pid, d: Domain)
    requires d in s.locks && Referenced(s.procs, s.locks[d]) && pid in s.procs && pid in n.procs && n.procs == s.procs[pid := n.procs[pid]]
    requires Table(n.procs[pid]) == Table(s.procs[pid]) && n.locks == Reap(n.procs, s.locks)
    ensures d in n.locks && n.locks[d] == s.locks[d]
  {
    var x, g :| RefersTo(s.procs, x, g, s.locks[d]);
    assert RefersTo(n.procs, x, g, s.locks[d]);
  }

  /** When a process exits, the kernel frees what only it referred to. */
  lemma DeathFrees(s: Sys, pid: Pid, d: Domain)
    requires d in s.locks && forall x, g :: RefersTo(s.procs, x, g, s.locks[d]) ==> x == pid
    ensures d !in StepSys(s, Die(pid)).locks || pid !in s.procs
  {
    var n := StepSys(s, Die(pid));
    forall x, g ensures pid in s.procs ==> !RefersTo(n.procs, x, g, s.locks[d]) {
      assert RefersTo(n.procs, x, g, s.locks[d]) && pid in s.procs ==> RefersTo(s.procs, x, g, s.locks[d]);
    }
  }

  /** The callback gets to its end if no close fails: the child comes up without the inherited
      lock files and with every other descriptor. */
  lemma {:induction false} ChildComesUp(s: Sys, child: Pid) returns (es: seq<Event>)
    requires child in s.procs && s.procs[child].Detaching?
    ensures var t, c := RunSys(s, es), s.procs[child];
            && child in t.procs && t.procs[child] == Up(Reset(c.p.(fds := c.p.fds - c.todo)))
            && forall x | x in s.procs && x != child :: x in t.procs && t.procs[x] == s.procs[x]
    decreases s.procs[child].todo
  {
    var todo := s.procs[child].todo;
    if todo == {} {
      es := [DetachDone(child)];
      assert RunSys(StepSys(s, es[0]), es[1..]) == StepSys(s, es[0]);
      assert s.procs[child].p.fds - {} == s.procs[child].p.fds;
    } else {
      var f :| f in todo;
      var n := StepSys(s, DetachOne(child, f));
      assert (s.procs[child].p.fds - {f}) - (todo - {f}) == s.procs[child].p.fds - todo;
      var more := ChildComesUp(n, child);
      es := [DetachOne(child, f)] + more;
      assert es[1..] == more;
    }
  }

  // ---- fork children ------------------------------------------------------------------

  /** The child's callback: it exits at once exactly when a registered owner is flagged, else it
      starts with exactly the inherited lock files to close and every other descriptor as it
      was. The parent and its locks are untouched. */
  lemma ForkedChildExact(s: Sys, pid: Pid, child: Pid)
    requires SysOk(s) && pid in s.procs && s.procs[pid].Up? && s.procs[pid].p.gate.None? && child !in s.procs
    ensures var t := StepSys(s, Fork(pid, child));
            && t.procs[pid] == s.procs[pid]
            && (t.procs[child].Gone? <==> AnyFlagged(s.procs[pid].p))
            && (!t.procs[child].Gone? ==> t.procs[child].Detaching? && t.procs[child].p.fds == s.procs[pid].p.fds
                                          && t.procs[child].todo == LockFiles(s.procs[pid].p.fds))
  {
    var p := s.procs[pid].p;
    if !AnyFlagged(p) { HookFdsExact(p); }
  }

  /** A child's close removes one inherited lock file and nothing else, and no lock whose
      description another process still refers to. */
  lemma DetachIsSelective(s: Sys, child: Pid, f: Fd, d: Domain, other: Pid, g: Fd)
    requires SysOk(s) && child in s.procs && s.procs[child].Detaching? && f in s.procs[child].todo
    requires other != child && d in s.locks && RefersTo(s.procs, other, g, s.locks[d])
    ensures var t := StepSys(s, DetachOne(child, f));
            && s.procs[child].p.fds[f].LockFile?
            && t.procs[child].p.fds == s.procs[child].p.fds - {f} && f !in t.procs[child].todo
            && t.procs[other] == s.procs[other]
            && d in t.locks && t.locks[d] == s.locks[d]
  {
    assert f in LockFiles(s.procs[child].p.fds);
    DetachSettles(s, child, f);
    var t := StepSys(s, DetachOne(child, f));
    assert RefersTo(t.procs, other, g, s.locks[d]);
    LockKept(t.procs, s.locks, other, g, d);
  }

  lemma DetachSettles(s: Sys, child: Pid, f: Fd)
    requires child in s.procs && s.procs[child].Detaching? && f in s.procs[child].todo
    ensures var c := s.procs[child];
            StepSys(s, DetachOne(child, f)) == Settle(s, child, Detaching(c.p.(fds := c.p.fds - {f}), c.todo - {f}), s.locks, s.serial)
  {
  }

  /** When the callback finishes the child owns nothing: no lock file, an empty registry, no
      owner published or flagged, and only descriptors that were never an owner's. */
  lemma DetachedChildOwnsNothing(s: Sys, child: Pid)
    requires SysOk(s) && child in s.procs && s.procs[child].Detaching? && s.procs[child].todo == {}
    ensures var t := StepSys(s, DetachDone(child));
            && t.procs[child].Up? && LockFiles(t.procs[child].p.fds) == {} && t.procs[child].p.registry == map[]
            && t.procs[child].p.fds == s.procs[child].p.fds
            && forall o | o in t.procs[child].p.owners :: Blank(t.procs[child].p.owners[o]) && !Flagged(t.procs[child].p.owners[o])
  {
    ResetOk(s.procs[child].p);
  }

  /** The callback as it runs: each inherited descriptor is closed once; the first close that
      fails ends the child. */
  method CloseInherited(fds: map<Fd, Entry>, inherited: set<Fd>, failing: set<Fd>)
    returns (exited: bool, rest: map<Fd, Entry>, closed: seq<Fd>)
    requires inherited <= fds.Keys
    ensures exited <==> inherited * failing != {}
    ensures !exited ==> rest == fds - inherited && multiset(closed) == multiset(inherited)
    ensures forall f | f in fds && f !in inherited :: f in rest && rest[f] == fds[f]
  {
    rest, closed, exited := fds, [], false;
    var todo := inherited;
    while todo != {}
      invariant todo <= inherited && rest == fds - (inherited - todo)
      invariant multiset(closed) + multiset(todo) == multiset(inherited)
      invariant inherited * failing <= todo
      decreases todo
    {
      var f :| f in todo;
      if f in failing {
        assert f in inherited * failing;
        exited := true;
        return;
      }
      TakeOne(fds, inherited, todo, f);
      rest, closed, todo := rest - {f}, closed + [f], todo - {f};
    }
    assert inherited - todo == inherited;
  }

  lemma TakeOne(fds: map<Fd, Entry>, inherited: set<Fd>, todo: set<Fd>, f: Fd)
    requires f in todo && todo <= inherited
    ensures multiset(todo) == multiset(todo - {f}) + multiset{f}
    ensures fds - (inherited - (todo - {f})) == (fds - (inherited - todo)) - {f}
  {
    assert inherited - (todo - {f}) == (inherited - todo) + {f};
  }
}
