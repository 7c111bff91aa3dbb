/** What one uninterrupted acquire() does, and that release() undoes it. */
module OwnerProgress {
  import opened Wrappers
  import opened OwnerLock

  /** How a statement ends when nothing goes wrong: the kernel hands out `fd`. */
  function Quiet(pc: Pc, fd: Fd, serial: nat): Choice {
    if pc.KernelOpen? then Opened(fd, serial) else Go
  }

  /** The state after `n` such statements of one owner. */
  function Advance(p: Proc, o: OwnerId, fd: Fd, serial: nat, n: nat): Outcome
    requires o in p.owners
    decreases n
  {
    if n == 0 then Live(p)
    else
      var r := Step(p, o, Quiet(p.owners[o].pc, fd, serial));
      if r.Live? && o in r.p.owners then Advance(r.p, o, fd, serial, n - 1) else r
  }

  lemma AdvanceFirst(p: Proc, o: OwnerId, fd: Fd, serial: nat, n: nat, q: Proc)
    requires o in p.owners && n > 0 && Step(p, o, Quiet(p.owners[o].pc, fd, serial)) == Live(q) && o in q.owners
    ensures Advance(p, o, fd, serial, n) == Advance(q, o, fd, serial, n - 1)
  {
  }

  /** Statements left of acquire() and of release(). */
  function Left(pc: Pc): nat {
    match pc
    case Reserve => 15 case Mkdir => 14 case OpenGate => 13 case SetFlag => 12 case KernelOpen => 11
    case StorePending(_) => 10 case ClearFlag(_) => 9 case LeaveOpenGate(_) => 8 case Harden(_) => 7 case ReturnFd(_) => 6
    case Flock(_) => 5 case StoreFd(_) => 4 case StorePid(_) => 3 case ClearPending(_) => 2 case LeaveTry(_) => 1
    case CheckSlot(_) => 8 case CloseGate(_, _) => 7 case Close(_, _) => 6 case DropPending(_, _) => 5 case DropFd(_, _) => 4
    case DropFlag(_) => 3 case LeaveCloseGate(_) => 2 case DeleteSlot => 1
    case _ => 0
  }

  /** The owner itself, part of the way through acquire(). */
  predicate Climbing(w: Owner, fd: Fd, pid: Pid) {
    var n := Left(w.pc);
    && AcquirePc(w.pc) && !w.broken
    && w.opening == (9 <= n <= 11)
    && w.pending == (if 2 <= n <= 9 then Some(fd) else None)
    && w.fd == (if n <= 3 then Some(fd) else None)
    && (n <= 2 ==> w.ownerPid == Some(pid))
    && (n <= 10 ==> Param(w.pc) == Some(fd))
  }

  /** The descriptor a statement of acquire() works on. */
  function Param(pc: Pc): Option<Fd> {
    match pc
    case StorePending(f) => Some(f) case ClearFlag(f) => Some(f) case LeaveOpenGate(f) => Some(f) case Harden(f) => Some(f)
    case ReturnFd(f) => Some(f) case Flock(f) => Some(f) case StoreFd(f) => Some(f) case StorePid(f) => Some(f)
    case ClearPending(f) => Some(f) case LeaveTry(f) => Some(f)
    case _ => None
  }

  predicate HoldingQuietly(w: Owner, fd: Fd, pid: Pid) {
    w.pc.Idle? && w.fd == Some(fd) && w.pending.None? && !w.opening && !w.broken && w.ownerPid == Some(pid)
  }

  /** What is left of acquire() goes one statement on, touching the tables at four of them. */
  lemma ClimbOne(w: Owner, s: Sees, fd: Fd, serial: nat)
    requires Climbing(w, fd, s.pid) && s.slotFree == w.pc.Reserve? && s.gateFree == !GatePc(w.pc) && (w.pc.KernelOpen? ==> fd !in s.usedFds)
    ensures var e := Statement(w, s, Quiet(w.pc, fd, serial));
            && e.Then? && e.w.domain == w.domain
            && (if Left(w.pc) > 1 then Climbing(e.w, fd, s.pid) && Left(e.w.pc) == Left(w.pc) - 1 else HoldingQuietly(e.w, fd, s.pid))
            && e.fds == (if w.pc.KernelOpen? then OpenFd(fd, serial) else SameFds)
            && e.slot == (if w.pc.Reserve? then TakeSlot else SameSlot)
            && e.gate == (if w.pc.OpenGate? then TakeGate else if w.pc.LeaveOpenGate? then FreeGate else SameGate)
  {
  }

  /** The tables, with `n` statements of acquire() left. */
  predicate TablesUp(p: Proc, o: OwnerId, d: Domain, n: nat, fds: map<Fd, Entry>, registry: map<Domain, OwnerId>, fd: Fd, serial: nat) {
    && fd !in fds && d !in registry
    && p.gate == (if 8 <= n <= 12 then Some(o) else None)
    && p.registry == (if n <= 14 then registry[d := o] else registry)
    && p.fds == (if n <= 10 then fds[fd := LockFile(Ofd(p.pid, o, d, serial))] else fds)
  }

  /** Owner and tables part of the way through acquire(), from tables `fds` and `registry`. */
  predicate Acquiring(p: Proc, o: OwnerId, fds: map<Fd, Entry>, registry: map<Domain, OwnerId>, fd: Fd, serial: nat) {
    o in p.owners && Climbing(p.owners[o], fd, p.pid) && TablesUp(p, o, p.owners[o].domain, Left(p.owners[o].pc), fds, registry, fd, serial)
  }

  /** The owner holds the domain: lock file open and published, slot taken, nothing pending. */
  predicate Held(p: Proc, o: OwnerId, fds: map<Fd, Entry>, registry: map<Domain, OwnerId>, fd: Fd, serial: nat) {
    o in p.owners && HoldingQuietly(p.owners[o], fd, p.pid) && TablesUp(p, o, p.owners[o].domain, 0, fds, registry, fd, serial)
  }

  /** Only this owner's own entry differs. */
  predicate OthersSame(p: Proc, q: Proc, o: OwnerId) {
    q.pid == p.pid && q.owners.Keys == p.owners.Keys && forall x | x in p.owners && x != o :: q.owners[x] == p.owners[x]
  }

  lemma AcquireOne(p: Proc, o: OwnerId, fds: map<Fd, Entry>, registry: map<Domain, OwnerId>, fd: Fd, serial: nat) returns (q: Proc)
    requires Acquiring(p, o, fds, registry, fd, serial)
    ensures Step(p, o, Quiet(p.owners[o].pc, fd, serial)) == Live(q) && OthersSame(p, q, o) && q.owners[o].domain == p.owners[o].domain
    ensures if Left(p.owners[o].pc) > 1
            then Acquiring(q, o, fds, registry, fd, serial) && Left(q.owners[o].pc) == Left(p.owners[o].pc) - 1
            else Held(q, o, fds, registry, fd, serial)
  {
    ClimbOne(p.owners[o], View(p, o), fd, serial);
    q := Step(p, o, Quiet(p.owners[o].pc, fd, serial)).p;
  }

  lemma {:induction false} AcquireRest(p: Proc, o: OwnerId, fds: map<Fd, Entry>, registry: map<Domain, OwnerId>, fd: Fd, serial: nat)
    requires Acquiring(p, o, fds, registry, fd, serial)
    ensures var r := Advance(p, o, fd, serial, Left(p.owners[o].pc));
            r.Live? && Held(r.p, o, fds, registry, fd, serial) && OthersSame(p, r.p, o) && r.p.owners[o].domain == p.owners[o].domain
    decreases Left(p.owners[o].pc)
  {
    var q := AcquireOne(p, o, fds, registry, fd, serial);
    AdvanceFirst(p, o, fd, serial, Left(p.owners[o].pc), q);
    if Left(p.owners[o].pc) > 1 { AcquireRest(q, o, fds, registry, fd, serial); }
  }

  /** An idle owner on a free domain. */
  predicate Fresh(p: Proc, o: OwnerId) {
    && o in p.owners && p.gate.None?
    && var w := p.owners[o];
    w.pc.Idle? && w.fd.None? && w.pending.None? && !w.opening && !w.broken && w.domain !in p.registry
  }

  /** acquire() with nothing in its way ends held: one descriptor more, the slot taken, and
      nothing else changed. */
  lemma AcquireHolds(p: Proc, o: OwnerId, fd: Fd, serial: nat)
    requires Fresh(p, o) && fd !in p.fds
    ensures var called := Call(p, o, true);
            && called.Live? && o in called.p.owners
            && var r := Advance(called.p, o, fd, serial, 15);
            r.Live? && Held(r.p, o, p.fds, p.registry, fd, serial) && OthersSame(p, r.p, o) && r.p.owners[o].domain == p.owners[o].domain
  {
    AcquireRest(Call(p, o, true).p, o, p.fds, p.registry, fd, serial);
  }

  /** The owner itself, part of the way through release(). */
  predicate Descending(w: Owner, fd: Fd) {
    var n := Left(w.pc);
    && (w.pc == CheckSlot(fd) || w.pc == CloseGate(fd, ToRelease) || w.pc == Close(fd, ToRelease) || w.pc == DropPending(fd, ToRelease)
        || w.pc == DropFd(fd, ToRelease) || w.pc == DropFlag(ToRelease) || w.pc == LeaveCloseGate(ToRelease) || w.pc.DeleteSlot?)
    && !w.broken && !w.opening && w.pending.None?
    && (if n >= 4 then w.fd == Some(fd) else w.fd.None? && w.ownerPid.None?)
  }

  lemma DescendOne(w: Owner, s: Sees, fd: Fd, serial: nat)
    requires Descending(w, fd) && s.slotMine && s.gateFree == !GatePc(w.pc)
    ensures var e := Statement(w, s, Quiet(w.pc, fd, serial));
            && e.Then? && e.w.domain == w.domain
            && (if Left(w.pc) > 1 then Descending(e.w, fd) && Left(e.w.pc) == Left(w.pc) - 1
                else e.w.pc.Idle? && e.w.fd.None? && e.w.ownerPid.None? && e.w.pending.None? && !e.w.opening && !e.w.broken)
            && e.fds == (if w.pc.Close? then CloseFd(fd) else SameFds)
            && (Left(w.pc) > 4 ==> e.w.ownerPid == w.ownerPid)
            && e.slot == (if w.pc.DeleteSlot? then DropSlot else SameSlot)
            && e.gate == (if w.pc.CloseGate? then TakeGate else if w.pc.LeaveCloseGate? then FreeGate else SameGate)
  {
  }

  /** The tables, with `n` statements of release() left. */
  predicate TablesDown(p: Proc, o: OwnerId, d: Domain, n: nat, fds: map<Fd, Entry>, registry: map<Domain, OwnerId>, fd: Fd, serial: nat) {
    && fd !in fds && d !in registry
    && p.gate == (if 2 <= n <= 6 then Some(o) else None)
    && p.registry == (if n >= 1 then registry[d := o] else registry)
    && p.fds == (if n >= 6 then fds[fd := LockFile(Ofd(p.pid, o, d, serial))] else fds)
  }

  predicate Releasing(p: Proc, o: OwnerId, fds: map<Fd, Entry>, registry: map<Domain, OwnerId>, fd: Fd, serial: nat) {
    o in p.owners && Descending(p.owners[o], fd) && TablesDown(p, o, p.owners[o].domain, Left(p.owners[o].pc), fds, registry, fd, serial)
  }

  /** The owner gave its domain back: idle again over these tables. */
  predicate GivenBack(q: Proc, o: OwnerId, fds: map<Fd, Entry>, registry: map<Domain, OwnerId>) {
    Fresh(q, o) && q.owners[o].ownerPid.None? && q.fds == fds && q.registry == registry
  }

  lemma ReleaseOne(p: Proc, o: OwnerId, fds: map<Fd, Entry>, registry: map<Domain, OwnerId>, fd: Fd, serial: nat) returns (q: Proc)
    requires Releasing(p, o, fds, registry, fd, serial)
    ensures Step(p, o, Quiet(p.owners[o].pc, fd, serial)) == Live(q) && OthersSame(p, q, o) && q.owners[o].domain == p.owners[o].domain
    ensures Left(p.owners[o].pc) > 4 ==> q.owners[o].ownerPid == p.owners[o].ownerPid
    ensures if Left(p.owners[o].pc) > 1
            then Releasing(q, o, fds, registry, fd, serial) && Left(q.owners[o].pc) == Left(p.owners[o].pc) - 1
            else GivenBack(q, o, fds, registry)
  {
    var w := p.owners[o];
    DescendOne(w, View(p, o), fd, serial);
    q := Step(p, o, Quiet(w.pc, fd, serial)).p;
    assert fds[fd := LockFile(Ofd(p.pid, o, w.domain, serial))] - {fd} == fds;
    assert registry[w.domain := o] - {w.domain} == registry;
  }

  lemma {:induction false} ReleaseRest(p: Proc, o: OwnerId, fds: map<Fd, Entry>, registry: map<Domain, OwnerId>, fd: Fd, serial: nat)
    returns (q: Proc)
    requires Releasing(p, o, fds, registry, fd, serial)
    ensures Advance(p, o, fd, serial, Left(p.owners[o].pc)) == Live(q) && GivenBack(q, o, fds, registry) && OthersSame(p, q, o)
    decreases Left(p.owners[o].pc)
  {
    var m := ReleaseOne(p, o, fds, registry, fd, serial);
    if Left(p.owners[o].pc) > 1 { q := ReleaseRest(m, o, fds, registry, fd, serial); } else { q := m; }
    AdvanceFirst(p, o, fd, serial, Left(p.owners[o].pc), m);
  }

  lemma HeldReleases(p: Proc, o: OwnerId, fds: map<Fd, Entry>, registry: map<Domain, OwnerId>, fd: Fd, serial: nat)
    requires Held(p, o, fds, registry, fd, serial)
    ensures var called := Call(p, o, false);
            && called.Live? && o in called.p.owners
            && var r := Advance(called.p, o, fd, serial, 8);
            r.Live? && GivenBack(r.p, o, fds, registry) && OthersSame(p, r.p, o)
  {
    var q := ReleaseRest(Call(p, o, false).p, o, fds, registry, fd, serial);
  }

  /** release() undoes acquire(): the tables are as they were before it. */
  lemma ReleaseUndoes(p: Proc, o: OwnerId, fd: Fd, serial: nat)
    requires Fresh(p, o) && fd !in p.fds
    ensures var held := Advance(Call(p, o, true).p, o, fd, serial, 15);
            && held.Live? && o in held.p.owners
            && var called := Call(held.p, o, false);
            && called.Live? && o in called.p.owners
            && var r := Advance(called.p, o, fd, serial, 8);
            r.Live? && GivenBack(r.p, o, p.fds, p.registry) && OthersSame(p, r.p, o)
  {
    AcquireHolds(p, o, fd, serial);
    var held := Advance(Call(p, o, true).p, o, fd, serial, 15);
    HeldReleases(held.p, o, p.fds, p.registry, fd, serial);
  }
}
