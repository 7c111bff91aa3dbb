/** The owner lock of one process, statement by statement.

    Every owner object has at most one operation in flight (its state lock), so the
    owner's program counter is the thread running that operation. A step moves one owner
    by one statement; the choice says how the statement ends, including an exception
    raised by a signal handler between two statements. Which statements run under the
    fork gate is exactly which program counters hold it. */
module OwnerLock {
  import opened Wrappers

  type Fd = nat
  type Pid = nat
  type OwnerId = nat
  type Domain = nat

  /** An open-file description: who opened it, on which domain's lock file. */
  datatype Ofd = Ofd(pid: Pid, owner: OwnerId, domain: Domain, serial: nat)

  /** A descriptor-table entry: a lock file, or anything else the process has open. */
  datatype Entry = LockFile(ofd: Ofd) | Foreign

  datatype Exn = Busy | OsError | OwnerError | Async

  /** Where the close-and-unpublish routine returns to. */
  datatype Ret = ToOpenHandler(exn: Exn) | ToRollback | ToRelease

  datatype Pc =
    | Idle
    // acquire
    | Reserve | Mkdir | OpenGate | SetFlag | KernelOpen | StorePending(f: Fd) | ClearFlag(f: Fd)
    | LeaveOpenGate(f: Fd) | Harden(f: Fd) | ReturnFd(f: Fd) | Flock(f: Fd) | StoreFd(f: Fd)
    | StorePid(f: Fd) | ClearPending(f: Fd) | LeaveTry(f: Fd)
    // close and unpublish
    | CloseGate(f: Fd, ret: Ret) | Close(f: Fd, ret: Ret) | DropPending(f: Fd, ret: Ret)
    | DropFd(f: Fd, ret: Ret) | DropFlag(ret: Ret) | LeaveCloseGate(ret: Ret)
    // acquire's handlers and rollback
    | Handler(exn: Exn, local: Option<Fd>) | Rollback(local: Option<Fd>) | Verify | ClearOwner
    | FreeSlot | LeaveRollback | RollbackExcept | RetryFreeSlot
    // release
    | CheckSlot(f: Fd) | DeleteSlot | ReleaseExcept

  datatype Owner = Owner(domain: Domain, pending: Option<Fd>, fd: Option<Fd>, ownerPid: Option<Pid>,
                         broken: bool, opening: bool, pc: Pc)

  datatype Proc = Proc(pid: Pid, fds: map<Fd, Entry>, owners: map<OwnerId, Owner>,
                       registry: map<Domain, OwnerId>, gate: Option<OwnerId>)

  /** How a statement ends. `Fail` and `FailBusy` are errors returned by the kernel;
      `FailClosed` is a close that errs after the descriptor is gone; `Intr` is an
      exception raised in between; `Seam` is one raised after a call returned and before
      its result reached the caller's local variable. */
  datatype Choice = Go | Fail | FailBusy | FailClosed | Opened(fd: Fd, serial: nat) | Intr(exn: Exn) | Seam(exn: Exn)

  /** What one statement does to the tables the owners share. */
  datatype FdEffect = SameFds | OpenFd(f: Fd, serial: nat) | CloseFd(f: Fd)
  datatype SlotEffect = SameSlot | TakeSlot | FreeSlotIfOwn | DropSlot
  datatype GateEffect = SameGate | TakeGate | FreeGate

  datatype Effect = Then(w: Owner, fds: FdEffect, slot: SlotEffect, gate: GateEffect) | Exit(code: nat)

  /** What one statement reads of them. */
  datatype Sees = Sees(pid: Pid, slotFree: bool, slotMine: bool, gateFree: bool, usedFds: set<Fd>)

  const HIDDEN_OPEN_EXIT_CODE := 71
  const BROKEN_FORK_EXIT_CODE := 70

  // ---- the step function ------------------------------------------------------------

  function Goto(w: Owner, pc: Pc): Effect {
    Then(w.(pc := pc), SameFds, SameSlot, SameGate)
  }

  /** A statement inside the fork gate whose block is left, by falling off or by raising. */
  function Leave(w: Owner, pc: Pc): Effect {
    Then(w.(pc := pc), SameFds, SameSlot, FreeGate)
  }

  /** The first statement of acquire() or release(), after the state lock. */
  function Begin(w: Owner, sees: Sees, acquire: bool): Effect {
    if !w.pc.Idle? || w.broken || w.pending.Some? || w.opening then Goto(w, w.pc)
    else if acquire then if w.fd.Some? then Goto(w, w.pc) else Goto(w, Reserve)
    else if w.fd.None? || w.ownerPid != Some(sees.pid) then Goto(w, w.pc)
    else Goto(w, CheckSlot(w.fd.value))
  }

  function AcquireStep(w: Owner, s: Sees, c: Choice): Effect {
    match w.pc
    case Reserve =>
      if c.Intr? then Goto(w, Handler(c.exn, None))
      else if !s.slotFree then Goto(w, Handler(Busy, None))
      else Then(w.(pc := Mkdir), SameFds, TakeSlot, SameGate)
    case Mkdir =>
      if c.Intr? then Goto(w, Handler(c.exn, None))
      else if c.Fail? then Goto(w, Handler(OsError, None))
      else Goto(w, OpenGate)
    case OpenGate =>
      if c.Intr? then Goto(w, Handler(c.exn, None))
      else if !s.gateFree then Goto(w, w.pc)
      else Then(w.(pc := SetFlag), SameFds, SameSlot, TakeGate)
    case SetFlag =>
      if c.Intr? then Leave(w, Handler(c.exn, None)) else Goto(w.(opening := true), KernelOpen)
    case KernelOpen =>
      if c.Opened? && c.fd !in s.usedFds then
        Then(w.(pc := StorePending(c.fd)), OpenFd(c.fd, c.serial), SameSlot, SameGate)
      else if c.Fail? || c == Intr(OsError) then Leave(w.(opening := false), Handler(OsError, None))
      else if c.Intr? then Leave(w, Handler(c.exn, None))
      else Goto(w, w.pc)
    case StorePending(f) =>
      if c == Intr(OsError) then Leave(w.(opening := false), Handler(OsError, None))
      else if c.Intr? then Leave(w, Handler(c.exn, None))
      else Goto(w.(pending := Some(f)), ClearFlag(f))
    case ClearFlag(f) =>
      if c.Intr? then Leave(w, Handler(c.exn, None)) else Goto(w.(opening := false), LeaveOpenGate(f))
    case LeaveOpenGate(f) => Leave(w, if c.Intr? then Handler(c.exn, None) else Harden(f))
    case Harden(f) =>
      if c.Fail? then Goto(w, CloseGate(f, ToOpenHandler(OsError)))
      else if c.Intr? then Goto(w, CloseGate(f, ToOpenHandler(c.exn)))
      else Goto(w, ReturnFd(f))
    case ReturnFd(f) =>
      if c.Intr? then Goto(w, CloseGate(f, ToOpenHandler(c.exn)))
      else if c.Seam? then Goto(w, Handler(c.exn, None))
      else Goto(w, Flock(f))
    case Flock(f) =>
      if c.FailBusy? then Goto(w, Handler(Busy, Some(f)))
      else if c.Fail? then Goto(w, Handler(OsError, Some(f)))
      else if c.Intr? then Goto(w, Handler(c.exn, Some(f)))
      else if c.Go? then Goto(w, StoreFd(f))
      else Goto(w, w.pc)
    case StoreFd(f) =>
      if c.Intr? then Goto(w, Handler(c.exn, Some(f))) else Goto(w.(fd := Some(f)), StorePid(f))
    case StorePid(f) =>
      if c.Intr? then Goto(w, Handler(c.exn, Some(f))) else Goto(w.(ownerPid := Some(s.pid)), ClearPending(f))
    case ClearPending(f) =>
      if c.Intr? then Goto(w, Handler(c.exn, Some(f))) else Goto(w.(pending := None), LeaveTry(f))
    case LeaveTry(f) => Goto(w, if c.Intr? then Handler(c.exn, Some(f)) else Idle)
    case _ => Goto(w, w.pc)
  }

  function Return(ret: Ret): Pc {
    match ret
    case ToOpenHandler(e) => Handler(e, None)
    case ToRollback => Verify
    case ToRelease => DeleteSlot
  }

  function Raise(ret: Ret, e: Exn): Pc {
    match ret
    case ToOpenHandler(_) => Handler(e, None)
    case ToRollback => RollbackExcept
    case ToRelease => ReleaseExcept
  }

  /** Any exception across close and unpublication: flag, leave the gate, re-raise. */
  function Break(w: Owner, fds: FdEffect, ret: Ret): Effect {
    Then(w.(broken := true, pc := Raise(ret, OwnerError)), fds, SameSlot, FreeGate)
  }

  function CloseStep(w: Owner, s: Sees, c: Choice): Effect {
    match w.pc
    case CloseGate(f, ret) =>
      if c.Intr? then Goto(w, Raise(ret, c.exn))
      else if !s.gateFree then Goto(w, w.pc)
      else Then(w.(pc := Close(f, ret)), SameFds, SameSlot, TakeGate)
    case Close(f, ret) =>
      if c.Fail? || c.Intr? then Break(w, SameFds, ret)
      else if c.FailClosed? then Break(w, CloseFd(f), ret)
      else Then(w.(pc := DropPending(f, ret)), CloseFd(f), SameSlot, SameGate)
    case DropPending(f, ret) =>
      if c.Intr? then Break(w, SameFds, ret)
      else Goto(w.(pending := if w.pending == Some(f) then None else w.pending), DropFd(f, ret))
    case DropFd(f, ret) =>
      if c.Intr? then Break(w, SameFds, ret)
      else if w.fd == Some(f) then Goto(w.(fd := None, ownerPid := None), DropFlag(ret))
      else Goto(w, DropFlag(ret))
    case DropFlag(ret) =>
      if c.Intr? then Break(w, SameFds, ret) else Goto(w.(opening := false), LeaveCloseGate(ret))
    case LeaveCloseGate(ret) => Leave(w, if c.Intr? then Raise(ret, c.exn) else Return(ret))
    case _ => Goto(w, w.pc)
  }

  function RollbackStep(w: Owner, s: Sees, c: Choice): Effect {
    match w.pc
    case Handler(e, local) =>
      if c.Intr? then Goto(w, Idle)
      else if e == Async && w.opening && local.None? && w.pending.None? && w.fd.None? then Exit(HIDDEN_OPEN_EXIT_CODE)
      else if (e == OsError || e == OwnerError) && w.broken then Goto(w, Idle)
      else Goto(w, Rollback(local))
    case Rollback(local) =>
      if c.Intr? || w.broken then Goto(w, Idle)
      else
        var cleanup := if local.Some? then local else if w.pending.Some? then w.pending else w.fd;
        Goto(w, if cleanup.Some? then CloseGate(cleanup.value, ToRollback) else Verify)
    case Verify =>
      if c.Intr? then Goto(w, RollbackExcept)
      else if w.pending.Some? || w.fd.Some? then Goto(w.(broken := true), RollbackExcept)
      else Goto(w, ClearOwner)
    case ClearOwner =>
      if c.Intr? then Goto(w, RollbackExcept) else Goto(w.(opening := false, ownerPid := None), FreeSlot)
    case FreeSlot =>
      if c.Intr? then Goto(w, RollbackExcept)
      else Then(w.(pc := LeaveRollback), SameFds, FreeSlotIfOwn, SameGate)
    case LeaveRollback => Goto(w, if c.Intr? then RollbackExcept else Idle)
    case RollbackExcept =>
      if !c.Intr? && !w.broken && w.pending.None? && w.fd.None? && !w.opening
      then Goto(w.(ownerPid := None), RetryFreeSlot) else Goto(w, Idle)
    case RetryFreeSlot =>
      if c.Intr? then Exit(BROKEN_FORK_EXIT_CODE)
      else Then(w.(pc := Idle), SameFds, FreeSlotIfOwn, SameGate)
    case _ => Goto(w, w.pc)
  }

  function ReleaseStep(w: Owner, s: Sees, c: Choice): Effect {
    match w.pc
    case CheckSlot(f) => Goto(w, if !c.Intr? && s.slotMine then CloseGate(f, ToRelease) else Idle)
    case DeleteSlot =>
      if c.Intr? then Goto(w, ReleaseExcept) else Then(w.(pc := Idle), SameFds, DropSlot, SameGate)
    case ReleaseExcept =>
      if !c.Intr? && !w.broken && w.fd.None? && w.pending.None?
      then Then(w.(pc := Idle), SameFds, FreeSlotIfOwn, SameGate) else Goto(w, Idle)
    case _ => Goto(w, w.pc)
  }

  predicate AcquirePc(pc: Pc) {
    pc.Reserve? || pc.Mkdir? || pc.OpenGate? || pc.SetFlag? || pc.KernelOpen? || pc.StorePending? || pc.ClearFlag?
    || pc.LeaveOpenGate? || pc.Harden? || pc.ReturnFd? || pc.Flock? || pc.StoreFd? || pc.StorePid?
    || pc.ClearPending? || pc.LeaveTry?
  }

  predicate ClosePc(pc: Pc) {
    pc.CloseGate? || pc.Close? || pc.DropPending? || pc.DropFd? || pc.DropFlag? || pc.LeaveCloseGate?
  }

  predicate ReleasePc(pc: Pc) {
    pc.CheckSlot? || pc.DeleteSlot? || pc.ReleaseExcept?
  }

  function Statement(w: Owner, s: Sees, c: Choice): Effect {
    if AcquirePc(w.pc) then AcquireStep(w, s, c)
    else if ClosePc(w.pc) then CloseStep(w, s, c)
    else if ReleasePc(w.pc) then ReleaseStep(w, s, c)
    else RollbackStep(w, s, c)
  }

  predicate Slot(p: Proc, o: OwnerId)
    requires o in p.owners
  {
    var d := p.owners[o].domain;
    d in p.registry && p.registry[d] == o
  }

  function View(p: Proc, o: OwnerId): Sees
    requires o in p.owners
  {
    Sees(p.pid, p.owners[o].domain !in p.registry, Slot(p, o), p.gate.None?, p.fds.Keys)
  }

  function Apply(p: Proc, o: OwnerId, e: Effect): Proc
    requires o in p.owners && e.Then?
  {
    var d := p.owners[o].domain;
    Proc(p.pid,
         match e.fds
         case SameFds => p.fds
         case OpenFd(f, s) => p.fds[f := LockFile(Ofd(p.pid, o, d, s))]
         case CloseFd(f) => p.fds - {f},
         p.owners[o := e.w],
         match e.slot
         case SameSlot => p.registry
         case TakeSlot => p.registry[d := o]
         case FreeSlotIfOwn => if Slot(p, o) then p.registry - {d} else p.registry
         case DropSlot => p.registry - {d},
         match e.gate
         case SameGate => p.gate
         case TakeGate => Some(o)
         case FreeGate => None)
  }

  datatype Outcome = Live(p: Proc) | Dead(code: nat)

  function After(p: Proc, o: OwnerId, e: Effect): Outcome
    requires o in p.owners
  {
    if e.Exit? then Dead(e.code) else Live(Apply(p, o, e))
  }

  /** One statement of owner `o`'s operation. */
  function Step(p: Proc, o: OwnerId, c: Choice): Outcome
    requires o in p.owners
  {
    After(p, o, Statement(p.owners[o], View(p, o), c))
  }

  /** A thread calls acquire() or release() on an idle owner. */
  function Call(p: Proc, o: OwnerId, acquire: bool): Outcome
    requires o in p.owners
  {
    After(p, o, Begin(p.owners[o], View(p, o), acquire))
  }

  // ---- the invariant ----------------------------------------------------------------

  /** The descriptors the kernel opened for an owner and has not closed. */
  function Mine(fds: map<Fd, Entry>, o: OwnerId): set<Fd> {
    set f | f in fds && fds[f].LockFile? && fds[f].ofd.owner == o
  }

  predicate Names(w: Owner, f: Fd) {
    w.pending == Some(f) || w.fd == Some(f)
  }

  predicate Blank(w: Owner) {
    w.pending.None? && w.fd.None?
  }

  predicate NamesAtMost(w: Owner, f: Fd) {
    (w.pending.Some? ==> w.pending.value == f) && (w.fd.Some? ==> w.fd.value == f)
  }

  predicate Flagged(w: Owner) {
    w.broken || w.opening
  }

  /** The owner names exactly one descriptor, and it is the one it has open. */
  predicate At(w: Owner, mine: set<Fd>, f: Fd) {
    mine == {f} && NamesAtMost(w, f) && !Blank(w)
  }

  /** Between statements outside the gate: what is named is exactly what is open, unless
      an interrupted open left the opening flag up. */
  predicate Settled(w: Owner, mine: set<Fd>) {
    if w.pending.Some? then At(w, mine, w.pending.value)
    else if w.fd.Some? then At(w, mine, w.fd.value)
    else w.opening || mine == {}
  }

  predicate Clean(w: Owner, mine: set<Fd>) {
    mine == {} && Blank(w) && !w.opening
  }

  predicate NothingHidden(w: Owner, mine: set<Fd>) {
    Blank(w) ==> mine == {}
  }

  predicate GatePc(pc: Pc) {
    pc.SetFlag? || pc.KernelOpen? || pc.StorePending? || pc.ClearFlag? || pc.LeaveOpenGate?
    || pc.Close? || pc.DropPending? || pc.DropFd? || pc.DropFlag? || pc.LeaveCloseGate?
  }

  /** What is true of an owner that has not been flagged broken, at each statement. */
  predicate PcOk(w: Owner, mine: set<Fd>, slot: bool) {
    match w.pc
    case Idle => Settled(w, mine)
    case Reserve => Clean(w, mine)
    case Mkdir => Clean(w, mine) && slot
    case OpenGate => Clean(w, mine) && slot
    case SetFlag => Clean(w, mine) && slot
    case KernelOpen => mine == {} && Blank(w) && w.opening
    case StorePending(f) => mine == {f} && Blank(w) && w.opening
    case ClearFlag(f) => At(w, mine, f) && w.fd.None? && w.opening
    case LeaveOpenGate(f) => At(w, mine, f) && w.fd.None? && !w.opening
    case Harden(f) => At(w, mine, f) && w.fd.None? && !w.opening
    case ReturnFd(f) => At(w, mine, f) && w.fd.None? && !w.opening
    case Flock(f) => At(w, mine, f) && w.fd.None? && !w.opening
    case StoreFd(f) => At(w, mine, f) && w.fd.None? && !w.opening
    case StorePid(f) => At(w, mine, f) && w.fd.Some? && !w.opening
    case ClearPending(f) => At(w, mine, f) && w.fd.Some? && !w.opening
    case LeaveTry(f) => At(w, mine, f) && w.fd.Some? && !w.opening
    case CloseGate(f, ret) => At(w, mine, f) && slot && (ret.ToRelease? ==> !w.opening)
    case Close(f, ret) => At(w, mine, f) && slot && (ret.ToRelease? ==> !w.opening)
    case DropPending(f, ret) => mine == {} && NamesAtMost(w, f) && slot && (ret.ToRelease? ==> !w.opening)
    case DropFd(f, ret) =>
      mine == {} && NamesAtMost(w, f) && w.pending.None? && slot && (ret.ToRelease? ==> !w.opening)
    case DropFlag(ret) => mine == {} && Blank(w) && slot && (ret.ToRelease? ==> !w.opening)
    case LeaveCloseGate(_) => Clean(w, mine) && slot
    case Handler(e, local) =>
      Settled(w, mine) && (local.Some? ==> At(w, mine, local.value)) && (e != Async ==> NothingHidden(w, mine))
    case Rollback(local) =>
      Settled(w, mine) && (local.Some? ==> At(w, mine, local.value)) && NothingHidden(w, mine)
    case Verify => mine == {} && Blank(w)
    case ClearOwner => mine == {} && Blank(w)
    case FreeSlot => Clean(w, mine)
    case LeaveRollback => Clean(w, mine)
    case RollbackExcept => Settled(w, mine)
    case RetryFreeSlot => Clean(w, mine)
    case CheckSlot(f) => At(w, mine, f) && !w.opening
    case DeleteSlot => Clean(w, mine) && slot
    case ReleaseExcept => Settled(w, mine) && !w.opening
  }

  predicate BrokenPc(pc: Pc) {
    pc.Idle? || pc.Handler? || pc.Rollback? || pc.RollbackExcept? || pc.ReleaseExcept?
  }

  /** The invariant of one owner against its share of the tables. */
  predicate LocalOk(w: Owner, mine: set<Fd>, slot: bool, gated: bool) {
    && (w.broken || w.opening || !Blank(w) || mine != {} ==> slot)
    && (GatePc(w.pc) <==> gated)
    && (if w.broken then BrokenPc(w.pc) else PcOk(w, mine, slot))
  }

  predicate OwnerOk(p: Proc, o: OwnerId)
    requires o in p.owners
  {
    LocalOk(p.owners[o], Mine(p.fds, o), Slot(p, o), p.gate == Some(o))
  }

  ghost predicate TableOk(p: Proc) {
    && (forall f | f in p.fds && p.fds[f].LockFile? ::
          p.fds[f].ofd.owner in p.owners && p.owners[p.fds[f].ofd.owner].domain == p.fds[f].ofd.domain)
    && (forall d | d in p.registry :: p.registry[d] in p.owners && p.owners[p.registry[d]].domain == d)
    && (p.gate.Some? ==> p.gate.value in p.owners)
  }

  ghost predicate ProcOk(p: Proc) {
    TableOk(p) && forall o | o in p.owners :: OwnerOk(p, o)
  }

  // ---- preservation -----------------------------------------------------------------

  /** The one interruption that the invariant does not survive is ruled out: an exception
      that is not an asynchronous one, raised after the kernel returned a descriptor and
      before it is published. */
  predicate Discoverable(w: Owner, c: Choice) {
    w.pc.StorePending? && c.Intr? ==> c.exn == Async
  }

  function MineAfter(mine: set<Fd>, e: FdEffect): set<Fd> {
    match e
    case SameFds => mine
    case OpenFd(f, _) => mine + {f}
    case CloseFd(f) => mine - {f}
  }

  function SlotAfter(slot: bool, e: SlotEffect): bool {
    match e
    case SameSlot => slot
    case TakeSlot => true
    case FreeSlotIfOwn => false
    case DropSlot => false
  }

  function GatedAfter(gated: bool, e: GateEffect): bool {
    match e
    case SameGate => gated
    case TakeGate => true
    case FreeGate => false
  }

  /** What the statements of one owner respect in the others' share of the tables. */
  predicate Polite(e: Effect, s: Sees, mine: set<Fd>, gated: bool) {
    && e.Then?
    && (e.fds.OpenFd? ==> e.fds.f !in s.usedFds)
    && (e.fds.CloseFd? ==> e.fds.f in mine)
    && (e.slot.TakeSlot? ==> s.slotFree)
    && (e.slot.DropSlot? ==> s.slotMine)
    && (e.gate.TakeGate? ==> s.gateFree)
    && (e.gate.FreeGate? ==> gated)
  }

  predicate StatementOk(w: Owner, s: Sees, mine: set<Fd>, gated: bool, e: Effect) {
    e.Then? ==>
      && Polite(e, s, mine, gated) && e.w.domain == w.domain
      && LocalOk(e.w, MineAfter(mine, e.fds), SlotAfter(s.slotMine, e.slot), GatedAfter(gated, e.gate))
  }

  lemma ReserveStepOk(w: Owner, s: Sees, mine: set<Fd>, gated: bool, c: Choice)
    requires LocalOk(w, mine, s.slotMine, gated) && (w.pc.Reserve? || w.pc.Mkdir? || w.pc.OpenGate? || w.pc.SetFlag?)
    ensures StatementOk(w, s, mine, gated, AcquireStep(w, s, c))
  {
  }

  lemma OpeningStepOk(w: Owner, s: Sees, mine: set<Fd>, gated: bool, c: Choice)
    requires LocalOk(w, mine, s.slotMine, gated) && Discoverable(w, c)
    requires w.pc.KernelOpen? || w.pc.StorePending? || w.pc.ClearFlag? || w.pc.LeaveOpenGate?
    ensures StatementOk(w, s, mine, gated, AcquireStep(w, s, c))
  {
  }

  lemma HardenStepOk(w: Owner, s: Sees, mine: set<Fd>, gated: bool, c: Choice)
    requires LocalOk(w, mine, s.slotMine, gated) && (w.pc.Harden? || w.pc.ReturnFd? || w.pc.Flock?)
    ensures StatementOk(w, s, mine, gated, AcquireStep(w, s, c))
  {
    var e := AcquireStep(w, s, c);
    assert !w.broken && s.slotMine && !gated;
    assert !GatePc(e.w.pc) && PcOk(e.w, mine, true);
  }

  lemma PublishStepOk(w: Owner, s: Sees, mine: set<Fd>, gated: bool, c: Choice)
    requires LocalOk(w, mine, s.slotMine, gated)
    requires w.pc.StoreFd? || w.pc.StorePid? || w.pc.ClearPending? || w.pc.LeaveTry?
    ensures StatementOk(w, s, mine, gated, AcquireStep(w, s, c))
  {
    var e := AcquireStep(w, s, c);
    assert !w.broken && s.slotMine && !gated;
    assert !GatePc(e.w.pc) && PcOk(e.w, mine, true);
  }

  lemma AcquireStepOk(w: Owner, s: Sees, mine: set<Fd>, gated: bool, c: Choice)
    requires LocalOk(w, mine, s.slotMine, gated) && AcquirePc(w.pc) && Discoverable(w, c)
    ensures StatementOk(w, s, mine, gated, AcquireStep(w, s, c))
  {
    if w.pc.Reserve? || w.pc.Mkdir? || w.pc.OpenGate? || w.pc.SetFlag? { ReserveStepOk(w, s, mine, gated, c); }
    else if w.pc.KernelOpen? || w.pc.StorePending? || w.pc.ClearFlag? || w.pc.LeaveOpenGate? { OpeningStepOk(w, s, mine, gated, c); }
    else if w.pc.Harden? || w.pc.ReturnFd? || w.pc.Flock? { HardenStepOk(w, s, mine, gated, c); }
    else { PublishStepOk(w, s, mine, gated, c); }
  }

  lemma KernelCloseOk(w: Owner, s: Sees, mine: set<Fd>, gated: bool, c: Choice)
    requires LocalOk(w, mine, s.slotMine, gated) && (w.pc.CloseGate? || w.pc.Close?)
    ensures StatementOk(w, s, mine, gated, CloseStep(w, s, c))
  {
  }

  lemma UnpublishOk(w: Owner, s: Sees, mine: set<Fd>, gated: bool, c: Choice)
    requires LocalOk(w, mine, s.slotMine, gated) && ClosePc(w.pc) && !w.pc.CloseGate? && !w.pc.Close?
    ensures StatementOk(w, s, mine, gated, CloseStep(w, s, c))
  {
  }

  lemma HandlerStepOk(w: Owner, s: Sees, mine: set<Fd>, gated: bool, c: Choice)
    requires LocalOk(w, mine, s.slotMine, gated) && (w.pc.Handler? || w.pc.Rollback? || w.pc.Idle?)
    ensures StatementOk(w, s, mine, gated, RollbackStep(w, s, c))
  {
  }

  lemma RollbackTailOk(w: Owner, s: Sees, mine: set<Fd>, gated: bool, c: Choice)
    requires LocalOk(w, mine, s.slotMine, gated) && !AcquirePc(w.pc) && !ClosePc(w.pc) && !ReleasePc(w.pc)
    requires !w.pc.Handler? && !w.pc.Rollback? && !w.pc.Idle?
    ensures StatementOk(w, s, mine, gated, RollbackStep(w, s, c))
  {
  }

  lemma ReleaseStepOk(w: Owner, s: Sees, mine: set<Fd>, gated: bool, c: Choice)
    requires LocalOk(w, mine, s.slotMine, gated) && ReleasePc(w.pc)
    ensures StatementOk(w, s, mine, gated, ReleaseStep(w, s, c))
  {
  }

  lemma AnyStatementOk(w: Owner, s: Sees, mine: set<Fd>, gated: bool, c: Choice)
    requires LocalOk(w, mine, s.slotMine, gated) && Discoverable(w, c)
    ensures StatementOk(w, s, mine, gated, Statement(w, s, c))
  {
    if AcquirePc(w.pc) { AcquireStepOk(w, s, mine, gated, c); }
    else if w.pc.CloseGate? || w.pc.Close? { KernelCloseOk(w, s, mine, gated, c); }
    else if ClosePc(w.pc) { UnpublishOk(w, s, mine, gated, c); }
    else if ReleasePc(w.pc) { ReleaseStepOk(w, s, mine, gated, c); }
    else if w.pc.Handler? || w.pc.Rollback? || w.pc.Idle? { HandlerStepOk(w, s, mine, gated, c); }
    else { RollbackTailOk(w, s, mine, gated, c); }
  }

  lemma BeginOk(w: Owner, s: Sees, mine: set<Fd>, gated: bool, acquire: bool)
    requires LocalOk(w, mine, s.slotMine, gated)
    ensures StatementOk(w, s, mine, gated, Begin(w, s, acquire))
  {
  }

  lemma MineApplied(p: Proc, o: OwnerId, e: Effect, x: OwnerId)
    requires o in p.owners && Polite(e, View(p, o), Mine(p.fds, o), p.gate == Some(o))
    ensures Mine(Apply(p, o, e).fds, x) == if x == o then MineAfter(Mine(p.fds, o), e.fds) else Mine(p.fds, x)
  {
  }

  lemma AppliedTable(p: Proc, o: OwnerId, e: Effect)
    requires TableOk(p) && o in p.owners && e.Then? && e.w.domain == p.owners[o].domain
    ensures TableOk(Apply(p, o, e))
  {
  }

  lemma AppliedOwner(p: Proc, o: OwnerId, e: Effect)
    requires ProcOk(p) && o in p.owners && e.Then?
    requires StatementOk(p.owners[o], View(p, o), Mine(p.fds, o), p.gate == Some(o), e)
    ensures OwnerOk(Apply(p, o, e), o)
  {
    MineApplied(p, o, e, o);
  }

  lemma AppliedOther(p: Proc, o: OwnerId, e: Effect, x: OwnerId)
    requires o in p.owners && e.Then? && e.w.domain == p.owners[o].domain && x in p.owners && x != o
    requires OwnerOk(p, x) && Polite(e, View(p, o), Mine(p.fds, o), p.gate == Some(o))
    ensures OwnerOk(Apply(p, o, e), x)
  {
    MineApplied(p, o, e, x);
    var q := Apply(p, o, e);
    assert q.owners[x] == p.owners[x];
    assert Slot(q, x) == Slot(p, x);
  }

  lemma Applied(p: Proc, o: OwnerId, e: Effect)
    requires ProcOk(p) && o in p.owners && e.Then?
    requires StatementOk(p.owners[o], View(p, o), Mine(p.fds, o), p.gate == Some(o), e)
    ensures ProcOk(Apply(p, o, e))
  {
    AppliedTable(p, o, e);
    AppliedOwner(p, o, e);
    forall x | x in p.owners && x != o
      ensures OwnerOk(Apply(p, o, e), x)
    {
      AppliedOther(p, o, e, x);
    }
  }

  /** Every statement of every owner, however it ends, keeps the process invariant. */
  lemma StepOk(p: Proc, o: OwnerId, c: Choice)
    requires ProcOk(p) && o in p.owners && Discoverable(p.owners[o], c)
    ensures Step(p, o, c).Live? ==> ProcOk(Step(p, o, c).p)
  {
    assert OwnerOk(p, o);
    AnyStatementOk(p.owners[o], View(p, o), Mine(p.fds, o), p.gate == Some(o), c);
    var e := Statement(p.owners[o], View(p, o), c);
    if e.Then? { Applied(p, o, e); }
  }

  // ---- what the invariant says about descriptors --------------------------------------

  /** With the gate free, every lock-file descriptor in the table belongs to an owner that
      holds its registry slot and either names the descriptor or is flagged. */
  ghost predicate Accounted(p: Proc) {
    forall f | f in p.fds && p.fds[f].LockFile? ::
      var o := p.fds[f].ofd.owner;
      o in p.owners && Slot(p, o) && (Names(p.owners[o], f) || Flagged(p.owners[o]))
  }

  /** With the gate free, every integer an unflagged owner publishes is a live descriptor
      of that owner. */
  ghost predicate Truthful(p: Proc) {
    forall o, f | o in p.owners && !Flagged(p.owners[o]) && Names(p.owners[o], f) :: f in Mine(p.fds, o)
  }

  lemma GateFreeAccounting(p: Proc)
    requires ProcOk(p) && p.gate.None?
    ensures Accounted(p) && Truthful(p)
  {
    forall f | f in p.fds && p.fds[f].LockFile?
      ensures var o := p.fds[f].ofd.owner;
              o in p.owners && Slot(p, o) && (Names(p.owners[o], f) || Flagged(p.owners[o]))
    {
      var o := p.fds[f].ofd.owner;
      assert OwnerOk(p, o);
      assert f in Mine(p.fds, o);
    }
    forall o, f | o in p.owners && !Flagged(p.owners[o]) && Names(p.owners[o], f)
      ensures f in Mine(p.fds, o)
    {
      assert OwnerOk(p, o);
      assert f in Mine(p.fds, o);
    }
  }

  /** A slot is given up only by its own owner, only with no descriptor of that owner open,
      and never by a broken owner. */
  lemma SlotLossIsClean(p: Proc, o: OwnerId, c: Choice, x: OwnerId)
    requires ProcOk(p) && o in p.owners && x in p.owners && Discoverable(p.owners[o], c)
    requires Step(p, o, c).Live? && Slot(p, x) && !Slot(Step(p, o, c).p, x)
    ensures x == o && Mine(Step(p, o, c).p.fds, x) == {} && !p.owners[x].broken
  {
    var e := Statement(p.owners[o], View(p, o), c);
    assert OwnerOk(p, o) && OwnerOk(p, x);
    AnyStatementOk(p.owners[o], View(p, o), Mine(p.fds, o), p.gate == Some(o), c);
    StepOk(p, o, c);
    assert OwnerOk(Step(p, o, c).p, x);
    if p.owners[x].broken { BrokenStays(p.owners[o], View(p, o), c); }
  }

  /** Broken is forever: no statement clears the flag, and a broken owner runs no statement
      that touches the tables. */
  lemma BrokenStays(w: Owner, s: Sees, c: Choice)
    requires w.broken && BrokenPc(w.pc)
    ensures var e := Statement(w, s, c);
            e.Then? ==> e.w.broken && e.fds.SameFds? && e.slot.SameSlot? && BrokenPc(e.w.pc)
  {
  }

  /** The defensive branch that finds a descriptor still published after its close is dead. */
  lemma VerifyNeverBreaks(p: Proc, o: OwnerId)
    requires ProcOk(p) && o in p.owners && p.owners[o].pc.Verify?
    ensures Blank(p.owners[o])
  {
    assert OwnerOk(p, o);
  }

  // ---- the hidden-open window ----------------------------------------------------------

  /** Consecutive states of the owner's thread running on with nothing going wrong. */
  ghost predicate RunsOn(run: seq<Proc>, o: OwnerId) {
    && (forall p | p in run :: o in p.owners)
    && (forall i | 0 <= i < |run| - 1 :: Step(run[i], o, Go) == Live(run[i + 1]))
  }

  ghost predicate Leaked(p: Proc, o: OwnerId, f: Fd)
    requires o in p.owners
  {
    f in Mine(p.fds, o) && !Slot(p, o) && Blank(p.owners[o]) && !Flagged(p.owners[o])
  }

  /** A rollback that found nothing to clean up. */
  predicate Forgetting(w: Owner) {
    && !w.broken && Blank(w)
    && (w.pc == Rollback(None) || w.pc.Verify? || w.pc.ClearOwner? || (w.pc.FreeSlot? && !w.opening))
  }

  function Remaining(pc: Pc): nat {
    if pc.Rollback? then 4 else if pc.Verify? then 3 else if pc.ClearOwner? then 2 else 1
  }

  lemma ForgetOne(p: Proc, o: OwnerId) returns (q: Proc)
    requires o in p.owners && Forgetting(p.owners[o])
    ensures Step(p, o, Go) == Live(q) && q.fds == p.fds && o in q.owners
    ensures if p.owners[o].pc.FreeSlot? then !Slot(q, o) && Blank(q.owners[o]) && !Flagged(q.owners[o])
            else Forgetting(q.owners[o]) && Remaining(q.owners[o].pc) < Remaining(p.owners[o].pc)
  {
    q := Step(p, o, Go).p;
  }

  lemma Prepend(p: Proc, run: seq<Proc>, o: OwnerId)
    requires o in p.owners && run != [] && RunsOn(run, o) && Step(p, o, Go) == Live(run[0])
    ensures RunsOn([p] + run, o)
  {
  }

  lemma {:induction false} Forget(p: Proc, o: OwnerId, f: Fd) returns (run: seq<Proc>)
    requires o in p.owners && Forgetting(p.owners[o]) && f in Mine(p.fds, o)
    ensures run != [] && run[0] == p && RunsOn(run, o) && Leaked(run[|run| - 1], o, f)
    decreases Remaining(p.owners[o].pc)
  {
    var q := ForgetOne(p, o);
    if p.owners[o].pc.FreeSlot? {
      run := [q];
    } else {
      run := Forget(q, o, f);
    }
    Prepend(p, run, o);
    run := [p] + run;
  }

  lemma IntoHandler(p: Proc, o: OwnerId, e: Exn) returns (q: Proc)
    requires ProcOk(p) && o in p.owners && p.owners[o].pc.StorePending?
    ensures Step(p, o, Intr(e)) == Live(q) && q.fds == p.fds && o in q.owners && p.owners[o].pc.f in Mine(q.fds, o)
    ensures q.owners[o].pc == Handler(e, None) && !q.owners[o].broken && Blank(q.owners[o])
    ensures e == Async ==> q.owners[o].opening
  {
    assert OwnerOk(p, o);
    assert p.owners[o].pc.f in Mine(p.fds, o);
    q := Step(p, o, Intr(e)).p;
  }

  lemma OutOfHandler(p: Proc, o: OwnerId, e: Exn) returns (q: Proc)
    requires o in p.owners && p.owners[o].pc == Handler(e, None) && !p.owners[o].broken && Blank(p.owners[o])
    requires e == Async ==> p.owners[o].opening
    ensures e == Async ==> Step(p, o, Go) == Dead(HIDDEN_OPEN_EXIT_CODE)
    ensures e != Async ==> Step(p, o, Go) == Live(q) && q.fds == p.fds && o in q.owners && Forgetting(q.owners[o])
  {
    if e == Async { q := p; } else { q := Step(p, o, Go).p; }
  }

  /** An exception in the window between the kernel's return and the publication: if it is
      asynchronous the process exits; if it is any of the kinds acquire() handles as an
      ordinary failure, the rollback forgets the descriptor. */
  lemma HiddenWindowExact(p: Proc, o: OwnerId, e: Exn) returns (run: seq<Proc>)
    requires ProcOk(p) && o in p.owners && p.owners[o].pc.StorePending?
    ensures RunsOn(run, o) && |run| > 0 && Step(p, o, Intr(e)) == Live(run[0])
    ensures e == Async ==> Step(run[|run| - 1], o, Go) == Dead(HIDDEN_OPEN_EXIT_CODE)
    ensures e != Async ==> Leaked(run[|run| - 1], o, p.owners[o].pc.f)
  {
    var q := IntoHandler(p, o, e);
    var q1 := OutOfHandler(q, o, e);
    if e == Async {
      run := [q];
    } else {
      run := Forget(q1, o, p.owners[o].pc.f);
      Prepend(q, run, o);
      run := [q] + run;
    }
  }
}
