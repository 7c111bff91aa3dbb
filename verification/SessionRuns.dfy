/** Any number of threads in one session at once. Between two critical sections any other
    thread may run; revokers are called with the condition released and may raise. */
module SessionRuns {
  import opened Wrappers
  import opened Session

  /** What a caller of revoke_authority() goes on to do when it returns. */
  datatype Goal = JustRevoke | ThenTerminal(from: State)

  datatype Task =
    | Free
    | Admitted
    | Enter(goal: Goal)
    | Calling(goal: Goal, pending: seq<nat>)
    | Called(goal: Goal, pending: seq<nat>)
    | Finishing(goal: Goal, raised: bool)
    | Finalize(from: State)

  /** `runner` and `log` are history: who runs the current pass, and every revoker call made
      with whether it returned. */
  datatype Machine = Machine(f: Fence, instance: nat, tasks: map<nat, Task>, runner: Option<nat>, log: seq<Call>)

  datatype Call = Call(revoker: nat, ok: bool)

  datatype Event =
    | DoActivate | DoDrain | DoRegister
    | DoRevoke(t: nat) | DoTerminalize(t: nat) | DoAbort(t: nat)
    | DoAdmit(t: nat, expected: Option<nat>) | DoLeave(t: nat)
    | Tick(t: nat, ok: bool)

  function TaskOf(m: Machine, t: nat): Task {
    if t in m.tasks then m.tasks[t] else Free
  }

  function Put(m: Machine, t: nat, task: Task): Machine {
    m.(tasks := m.tasks[t := task])
  }

  function OrSame(m: Machine, r: Result<Fence, Error>): Machine {
    if r.Ok? then m.(f := r.value) else m
  }

  /** The first critical section of terminalize() and abort_from_starting(). */
  function BeginTerminal(m: Machine, t: nat, from: State): Machine {
    if TaskOf(m, t).Free? && m.f.state == from then Put(m, t, Enter(ThenTerminal(from))) else m
  }

  function EnterTick(m: Machine, t: nat, goal: Goal): Machine {
    var (g, entry) := EnterPass(m.f);
    var n := m.(f := g);
    match entry
    case Returned => Put(n, t, if goal.JustRevoke? then Free else Finalize(goal.from))
    case Joining => n
    case Refused => Put(n, t, Free)
    case Pass(pending) => Put(n, t, Calling(goal, pending)).(runner := Some(t))
  }

  function TickTask(m: Machine, t: nat, ok: bool): Machine {
    match TaskOf(m, t)
    case Enter(goal) => EnterTick(m, t, goal)
    case Calling(goal, pending) =>
      if pending == [] then Put(m, t, Finishing(goal, false))
      else Put(m, t, if ok then Called(goal, pending) else Finishing(goal, true)).(log := m.log + [Call(pending[0], ok)])
    case Called(goal, pending) =>
      if pending == [] then m else Put(m.(f := Record(m.f, pending[0])), t, Calling(goal, pending[1..]))
    case Finishing(goal, raised) =>
      Put(m.(f := FinishPass(m.f), runner := None), t, if raised then Free else Enter(goal))
    case Finalize(from) => Put(OrSame(m, EnterTerminal(m.f, from)), t, Free)
    case _ => m
  }

  function Step(m: Machine, e: Event): Machine {
    match e
    case DoActivate => OrSame(m, Activate(m.f))
    case DoDrain => OrSame(m, BeginDrain(m.f))
    case DoRegister => OrSame(m, Register(m.f))
    case DoRevoke(t) => if TaskOf(m, t).Free? then Put(m, t, Enter(JustRevoke)) else m
    case DoTerminalize(t) => BeginTerminal(m, t, Draining)
    case DoAbort(t) => BeginTerminal(m, t, Starting)
    case DoAdmit(t, expected) =>
      var r := Admit(m.f, m.instance, expected);
      if TaskOf(m, t).Free? && r.Ok? then Put(m.(f := r.value), t, Admitted) else m
    case DoLeave(t) => if TaskOf(m, t).Admitted? then Put(m.(f := Leave(m.f)), t, Free) else m
    case Tick(t, ok) => TickTask(m, t, ok)
  }

  function Run(m: Machine, es: seq<Event>): Machine
    decreases |es|
  {
    if es == [] then m else Run(Step(m, es[0]), es[1..])
  }

  function Initial(instance: nat): Machine {
    Machine(FRESH, instance, map[], None, [])
  }

  // ---- the invariant ------------------------------------------------------------------

  predicate InPass(task: Task) {
    task.Calling? || task.Called? || task.Finishing?
  }

  ghost predicate Open(f: Fence, pending: seq<nat>) {
    && (forall k: nat :: k in pending <==> k < f.revokers && k !in f.success)
    && (forall a, b | 0 <= a < b < |pending| :: pending[a] < pending[b])
  }

  ghost predicate PassOk(f: Fence, task: Task) {
    match task
    case Calling(_, pending) => Open(f, pending)
    case Called(_, pending) => pending != [] && Open(f, pending)
    case Finishing(_, raised) => !raised ==> f.success == UpTo(f.revokers)
    case _ => false
  }

  function Inside(m: Machine): set<nat> {
    set t | t in m.tasks && m.tasks[t].Admitted?
  }

  /** A revoker that returned is recorded, or its caller is about to record it. */
  predicate Credited(m: Machine, i: nat) {
    i in m.f.success
    || (m.runner.Some? && TaskOf(m, m.runner.value).Called? && TaskOf(m, m.runner.value).pending != []
        && TaskOf(m, m.runner.value).pending[0] == i)
  }

  ghost predicate LogOk(m: Machine) {
    && (forall a | 0 <= a < |m.log| && m.log[a].ok :: Credited(m, m.log[a].revoker))
    && (forall a, b | 0 <= a < b < |m.log| && m.log[a].ok :: m.log[b].revoker != m.log[a].revoker)
  }

  ghost predicate TasksOk(m: Machine) {
    && (m.f.running <==> m.runner.Some?)
    && (forall t | t in m.tasks && InPass(m.tasks[t]) :: m.runner == Some(t))
    && (m.runner.Some? ==> PassOk(m.f, TaskOf(m, m.runner.value)))
    && (forall t | t in m.tasks && m.tasks[t].Finalize? :: m.f.complete)
  }

  ghost predicate MachineOk(m: Machine) {
    Sound(m.f) && TasksOk(m) && LogOk(m) && m.f.active == |Inside(m)|
  }

  lemma InsidePut(m: Machine, t: nat, task: Task)
    ensures Inside(Put(m, t, task)) == if task.Admitted? then Inside(m) + {t} else Inside(m) - {t}
  {
  }

  lemma EnterTickOk(m: Machine, t: nat, goal: Goal)
    requires MachineOk(m) && TaskOf(m, t) == Enter(goal)
    ensures MachineOk(EnterTick(m, t, goal))
  {
    if EnterPass(m.f).1.Pass? { PassBeginsOk(m, t, goal); } else { NoPassOk(m, t, goal); }
  }

  lemma PassBeginsOk(m: Machine, t: nat, goal: Goal)
    requires MachineOk(m) && TaskOf(m, t) == Enter(goal) && EnterPass(m.f).1.Pass?
    ensures MachineOk(EnterTick(m, t, goal))
  {
    var n := EnterTick(m, t, goal);
    InsidePut(m, t, TaskOf(n, t));
    assert Inside(n) == Inside(m);
    PendingExact(m.f, 0);
    assert Open(n.f, EnterPass(m.f).1.pending);
    forall a | 0 <= a < |n.log| && n.log[a].ok ensures Credited(n, n.log[a].revoker) { assert Credited(m, m.log[a].revoker); }
  }

  lemma NoPassOk(m: Machine, t: nat, goal: Goal)
    requires MachineOk(m) && TaskOf(m, t) == Enter(goal) && !EnterPass(m.f).1.Pass?
    ensures MachineOk(EnterTick(m, t, goal))
  {
    var n := EnterTick(m, t, goal);
    InsidePut(m, t, TaskOf(n, t));
    assert Inside(n) == Inside(m);
    forall a | 0 <= a < |n.log| && n.log[a].ok ensures Credited(n, n.log[a].revoker) { assert Credited(m, m.log[a].revoker); }
  }

  lemma CallingTickOk(m: Machine, t: nat, ok: bool)
    requires MachineOk(m) && TaskOf(m, t).Calling?
    ensures MachineOk(TickTask(m, t, ok))
  {
    var n := TickTask(m, t, ok);
    InsidePut(m, t, TaskOf(n, t));
    var pending := TaskOf(m, t).pending;
    assert m.runner == Some(t);
    if pending == [] {
      forall k: nat ensures k in m.f.success <==> k in UpTo(m.f.revokers) { assert k !in pending; }
      assert m.f.success == UpTo(m.f.revokers);
    } else {
      assert pending[0] in pending;
      forall a | 0 <= a < |m.log| && m.log[a].ok ensures m.log[a].revoker != pending[0] { assert Credited(m, m.log[a].revoker); }
    }
  }

  lemma OpenAfterRecord(f: Fence, pending: seq<nat>)
    requires pending != [] && Open(f, pending)
    ensures Open(Record(f, pending[0]), pending[1..]) && pending[0] < f.revokers
  {
    assert pending[0] in pending;
    forall k: nat ensures k in pending[1..] <==> k < f.revokers && k !in Record(f, pending[0]).success {
      assert k in pending <==> k == pending[0] || k in pending[1..];
    }
  }

  lemma CalledTickOk(m: Machine, t: nat, ok: bool)
    requires MachineOk(m) && TaskOf(m, t).Called?
    ensures MachineOk(TickTask(m, t, ok))
  {
    var n := TickTask(m, t, ok);
    var pending := TaskOf(m, t).pending;
    assert m.runner == Some(t);
    OpenAfterRecord(m.f, pending);
    InsidePut(m, t, TaskOf(n, t));
    assert Inside(n) == Inside(m);
    assert Sound(n.f);
    assert TasksOk(n);
    forall a | 0 <= a < |n.log| && n.log[a].ok ensures Credited(n, n.log[a].revoker) { assert Credited(m, m.log[a].revoker); }
  }

  /** The history with the same calls, when what was credited still is. */
  lemma LogCarries(m: Machine, n: Machine)
    requires LogOk(m) && n.log == m.log && forall i :: Credited(m, i) ==> Credited(n, i)
    ensures LogOk(n)
  {
    forall a | 0 <= a < |n.log| && n.log[a].ok ensures Credited(n, n.log[a].revoker) { assert Credited(m, m.log[a].revoker); }
  }

  lemma FinishedFence(f: Fence, raised: bool)
    requires Sound(f) && f.running && (!raised ==> f.success == UpTo(f.revokers))
    ensures Sound(FinishPass(f)) && !FinishPass(f).running && FinishPass(f).active == f.active && (!raised ==> FinishPass(f).complete)
    ensures f.complete ==> FinishPass(f).complete
  {
    FullIsUpTo(f.success, f.revokers);
  }

  lemma FinishingTickOk(m: Machine, t: nat, ok: bool)
    requires MachineOk(m) && TaskOf(m, t).Finishing?
    ensures MachineOk(TickTask(m, t, ok))
    ensures !TaskOf(m, t).raised ==> TickTask(m, t, ok).f.complete
  {
    var n := TickTask(m, t, ok);
    assert m.runner == Some(t);
    FinishedFence(m.f, TaskOf(m, t).raised);
    InsidePut(m, t, TaskOf(n, t));
    assert Inside(n) == Inside(m);
    LogCarries(m, n);
    assert TasksOk(n);
  }

  /** A machine that only gained or lost one caller outside any pass, or whose lifecycle state
      moved without touching revocation. */
  lemma OutsidePassOk(m: Machine, n: Machine, t: nat, task: Task)
    requires MachineOk(m) && !InPass(TaskOf(m, t)) && !InPass(task) && !task.Finalize?
    requires n.tasks == m.tasks || n.tasks == m.tasks[t := task]
    requires n.runner == m.runner && n.log == m.log && Sound(n.f) && n.f.active == |Inside(n)|
    requires n.f.running == m.f.running && n.f.complete == m.f.complete && n.f.success == m.f.success
    requires n.f.revokers == m.f.revokers || (n.runner.None? && !n.f.complete)
    ensures MachineOk(n)
  {
    forall a | 0 <= a < |n.log| && n.log[a].ok ensures Credited(n, n.log[a].revoker) { assert Credited(m, m.log[a].revoker); }
  }

  lemma OtherTickOk(m: Machine, t: nat, ok: bool)
    requires MachineOk(m) && !InPass(TaskOf(m, t)) && !TaskOf(m, t).Enter?
    ensures MachineOk(TickTask(m, t, ok))
  {
    if TaskOf(m, t).Finalize? {
      InsidePut(m, t, Free);
      assert Inside(TickTask(m, t, ok)) == Inside(m);
      OutsidePassOk(m, TickTask(m, t, ok), t, Free);
    }
  }

  lemma TickOk(m: Machine, t: nat, ok: bool)
    requires MachineOk(m)
    ensures MachineOk(TickTask(m, t, ok))
  {
    var task := TaskOf(m, t);
    if task.Enter? { EnterTickOk(m, t, task.goal); }
    else if task.Calling? { CallingTickOk(m, t, ok); }
    else if task.Called? { CalledTickOk(m, t, ok); }
    else if task.Finishing? { FinishingTickOk(m, t, ok); }
    else { OtherTickOk(m, t, ok); }
  }

  lemma AdmissionOk(m: Machine, e: Event)
    requires MachineOk(m) && (e.DoAdmit? || e.DoLeave?)
    ensures MachineOk(Step(m, e))
  {
    if e.DoLeave? { DoLeaveOk(m, e.t); } else { DoAdmitOk(m, e.t, e.expected); }
  }

  lemma DoAdmitOk(m: Machine, t: nat, expected: Option<nat>)
    requires MachineOk(m)
    ensures MachineOk(Step(m, DoAdmit(t, expected)))
  {
    var n := Step(m, DoAdmit(t, expected));
    InsidePut(m, t, Admitted);
    if n != m {
      assert t !in Inside(m);
      OutsidePassOk(m, n, t, Admitted);
    }
  }

  lemma DoLeaveOk(m: Machine, t: nat)
    requires MachineOk(m)
    ensures MachineOk(Step(m, DoLeave(t)))
  {
    var n := Step(m, DoLeave(t));
    InsidePut(m, t, Free);
    if n != m {
      assert t in Inside(m);
      OutsidePassOk(m, n, t, Free);
    }
  }

  lemma CallerOk(m: Machine, e: Event)
    requires MachineOk(m) && (e.DoRevoke? || e.DoTerminalize? || e.DoAbort?)
    ensures MachineOk(Step(m, e))
  {
    if TaskOf(m, e.t).Free? {
      var goal := if e.DoRevoke? then JustRevoke else ThenTerminal(if e.DoTerminalize? then Draining else Starting);
      EnterOk(m, e.t, goal);
    }
  }

  /** One more caller at the top of the loop. */
  lemma EnterOk(m: Machine, t: nat, goal: Goal)
    requires MachineOk(m) && TaskOf(m, t).Free?
    ensures MachineOk(Put(m, t, Enter(goal)))
  {
    InsidePut(m, t, Enter(goal));
    assert Inside(Put(m, t, Enter(goal))) == Inside(m);
    OutsidePassOk(m, Put(m, t, Enter(goal)), t, Enter(goal));
  }

  lemma StepOk(m: Machine, e: Event)
    requires MachineOk(m)
    ensures MachineOk(Step(m, e))
  {
    if e.Tick? { TickOk(m, e.t, e.ok); }
    else if e.DoAdmit? || e.DoLeave? { AdmissionOk(m, e); }
    else if e.DoRevoke? || e.DoTerminalize? || e.DoAbort? { CallerOk(m, e); }
    else if e.DoRegister? { if Register(m.f).Ok? { RegisterOk(m); } }
    else { LifecycleOk(m, Step(m, e)); }
  }

  lemma RegisterOk(m: Machine)
    requires MachineOk(m) && Register(m.f).Ok?
    ensures MachineOk(Step(m, DoRegister))
  {
    var n := Step(m, DoRegister);
    assert Inside(n) == Inside(m);
    forall i | i in m.f.success ensures i in UpTo(n.f.revokers) { assert i in UpTo(m.f.revokers); }
    forall a | 0 <= a < |n.log| && n.log[a].ok ensures Credited(n, n.log[a].revoker) { assert Credited(m, m.log[a].revoker); }
  }

  lemma LifecycleOk(m: Machine, n: Machine)
    requires MachineOk(m) && n == m.(f := m.f.(state := n.f.state)) && Sound(n.f)
    ensures MachineOk(n)
  {
    assert Inside(n) == Inside(m);
    forall a | 0 <= a < |n.log| && n.log[a].ok ensures Credited(n, n.log[a].revoker) { assert Credited(m, m.log[a].revoker); }
  }

  /** The invariant holds after every interleaving. */
  lemma {:induction false} RunOk(m: Machine, es: seq<Event>)
    requires MachineOk(m)
    ensures MachineOk(Run(m, es))
    decreases |es|
  {
    if es != [] { StepOk(m, es[0]); RunOk(Step(m, es[0]), es[1..]); }
  }

  // ---- the law ------------------------------------------------------------------------

  /** What the session promises of every state it can reach. */
  ghost predicate Law(m: Machine) {
    && (m.f.state == Ready ==> !m.f.started)
    && (forall t, u | t in m.tasks && u in m.tasks && InPass(m.tasks[t]) && InPass(m.tasks[u]) :: t == u)
    && (forall a, b | 0 <= a < b < |m.log| && m.log[a].ok :: m.log[b].revoker != m.log[a].revoker)
    && (m.f.complete ==> m.f.success == UpTo(m.f.revokers))
    && (m.f.state == Terminal ==> m.f.complete)
    && m.f.active == |Inside(m)|
  }

  lemma LawHolds(instance: nat, es: seq<Event>)
    ensures Law(Run(Initial(instance), es))
  {
    assert Inside(Initial(instance)) == {};
    RunOk(Initial(instance), es);
  }

  /** What no step takes back: TERMINAL, completion, the start of revocation, a success. */
  ghost predicate Forward(m: Machine, n: Machine) {
    && (m.f.state == Terminal ==> n.f.state == Terminal)
    && (m.f.complete ==> n.f.complete && n.f.revokers == m.f.revokers)
    && (m.f.started ==> n.f.started)
    && m.f.success <= n.f.success
    && m.log <= n.log
    && (m.f.state != Ready && m.f.started ==> n.f.state != Ready)
    && (m.f.state == Draining ==> n.f.state == Draining || n.f.state == Terminal)
  }

  lemma StepForward(m: Machine, e: Event)
    ensures Forward(m, Step(m, e))
  {
  }

  lemma {:induction false} NeverBack(m: Machine, es: seq<Event>)
    ensures Forward(m, Run(m, es))
    decreases |es|
  {
    if es != [] {
      StepForward(m, es[0]);
      NeverBack(Step(m, es[0]), es[1..]);
    }
  }

  /** How far the running pass still has to go. */
  function Left(task: Task): nat {
    match task
    case Calling(_, pending) => 2 * |pending| + 2
    case Called(_, pending) => 2 * |pending| + 1
    case Finishing(_, _) => 1
    case _ => 0
  }

  /** The running pass advances whatever the other threads do in between; when none of its
      calls raises it ends complete, and the loop then returns at its next entry. */
  lemma PassProgress(m: Machine, t: nat, ok: bool)
    requires MachineOk(m) && InPass(TaskOf(m, t))
    ensures var n := Step(m, Tick(t, ok));
            && Left(TaskOf(n, t)) < Left(TaskOf(m, t))
            && (ok && !(TaskOf(m, t).Finishing? && TaskOf(m, t).raised) ==>
                  if TaskOf(m, t).Finishing? then n.f.complete && !n.f.running && TaskOf(n, t).Enter?
                  else InPass(TaskOf(n, t)) && !(TaskOf(n, t).Finishing? && TaskOf(n, t).raised))
  {
    if TaskOf(m, t).Finishing? { FinishingTickOk(m, t, ok); }
  }

  lemma OthersLeavePassAlone(m: Machine, t: nat, e: Event)
    requires MachineOk(m) && InPass(TaskOf(m, t)) && !(e.Tick? && e.t == t)
    ensures TaskOf(Step(m, e), t) == TaskOf(m, t)
  {
  }

  /** How often a thread ticks in a run. */
  function Ticks(es: seq<Event>, t: nat): nat
    decreases |es|
  {
    if es == [] then 0 else (if es[0].Tick? && es[0].t == t then 1 else 0) + Ticks(es[1..], t)
  }

  /** A pass runs to completion over any interleaving: once its thread has had as many steps as
      it had left, and none of its calls raised, revocation is complete and every revoker has
      succeeded, whatever the other threads did in between and afterwards. */
  lemma {:induction false} PassCompletes(m: Machine, es: seq<Event>, t: nat)
    requires MachineOk(m) && InPass(TaskOf(m, t)) && !(TaskOf(m, t).Finishing? && TaskOf(m, t).raised)
    requires forall e | e in es && e.Tick? && e.t == t :: e.ok
    requires Ticks(es, t) >= Left(TaskOf(m, t))
    ensures Run(m, es).f.complete && Run(m, es).f.success == UpTo(Run(m, es).f.revokers)
    decreases |es|
  {
    var n := Step(m, es[0]);
    RunOk(m, es);
    StepOk(m, es[0]);
    if es[0].Tick? && es[0].t == t {
      assert es[0] in es;
      PassProgress(m, t, true);
      if n.f.complete { NeverBack(n, es[1..]); } else { PassCompletes(n, es[1..], t); }
    } else {
      OthersLeavePassAlone(m, t, es[0]);
      PassCompletes(n, es[1..], t);
    }
  }

  lemma CompleteEndsLoop(m: Machine, t: nat, ok: bool)
    requires m.f.complete && TaskOf(m, t).Enter?
    ensures var n := Step(m, Tick(t, ok)); n.f == m.f && (TaskOf(n, t).Free? || TaskOf(n, t).Finalize?)
  {
  }

  /** What each call outside revocation does, and when it is refused. */
  lemma CallsExactly(m: Machine, t: nat, expected: Option<nat>)
    ensures Step(m, DoActivate).f.state == (if m.f.state == Starting && !m.f.started then Ready else m.f.state)
    ensures Step(m, DoDrain).f.state == (if m.f.state == Ready then Draining else m.f.state)
    ensures Step(m, DoRegister).f.revokers == m.f.revokers + (if m.f.complete || m.f.running then 0 else 1)
    ensures TaskOf(m, t).Free? ==>
              var n := Step(m, DoAdmit(t, expected));
              if m.f.state == Ready && (expected.None? || expected.value == m.instance)
              then TaskOf(n, t).Admitted? && n.f.active == m.f.active + 1 else n == m
    ensures TaskOf(m, t).Admitted? ==> var n := Step(m, DoLeave(t)); TaskOf(n, t).Free? && n.f.active == m.f.active - 1
  {
  }

  /** A caller of terminalize(), or of abort_from_starting(), from its pass on: its pass has not
      raised, or is complete and what is left is to end the session. */
  ghost predicate Terminating(m: Machine, t: nat, from: State) {
    && m.f.state == from && (from == Starting || from == Draining) && m.f.started
    && match TaskOf(m, t)
       case Calling(goal, _) => goal == ThenTerminal(from)
       case Called(goal, _) => goal == ThenTerminal(from)
       case Finishing(goal, raised) => goal == ThenTerminal(from) && !raised
       case Enter(goal) => goal == ThenTerminal(from) && m.f.complete
       case Finalize(f) => f == from
       case _ => false
  }

  /** Its steps left. */
  function LeftToEnd(task: Task): nat {
    if InPass(task) then Left(task) + 2 else if task.Enter? then 2 else 1
  }

  lemma TerminatingTick(m: Machine, t: nat, from: State)
    requires MachineOk(m) && Terminating(m, t, from)
    ensures var n := Step(m, Tick(t, true));
            n.f.state == Terminal || (Terminating(n, t, from) && LeftToEnd(TaskOf(n, t)) < LeftToEnd(TaskOf(m, t)))
    ensures TaskOf(m, t).Finalize? ==> Step(m, Tick(t, true)).f.state == Terminal
  {
    if InPass(TaskOf(m, t)) { PassProgress(m, t, true); }
  }

  lemma TerminatingStays(m: Machine, t: nat, from: State, e: Event)
    requires MachineOk(m) && Terminating(m, t, from) && !(e.Tick? && e.t == t)
    ensures Step(m, e).f.state == Terminal || (Terminating(Step(m, e), t, from) && TaskOf(Step(m, e), t) == TaskOf(m, t))
  {
    StepForward(m, e);
  }

  /** terminalize() from DRAINING, and abort_from_starting() from STARTING, reach TERMINAL over any
      interleaving, once their thread has had its steps and no revoker it called raised. */
  lemma {:induction false} TerminalIsReached(m: Machine, es: seq<Event>, t: nat, from: State)
    requires MachineOk(m) && Terminating(m, t, from)
    requires forall e | e in es && e.Tick? && e.t == t :: e.ok
    requires Ticks(es, t) >= LeftToEnd(TaskOf(m, t))
    ensures Run(m, es).f.state == Terminal
    decreases |es|
  {
    var n := Step(m, es[0]);
    StepOk(m, es[0]);
    if es[0].Tick? && es[0].t == t {
      assert es[0] in es;
      TerminatingTick(m, t, from);
    } else {
      TerminatingStays(m, t, from, es[0]);
    }
    if n.f.state == Terminal { NeverBack(n, es[1..]); } else { TerminalIsReached(n, es[1..], t, from); }
  }

  /** Such a caller, alone at the top of the loop with revocation not yet begun, is on that way
      after its first step. */
  lemma TerminationBegins(m: Machine, t: nat, from: State)
    requires MachineOk(m) && TaskOf(m, t) == Enter(ThenTerminal(from)) && m.f.state == from && (from == Starting || from == Draining)
    requires !m.f.running && !m.f.complete
    ensures Terminating(Step(m, Tick(t, true)), t, from)
  {
  }
}
