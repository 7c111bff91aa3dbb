/** The owner side of the request pipeline: gates, retained table, one owner task per new
    request, and the admission under which it works. Between two events any other task, local
    caller or shutdown step may run. */
module Pipeline {
  import opened Wrappers
  import opened Json
  import Gate
  import Session
  import Table = RequestTable

  type Id = Table.Id
  type TaskId = nat

  /** An owner task: scheduled, or inside its admission; with the instance its envelope names. */
  datatype Task = Task(id: Id, addressed: Text, working: bool)

  datatype Kind = Registered | Invoked | Abandoned | Evicted

  /** History. An invocation also notes the session state it was admitted in and the instance
      its envelope names. */
  datatype Note = Note(kind: Kind, id: Id, state: Session.State, addressed: Text)

  /** The table, the tasks it owns, and the history of both. */
  datatype Books = Books(table: Table.Table, tasks: map<TaskId, Task>, next: TaskId, log: seq<Note>, build: Text, instance: Text)

  /** `others` counts admissions that are not owner tasks. */
  datatype Owner = Owner(books: Books, fence: Session.Fence, draining: bool, others: nat)

  datatype Event =
    | Arrive(length: nat, parsed: Option<Raw>)
    | Begin(k: TaskId, invokes: bool, refusal: Table.Frame)
    | Finish(k: TaskId, frame: Option<Table.Frame>)
    | Activates
    | Drains
    | ServerDrains
    | Terminates(from: Session.State)
    | OtherAdmits
    | OtherLeaves

  function Noted(b: Books, kind: Kind, id: Id, state: Session.State, addressed: Text): seq<Note> {
    b.log + [Note(kind, id, state, addressed)]
  }

  /** process_request() behind the gates: a new request gets its owner task. */
  function Enter(b: Books, id: Id, c: Table.Canonical, state: Session.State, addressed: Text): Books {
    var (t, d) := Table.Classify(b.table, id, c);
    if !d.New? then b.(table := t)
    else b.(table := Table.Pin(t, id, b.next), tasks := b.tasks[b.next := Task(id, addressed, false)], next := b.next + 1,
            log := Noted(b, Registered, id, state, addressed))
  }

  /** The end of an owner task: its frame completes the entry, its exception abandons it. */
  function Complete(b: Books, k: TaskId, response: Table.Frame, state: Session.State): Books
    requires k in b.tasks
  {
    var id := b.tasks[k].id;
    var gone := Table.Evicted(b.table, id);
    b.(tasks := b.tasks - {k}, table := Table.Complete(b.table, id, response),
       log := if gone.Some? then Noted(b, Evicted, gone.value, state, b.tasks[k].addressed) else b.log)
  }

  function Abandon(b: Books, k: TaskId, state: Session.State): Books
    requires k in b.tasks
  {
    var id := b.tasks[k].id;
    b.(tasks := b.tasks - {k}, table := Table.Abandon(b.table, id),
       log := if id in b.table.inflight then Noted(b, Abandoned, id, state, b.tasks[k].addressed) else b.log)
  }

  function EndTask(b: Books, k: TaskId, frame: Option<Table.Frame>, state: Session.State): Books
    requires k in b.tasks
  {
    if frame.Some? then Complete(b, k, frame.value, state) else Abandon(b, k, state)
  }

  /** Inside the admission, invoking the Dispatcher at most once. */
  function StartWork(b: Books, k: TaskId, invokes: bool, state: Session.State): Books
    requires k in b.tasks
  {
    b.(tasks := b.tasks[k := b.tasks[k].(working := true)],
       log := if invokes then Noted(b, Invoked, b.tasks[k].id, state, b.tasks[k].addressed) else b.log)
  }

  function ArriveStep(o: Owner, length: nat, parsed: Option<Raw>): Owner {
    var g := Gate.Check(length, Gate.DecodeFrame(parsed), o.books.build, o.books.instance);
    if !g.Passed? then o else o.(books := Enter(o.books, Gate.IdToken(g), Gate.CanonicalToken(g), o.fence.state, g.addressed))
  }

  /** The first step of an owner task: refused while draining or by the admission, else at work. */
  function BeginStep(o: Owner, k: TaskId, invokes: bool, refusal: Table.Frame): Owner {
    if k !in o.books.tasks || o.books.tasks[k].working then o
    else
      var r := Session.Admit(o.fence, Gate.Code(o.books.instance), Some(Gate.Code(o.books.tasks[k].addressed)));
      if o.draining || r.Err? then o.(books := Complete(o.books, k, refusal, o.fence.state))
      else o.(fence := r.value, books := StartWork(o.books, k, invokes, o.fence.state))
  }

  function FinishStep(o: Owner, k: TaskId, frame: Option<Table.Frame>): Owner {
    if k !in o.books.tasks || !o.books.tasks[k].working then o
    else o.(fence := Session.Leave(o.fence), books := EndTask(o.books, k, frame, o.fence.state))
  }

  function OrSame(o: Owner, r: Result<Session.Fence, Session.Error>): Owner {
    if r.Ok? then o.(fence := r.value) else o
  }

  function Step(o: Owner, e: Event): Owner {
    match e
    case Arrive(length, parsed) => ArriveStep(o, length, parsed)
    case Begin(k, invokes, refusal) => BeginStep(o, k, invokes, refusal)
    case Finish(k, frame) => FinishStep(o, k, frame)
    case Activates => OrSame(o, Session.Activate(o.fence))
    case Drains => OrSame(o, Session.BeginDrain(o.fence))
    case ServerDrains => o.(draining := true)
    case Terminates(from) => OrSame(o, Session.EnterTerminal(o.fence, from))
    case OtherAdmits =>
      var r := Session.Admit(o.fence, 0, None);
      if r.Ok? then o.(fence := r.value, others := o.others + 1) else o
    case OtherLeaves => if o.others > 0 then o.(fence := Session.Leave(o.fence), others := o.others - 1) else o
  }

  function Run(o: Owner, es: seq<Event>): Owner
    decreases |es|
  {
    if es == [] then o else Run(Step(o, es[0]), es[1..])
  }

  function Initial(maxInflight: nat, maxCompleted: nat, build: Text, instance: Text): Owner {
    Owner(Books(Table.Empty(maxInflight, maxCompleted), map[], 0, [], build, instance), Session.FRESH, false, 0)
  }

  // ---- counting -------------------------------------------------------------------------------

  function Count(log: seq<Note>, kind: Kind, id: Id): nat
    decreases |log|
  {
    if log == [] then 0
    else
      var n := |log| - 1;
      Count(log[..n], kind, id) + if log[n].kind == kind && log[n].id == id then 1 else 0
  }

  lemma NoteCounts(b: Books, n: Note, other: Kind, x: Id)
    ensures Count(b.log + [n], other, x) == Count(b.log, other, x) + if other == n.kind && n.id == x then 1 else 0
  {
    assert (b.log + [n])[..|b.log|] == b.log;
  }

  // ---- the invariant --------------------------------------------------------------------------

  predicate TaskKnown(b: Books, k: TaskId)
    requires k in b.tasks
  {
    var id := b.tasks[k].id;
    k < b.next && id in b.table.inflight && b.table.inflight[id].task == Some(k)
  }

  predicate EntryTasked(b: Books, id: Id)
    requires id in b.table.inflight
  {
    var task := b.table.inflight[id].task;
    task.Some? && task.value in b.tasks && b.tasks[task.value].id == id
  }

  /** In-flight entries and live owner tasks are one to one. */
  ghost predicate TasksOk(b: Books) {
    && (forall k | k in b.tasks :: TaskKnown(b, k))
    && (forall id | id in b.table.inflight :: EntryTasked(b, id))
  }

  predicate Scheduled(b: Books, id: Id) {
    && id in b.table.inflight && b.table.inflight[id].task.Some?
    && b.table.inflight[id].task.value in b.tasks && !b.tasks[b.table.inflight[id].task.value].working
  }

  /** Every registration is present, or was abandoned or evicted. */
  predicate Balanced(b: Books, id: Id) {
    Count(b.log, Registered, id)
    == Count(b.log, Abandoned, id) + Count(b.log, Evicted, id) + (if Table.Lookup(b.table, id).Some? then 1 else 0)
  }

  /** Every registration is invoked at most once. */
  predicate Once(b: Books, id: Id) {
    Count(b.log, Invoked, id) + (if Scheduled(b, id) then 1 else 0) <= Count(b.log, Registered, id)
  }

  /** Every invocation was admitted while READY and is addressed to this instance. */
  ghost predicate LogOk(b: Books) {
    forall i | 0 <= i < |b.log| && b.log[i].kind.Invoked? :: b.log[i].state.Ready? && b.log[i].addressed == b.instance
  }

  ghost predicate CountsOk(b: Books) {
    forall id :: Balanced(b, id) && Once(b, id)
  }

  ghost predicate BooksOk(b: Books) {
    Table.Valid(b.table) && TasksOk(b) && LogOk(b) && CountsOk(b)
  }

  lemma NotedOk(b: Books, note: Note, n: Books)
    requires LogOk(b) && n.instance == b.instance
    requires note.kind.Invoked? ==> note.state.Ready? && note.addressed == b.instance
    requires n.log == b.log || n.log == b.log + [note]
    ensures LogOk(n)
  {
  }

  function Working(tasks: map<TaskId, Task>): set<TaskId> {
    set k | k in tasks && tasks[k].working
  }

  ghost predicate OwnerOk(o: Owner) {
    BooksOk(o.books) && o.fence.active == o.others + |Working(o.books.tasks)|
  }

  lemma InitialOk(maxInflight: nat, maxCompleted: nat, build: Text, instance: Text)
    requires maxInflight >= 1 && maxCompleted >= 1
    ensures OwnerOk(Initial(maxInflight, maxCompleted, build, instance))
  {
    assert Working(map[]) == {};
  }

  // ---- arrivals -------------------------------------------------------------------------------

  lemma PinValid(t: Table.Table, id: Id, task: TaskId)
    requires Table.Valid(t)
    ensures Table.Valid(Table.Pin(t, id, task)) && forall x :: Table.Lookup(Table.Pin(t, id, task), x) == Table.Lookup(t, x)
  {
    if id in t.inflight { assert Table.Pin(t, id, task).inflight.Keys == t.inflight.Keys; }
  }

  lemma EnterTasksOk(b: Books, id: Id, c: Table.Canonical, state: Session.State, addressed: Text)
    requires TasksOk(b) && Table.Classify(b.table, id, c).1.New?
    ensures TasksOk(Enter(b, id, c, state, addressed))
  {
    var n := Enter(b, id, c, state, addressed);
    forall k | k in n.tasks ensures TaskKnown(n, k) {
      if k in b.tasks { assert TaskKnown(b, k); }
    }
    forall x | x in n.table.inflight ensures EntryTasked(n, x) {
      if x != id { assert EntryTasked(b, x); }
    }
  }

  lemma EnterBalanced(b: Books, id: Id, c: Table.Canonical, state: Session.State, addressed: Text, x: Id)
    requires Table.Valid(b.table) && Table.Classify(b.table, id, c).1.New? && Balanced(b, x)
    ensures Balanced(Enter(b, id, c, state, addressed), x)
  {
    NoteCounts(b, Note(Registered, id, state, addressed), Registered, x);
    NoteCounts(b, Note(Registered, id, state, addressed), Abandoned, x);
    NoteCounts(b, Note(Registered, id, state, addressed), Evicted, x);
    EnterKnows(b, id, c, state, addressed, x);
  }

  lemma EnterKnows(b: Books, id: Id, c: Table.Canonical, state: Session.State, addressed: Text, x: Id)
    requires Table.Valid(b.table) && Table.Classify(b.table, id, c).1.New?
    ensures var n := Enter(b, id, c, state, addressed);
            && Table.Lookup(b.table, id).None? && Table.Lookup(n.table, id).Some?
            && (x != id ==> Table.Lookup(n.table, x) == Table.Lookup(b.table, x))
  {
    Table.ClassifyRefines(b.table, id, c);
    Table.ClassifyValid(b.table, id, c);
    PinValid(Table.Classify(b.table, id, c).0, id, b.next);
  }

  lemma EnterOnce(b: Books, id: Id, c: Table.Canonical, state: Session.State, addressed: Text, x: Id)
    requires TasksOk(b) && Table.Classify(b.table, id, c).1.New? && Once(b, x)
    ensures Once(Enter(b, id, c, state, addressed), x)
  {
    NoteCounts(b, Note(Registered, id, state, addressed), Registered, x);
    NoteCounts(b, Note(Registered, id, state, addressed), Invoked, x);
    if x != id && Scheduled(Enter(b, id, c, state, addressed), x) { assert EntryTasked(b, x); }
  }

  lemma EnterTableOk(b: Books, id: Id, c: Table.Canonical, state: Session.State, addressed: Text)
    requires Table.Valid(b.table)
    ensures Table.Valid(Enter(b, id, c, state, addressed).table)
  {
    Table.ClassifyValid(b.table, id, c);
    PinValid(Table.Classify(b.table, id, c).0, id, b.next);
  }

  lemma EnterCounts(b: Books, id: Id, c: Table.Canonical, state: Session.State, addressed: Text)
    requires Table.Valid(b.table) && TasksOk(b) && CountsOk(b) && Table.Classify(b.table, id, c).1.New?
    ensures CountsOk(Enter(b, id, c, state, addressed))
  {
    forall x ensures Balanced(Enter(b, id, c, state, addressed), x) && Once(Enter(b, id, c, state, addressed), x) {
      assert Balanced(b, x) && Once(b, x);
      EnterBalanced(b, id, c, state, addressed, x);
      EnterOnce(b, id, c, state, addressed, x);
    }
  }

  lemma EnterNewOk(b: Books, id: Id, c: Table.Canonical, state: Session.State, addressed: Text)
    requires BooksOk(b) && Table.Classify(b.table, id, c).1.New?
    ensures BooksOk(Enter(b, id, c, state, addressed))
  {
    EnterTableOk(b, id, c, state, addressed);
    EnterTasksOk(b, id, c, state, addressed);
    NotedOk(b, Note(Registered, id, state, addressed), Enter(b, id, c, state, addressed));
    EnterCounts(b, id, c, state, addressed);
  }

  /** A new task is not at work yet. */
  lemma EnterWorking(b: Books, id: Id, c: Table.Canonical, state: Session.State, addressed: Text)
    requires TasksOk(b)
    ensures Working(Enter(b, id, c, state, addressed).tasks) == Working(b.tasks)
  {
    forall k | k in b.tasks ensures k < b.next { assert TaskKnown(b, k); }
  }

  /** Books that differ in what the table retains, not in what it knows. */
  lemma SameKnowledge(b: Books, n: Books)
    requires TasksOk(b) && CountsOk(b) && n == b.(table := n.table)
    requires n.table.inflight == b.table.inflight && n.table.completed == b.table.completed
    ensures TasksOk(n) && CountsOk(n)
  {
    forall k | k in n.tasks ensures TaskKnown(n, k) { assert TaskKnown(b, k); }
    forall x | x in n.table.inflight ensures EntryTasked(n, x) { assert EntryTasked(b, x); }
    forall x ensures Balanced(n, x) && Once(n, x) { assert Balanced(b, x) && Once(b, x); }
  }

  /** An answer from the table changes at most the order of what it retains. */
  lemma EnterOldOk(b: Books, id: Id, c: Table.Canonical, state: Session.State, addressed: Text)
    requires BooksOk(b) && !Table.Classify(b.table, id, c).1.New?
    ensures BooksOk(Enter(b, id, c, state, addressed))
  {
    EnterTableOk(b, id, c, state, addressed);
    SameKnowledge(b, Enter(b, id, c, state, addressed));
    NotedOk(b, Note(Registered, id, state, addressed), Enter(b, id, c, state, addressed));
  }

  // ---- tasks ----------------------------------------------------------------------------------

  lemma EndTasksOk(b: Books, k: TaskId, frame: Option<Table.Frame>, state: Session.State)
    requires TasksOk(b) && k in b.tasks
    ensures TasksOk(EndTask(b, k, frame, state))
    ensures forall x | Scheduled(EndTask(b, k, frame, state), x) :: Scheduled(b, x)
  {
    var n := EndTask(b, k, frame, state);
    var id := b.tasks[k].id;
    assert TaskKnown(b, k);
    assert n.table.inflight == b.table.inflight - {id};
    forall j | j in n.tasks ensures TaskKnown(n, j) { assert TaskKnown(b, j); }
    forall x | x in n.table.inflight ensures EntryTasked(n, x) { assert EntryTasked(b, x); }
  }

  lemma AbandonBalanced(b: Books, k: TaskId, state: Session.State, x: Id)
    requires Table.Valid(b.table) && TasksOk(b) && k in b.tasks && Balanced(b, x)
    ensures Balanced(Abandon(b, k, state), x)
  {
    var id := b.tasks[k].id;
    assert TaskKnown(b, k);
    Table.AbandonRefines(b.table, id);
    NoteCounts(b, Note(Abandoned, id, state, b.tasks[k].addressed), Registered, x);
    NoteCounts(b, Note(Abandoned, id, state, b.tasks[k].addressed), Abandoned, x);
    NoteCounts(b, Note(Abandoned, id, state, b.tasks[k].addressed), Evicted, x);
  }

  lemma CompleteBalanced(b: Books, k: TaskId, response: Table.Frame, state: Session.State, x: Id)
    requires Table.Valid(b.table) && TasksOk(b) && k in b.tasks && Balanced(b, x)
    ensures Balanced(Complete(b, k, response, state), x)
  {
    var id := b.tasks[k].id;
    assert TaskKnown(b, k);
    Table.CompleteRefines(b.table, id, response);
    CompleteNotes(b, k, response, state, x);
  }

  /** A completion writes down the eviction it causes, and nothing else. */
  lemma CompleteNotes(b: Books, k: TaskId, response: Table.Frame, state: Session.State, x: Id)
    requires k in b.tasks
    ensures var log := Complete(b, k, response, state).log;
            && Count(log, Registered, x) == Count(b.log, Registered, x)
            && Count(log, Abandoned, x) == Count(b.log, Abandoned, x)
            && Count(log, Evicted, x) == Count(b.log, Evicted, x) + if Table.Evicted(b.table, b.tasks[k].id) == Some(x) then 1 else 0
  {
    var gone := Table.Evicted(b.table, b.tasks[k].id);
    if gone.Some? {
      NoteCounts(b, Note(Evicted, gone.value, state, b.tasks[k].addressed), Registered, x);
      NoteCounts(b, Note(Evicted, gone.value, state, b.tasks[k].addressed), Abandoned, x);
      NoteCounts(b, Note(Evicted, gone.value, state, b.tasks[k].addressed), Evicted, x);
    }
  }

  /** The end of a task registers nothing and invokes nothing. */
  lemma EndCounts(b: Books, k: TaskId, frame: Option<Table.Frame>, state: Session.State, kind: Kind, x: Id)
    requires k in b.tasks && (kind.Registered? || kind.Invoked?)
    ensures Count(EndTask(b, k, frame, state).log, kind, x) == Count(b.log, kind, x)
  {
    if frame.None? {
      NoteCounts(b, Note(Abandoned, b.tasks[k].id, state, b.tasks[k].addressed), kind, x);
    } else {
      var gone := Table.Evicted(b.table, b.tasks[k].id);
      if gone.Some? { NoteCounts(b, Note(Evicted, gone.value, state, b.tasks[k].addressed), kind, x); }
    }
  }

  lemma EndOnce(b: Books, k: TaskId, frame: Option<Table.Frame>, state: Session.State, x: Id)
    requires TasksOk(b) && k in b.tasks && Once(b, x)
    ensures Once(EndTask(b, k, frame, state), x)
  {
    EndTasksOk(b, k, frame, state);
    EndCounts(b, k, frame, state, Registered, x);
    EndCounts(b, k, frame, state, Invoked, x);
  }

  lemma EndAllCounts(b: Books, k: TaskId, frame: Option<Table.Frame>, state: Session.State)
    requires Table.Valid(b.table) && TasksOk(b) && CountsOk(b) && k in b.tasks
    ensures CountsOk(EndTask(b, k, frame, state))
  {
    forall x ensures Balanced(EndTask(b, k, frame, state), x) && Once(EndTask(b, k, frame, state), x) {
      assert Balanced(b, x) && Once(b, x);
      EndOnce(b, k, frame, state, x);
      if frame.Some? { CompleteBalanced(b, k, frame.value, state, x); } else { AbandonBalanced(b, k, state, x); }
    }
  }

  lemma EndTableOk(b: Books, k: TaskId, frame: Option<Table.Frame>, state: Session.State)
    requires Table.Valid(b.table) && k in b.tasks
    ensures Table.Valid(EndTask(b, k, frame, state).table)
  {
    if frame.Some? { Table.CompleteValid(b.table, b.tasks[k].id, frame.value); } else { Table.AbandonValid(b.table, b.tasks[k].id); }
  }

  lemma EndOk(b: Books, k: TaskId, frame: Option<Table.Frame>, state: Session.State)
    requires BooksOk(b) && k in b.tasks
    ensures BooksOk(EndTask(b, k, frame, state))
  {
    EndTableOk(b, k, frame, state);
    EndTasksOk(b, k, frame, state);
    EndAllCounts(b, k, frame, state);
    var gone := Table.Evicted(b.table, b.tasks[k].id);
    if frame.Some? && gone.Some? {
      NotedOk(b, Note(Evicted, gone.value, state, b.tasks[k].addressed), EndTask(b, k, frame, state));
    } else {
      NotedOk(b, Note(Abandoned, b.tasks[k].id, state, b.tasks[k].addressed), EndTask(b, k, frame, state));
    }
  }

  lemma StartOk(b: Books, k: TaskId, invokes: bool, state: Session.State)
    requires BooksOk(b) && k in b.tasks && !b.tasks[k].working && state.Ready? && b.tasks[k].addressed == b.instance
    ensures BooksOk(StartWork(b, k, invokes, state))
  {
    StartTasksOk(b, k, invokes, state);
    NotedOk(b, Note(Invoked, b.tasks[k].id, state, b.tasks[k].addressed), StartWork(b, k, invokes, state));
    forall x ensures Balanced(StartWork(b, k, invokes, state), x) && Once(StartWork(b, k, invokes, state), x) {
      assert Balanced(b, x) && Once(b, x);
      StartCounts(b, k, invokes, state, x);
    }
  }

  lemma StartTasksOk(b: Books, k: TaskId, invokes: bool, state: Session.State)
    requires TasksOk(b) && k in b.tasks
    ensures TasksOk(StartWork(b, k, invokes, state))
  {
    var n := StartWork(b, k, invokes, state);
    forall j | j in n.tasks ensures TaskKnown(n, j) { assert TaskKnown(b, j); }
    forall x | x in n.table.inflight ensures EntryTasked(n, x) { assert EntryTasked(b, x); }
  }

  lemma StartCounts(b: Books, k: TaskId, invokes: bool, state: Session.State, x: Id)
    requires TasksOk(b) && k in b.tasks && !b.tasks[k].working && Balanced(b, x) && Once(b, x)
    ensures Balanced(StartWork(b, k, invokes, state), x) && Once(StartWork(b, k, invokes, state), x)
  {
    var n, id := StartWork(b, k, invokes, state), b.tasks[k].id;
    NoteCounts(b, Note(Invoked, id, state, b.tasks[k].addressed), Registered, x);
    NoteCounts(b, Note(Invoked, id, state, b.tasks[k].addressed), Abandoned, x);
    NoteCounts(b, Note(Invoked, id, state, b.tasks[k].addressed), Evicted, x);
    NoteCounts(b, Note(Invoked, id, state, b.tasks[k].addressed), Invoked, x);
    assert TaskKnown(b, k);
    assert x == id ==> Scheduled(b, x) && !Scheduled(n, x);
    assert Scheduled(n, x) ==> Scheduled(b, x);
  }

  lemma WorkingChanges(tasks: map<TaskId, Task>, k: TaskId)
    requires k in tasks
    ensures |Working(tasks - {k})| == |Working(tasks)| - if tasks[k].working then 1 else 0
    ensures !tasks[k].working ==> |Working(tasks[k := tasks[k].(working := true)])| == |Working(tasks)| + 1
  {
    assert Working(tasks - {k}) == Working(tasks) - {k};
    if !tasks[k].working { assert Working(tasks[k := tasks[k].(working := true)]) == Working(tasks) + {k}; }
  }

  // ---- every step -------------------------------------------------------------------------------

  lemma ArriveOk(o: Owner, length: nat, parsed: Option<Raw>)
    requires OwnerOk(o)
    ensures OwnerOk(ArriveStep(o, length, parsed))
  {
    var g := Gate.Check(length, Gate.DecodeFrame(parsed), o.books.build, o.books.instance);
    if g.Passed? {
      var id, c := Gate.IdToken(g), Gate.CanonicalToken(g);
      EnterWorking(o.books, id, c, o.fence.state, g.addressed);
      if Table.Classify(o.books.table, id, c).1.New? {
        EnterNewOk(o.books, id, c, o.fence.state, g.addressed);
      } else {
        EnterOldOk(o.books, id, c, o.fence.state, g.addressed);
      }
    }
  }

  lemma BeginOk(o: Owner, k: TaskId, invokes: bool, refusal: Table.Frame)
    requires OwnerOk(o)
    ensures OwnerOk(BeginStep(o, k, invokes, refusal))
  {
    if k in o.books.tasks && !o.books.tasks[k].working {
      var r := Session.Admit(o.fence, Gate.Code(o.books.instance), Some(Gate.Code(o.books.tasks[k].addressed)));
      if o.draining || r.Err? {
        RefusedOk(o, k, refusal);
      } else {
        Gate.CodeInjective(o.books.tasks[k].addressed, o.books.instance);
        StartedOk(o, k, invokes);
      }
    }
  }

  lemma StartedOk(o: Owner, k: TaskId, invokes: bool)
    requires OwnerOk(o) && k in o.books.tasks && !o.books.tasks[k].working && o.fence.state.Ready?
    requires o.books.tasks[k].addressed == o.books.instance
    ensures OwnerOk(o.(fence := o.fence.(active := o.fence.active + 1), books := StartWork(o.books, k, invokes, o.fence.state)))
  {
    WorkingChanges(o.books.tasks, k);
    StartOk(o.books, k, invokes, o.fence.state);
  }

  lemma RefusedOk(o: Owner, k: TaskId, refusal: Table.Frame)
    requires OwnerOk(o) && k in o.books.tasks && !o.books.tasks[k].working
    ensures OwnerOk(o.(books := Complete(o.books, k, refusal, o.fence.state)))
  {
    WorkingChanges(o.books.tasks, k);
    EndOk(o.books, k, Some(refusal), o.fence.state);
  }

  lemma FinishOk(o: Owner, k: TaskId, frame: Option<Table.Frame>)
    requires OwnerOk(o)
    ensures OwnerOk(FinishStep(o, k, frame))
  {
    if k in o.books.tasks && o.books.tasks[k].working {
      WorkingChanges(o.books.tasks, k);
      EndOk(o.books, k, frame, o.fence.state);
    }
  }

  lemma StepOk(o: Owner, e: Event)
    requires OwnerOk(o)
    ensures OwnerOk(Step(o, e))
  {
    match e
    case Arrive(length, parsed) => ArriveOk(o, length, parsed);
    case Begin(k, invokes, refusal) => BeginOk(o, k, invokes, refusal);
    case Finish(k, frame) => FinishOk(o, k, frame);
    case _ => LocalOk(o, e);
  }

  /** Local admissions and lifecycle steps leave the books alone. */
  lemma LocalFrame(o: Owner, e: Event)
    requires !e.Arrive? && !e.Begin? && !e.Finish?
    ensures var n := Step(o, e); n.books == o.books && n.fence.active - n.others == o.fence.active - o.others
  {
  }

  lemma LocalOk(o: Owner, e: Event)
    requires OwnerOk(o) && !e.Arrive? && !e.Begin? && !e.Finish?
    ensures OwnerOk(Step(o, e))
  {
    LocalFrame(o, e);
  }

  lemma {:induction false} RunOk(o: Owner, es: seq<Event>)
    requires OwnerOk(o)
    ensures OwnerOk(Run(o, es))
    decreases |es|
  {
    if es != [] { StepOk(o, es[0]); RunOk(Step(o, es[0]), es[1..]); }
  }

  // ---- over any sequence of requests ------------------------------------------------------------

  lemma ReachedOk(maxInflight: nat, maxCompleted: nat, build: Text, instance: Text, es: seq<Event>)
    requires maxInflight >= 1 && maxCompleted >= 1
    ensures OwnerOk(Run(Initial(maxInflight, maxCompleted, build, instance), es))
  {
    InitialOk(maxInflight, maxCompleted, build, instance);
    RunOk(Initial(maxInflight, maxCompleted, build, instance), es);
  }

  /** Dispatcher invocations carrying one request id number at most one plus that id's abandons
      and evictions, and each happened inside an admission granted while READY to a
      request whose own envelope names this owner's instance. */
  lemma InvokedAtMostOnce(maxInflight: nat, maxCompleted: nat, build: Text, instance: Text, es: seq<Event>, id: Id)
    requires maxInflight >= 1 && maxCompleted >= 1
    ensures var b := Run(Initial(maxInflight, maxCompleted, build, instance), es).books;
            && Count(b.log, Invoked, id) <= Count(b.log, Registered, id) <= 1 + Count(b.log, Abandoned, id) + Count(b.log, Evicted, id)
            && LogOk(b)
  {
    ReachedOk(maxInflight, maxCompleted, build, instance, es);
    var b := Run(Initial(maxInflight, maxCompleted, build, instance), es).books;
    assert Balanced(b, id) && Once(b, id);
  }

  /** The admission count covers the owner tasks at work, so a drain waits for every request the
      Dispatcher is working on. */
  lemma DrainWaitsForRequests(maxInflight: nat, maxCompleted: nat, build: Text, instance: Text, es: seq<Event>, k: TaskId)
    requires maxInflight >= 1 && maxCompleted >= 1
    requires var o := Run(Initial(maxInflight, maxCompleted, build, instance), es); k in o.books.tasks && o.books.tasks[k].working
    ensures Run(Initial(maxInflight, maxCompleted, build, instance), es).fence.active > 0
  {
    ReachedOk(maxInflight, maxCompleted, build, instance, es);
    assert k in Working(Run(Initial(maxInflight, maxCompleted, build, instance), es).books.tasks);
  }

  /** Only a request addressed to this owner in every respect is ever registered; any other
      arrival changes nothing. */
  lemma OnlyAddressedEnters(o: Owner, length: nat, parsed: Option<Raw>)
    requires o.books.build != [] && o.books.instance != []
    requires var m := Gate.DecodeFrame(parsed); m.None? || !Gate.Addressed(length, m.value, o.books.build, o.books.instance)
    ensures Step(o, Arrive(length, parsed)) == o
  {
    Gate.PassedExactly(length, Gate.DecodeFrame(parsed), o.books.build, o.books.instance);
  }

  /** Nothing but a task's first step invokes, and none once the session is not READY or the
      server drains, or for a request addressed to another instance. */
  lemma OnlyReadyInvokes(o: Owner, e: Event, id: Id)
    requires Count(Step(o, e).books.log, Invoked, id) > Count(o.books.log, Invoked, id)
    ensures e.Begin? && e.invokes && o.fence.state.Ready? && !o.draining
    ensures e.k in o.books.tasks && o.books.tasks[e.k].id == id && !o.books.tasks[e.k].working
    ensures o.books.tasks[e.k].addressed == o.books.instance
  {
    match e
    case Arrive(length, parsed) => ArriveInvokesNothing(o, length, parsed, id);
    case Begin(k, invokes, refusal) => BeginInvokes(o, k, invokes, refusal, id);
    case Finish(k, frame) => if k in o.books.tasks { EndCounts(o.books, k, frame, o.fence.state, Invoked, id); }
    case _ =>
  }

  lemma ArriveInvokesNothing(o: Owner, length: nat, parsed: Option<Raw>, id: Id)
    ensures Count(ArriveStep(o, length, parsed).books.log, Invoked, id) == Count(o.books.log, Invoked, id)
  {
    var g := Gate.Check(length, Gate.DecodeFrame(parsed), o.books.build, o.books.instance);
    if g.Passed? { NoteCounts(o.books, Note(Registered, Gate.IdToken(g), o.fence.state, g.addressed), Invoked, id); }
  }

  lemma BeginInvokes(o: Owner, k: TaskId, invokes: bool, refusal: Table.Frame, id: Id)
    requires Count(BeginStep(o, k, invokes, refusal).books.log, Invoked, id) > Count(o.books.log, Invoked, id)
    ensures invokes && o.fence.state.Ready? && !o.draining
    ensures k in o.books.tasks && o.books.tasks[k].id == id && !o.books.tasks[k].working
    ensures o.books.tasks[k].addressed == o.books.instance
  {
    if k in o.books.tasks {
      if Gate.Code(o.books.tasks[k].addressed) == Gate.Code(o.books.instance) {
        Gate.CodeInjective(o.books.tasks[k].addressed, o.books.instance);
      }
      NoteCounts(o.books, Note(Invoked, o.books.tasks[k].id, o.fence.state, o.books.tasks[k].addressed), Invoked, id);
      EndCounts(o.books, k, Some(refusal), o.fence.state, Invoked, id);
    }
  }

  /** The second fence behind the gate: the gate lets no request for another instance become a
      task, and if one did it would lose at its admission all the same, answered with the refusal
      and never at work. */
  lemma StaleIsRefused(o: Owner, k: TaskId, invokes: bool, refusal: Table.Frame)
    requires OwnerOk(o) && k in o.books.tasks && !o.books.tasks[k].working && o.books.tasks[k].addressed != o.books.instance
    ensures var n := BeginStep(o, k, invokes, refusal);
            && k !in n.books.tasks && n.fence == o.fence
            && Table.Lookup(n.books.table, o.books.tasks[k].id).Some? && Table.Lookup(n.books.table, o.books.tasks[k].id).value.Answered?
            && Table.Lookup(n.books.table, o.books.tasks[k].id).value.response == refusal
  {
    if Gate.Code(o.books.tasks[k].addressed) == Gate.Code(o.books.instance) {
      Gate.CodeInjective(o.books.tasks[k].addressed, o.books.instance);
    }
    assert TaskKnown(o.books, k);
    Table.CompleteRefines(o.books.table, o.books.tasks[k].id, refusal);
  }
}
