/** What a request comes to: an addressed arrival gets a task, the task works once admitted, and
    what it ends with is the answer its id has from then on. */
module PipelineOutcomes {
  import opened Wrappers
  import opened Json
  import opened Pipeline
  import Gate
  import Session
  import Table = RequestTable

  /** Whoever asks again with the same request gets this frame, and whoever waited has it. */
  predicate AnsweredWith(o: Owner, id: Id, entry: Table.Inflight, response: Table.Frame) {
    && Table.Classify(o.books.table, id, entry.canonical).1 == Table.Retained(response)
    && entry.future < |o.books.table.futures| && o.books.table.futures[entry.future] == Table.Resolved(response)
  }

  predicate OthersAtWork(o: Owner, n: Owner, k: TaskId) {
    n.books.tasks == o.books.tasks - {k} && n.draining == o.draining && n.others == o.others
  }

  lemma CompletedIsAnswered(t: Table.Table, id: Id, response: Table.Frame)
    requires Table.Valid(t) && id in t.inflight
    ensures var n, e := Table.Complete(t, id, response), t.inflight[id];
            && Table.Classify(n, id, e.canonical).1 == Table.Retained(response)
            && e.future < |n.futures| && n.futures[e.future] == Table.Resolved(response)
  {
    Table.CompleteRefines(t, id, response);
    assert id !in Table.Complete(t, id, response).inflight;
  }

  /** A task that ends with a frame: that frame is the answer, to those who waited and to those
      who ask again; the admission is over. */
  lemma FinishedIsAnswered(o: Owner, k: TaskId, response: Table.Frame)
    requires OwnerOk(o) && k in o.books.tasks && o.books.tasks[k].working
    ensures var n, id := Step(o, Finish(k, Some(response))), o.books.tasks[k].id;
            && id in o.books.table.inflight && AnsweredWith(n, id, o.books.table.inflight[id], response)
            && OthersAtWork(o, n, k) && n.fence.active == o.fence.active - 1
  {
    assert TaskKnown(o.books, k);
    CompletedIsAnswered(o.books.table, o.books.tasks[k].id, response);
  }

  /** A task that ends with an exception: those who waited see it, and the id is free to be asked
      as new. */
  lemma RaisedIsForgotten(o: Owner, k: TaskId)
    requires OwnerOk(o) && k in o.books.tasks && o.books.tasks[k].working
    ensures var n, id := Step(o, Finish(k, None)), o.books.tasks[k].id;
            && id in o.books.table.inflight && Table.Lookup(n.books.table, id).None?
            && var f := o.books.table.inflight[id].future;
            && f < |n.books.table.futures| && n.books.table.futures[f] == Table.FutureState.Failed
            && OthersAtWork(o, n, k) && n.fence.active == o.fence.active - 1
            && Count(n.books.log, Abandoned, id) == Count(o.books.log, Abandoned, id) + 1
  {
    assert TaskKnown(o.books, k);
    var id := o.books.tasks[k].id;
    Table.AbandonRefines(o.books.table, id);
    NoteCounts(o.books, Note(Abandoned, id, o.fence.state, o.books.tasks[k].addressed), Abandoned, id);
  }

  /** A scheduled task whose request names this instance is at work after its first step, exactly
      if the session is READY and no drain has begun, and then with one more invocation on
      record if it makes one; otherwise the refusal is its answer. */
  lemma BegunExactly(o: Owner, k: TaskId, invokes: bool, refusal: Table.Frame)
    requires OwnerOk(o) && k in o.books.tasks && !o.books.tasks[k].working && o.books.tasks[k].addressed == o.books.instance
    ensures var n, task := Step(o, Begin(k, invokes, refusal)), o.books.tasks[k];
            && task.id in o.books.table.inflight
            && if o.fence.state.Ready? && !o.draining then
                 && n.books.tasks == o.books.tasks[k := task.(working := true)] && n.books.table == o.books.table
                 && n.fence == o.fence.(active := o.fence.active + 1)
                 && Count(n.books.log, Invoked, task.id) == Count(o.books.log, Invoked, task.id) + if invokes then 1 else 0
               else
                 && AnsweredWith(n, task.id, o.books.table.inflight[task.id], refusal)
                 && OthersAtWork(o, n, k) && n.fence == o.fence
                 && Count(n.books.log, Invoked, task.id) == Count(o.books.log, Invoked, task.id)
  {
    assert TaskKnown(o.books, k);
    if o.fence.state.Ready? && !o.draining { Works(o, k, invokes, refusal); } else { IsRefused(o, k, invokes, refusal); }
  }

  lemma Works(o: Owner, k: TaskId, invokes: bool, refusal: Table.Frame)
    requires k in o.books.tasks && !o.books.tasks[k].working && o.books.tasks[k].addressed == o.books.instance
    requires o.fence.state.Ready? && !o.draining
    ensures var n, task := Step(o, Begin(k, invokes, refusal)), o.books.tasks[k];
            && n.books.tasks == o.books.tasks[k := task.(working := true)] && n.books.table == o.books.table
            && n.fence == o.fence.(active := o.fence.active + 1)
            && Count(n.books.log, Invoked, task.id) == Count(o.books.log, Invoked, task.id) + if invokes then 1 else 0
  {
    NoteCounts(o.books, Note(Invoked, o.books.tasks[k].id, o.fence.state, o.books.tasks[k].addressed), Invoked, o.books.tasks[k].id);
  }

  lemma IsRefused(o: Owner, k: TaskId, invokes: bool, refusal: Table.Frame)
    requires Table.Valid(o.books.table) && k in o.books.tasks && !o.books.tasks[k].working && TaskKnown(o.books, k)
    requires !o.fence.state.Ready? || o.draining
    ensures var n, task := Step(o, Begin(k, invokes, refusal)), o.books.tasks[k];
            && AnsweredWith(n, task.id, o.books.table.inflight[task.id], refusal)
            && OthersAtWork(o, n, k) && n.fence == o.fence
            && Count(n.books.log, Invoked, task.id) == Count(o.books.log, Invoked, task.id)
  {
    CompletedIsAnswered(o.books.table, o.books.tasks[k].id, refusal);
    EndCounts(o.books, k, Some(refusal), o.fence.state, Invoked, o.books.tasks[k].id);
  }

  /** An arrival that passes every gate gets a task of its own exactly if its id is unknown and
      the table has room; the entry is the request's and its future is open. Otherwise no task
      is added and nothing in flight changes. */
  lemma ArrivedExactly(o: Owner, length: nat, parsed: Option<Raw>)
    requires Gate.Check(length, Gate.DecodeFrame(parsed), o.books.build, o.books.instance).Passed?
    ensures var g := Gate.Check(length, Gate.DecodeFrame(parsed), o.books.build, o.books.instance);
            && Step(o, Arrive(length, parsed)) == o.(books := Step(o, Arrive(length, parsed)).books)
            && Entered(o.books, Step(o, Arrive(length, parsed)).books, Gate.IdToken(g), Gate.CanonicalToken(g))
  {
    var g := Gate.Check(length, Gate.DecodeFrame(parsed), o.books.build, o.books.instance);
    Gate.PassedCarries(length, Gate.DecodeFrame(parsed).value, o.books.build, o.books.instance);
    EnteredExactly(o.books, Gate.IdToken(g), Gate.CanonicalToken(g), o.fence.state, g.addressed);
  }

  /** The books after an arrival with this id and canonical request. */
  ghost predicate Entered(b: Books, n: Books, id: Id, c: Table.Canonical) {
    if Table.Lookup(b.table, id).None? && |b.table.inflight| < b.table.maxInflight then
      && n.tasks == b.tasks[b.next := Task(id, b.instance, false)]
      && n.table.inflight == b.table.inflight[id := Table.Inflight(c, |b.table.futures|, Some(b.next))]
      && n.table.futures == b.table.futures + [Table.Unresolved]
      && Table.Classify(n.table, id, c).1 == Table.Join(|b.table.futures|)
      && Count(n.log, Registered, id) == Count(b.log, Registered, id) + 1
    else
      n.tasks == b.tasks && n.table.inflight == b.table.inflight && n.log == b.log
  }

  lemma EnteredExactly(b: Books, id: Id, c: Table.Canonical, state: Session.State, addressed: Text)
    requires addressed == b.instance
    ensures Entered(b, Enter(b, id, c, state, addressed), id, c)
  {
    NoteCounts(b, Note(Registered, id, state, addressed), Registered, id);
  }
}
