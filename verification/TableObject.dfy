/** The retained request table in place: the same operations on the object's own
    dictionaries and futures. */
module TableObject {
  import opened Wrappers
  import opened RequestTable
  import R = RequestTable

  class RetainedRequestTable {
    const maxInflight: nat
    const maxCompleted: nat
    var inflight: map<Id, Inflight>
    var completed: map<Id, Done>
    var order: seq<Id>
    var futures: seq<FutureState>

    constructor (maxInflight: nat, maxCompleted: nat)
      requires maxInflight >= 1 && maxCompleted >= 1
      ensures Value() == Empty(maxInflight, maxCompleted) && Valid(Value())
    {
      this.maxInflight, this.maxCompleted := maxInflight, maxCompleted;
      inflight, completed, order, futures := map[], map[], [], [];
    }

    function Value(): Table
      reads this
    {
      Table(inflight, completed, order, futures, maxInflight, maxCompleted)
    }

    method Classify(id: Id, c: Canonical) returns (d: Decision)
      requires Valid(Value())
      modifies this
      ensures (Value(), d) == R.Classify(old(Value()), id, c) && Valid(Value())
    {
      ClassifyValid(Value(), id, c);
      if id in inflight {
        if inflight[id].canonical == c { return Join(inflight[id].future); }
        return Violation;
      }
      if id in completed {
        if completed[id].canonical == c {
          order := Without(order, id) + [id];
          return Retained(completed[id].response);
        }
        return Violation;
      }
      if |inflight| >= maxInflight { return Full; }
      var future := |futures|;
      futures := futures + [Unresolved];
      inflight := inflight[id := Inflight(c, future, None)];
      return New(future);
    }

    /** The strong reference to the owner task: no answer depends on it. */
    method PinTask(id: Id, task: nat)
      requires Valid(Value())
      modifies this`inflight
      ensures Value() == R.Pin(old(Value()), id, task) && Valid(Value())
      ensures forall other, c :: R.Classify(Value(), other, c).1 == R.Classify(old(Value()), other, c).1
    {
      PinValid(Value(), id, task);
      PinKeepsAnswers(Value(), id, task);
      if id in inflight {
        inflight := inflight[id := inflight[id].(task := Some(task))];
      }
    }

    method Complete(id: Id, response: Frame)
      requires Valid(Value())
      modifies this
      ensures Value() == R.Complete(old(Value()), id, response) && Valid(Value())
    {
      CompleteValid(Value(), id, response);
      if id !in inflight { return; }
      var entry := inflight[id];
      inflight := inflight - {id};
      if |completed| >= maxCompleted && order != [] {
        var oldest := order[0];
        order, completed := order[1..], completed - {oldest};
      }
      completed, order := completed[id := Done(entry.canonical, response)], order + [id];
      if futures[entry.future].Unresolved? {
        futures := futures[entry.future := Resolved(response)];
      }
    }

    method Abandon(id: Id)
      requires Valid(Value())
      modifies this
      ensures Value() == R.Abandon(old(Value()), id) && Valid(Value())
    {
      AbandonValid(Value(), id);
      if id !in inflight { return; }
      var entry := inflight[id];
      inflight := inflight - {id};
      if futures[entry.future].Unresolved? {
        futures := futures[entry.future := FutureState.Failed];
      }
    }
  }
}
