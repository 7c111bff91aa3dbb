/** The retained request table as a value: a bounded in-flight map and a bounded
    least-recently-used map of completed frames. */
module RequestTable {
  import opened Wrappers
  import Sets

  // Request ids, canonical identities and response frames are compared and stored, never
  // inspected; they are opaque tokens here.
  type Id = nat
  type Canonical = nat
  type Frame = nat
  type Future = nat

  datatype FutureState = Unresolved | Resolved(response: Frame) | Failed

  datatype Inflight = Inflight(canonical: Canonical, future: Future, task: Option<nat>)

  datatype Done = Done(canonical: Canonical, response: Frame)

  /** `order` is the ordered dictionary's order, oldest first; `futures` lists every future
      created, by number. */
  datatype Table = Table(inflight: map<Id, Inflight>, completed: map<Id, Done>, order: seq<Id>,
                         futures: seq<FutureState>, maxInflight: nat, maxCompleted: nat)

  datatype Decision = New(future: Future) | Join(future: Future) | Retained(response: Frame) | Violation | Full

  function Empty(maxInflight: nat, maxCompleted: nat): Table {
    Table(map[], map[], [], [], maxInflight, maxCompleted)
  }

  /** The sequence without the entry. */
  function Without(s: seq<Id>, x: Id): seq<Id>
    decreases |s|
  {
    if s == [] then [] else (if s[0] == x then [] else [s[0]]) + Without(s[1..], x)
  }

  function Classify(t: Table, id: Id, c: Canonical): (Table, Decision) {
    if id in t.inflight then
      (t, if t.inflight[id].canonical == c then Join(t.inflight[id].future) else Violation)
    else if id in t.completed then
      if t.completed[id].canonical == c
      then (t.(order := Without(t.order, id) + [id]), Retained(t.completed[id].response))
      else (t, Violation)
    else if |t.inflight| >= t.maxInflight then (t, Full)
    else
      (t.(inflight := t.inflight[id := Inflight(c, |t.futures|, None)], futures := t.futures + [Unresolved]),
       New(|t.futures|))
  }

  function Pin(t: Table, id: Id, task: nat): Table {
    if id in t.inflight then t.(inflight := t.inflight[id := t.inflight[id].(task := Some(task))]) else t
  }

  function Resolve(futures: seq<FutureState>, f: Future, to: FutureState): seq<FutureState> {
    if f < |futures| && futures[f].Unresolved? then futures[f := to] else futures
  }

  /** The completed entry that making room for one more pushes out. */
  function Evicted(t: Table, id: Id): Option<Id> {
    if id in t.inflight && |t.completed| >= t.maxCompleted && t.order != [] then Some(t.order[0]) else None
  }

  function Complete(t: Table, id: Id, response: Frame): Table {
    if id !in t.inflight then t
    else
      var entry := t.inflight[id];
      var gone := Evicted(t, id);
      t.(inflight := t.inflight - {id},
         completed := (if gone.Some? then t.completed - {gone.value} else t.completed)[id := Done(entry.canonical, response)],
         order := (if gone.Some? then t.order[1..] else t.order) + [id],
         futures := Resolve(t.futures, entry.future, Resolved(response)))
  }

  function Abandon(t: Table, id: Id): Table {
    if id !in t.inflight then t
    else t.(inflight := t.inflight - {id}, futures := Resolve(t.futures, t.inflight[id].future, Failed))
  }

  // ---- well-formed tables ---------------------------------------------------------------

  ghost predicate Distinct(s: seq<Id>) {
    forall i, j | 0 <= i < j < |s| :: s[i] != s[j]
  }

  function Elements(s: seq<Id>): set<Id> {
    set x | x in s
  }

  ghost predicate OrderOk(t: Table) {
    && t.inflight.Keys !! t.completed.Keys
    && |t.order| <= t.maxCompleted
    && Distinct(t.order) && Elements(t.order) == t.completed.Keys
  }

  ghost predicate FuturesOk(t: Table) {
    && (forall id | id in t.inflight :: t.inflight[id].future < |t.futures| && t.futures[t.inflight[id].future].Unresolved?)
    && (forall a, b | a in t.inflight && b in t.inflight && a != b :: t.inflight[a].future != t.inflight[b].future)
  }

  /** Disjoint, within both limits, and every in-flight id with its own unresolved future. */
  ghost predicate Valid(t: Table) {
    t.maxInflight >= 1 && t.maxCompleted >= 1 && |t.inflight| <= t.maxInflight && OrderOk(t) && FuturesOk(t)
  }

  lemma {:induction false} WithoutExact(s: seq<Id>, x: Id)
    requires Distinct(s)
    ensures Distinct(Without(s, x)) && Elements(Without(s, x)) == Elements(s) - {x}
    ensures |Without(s, x)| == |s| - (if x in s then 1 else 0)
    decreases |s|
  {
    if s != [] {
      WithoutExact(s[1..], x);
      assert Elements(s) == {s[0]} + Elements(s[1..]);
      assert s[0] !in s[1..];
      var rest := Without(s[1..], x);
      assert forall y :: y in rest <==> y in Elements(rest);
      if s[0] != x {
        assert Without(s, x) == [s[0]] + rest;
        assert s[0] !in rest;
        assert Elements([s[0]] + rest) == {s[0]} + Elements(rest);
      } else {
        assert Without(s, x) == rest;
        WithoutAbsent(s[1..], x);
      }
    }
  }

  lemma {:induction false} WithoutAbsent(s: seq<Id>, x: Id)
    requires x !in s
    ensures Without(s, x) == s
    decreases |s|
  {
    if s != [] { WithoutAbsent(s[1..], x); }
  }

  lemma {:induction false} DistinctCard(s: seq<Id>)
    requires Distinct(s)
    ensures |Elements(s)| == |s|
    decreases |s|
  {
    if s != [] {
      DistinctCard(s[1..]);
      assert Elements(s) == {s[0]} + Elements(s[1..]);
    }
  }

  lemma ClassifyValid(t: Table, id: Id, c: Canonical)
    requires Valid(t)
    ensures Valid(Classify(t, id, c).0)
  {
    if id in t.completed {
      assert id in Elements(t.order);
      MoveToEnd(t.order, id);
    } else if id !in t.inflight && |t.inflight| < t.maxInflight {
      NewValid(t, id, c);
    }
  }

  lemma MoveToEnd(s: seq<Id>, x: Id)
    requires Distinct(s) && x in s
    ensures var n := Without(s, x) + [x]; Distinct(n) && Elements(n) == Elements(s) && |n| == |s|
  {
    WithoutExact(s, x);
    assert Elements(Without(s, x) + [x]) == Elements(Without(s, x)) + {x};
  }

  lemma NewValid(t: Table, id: Id, c: Canonical)
    requires Valid(t) && id !in t.completed && id !in t.inflight && |t.inflight| < t.maxInflight
    ensures Valid(Classify(t, id, c).0)
  {
  }

  lemma DropOldest(s: seq<Id>)
    requires Distinct(s) && s != []
    ensures Distinct(s[1..]) && Elements(s[1..]) == Elements(s) - {s[0]}
  {
    assert Elements(s) == {s[0]} + Elements(s[1..]);
  }

  lemma Push(s: seq<Id>, x: Id)
    requires Distinct(s) && x !in Elements(s)
    ensures Distinct(s + [x]) && Elements(s + [x]) == Elements(s) + {x}
  {
  }

  lemma CompleteOrderOk(t: Table, id: Id, response: Frame)
    requires OrderOk(t) && t.maxCompleted >= 1 && id in t.inflight
    ensures OrderOk(Complete(t, id, response))
  {
    DistinctCard(t.order);
    if Evicted(t, id).Some? {
      DropOldest(t.order);
      Push(t.order[1..], id);
    } else {
      Push(t.order, id);
    }
  }

  lemma CompleteFuturesOk(t: Table, id: Id, response: Frame)
    requires FuturesOk(t)
    ensures FuturesOk(Complete(t, id, response))
  {
  }

  /** The reference to the owner task decides nothing: with or without it every request is
      answered alike. */
  lemma PinKeepsAnswers(t: Table, id: Id, task: nat)
    ensures forall other, c :: Classify(Pin(t, id, task), other, c).1 == Classify(t, other, c).1
  {
    PinFrame(t, id, task);
  }

  lemma PinFrame(t: Table, id: Id, task: nat)
    ensures var n := Pin(t, id, task);
            && n.inflight.Keys == t.inflight.Keys && |n.inflight| == |t.inflight|
            && forall x | x in t.inflight ::
                 n.inflight[x].future == t.inflight[x].future && n.inflight[x].canonical == t.inflight[x].canonical
  {
    var n := Pin(t, id, task);
    assert n.inflight.Keys == t.inflight.Keys;
    assert |n.inflight| == |n.inflight.Keys| && |t.inflight| == |t.inflight.Keys|;
  }

  lemma PinValid(t: Table, id: Id, task: nat)
    requires Valid(t)
    ensures Valid(Pin(t, id, task))
  {
    PinFrame(t, id, task);
  }

  lemma CompleteValid(t: Table, id: Id, response: Frame)
    requires Valid(t)
    ensures Valid(Complete(t, id, response))
  {
    CompleteFuturesOk(t, id, response);
    if id in t.inflight {
      CompleteOrderOk(t, id, response);
      SmallerMap(t.inflight, id);
    }
  }

  lemma SmallerMap(m: map<Id, Inflight>, id: Id)
    requires id in m
    ensures |m - {id}| == |m| - 1
  {
    assert (m - {id}).Keys == m.Keys - {id};
  }

  lemma AbandonValid(t: Table, id: Id)
    requires Valid(t)
    ensures Valid(Abandon(t, id))
  {
    if id in t.inflight { SmallerMap(t.inflight, id); }
  }

  // ---- the unbounded idempotence table ----------------------------------------------------

  /** What a table knows of an id. */
  datatype Record = Running(canonical: Canonical, future: Future) | Answered(canonical: Canonical, response: Frame)

  /** The rules of an unbounded table, for the one id an operation names. Execute once; the
      same request again joins or gets the one answer; any other request is a violation. */
  function IdemClassify(r: Option<Record>, c: Canonical, next: Future): (Option<Record>, Decision) {
    match r
    case None => (Some(Running(c, next)), New(next))
    case Some(Running(c', f)) => (r, if c' == c then Join(f) else Violation)
    case Some(Answered(c', response)) => (r, if c' == c then Retained(response) else Violation)
  }

  function IdemComplete(r: Option<Record>, response: Frame): Option<Record> {
    if r.Some? && r.value.Running? then Some(Answered(r.value.canonical, response)) else r
  }

  function IdemAbandon(r: Option<Record>): Option<Record> {
    if r.Some? && r.value.Running? then None else r
  }

  function Lookup(t: Table, id: Id): Option<Record> {
    if id in t.inflight then Some(Running(t.inflight[id].canonical, t.inflight[id].future))
    else if id in t.completed then Some(Answered(t.completed[id].canonical, t.completed[id].response))
    else None
  }

  /** Each operation is the unbounded table's operation on its id and nothing on the others,
      but that a full table refuses an unknown id, and that a completion may first forget
      the oldest answered id. */
  lemma ClassifyRefines(t: Table, id: Id, c: Canonical)
    requires Valid(t)
    ensures var (n, d) := Classify(t, id, c);
            && (if d == Full then n == t && Lookup(t, id) == None && |t.inflight| == t.maxInflight
                else (Lookup(n, id), d) == IdemClassify(Lookup(t, id), c, |t.futures|))
            && forall x | x != id :: Lookup(n, x) == Lookup(t, x)
  {
  }

  lemma CompleteRefines(t: Table, id: Id, response: Frame)
    requires Valid(t)
    ensures var n := Complete(t, id, response);
            && Lookup(n, id) == IdemComplete(Lookup(t, id), response)
            && (forall x | x != id :: Lookup(n, x) == if Some(x) == Evicted(t, id) then None else Lookup(t, x))
    ensures Evicted(t, id).Some? ==>
              Evicted(t, id).value != id && Lookup(t, Evicted(t, id).value).Some? && Lookup(t, Evicted(t, id).value).value.Answered?
  {
    if t.order != [] { assert t.order[0] in Elements(t.order); }
  }

  lemma AbandonRefines(t: Table, id: Id)
    requires Valid(t)
    ensures Lookup(Abandon(t, id), id) == IdemAbandon(Lookup(t, id))
    ensures forall x | x != id :: Lookup(Abandon(t, id), x) == Lookup(t, x)
  {
  }

  // ---- runs against a table that never forgets ---------------------------------------------

  datatype Op = DoClassify(id: Id, c: Canonical) | DoComplete(id: Id, response: Frame) | DoAbandon(id: Id)

  /** A run of the bounded table beside one that never forgets. `forgotten` is what the
      bounded table has evicted and not seen again; an answer to such an id, or a refusal,
      is where the two may differ, and a re-registration re-opens the id in both. */
  datatype Pair = Pair(t: Table, w: map<Id, Record>, forgotten: set<Id>)

  function At(w: map<Id, Record>, id: Id): Option<Record> {
    if id in w then Some(w[id]) else None
  }

  function Store(w: map<Id, Record>, id: Id, r: Option<Record>): map<Id, Record> {
    if r.Some? then w[id := r.value] else w - {id}
  }

  function StepPair(p: Pair, op: Op): Pair {
    match op
    case DoClassify(id, c) =>
      var (n, d) := Classify(p.t, id, c);
      if d.New? then Pair(n, p.w[id := Running(c, d.future)], p.forgotten - {id}) else p.(t := n)
    case DoComplete(id, r) =>
      var gone := Evicted(p.t, id);
      Pair(Complete(p.t, id, r), Store(p.w, id, IdemComplete(At(p.w, id), r)),
           if gone.Some? then p.forgotten + {gone.value} else p.forgotten)
    case DoAbandon(id) => Pair(Abandon(p.t, id), Store(p.w, id, IdemAbandon(At(p.w, id))), p.forgotten)
  }

  /** The never-forgetting table knows what the bounded one knows, and an answer for every
      forgotten id. */
  ghost predicate Beside(p: Pair, id: Id) {
    if id in p.forgotten then Lookup(p.t, id) == None && id in p.w && p.w[id].Answered?
    else At(p.w, id) == Lookup(p.t, id)
  }

  ghost predicate PairOk(p: Pair) {
    Valid(p.t) && forall id :: Beside(p, id)
  }

  /** The one answer the bounded table may give instead of the unbounded one's. */
  predicate Permitted(p: Pair, id: Id, c: Canonical) {
    var d := Classify(p.t, id, c).1;
    || d == IdemClassify(At(p.w, id), c, |p.t.futures|).1
    || (d == Full && |p.t.inflight| == p.t.maxInflight)
    || (d.New? && id in p.forgotten)
  }

  lemma ClassifyPairOk(p: Pair, id: Id, c: Canonical)
    requires PairOk(p)
    ensures PairOk(StepPair(p, DoClassify(id, c))) && Permitted(p, id, c)
  {
    ClassifyValid(p.t, id, c);
    ClassifyRefines(p.t, id, c);
    forall x ensures Beside(StepPair(p, DoClassify(id, c)), x) { assert Beside(p, x) && Beside(p, id); }
  }

  lemma CompleteBeside(p: Pair, id: Id, r: Frame, x: Id)
    requires Valid(p.t) && Beside(p, x) && Beside(p, id)
    ensures Beside(StepPair(p, DoComplete(id, r)), x)
  {
    CompleteRefines(p.t, id, r);
    var q := StepPair(p, DoComplete(id, r));
    assert x != id ==> At(q.w, x) == At(p.w, x);
    if Some(x) == Evicted(p.t, id) { assert x in q.forgotten; }
  }

  lemma CompletePairOk(p: Pair, id: Id, r: Frame)
    requires PairOk(p)
    ensures PairOk(StepPair(p, DoComplete(id, r)))
  {
    CompleteValid(p.t, id, r);
    forall x ensures Beside(StepPair(p, DoComplete(id, r)), x) { CompleteBeside(p, id, r, x); }
  }

  lemma AbandonPairOk(p: Pair, id: Id)
    requires PairOk(p)
    ensures PairOk(StepPair(p, DoAbandon(id)))
  {
    AbandonValid(p.t, id);
    AbandonRefines(p.t, id);
    forall x ensures Beside(StepPair(p, DoAbandon(id)), x) { assert Beside(p, x) && Beside(p, id); }
  }

  lemma PairStepOk(p: Pair, op: Op)
    requires PairOk(p)
    ensures PairOk(StepPair(p, op))
  {
    match op
    case DoClassify(id, c) => ClassifyPairOk(p, id, c);
    case DoComplete(id, r) => CompletePairOk(p, id, r);
    case DoAbandon(id) => AbandonPairOk(p, id);
  }

  function RunPair(p: Pair, ops: seq<Op>): Pair
    decreases |ops|
  {
    if ops == [] then p else RunPair(StepPair(p, ops[0]), ops[1..])
  }

  lemma {:induction false} RunPairOk(p: Pair, ops: seq<Op>)
    requires PairOk(p)
    ensures PairOk(RunPair(p, ops))
    decreases |ops|
  {
    if ops != [] { PairStepOk(p, ops[0]); RunPairOk(StepPair(p, ops[0]), ops[1..]); }
  }

  /** After any history, every answer is the unbounded table's, or "full" at saturation, or
      "new" for an id evicted since it was answered. */
  lemma EveryAnswerPermitted(maxInflight: nat, maxCompleted: nat, ops: seq<Op>, id: Id, c: Canonical)
    requires maxInflight >= 1 && maxCompleted >= 1
    ensures Permitted(RunPair(Pair(Empty(maxInflight, maxCompleted), map[], {}), ops), id, c)
  {
    var p := Pair(Empty(maxInflight, maxCompleted), map[], {});
    RunPairOk(p, ops);
    ClassifyPairOk(RunPair(p, ops), id, c);
  }

  /** In-flight ids are never evicted: only their own completion or abandonment removes them. */
  lemma InflightPinned(t: Table, op: Op, id: Id)
    requires id in t.inflight
    requires (op.DoComplete? || op.DoAbandon?) ==> op.id != id
    ensures id in StepPair(Pair(t, map[], {}), op).t.inflight
    ensures StepPair(Pair(t, map[], {}), op).t.inflight[id] == t.inflight[id]
  {
    match op
    case DoClassify(x, c) => assert Classify(t, x, c).1.New? ==> x != id;
    case DoComplete(x, r) => assert Complete(t, x, r).inflight == t.inflight - {x};
    case DoAbandon(x) => assert Abandon(t, x).inflight == t.inflight - {x};
  }

  // ---- retention is exactly least-recently-used ---------------------------------------------

  /** A use of an answer: its completion or a retained re-read. */
  function Uses(t: Table, op: Op): seq<Id> {
    match op
    case DoClassify(id, c) => if Classify(t, id, c).1.Retained? then [id] else []
    case DoComplete(id, _) => if id in t.inflight then [id] else []
    case DoAbandon(_) => []
  }

  function StepTable(t: Table, op: Op): Table {
    match op
    case DoClassify(id, c) => Classify(t, id, c).0
    case DoComplete(id, r) => Complete(t, id, r)
    case DoAbandon(id) => Abandon(t, id)
  }

  /** The distinct other ids used since the id's own last use. */
  function UsedSince(uses: seq<Id>, id: Id): set<Id>
    decreases |uses|
  {
    if uses == [] then {}
    else
      var x := uses[|uses| - 1];
      if x == id then {} else {x} + UsedSince(uses[..|uses| - 1], id)
  }

  /** The entries after the first occurrence of the id. */
  function Later(s: seq<Id>, id: Id): set<Id>
    decreases |s|
  {
    if s == [] then {} else if s[0] == id then Elements(s[1..]) else Later(s[1..], id)
  }

  /** A kept id was last used just before the ids after it in the order; a dropped id was
      last used before all of them, and the order is then full. */
  ghost predicate Placed(order: seq<Id>, limit: nat, uses: seq<Id>, id: Id) {
    && (id in order ==> id in uses && UsedSince(uses, id) == Later(order, id))
    && (id in uses && id !in order ==> Elements(order) <= UsedSince(uses, id) && |order| == limit)
  }

  ghost predicate Recent(t: Table, uses: seq<Id>) {
    forall id :: Placed(t.order, t.maxCompleted, uses, id)
  }

  lemma UseAppended(uses: seq<Id>, x: Id, id: Id)
    ensures UsedSince(uses + [x], id) == if x == id then {} else {x} + UsedSince(uses, id)
  {
    assert (uses + [x])[..|uses|] == uses;
  }

  lemma {:induction false} LaterPushed(s: seq<Id>, x: Id, id: Id)
    requires id in s
    ensures Later(s + [x], id) == Later(s, id) + {x}
    decreases |s|
  {
    assert (s + [x])[1..] == s[1..] + [x];
    if s[0] == id {
      assert Elements(s[1..] + [x]) == Elements(s[1..]) + {x};
    } else {
      LaterPushed(s[1..], x, id);
    }
  }

  lemma {:induction false} LaterOfNew(s: seq<Id>, x: Id)
    requires x !in s
    ensures Later(s + [x], x) == {}
    decreases |s|
  {
    if s != [] {
      assert (s + [x])[1..] == s[1..] + [x];
      LaterOfNew(s[1..], x);
    }
  }

  lemma {:induction false} LaterWithout(s: seq<Id>, x: Id, id: Id)
    requires Distinct(s) && id in s && id != x
    ensures id in Without(s, x) && Later(Without(s, x), id) == Later(s, id) - {x}
    decreases |s|
  {
    WithoutExact(s[1..], x);
    if s[0] == id {
      assert Without(s, x) == [id] + Without(s[1..], x);
    } else {
      LaterWithout(s[1..], x, id);
      if s[0] == x { assert Without(s, x) == Without(s[1..], x); }
      else { assert Without(s, x) == [s[0]] + Without(s[1..], x) && (Without(s, x))[1..] == Without(s[1..], x); }
    }
  }

  lemma {:induction false} LaterWithin(s: seq<Id>, id: Id)
    requires Distinct(s) && id in s
    ensures Later(s, id) <= Elements(s) - {id}
    decreases |s|
  {
    if s[0] != id { LaterWithin(s[1..], id); }
  }

  /** Re-reading a kept answer. */
  lemma HitPlaced(order: seq<Id>, limit: nat, uses: seq<Id>, x: Id, id: Id)
    requires Distinct(order) && x in order && Placed(order, limit, uses, id)
    ensures Placed(Without(order, x) + [x], limit, uses + [x], id)
  {
    WithoutExact(order, x);
    var w := Without(order, x);
    assert forall y :: y in w <==> y in Elements(w);
    UseAppended(uses, x, id);
    if id == x {
      LaterOfNew(w, x);
    } else if id in order {
      LaterWithout(order, x, id);
      LaterPushed(w, x, id);
    } else {
      assert Elements(w + [x]) == Elements(w) + {x};
    }
  }

  /** Completing a request: the new answer is the most recent, and when there is no room the
      oldest goes. */
  lemma RoomInsertPlaced(order: seq<Id>, limit: nat, uses: seq<Id>, x: Id, id: Id)
    requires Distinct(order) && x !in order && |order| < limit && Placed(order, limit, uses, id)
    ensures Placed(order + [x], limit, uses + [x], id)
  {
    UseAppended(uses, x, id);
    if id == x { LaterOfNew(order, x); }
    else if id in order { LaterPushed(order, x, id); }
  }

  lemma FullInsertPlaced(order: seq<Id>, limit: nat, uses: seq<Id>, x: Id, id: Id)
    requires Distinct(order) && x !in order && |order| == limit && limit >= 1 && Placed(order, limit, uses, id)
    ensures Placed(order[1..] + [x], limit, uses + [x], id)
  {
    UseAppended(uses, x, id);
    DropOldest(order);
    var kept := order[1..];
    assert Elements(kept + [x]) == Elements(kept) + {x};
    assert forall y :: y in kept <==> y in Elements(kept);
    if id == x { LaterOfNew(kept, x); }
    else if id in kept { LaterPushed(kept, x, id); }
    else if id in order { assert id == order[0]; }
  }

  lemma StepPlaced(t: Table, uses: seq<Id>, op: Op, id: Id)
    requires Valid(t) && Placed(t.order, t.maxCompleted, uses, id) && Uses(t, op) != []
    ensures Placed(StepTable(t, op).order, t.maxCompleted, uses + Uses(t, op), id)
  {
    assert forall y :: y in t.order <==> y in Elements(t.order);
    DistinctCard(t.order);
    if op.DoClassify? { HitPlaced(t.order, t.maxCompleted, uses, op.id, id); }
    else if |t.order| < t.maxCompleted { RoomInsertPlaced(t.order, t.maxCompleted, uses, op.id, id); }
    else { FullInsertPlaced(t.order, t.maxCompleted, uses, op.id, id); }
  }

  lemma UnusedOrder(t: Table, op: Op)
    requires Uses(t, op) == []
    ensures StepTable(t, op).order == t.order
  {
  }

  lemma StepRecent(t: Table, uses: seq<Id>, op: Op)
    requires Valid(t) && Recent(t, uses) && StepTable(t, op).maxCompleted == t.maxCompleted
    ensures Recent(StepTable(t, op), uses + Uses(t, op))
  {
    if Uses(t, op) == [] {
      UnusedOrder(t, op);
      assert uses + [] == uses;
    } else {
      forall id ensures Placed(StepTable(t, op).order, t.maxCompleted, uses + Uses(t, op), id) {
        assert Placed(t.order, t.maxCompleted, uses, id);
        StepPlaced(t, uses, op, id);
      }
    }
  }

  lemma StepValid(t: Table, op: Op)
    requires Valid(t)
    ensures Valid(StepTable(t, op)) && StepTable(t, op).maxCompleted == t.maxCompleted
  {
    match op
    case DoClassify(id, c) => ClassifyValid(t, id, c);
    case DoComplete(id, r) => CompleteValid(t, id, r);
    case DoAbandon(id) => AbandonValid(t, id);
  }

  function RunTable(t: Table, ops: seq<Op>): Table
    decreases |ops|
  {
    if ops == [] then t else RunTable(StepTable(t, ops[0]), ops[1..])
  }

  /** The uses a run makes, in order. */
  function UsesOf(t: Table, ops: seq<Op>): seq<Id>
    decreases |ops|
  {
    if ops == [] then [] else Uses(t, ops[0]) + UsesOf(StepTable(t, ops[0]), ops[1..])
  }

  /** A well-formed table whose order tells how recently each id was used. */
  ghost predicate Tracked(t: Table, uses: seq<Id>, max: nat) {
    Valid(t) && t.maxCompleted == max && Recent(t, uses)
  }

  lemma StepTracked(t: Table, uses: seq<Id>, max: nat, op: Op)
    requires Tracked(t, uses, max)
    ensures Tracked(StepTable(t, op), uses + Uses(t, op), max)
  {
    StepValid(t, op);
    StepRecent(t, uses, op);
  }

  lemma {:induction false} RunRecent(t: Table, uses: seq<Id>, max: nat, ops: seq<Op>)
    requires Tracked(t, uses, max)
    ensures Tracked(RunTable(t, ops), uses + UsesOf(t, ops), max)
    decreases |ops|
  {
    if ops == [] {
      assert uses + [] == uses;
    } else {
      var u, more := Uses(t, ops[0]), UsesOf(StepTable(t, ops[0]), ops[1..]);
      StepTracked(t, uses, max, ops[0]);
      RunRecent(StepTable(t, ops[0]), uses + u, max, ops[1..]);
      assert uses + (u + more) == (uses + u) + more;
    }
  }

  /** The operation neither completes nor abandons the id. */
  predicate Spares(op: Op, id: Id) {
    (op.DoComplete? || op.DoAbandon?) ==> op.id != id
  }

  lemma {:induction false} RunPins(t: Table, ops: seq<Op>, id: Id)
    requires Valid(t) && id in t.inflight && forall op | op in ops :: Spares(op, id)
    ensures Valid(RunTable(t, ops)) && id in RunTable(t, ops).inflight && RunTable(t, ops).inflight[id] == t.inflight[id]
    decreases |ops|
  {
    if ops != [] {
      StepValid(t, ops[0]);
      StepSpares(t, ops[0], id);
      RunPins(StepTable(t, ops[0]), ops[1..], id);
    }
  }

  lemma StepSpares(t: Table, op: Op, id: Id)
    requires id in t.inflight && Spares(op, id)
    ensures id in StepTable(t, op).inflight && StepTable(t, op).inflight[id] == t.inflight[id]
  {
    InflightPinned(t, op, id);
  }

  /** A resolved future stays as it is. */
  lemma {:induction false} RunKeepsResolved(t: Table, ops: seq<Op>, f: Future)
    requires Valid(t) && f < |t.futures| && !t.futures[f].Unresolved?
    ensures f < |RunTable(t, ops).futures| && RunTable(t, ops).futures[f] == t.futures[f]
    decreases |ops|
  {
    if ops != [] {
      StepValid(t, ops[0]);
      StepKeepsResolved(t, ops[0], f);
      RunKeepsResolved(StepTable(t, ops[0]), ops[1..], f);
    }
  }

  lemma StepKeepsResolved(t: Table, op: Op, f: Future)
    requires f < |t.futures| && !t.futures[f].Unresolved?
    ensures f < |StepTable(t, op).futures| && StepTable(t, op).futures[f] == t.futures[f]
  {
    if op.DoClassify? { ClassifyKeepsFutures(t, op.id, op.c, f); }
    else if op.DoComplete? { CompleteKeepsResolved(t, op.id, op.response, f); }
  }

  lemma ClassifyKeepsFutures(t: Table, id: Id, c: Canonical, f: Future)
    requires f < |t.futures|
    ensures var n := Classify(t, id, c).0; f < |n.futures| && n.futures[f] == t.futures[f]
  {
  }

  lemma CompleteKeepsResolved(t: Table, id: Id, response: Frame, f: Future)
    requires f < |t.futures| && !t.futures[f].Unresolved?
    ensures var n := Complete(t, id, response); f < |n.futures| && n.futures[f] == t.futures[f]
  {
  }

  /** Whoever joined an id is resolved with exactly the response its completion is given,
      whatever happens between the join and the completion short of abandoning the id, and for
      good. */
  lemma JoinersGetTheResponse(t: Table, id: Id, c: Canonical, between: seq<Op>, response: Frame, later: seq<Op>)
    requires Valid(t) && Classify(t, id, c).1.Join? && forall op | op in between :: Spares(op, id)
    ensures var f := Classify(t, id, c).1.future;
            var done := Complete(RunTable(t, between), id, response);
            && f < |done.futures| && done.futures[f] == Resolved(response)
            && Classify(done, id, c).1 == Retained(response)
            && f < |RunTable(done, later).futures| && RunTable(done, later).futures[f] == Resolved(response)
  {
    RunPins(t, between, id);
    var n := RunTable(t, between);
    assert n.inflight[id].future == Classify(t, id, c).1.future;
    CompleteValid(n, id, response);
    CompleteRefines(n, id, response);
    RunKeepsResolved(Complete(n, id, response), later, Classify(t, id, c).1.future);
  }

  /** Whoever joined an id whose work raised sees it fail, and for good; the id is free again. */
  lemma JoinersSeeTheFailure(t: Table, id: Id, c: Canonical, between: seq<Op>, later: seq<Op>)
    requires Valid(t) && Classify(t, id, c).1.Join? && forall op | op in between :: Spares(op, id)
    ensures var f := Classify(t, id, c).1.future;
            var gone := Abandon(RunTable(t, between), id);
            && f < |gone.futures| && gone.futures[f] == FutureState.Failed && Lookup(gone, id) == None
            && f < |RunTable(gone, later).futures| && RunTable(gone, later).futures[f] == FutureState.Failed
  {
    RunPins(t, between, id);
    var n := RunTable(t, between);
    AbandonValid(n, id);
    AbandonRefines(n, id);
    RunKeepsResolved(Abandon(n, id), later, Classify(t, id, c).1.future);
  }

  /** After any history an answer is retained exactly when it was given and fewer distinct
      other ids than the capacity have been completed or re-read since its own last use. */
  lemma RetentionExact(maxInflight: nat, maxCompleted: nat, ops: seq<Op>, id: Id)
    requires maxInflight >= 1 && maxCompleted >= 1
    ensures var t := Empty(maxInflight, maxCompleted);
            var uses := UsesOf(t, ops);
            id in RunTable(t, ops).completed <==> id in uses && |UsedSince(uses, id)| < maxCompleted
  {
    var t := Empty(maxInflight, maxCompleted);
    var uses := UsesOf(t, ops);
    assert Elements([]) == {};
    RunRecent(t, [], maxCompleted, ops);
    assert [] + uses == uses;
    var n := RunTable(t, ops);
    assert id in n.order <==> id in Elements(n.order);
    assert Placed(n.order, n.maxCompleted, uses, id);
    DistinctCard(n.order);
    if id in n.order {
      LaterWithin(n.order, id);
      Sets.SubsetCard(Later(n.order, id), Elements(n.order) - {id});
    } else if id in uses {
      Sets.SubsetCard(Elements(n.order), UsedSince(uses, id));
    }
  }
}
