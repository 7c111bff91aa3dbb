/** The transport's listener and its handlers: the READY gate, the handler slots, and the
    connections tracked for shutdown. The listener, every handler and stop() are threads of
    their own; an event is one statement of one of them. */
module Acceptor {
  import opened Wrappers

  type Conn = nat

  datatype Listener =
    | NotStarted
    | Parked
    | Checking
    | Accepting
    | Accepted(c: Conn)
    | Slotted(c: Conn)
    | Tracked(c: Conn)
    | Ended

  /** A handler before its hello, or after it. */
  datatype Handler = Fresh | Greeted

  /** How far stop() has come. */
  datatype Stopping = NotYet | Flagged | GateOpened | EndpointClosed | Swept

  /** `ready` records that the gate was released after READY; `lost` is the connection whose
      handler thread could not be started; `hellos` is history. */
  datatype Transport = Transport(max: nat, free: nat, gate: bool, running: bool, endpoint: bool, ready: bool,
                                 listener: Listener, handlers: map<Conn, Handler>, tracked: set<Conn>, lost: Option<Conn>,
                                 stopping: Stopping, next: Conn, hellos: nat)

  datatype Got = Connection | Rejected | AcceptFails

  datatype Event =
    | Bind
    | StartAccepting(starts: bool)
    | ReleaseGate
    | Listen(got: Got, starts: bool)
    | Hello(c: Conn)
    | HandlerEnds(c: Conn)
    | StopTick

  function ListenStep(t: Transport, got: Got, starts: bool): Transport {
    match t.listener
    case Parked => if t.gate then t.(listener := Checking) else t
    case Checking => t.(listener := if t.running && t.endpoint then Accepting else Ended)
    case Accepting => (
      match got
      case Connection => t.(listener := Accepted(t.next), next := t.next + 1)
      case Rejected => t.(listener := Checking)
      case AcceptFails => t.(listener := Ended))
    case Accepted(c) => if t.free == 0 then t.(listener := Checking) else t.(free := t.free - 1, listener := Slotted(c))
    case Slotted(c) => t.(tracked := t.tracked + {c}, listener := Tracked(c))
    case Tracked(c) =>
      if starts then t.(handlers := t.handlers[c := Fresh], listener := Checking)
      else t.(lost := Some(c), listener := Ended)
    case _ => t
  }

  function StopStep(t: Transport): Transport {
    match t.stopping
    case NotYet => t.(running := false, stopping := Flagged)
    case Flagged => t.(gate := true, stopping := GateOpened)
    case GateOpened => t.(endpoint := false, stopping := EndpointClosed)
    case EndpointClosed => t.(tracked := {}, stopping := Swept)
    case Swept => t
  }

  function Step(t: Transport, e: Event): Transport {
    match e
    case Bind => if t.listener.NotStarted? && t.stopping.NotYet? then t.(endpoint := true) else t
    case StartAccepting(starts) =>
      if t.endpoint && t.listener.NotStarted? && t.stopping.NotYet?
      then t.(running := true, listener := if starts then Parked else NotStarted)
      else t
    case ReleaseGate => t.(gate := true, ready := true)
    case Listen(got, starts) => ListenStep(t, got, starts)
    case Hello(c) => if c in t.handlers && t.handlers[c].Fresh? then t.(handlers := t.handlers[c := Greeted], hellos := t.hellos + 1) else t
    case HandlerEnds(c) =>
      if c in t.handlers then t.(handlers := t.handlers - {c}, tracked := t.tracked - {c}, free := t.free + 1) else t
    case StopTick => StopStep(t)
  }

  function Run(t: Transport, es: seq<Event>): Transport
    decreases |es|
  {
    if es == [] then t else Run(Step(t, es[0]), es[1..])
  }

  function Initial(max: nat): Transport {
    Transport(max, max, false, false, false, false, NotStarted, map[], {}, None, NotYet, 0, 0)
  }

  /** The listener is past the gate with a connection in view. */
  predicate Inside(l: Listener) {
    l.Accepting? || l.Accepted? || l.Slotted? || l.Tracked?
  }

  /** The listener holds a slot for this connection. */
  predicate Pending(l: Listener, c: Conn) {
    l == Slotted(c) || l == Tracked(c)
  }

  function Held(l: Listener): nat {
    if l.Slotted? || l.Tracked? then 1 else 0
  }

  function Lost(t: Transport): nat {
    if t.lost.Some? then 1 else 0
  }

  predicate Known(t: Transport, c: Conn) {
    c in t.handlers || t.lost == Some(c) || Pending(t.listener, c)
  }

  /** Every slot is free, or held for one handler, for the connection in the listener's hands,
      or for a handler that never started. */
  ghost predicate SlotsOk(t: Transport) {
    && t.free + |t.handlers| + Held(t.listener) + Lost(t) == t.max
    && (t.lost.Some? ==> t.listener.Ended?)
    && (t.listener.Accepted? || t.listener.Slotted? || t.listener.Tracked? ==> t.listener.c < t.next && t.listener.c !in t.handlers)
    && (forall c | c in t.handlers :: c < t.next)
    && (forall c | c in t.tracked :: Known(t, c))
  }

  ghost predicate GateOk(t: Transport) {
    && (t.running ==> t.stopping.NotYet?)
    && (t.gate && !t.ready ==> !t.stopping.NotYet?)
    && (!t.listener.NotStarted? && !t.listener.Parked? ==> t.gate)
    && (Inside(t.listener) || t.handlers != map[] || t.hellos > 0 || t.lost.Some? ==> t.ready)
    && (t.stopping.Swept? ==> |t.tracked| <= 1
                              && (t.tracked != {} ==> t.listener.Tracked? || t.listener.Checking? || t.listener.Ended?))
  }

  lemma SpawnSlots(t: Transport, got: Got, starts: bool)
    requires SlotsOk(t) && t.listener.Tracked?
    ensures SlotsOk(ListenStep(t, got, starts))
  {
    MapMore(t.handlers, t.listener.c, Fresh);
  }

  lemma TakeSlots(t: Transport, got: Got, starts: bool)
    requires SlotsOk(t) && (t.listener.Accepted? || t.listener.Slotted?)
    ensures SlotsOk(ListenStep(t, got, starts))
  {
  }

  /** The listener moves with no slot in its hands before or after. */
  lemma MoveSlots(t: Transport, l: Listener, next: Conn)
    requires SlotsOk(t) && Held(t.listener) == 0 && Held(l) == 0 && next >= t.next && t.lost.None?
    requires l.Accepted? ==> l.c < next && l.c !in t.handlers
    ensures SlotsOk(t.(listener := l, next := next))
  {
    var n := t.(listener := l, next := next);
    forall c | c in n.tracked ensures Known(n, c) { assert Known(t, c); }
  }

  lemma ListenSlots(t: Transport, got: Got, starts: bool)
    requires SlotsOk(t)
    ensures SlotsOk(ListenStep(t, got, starts))
  {
    match t.listener
    case Tracked(_) => SpawnSlots(t, got, starts);
    case Accepted(_) => TakeSlots(t, got, starts);
    case Slotted(_) => TakeSlots(t, got, starts);
    case _ =>
      ListenFrame(t, got, starts);
      if t.lost.None? { MoveSlots(t, ListenStep(t, got, starts).listener, ListenStep(t, got, starts).next); }
  }

  /** With no slot in its hands, the listener moves and at most numbers a new connection. */
  lemma ListenFrame(t: Transport, got: Got, starts: bool)
    requires !t.listener.Accepted? && !t.listener.Slotted? && !t.listener.Tracked?
    ensures var n := ListenStep(t, got, starts);
            && n == t.(listener := n.listener, next := n.next) && n.next >= t.next && Held(n.listener) == 0
            && (n.listener.Accepted? ==> n.listener.c == t.next && n.next == t.next + 1)
            && (t.listener.Ended? ==> n == t)
  {
  }

  lemma MapMore(m: map<Conn, Handler>, c: Conn, h: Handler)
    ensures |m[c := h]| == |m| + if c in m then 0 else 1
  {
    assert m[c := h].Keys == m.Keys + {c};
  }

  lemma MapLess(m: map<Conn, Handler>, c: Conn)
    requires c in m
    ensures |m - {c}| == |m| - 1
  {
    assert (m - {c}).Keys == m.Keys - {c};
  }

  lemma ListenGate(t: Transport, got: Got, starts: bool)
    requires GateOk(t)
    ensures GateOk(ListenStep(t, got, starts))
  {
    if t.listener.Slotted? && t.stopping.Swept? { assert t.tracked + {t.listener.c} == {t.listener.c}; }
  }

  lemma EndSlots(t: Transport, c: Conn)
    requires SlotsOk(t) && c in t.handlers
    ensures SlotsOk(Step(t, HandlerEnds(c)))
  {
    MapLess(t.handlers, c);
  }

  lemma EndGate(t: Transport, c: Conn)
    requires GateOk(t)
    ensures GateOk(Step(t, HandlerEnds(c)))
  {
    if c in t.tracked { assert |t.tracked - {c}| == |t.tracked| - 1; } else { assert t.tracked - {c} == t.tracked; }
  }

  lemma HelloOk(t: Transport, c: Conn)
    requires SlotsOk(t) && GateOk(t) && c in t.handlers
    ensures SlotsOk(Step(t, Hello(c))) && GateOk(Step(t, Hello(c)))
  {
    MapMore(t.handlers, c, Greeted);
  }

  lemma StartOk(t: Transport, e: Event)
    requires SlotsOk(t) && GateOk(t) && (e.Bind? || e.StartAccepting? || e.ReleaseGate?)
    ensures SlotsOk(Step(t, e)) && GateOk(Step(t, e))
  {
  }

  /** stop() moves no slot, and it only ever forgets connections. */
  lemma StopFrame(t: Transport)
    ensures var n := StopStep(t);
            && n == t.(running := n.running, gate := n.gate, endpoint := n.endpoint, tracked := n.tracked, stopping := n.stopping)
            && (n.tracked == t.tracked || n.tracked == {})
  {
  }

  lemma ForgetSlots(t: Transport, n: Transport)
    requires SlotsOk(t) && (n.tracked == t.tracked || n.tracked == {})
    requires n == t.(running := n.running, gate := n.gate, endpoint := n.endpoint, tracked := n.tracked, stopping := n.stopping)
    ensures SlotsOk(n)
  {
    forall c | c in n.tracked ensures Known(n, c) { assert Known(t, c); }
  }

  lemma StopSlots(t: Transport)
    requires SlotsOk(t)
    ensures SlotsOk(StopStep(t))
  {
    StopFrame(t);
    ForgetSlots(t, StopStep(t));
  }

  lemma StopGate(t: Transport)
    requires GateOk(t)
    ensures GateOk(StopStep(t))
  {
  }

  lemma StepOk(t: Transport, e: Event)
    requires SlotsOk(t) && GateOk(t)
    ensures SlotsOk(Step(t, e)) && GateOk(Step(t, e))
  {
    match e
    case Listen(got, starts) => ListenGate(t, got, starts); ListenSlots(t, got, starts);
    case HandlerEnds(c) => if c in t.handlers { EndSlots(t, c); EndGate(t, c); }
    case Hello(c) => if c in t.handlers { HelloOk(t, c); }
    case StopTick => StopSlots(t); StopGate(t);
    case _ => StartOk(t, e);
  }

  lemma StepKeepsMax(t: Transport, e: Event)
    ensures Step(t, e).max == t.max
  {
  }

  lemma {:induction false} RunOk(t: Transport, es: seq<Event>)
    requires SlotsOk(t) && GateOk(t)
    ensures SlotsOk(Run(t, es)) && GateOk(Run(t, es)) && Run(t, es).max == t.max
    decreases |es|
  {
    if es != [] { StepOk(t, es[0]); StepKeepsMax(t, es[0]); RunOk(Step(t, es[0]), es[1..]); }
  }

  /** In every run: no more handlers than slots; no connection is accepted and no hello served
      before READY released the gate; and a slot is lost only to a handler thread that could
      not start, which also ends the listener. */
  lemma Bounded(max: nat, es: seq<Event>)
    ensures var t := Run(Initial(max), es);
            && |t.handlers| <= max
            && (t.hellos > 0 || t.handlers != map[] || Inside(t.listener) ==> t.ready)
            && t.free + |t.handlers| + Held(t.listener) + Lost(t) == max
            && (t.lost.Some? ==> t.listener.Ended?)
  {
    RunOk(Initial(max), es);
  }

  /** stop() closes what is tracked; a connection in the listener's hands at that moment is the
      only one that can be tracked afterwards. */
  lemma AtMostOneLate(max: nat, es: seq<Event>)
    ensures var t := Run(Initial(max), es); t.stopping.Swept? ==> |t.tracked| <= 1 && !t.running
  {
    RunOk(Initial(max), es);
  }

  /** The listener has a connection, or may still get one. */
  predicate MayTrack(l: Listener) {
    l.Accepting? || l.Accepted? || l.Slotted?
  }

  /** What a finished sweep leaves: nothing tracked, and a listener that tracks no more. */
  predicate Quiet(t: Transport) {
    t.stopping.Swept? && t.tracked == {} && !MayTrack(t.listener)
  }

  lemma QuietStep(t: Transport, e: Event)
    requires GateOk(t) && Quiet(t)
    ensures Quiet(Step(t, e))
  {
  }

  lemma {:induction false} QuietStays(t: Transport, es: seq<Event>)
    requires SlotsOk(t) && GateOk(t) && Quiet(t)
    ensures Quiet(Run(t, es))
    decreases |es|
  {
    if es != [] {
      QuietStep(t, es[0]);
      StepOk(t, es[0]);
      QuietStays(Step(t, es[0]), es[1..]);
    }
  }

  lemma RunFirst(t: Transport, e: Event, es: seq<Event>)
    ensures Run(t, [e] + es) == Run(Step(t, e), es)
  {
    assert ([e] + es)[1..] == es;
  }

  /** A way for a listener with a connection in view to track one after the sweep. */
  lemma LateRun(t: Transport) returns (es: seq<Event>)
    requires SlotsOk(t) && GateOk(t) && t.stopping.Swept? && MayTrack(t.listener) && t.max > 0
    ensures Run(t, es).tracked != {}
    decreases if t.listener.Accepting? then 3 else if t.listener.Accepted? && t.free == 0 then 2 else if t.listener.Accepted? then 1 else 0
  {
    var e := Listen(Connection, true);
    if t.listener.Slotted? {
      es := [e] + [];
      RunFirst(t, e, []);
    } else {
      if t.listener.Accepted? && t.free == 0 {
        assert |t.handlers| == t.max;
        assert t.handlers != map[];
        var c :| c in t.handlers;
        e := HandlerEnds(c);
      }
      StepOk(t, e);
      StepKeepsMax(t, e);
      var rest := LateRun(Step(t, e));
      es := [e] + rest;
      RunFirst(t, e, rest);
    }
  }

  /** In every run, once stop() has swept and nothing is tracked, nothing is tracked ever again
      exactly when the listener is not inside accept() and holds no connection it has yet to
      track. (A transport without slots tracks nothing at all.) */
  lemma NothingLateExactly(max: nat, es: seq<Event>)
    requires var t := Run(Initial(max), es); t.stopping.Swept? && t.tracked == {}
    ensures var t := Run(Initial(max), es);
            (forall more :: Run(t, more).tracked == {}) <==> !MayTrack(t.listener) || max == 0
  {
    RunOk(Initial(max), es);
    var t := Run(Initial(max), es);
    if !MayTrack(t.listener) {
      forall more ensures Run(t, more).tracked == {} { QuietStays(t, more); }
    } else if max == 0 {
      forall more ensures Run(t, more).tracked == {} { NoSlotsNoTracks(t, more); }
    } else {
      var more := LateRun(t);
      assert Run(t, more).tracked != {};
    }
  }

  lemma {:induction false} NoSlotsNoTracks(t: Transport, es: seq<Event>)
    requires SlotsOk(t) && GateOk(t) && t.max == 0
    ensures Run(t, es).tracked == {}
    decreases |es|
  {
    if es == [] {
      assert |t.handlers| == 0 && t.handlers == map[];
      assert forall c :: !Known(t, c);
    } else {
      StepOk(t, es[0]);
      StepKeepsMax(t, es[0]);
      NoSlotsNoTracks(Step(t, es[0]), es[1..]);
    }
  }

  /** From the initial state to a listener with a connection in its hands when stop() sweeps. */
  function LateHistory(): seq<Event> {
    [Bind, StartAccepting(true), ReleaseGate, Listen(Connection, true), Listen(Connection, true), Listen(Connection, true),
     Listen(Connection, true), StopTick, StopTick, StopTick, StopTick, Listen(Connection, true)]
  }

  /** Such a run: accepted before the sweep, tracked after it, on any transport with slots. */
  lemma OneCanBeLate(max: nat)
    requires max > 0
    ensures var t := Run(Initial(max), LateHistory()); t.stopping.Swept? && t.tracked == {0} && !t.running
  {
    LateFrom(max, 0);
    assert LateHistory()[0..] == LateHistory();
  }

  lemma {:induction false} LateFrom(max: nat, n: nat)
    requires max > 0 && n <= |LateHistory()|
    ensures Run(LateState(max, n), LateHistory()[n..]) == LateState(max, |LateHistory()|)
    decreases |LateHistory()| - n
  {
    if n < |LateHistory()| {
      LateStep(max, n);
      LateFrom(max, n + 1);
      assert LateHistory()[n..] == [LateHistory()[n]] + LateHistory()[n + 1..];
      RunFirst(LateState(max, n), LateHistory()[n], LateHistory()[n + 1..]);
    }
  }

  /** The state after the first `n` events of that run. */
  function LateState(max: nat, n: nat): Transport
    requires max > 0
  {
    var l := if n < 2 then NotStarted else if n < 4 then Parked else if n == 4 then Checking else if n == 5 then Accepting
             else if n == 6 then Accepted(0) else if n < 12 then Slotted(0) else Tracked(0);
    Transport(max, if n < 7 then max else max - 1, n >= 3, 2 <= n <= 7, 1 <= n <= 9, n >= 3, l, map[],
              if n == 12 then {0} else {}, None,
              if n < 8 then NotYet else if n == 8 then Flagged else if n == 9 then GateOpened
              else if n == 10 then EndpointClosed else Swept,
              if n < 6 then 0 else 1, 0)
  }

  /** A slot is lost exactly when the thread of a tracked connection's handler does not start. */
  lemma LostExactly(t: Transport, e: Event)
    requires SlotsOk(t) && GateOk(t)
    ensures Step(t, e).lost != t.lost <==> e.Listen? && t.listener.Tracked? && !e.starts
    ensures Step(t, e).lost != t.lost ==> Step(t, e).lost == Some(t.listener.c) && Step(t, e).listener.Ended?
  {
  }

  lemma LateStep(max: nat, n: nat)
    requires max > 0 && n < 12
    ensures |LateHistory()| == 12 && Step(LateState(max, n), LateHistory()[n]) == LateState(max, n + 1)
  {
  }

  /** Once stop() has begun, a listener at the top of its loop accepts nothing more. */
  lemma StoppedListenerEnds(t: Transport, got: Got, starts: bool)
    requires SlotsOk(t) && GateOk(t) && !t.stopping.NotYet? && t.listener.Checking?
    ensures ListenStep(t, got, starts).listener.Ended?
  {
  }

  /** What one connection does to the listener: a peer it rejects, or finds no slot for, sends it
      back for the next one with no slot taken; only a failing accept() and a handler that cannot
      start end it, and stop() at its next look. */
  lemma ListenerGoesOn(t: Transport, got: Got, starts: bool)
    ensures var n := Step(t, Listen(got, starts));
            && (t.listener.Accepting? ==>
                  if got.AcceptFails? then n.listener.Ended? else if got.Rejected? then n.listener.Checking? else n.listener == Accepted(t.next))
            && (t.listener.Accepted? ==>
                  if t.free == 0 then n == t.(listener := Checking) else n.listener == Slotted(t.listener.c) && n.free == t.free - 1)
            && (t.listener.Tracked? ==> if starts then n.listener.Checking? && t.listener.c in n.handlers else n.listener.Ended?)
            && (t.listener.Checking? ==> (n.listener.Accepting? <==> t.running && t.endpoint) && (n.listener.Ended? <==> !(t.running && t.endpoint)))
  {
  }

  /** One connection from the start to its end, through the gate, a slot, its handler's hello and
      its close, with one slot more or less on the way. */
  function ServedHistory(): seq<Event> {
    [Bind, StartAccepting(true), ReleaseGate, Listen(Connection, true), Listen(Connection, true), Listen(Connection, true),
     Listen(Connection, true), Listen(Connection, true), Listen(Connection, true), Hello(0), HandlerEnds(0)]
  }

  /** The transport after the first `n` of these events. */
  function ServedState(max: nat, n: nat): Transport
    requires max > 0
  {
    var slot := 7 <= n <= 10;
    Transport(max, if slot then max - 1 else max, n >= 3, n >= 2, n >= 1, n >= 3,
              if n < 2 then NotStarted else if n < 4 then Parked else if n < 5 then Checking else if n < 6 then Accepting
              else if n < 7 then Accepted(0) else if n < 8 then Slotted(0) else if n < 9 then Tracked(0) else Checking,
              if n < 9 || n == 11 then map[] else map[0 := if n == 9 then Fresh else Greeted],
              if 8 <= n <= 10 then {0} else {}, None, NotYet, if n < 6 then 0 else 1, if n < 10 then 0 else 1)
  }

  lemma ServedStep(max: nat, n: nat)
    requires max > 0 && n < 11
    ensures |ServedHistory()| == 11 && Step(ServedState(max, n), ServedHistory()[n]) == ServedState(max, n + 1)
  {
    assert map[0 := Greeted] - {0} == map[];
    assert map[0 := Fresh][0 := Greeted] == map[0 := Greeted];
  }

  lemma {:induction false} ServedFrom(max: nat, n: nat)
    requires max > 0 && n <= |ServedHistory()|
    ensures Run(ServedState(max, n), ServedHistory()[n..]) == ServedState(max, |ServedHistory()|)
    decreases |ServedHistory()| - n
  {
    if n < |ServedHistory()| {
      ServedStep(max, n);
      ServedFrom(max, n + 1);
      assert ServedHistory()[n..][0] == ServedHistory()[n] && ServedHistory()[n..][1..] == ServedHistory()[n + 1..];
    }
  }

  /** A connection is served: accepted once the gate is open, given a slot, greeted by its
      handler, and afterwards every slot is free and the listener ready for the next. */
  lemma ConnectionIsServed(max: nat)
    requires max > 0
    ensures var t := Run(Initial(max), ServedHistory());
            t.hellos == 1 && t.next == 1 && t.free == max && t.handlers == map[] && t.tracked == {} && t.listener.Checking? && t.running
  {
    ServedFrom(max, 0);
    assert ServedHistory()[0..] == ServedHistory();
  }
}
