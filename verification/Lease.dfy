/** The per-browser write lease: any number of leased writers and readers share one page,
    one mutex and one content-owner field. An operation holds the mutex from its check to
    its end; every awaited browser call in between is a step of its own, may fail, may
    raise, and may navigate the page. */
module Lease {
  import opened Wrappers

  type Broker = nat
  type OpId = nat

  datatype Actor = Writer(b: Broker) | Reader(r: nat)

  /** A composer context token: its mark in the page, the navigation it was bound on, and how
      many browser calls had been made before it. */
  datatype Token = Token(id: nat, nav: nat, since: nat)

  /** The wrapper an operation goes through. `Start` is _start_content, `Owned` is
      _owned_content, `OneShot` is _one_shot, `Read` is the read broker's _coordinated. */
  datatype Kind = Start | Owned | OneShot | Read | CloseComposer | Submit

  datatype Phase = Queued | Working | Proven | Crossed | Ended

  datatype Op = Op(who: Actor, kind: Kind, phase: Phase)

  /** A browser call, by whom and on which navigation; a click also carries its token. */
  datatype Touch = Touch(who: Actor, nav: nat) | Click(who: Actor, nav: nat, token: Token)

  /** `marks` are the context markers in the current page; a navigation starts a page with
      none. `bound` is history: the navigation each token was bound on. */
  datatype Browser = Browser(lock: Option<OpId>, owner: Option<Broker>, tokens: map<Broker, Token>,
                             ops: map<OpId, Op>, nav: nat, marks: set<nat>, next: nat,
                             bound: map<nat, nat>, log: seq<Touch>)

  datatype End = Succeeds | Fails | Raises

  datatype Event =
    | Call(x: OpId, who: Actor, kind: Kind)
    | Enter(x: OpId)
    | Use(x: OpId, navigates: bool)
    | Bind(x: OpId)
    | Prove(x: OpId)
    | Cross(x: OpId)
    | ClickSubmit(x: OpId)
    | DropToken(x: OpId)
    | Finish(x: OpId, end: End)
    | PageMoves

  // ---- the lease's own rules ------------------------------------------------------------

  function Claim(owner: Option<Broker>, b: Broker): (Option<Broker>, bool) {
    if owner.None? then (Some(b), true) else (owner, false)
  }

  function ReleaseOwner(owner: Option<Broker>, b: Broker): Option<Broker> {
    if owner == Some(b) then None else owner
  }

  /** Whether the operation passes the check it makes when it gets the mutex. */
  predicate Passes(owner: Option<Broker>, op: Op) {
    match op.kind
    case Start => op.who.Writer? && owner.None?
    case OneShot => op.who.Writer? && owner.None?
    case Read => owner.None?
    case _ => op.who.Writer? && owner == Some(op.who.b)
  }

  /** A writer's owner field and token after its operation ends. */
  function AfterEnd(op: Op, end: End, owner: Option<Broker>, token: Option<Token>): (Option<Broker>, Option<Token>) {
    if op.who.Reader? then (owner, token)
    else match op.kind
         case Start => if token.None? then (ReleaseOwner(owner, op.who.b), None) else (owner, token)
         case CloseComposer => if end.Succeeds? then (ReleaseOwner(owner, op.who.b), None) else (owner, token)
         case Submit =>
           if op.phase.Crossed? && !end.Raises? then (ReleaseOwner(owner, op.who.b), None) else (owner, token)
         case _ => (owner, token)
  }

  function TokenOf(s: Browser, b: Broker): Option<Token> {
    if b in s.tokens then Some(s.tokens[b]) else None
  }

  function SetToken(tokens: map<Broker, Token>, b: Broker, token: Option<Token>): map<Broker, Token> {
    if token.Some? then tokens[b := token.value] else tokens - {b}
  }

  // ---- steps ------------------------------------------------------------------------------

  predicate Running(s: Browser, x: OpId) {
    x in s.ops && s.lock == Some(x) && !s.ops[x].phase.Queued? && !s.ops[x].phase.Ended?
  }

  function WithPhase(s: Browser, x: OpId, phase: Phase): Browser
    requires x in s.ops
  {
    s.(ops := s.ops[x := s.ops[x].(phase := phase)])
  }

  function EnterOp(s: Browser, x: OpId): Browser
    requires x in s.ops
  {
    var op := s.ops[x];
    if !Passes(s.owner, op) then WithPhase(s, x, Ended)
    else if op.kind.Start? then WithPhase(s.(lock := Some(x), owner := Claim(s.owner, op.who.b).0), x, Working)
    else WithPhase(s.(lock := Some(x)), x, Working)
  }

  function FinishOp(s: Browser, x: OpId, end: End): Browser
    requires x in s.ops
  {
    var op := s.ops[x];
    var t := WithPhase(s.(lock := None), x, Ended);
    if op.who.Reader? then t
    else
      var (owner, token) := AfterEnd(op, end, s.owner, TokenOf(s, op.who.b));
      t.(owner := owner, tokens := SetToken(s.tokens, op.who.b, token))
  }

  /** The marker the approved context left is still in the page. */
  predicate MarkerPresent(s: Browser, who: Actor) {
    who.Writer? && who.b in s.tokens && s.tokens[who.b].id in s.marks
  }

  function Navigate(s: Browser): Browser {
    s.(nav := s.nav + 1, marks := {})
  }

  function Step(s: Browser, e: Event): Browser {
    match e
    case Call(x, who, kind) => if x in s.ops then s else s.(ops := s.ops[x := Op(who, kind, Queued)])
    case Enter(x) => if x in s.ops && s.ops[x].phase.Queued? && s.lock.None? then EnterOp(s, x) else s
    case Use(x, navigates) =>
      if Running(s, x) then
        var t := s.(log := s.log + [Touch(s.ops[x].who, s.nav)]);
        if navigates then Navigate(t) else t
      else s
    case Bind(x) =>
      if Running(s, x) && s.ops[x].kind.Start? && s.ops[x].who.Writer? && s.ops[x].who.b !in s.tokens then
        var token := Token(s.next, s.nav, |s.log|);
        s.(tokens := s.tokens[s.ops[x].who.b := token], marks := s.marks + {s.next}, bound := s.bound[s.next := s.nav],
           next := s.next + 1, log := s.log + [Touch(s.ops[x].who, s.nav)])
      else s
    case Prove(x) =>
      if Running(s, x) && s.ops[x].kind.Submit? && s.ops[x].phase.Working? && MarkerPresent(s, s.ops[x].who)
      then WithPhase(s.(log := s.log + [Touch(s.ops[x].who, s.nav)]), x, Proven) else s
    case Cross(x) => if Running(s, x) && s.ops[x].phase.Proven? then WithPhase(s, x, Crossed) else s
    case ClickSubmit(x) =>
      if Running(s, x) && s.ops[x].kind.Submit? && s.ops[x].phase.Crossed? && MarkerPresent(s, s.ops[x].who)
      then s.(log := s.log + [Click(s.ops[x].who, s.nav, s.tokens[s.ops[x].who.b])]) else s
    case DropToken(x) =>
      if Running(s, x) && s.ops[x].kind.CloseComposer? && s.ops[x].who.Writer?
      then s.(tokens := s.tokens - {s.ops[x].who.b}) else s
    case Finish(x, end) => if Running(s, x) then FinishOp(s, x, end) else s
    case PageMoves => Navigate(s)
  }

  function Run(s: Browser, es: seq<Event>): Browser
    decreases |es|
  {
    if es == [] then s else Run(Step(s, es[0]), es[1..])
  }

  const INITIAL := Browser(None, None, map[], map[], 0, {}, 0, map[], [])

  // ---- the invariant ----------------------------------------------------------------------

  /** Every browser call from index `i` on was made by this writer. */
  ghost predicate OnlyBy(log: seq<Touch>, i: nat, b: Broker) {
    i <= |log| && forall k | i <= k < |log| :: log[k].who == Writer(b)
  }

  ghost predicate TokensOk(s: Browser) {
    forall b | b in s.tokens ::
      var t := s.tokens[b];
      && s.owner == Some(b)
      && t.id < s.next && t.id in s.bound && s.bound[t.id] == t.nav
      && OnlyBy(s.log, t.since, b)
  }

  ghost predicate LockOk(s: Browser) {
    && (s.lock.Some? ==> Running(s, s.lock.value))
    && (forall x | x in s.ops && !s.ops[x].phase.Queued? && !s.ops[x].phase.Ended? :: s.lock == Some(x))
    && (s.lock.Some? ==>
          var op := s.ops[s.lock.value];
          if op.kind.OneShot? || op.kind.Read? then s.owner.None?
          else op.who.Writer? && s.owner == Some(op.who.b))
  }

  ghost predicate MarksOk(s: Browser) {
    && (forall m | m in s.marks :: m in s.bound && s.bound[m] == s.nav)
    && (forall m | m in s.bound :: m < s.next)
  }

  /** A click was made on the navigation its token was bound on, with only its own writer
      having called the browser in between. */
  ghost predicate ClicksOk(log: seq<Touch>) {
    forall i | 0 <= i < |log| && log[i].Click? ::
      && log[i].who.Writer? && log[i].token.nav == log[i].nav && log[i].token.since <= i
      && forall k | log[i].token.since <= k <= i :: log[k].who == log[i].who
  }

  ghost predicate LeaseOk(s: Browser) {
    TokensOk(s) && LockOk(s) && MarksOk(s) && ClicksOk(s.log)
  }

  /** A call by the running operation leaves every bound token the writer's alone. */
  lemma OwnCall(s: Browser, x: OpId, t: Touch)
    requires LeaseOk(s) && Running(s, x) && t.who == s.ops[x].who
    ensures forall b | b in s.tokens :: OnlyBy(s.log + [t], s.tokens[b].since, b)
  {
  }

  lemma StepOk(s: Browser, e: Event)
    requires LeaseOk(s)
    ensures LeaseOk(Step(s, e))
  {
    match e
    case Call(x, who, kind) => CallOk(s, e);
    case Enter(x) => EnterOk(s, x);
    case Use(x, _) => UseOk(s, e);
    case Bind(x) => BindOk(s, x);
    case Prove(x) => SubmitOk(s, e);
    case Cross(x) => SubmitOk(s, e);
    case ClickSubmit(x) => ClickOk(s, x);
    case DropToken(x) => DropOk(s, x);
    case Finish(x, end) => FinishOk(s, x, end);
    case PageMoves =>
  }

  lemma CallOk(s: Browser, e: Event)
    requires LeaseOk(s) && e.Call?
    ensures LeaseOk(Step(s, e))
  {
  }

  lemma EnterOk(s: Browser, x: OpId)
    requires LeaseOk(s)
    ensures LeaseOk(Step(s, Enter(x)))
  {
  }

  lemma UseOk(s: Browser, e: Event)
    requires LeaseOk(s) && e.Use?
    ensures LeaseOk(Step(s, e))
  {
    if Running(s, e.x) { OwnCall(s, e.x, Touch(s.ops[e.x].who, s.nav)); }
  }

  lemma BindOk(s: Browser, x: OpId)
    requires LeaseOk(s)
    ensures LeaseOk(Step(s, Bind(x)))
  {
    if Running(s, x) { OwnCall(s, x, Touch(s.ops[x].who, s.nav)); }
  }

  lemma SubmitOk(s: Browser, e: Event)
    requires LeaseOk(s) && (e.Prove? || e.Cross?)
    ensures LeaseOk(Step(s, e))
  {
    if Running(s, e.x) { OwnCall(s, e.x, Touch(s.ops[e.x].who, s.nav)); }
  }

  lemma ClickOk(s: Browser, x: OpId)
    requires LeaseOk(s)
    ensures LeaseOk(Step(s, ClickSubmit(x)))
  {
    if Step(s, ClickSubmit(x)) != s {
      var b := s.ops[x].who.b;
      OwnCall(s, x, Click(Writer(b), s.nav, s.tokens[b]));
      assert OnlyBy(s.log, s.tokens[b].since, b);
    }
  }

  lemma DropOk(s: Browser, x: OpId)
    requires LeaseOk(s)
    ensures LeaseOk(Step(s, DropToken(x)))
  {
  }

  lemma FinishOk(s: Browser, x: OpId, end: End)
    requires LeaseOk(s)
    ensures LeaseOk(Step(s, Finish(x, end)))
  {
  }

  lemma {:induction false} RunOk(s: Browser, es: seq<Event>)
    requires LeaseOk(s)
    ensures LeaseOk(Run(s, es))
    decreases |es|
  {
    if es != [] { StepOk(s, es[0]); RunOk(Step(s, es[0]), es[1..]); }
  }

  /** In every run: a bound token implies its broker is the content owner, and only that
      broker has called the browser since it was bound. */
  lemma BoundTokenIsIsolated(es: seq<Event>, b: Broker)
    requires b in Run(INITIAL, es).tokens
    ensures var s := Run(INITIAL, es);
            s.owner == Some(b) && OnlyBy(s.log, s.tokens[b].since, b) && forall c | c in s.tokens :: c == b
  {
    RunOk(INITIAL, es);
  }

  /** In every run: each submit click happened on the very navigation its token was bound on,
      and nobody else called the browser between the two. */
  lemma ClickIsOnBoundNavigation(es: seq<Event>, i: nat)
    requires i < |Run(INITIAL, es).log| && Run(INITIAL, es).log[i].Click?
    ensures var log := Run(INITIAL, es).log;
            && log[i].token.nav == log[i].nav
            && log[i].token.since <= i
            && forall k | log[i].token.since <= k <= i :: log[k].who == log[i].who
  {
    RunOk(INITIAL, es);
  }

  // ---- the converse fails on purpose --------------------------------------------------------

  /** A close that fails keeps the lease. Its token is gone if the close got as far as dropping
      it; the clean-up after a kill never drops it, and the token stays. */
  lemma FailedCloseKeepsLease(s: Browser, x: OpId, end: End, drops: bool)
    requires LeaseOk(s) && Running(s, x) && s.ops[x].kind.CloseComposer? && !end.Succeeds?
    ensures var b := s.ops[x].who.b;
            var n := Step(if drops then Step(s, DropToken(x)) else s, Finish(x, end));
            && n.owner == Some(b) && n.lock.None?
            && TokenOf(n, b) == if drops then None else TokenOf(s, b)
  {
  }

  /** While a lease is held, with or without a token, nothing but the owner's own follow-up
      operations gets past its check: the owner's close is the way out. */
  lemma LeaseBlocksOthers(s: Browser, x: OpId, b: Broker)
    requires s.owner == Some(b) && s.lock.None? && x in s.ops && s.ops[x].phase.Queued?
    ensures var n := Step(s, Enter(x));
            && (n.ops[x].phase.Working? <==>
                  s.ops[x].who == Writer(b) && (s.ops[x].kind.Owned? || s.ops[x].kind.CloseComposer? || s.ops[x].kind.Submit?))
            && (!n.ops[x].phase.Working? ==> n.ops[x].phase.Ended? && n.owner == s.owner && n.log == s.log && n.lock.None?)
  {
  }

  /** While the lease is free, a reader, a one-shot write and the start of a context get in as they
      come, the start taking the lease; a follow-up to a context that is not there does not. */
  lemma FreeLeaseAdmits(s: Browser, x: OpId)
    requires s.owner.None? && s.lock.None? && x in s.ops && s.ops[x].phase.Queued?
    ensures var n, op := Step(s, Enter(x)), s.ops[x];
            && (n.ops[x].phase.Working? <==> op.kind.Read? || (op.who.Writer? && (op.kind.OneShot? || op.kind.Start?)))
            && (n.ops[x].phase.Working? ==>
                  n.lock == Some(x) && n.owner == if op.kind.Start? then Some(op.who.b) else None)
            && (!n.ops[x].phase.Working? ==> n.ops[x].phase.Ended? && n.lock.None? && n.owner.None?)
            && n.tokens == s.tokens && n.log == s.log
  {
  }

  /** A start that binds has the page marked and its token remembers where it was bound; a submit
      that has crossed its gate clicks exactly if that mark is still in the page. */
  lemma BoundContextSubmits(s: Browser, x: OpId)
    requires LeaseOk(s) && Running(s, x) && s.ops[x].who.Writer?
    ensures s.ops[x].kind.Start? && s.ops[x].who.b !in s.tokens ==>
              var b, n := s.ops[x].who.b, Step(s, Bind(x));
              && b in n.tokens && n.tokens[b].nav == s.nav && n.tokens[b].since == |s.log| && n.tokens[b].id !in s.bound
              && MarkerPresent(n, s.ops[x].who) && n.owner == s.owner
    ensures s.ops[x].kind.Submit? && s.ops[x].phase.Crossed? ==>
              var b, n := s.ops[x].who.b, Step(s, ClickSubmit(x));
              if MarkerPresent(s, s.ops[x].who) then n == s.(log := s.log + [Click(Writer(b), s.nav, s.tokens[b])]) else n == s
    ensures s.ops[x].kind.Submit? && s.ops[x].phase.Working? ==>
              (Step(s, Prove(x)).ops[x].phase.Proven? <==> MarkerPresent(s, s.ops[x].who))
    ensures s.ops[x].phase.Proven? ==> Step(s, Cross(x)).ops[x].phase.Crossed?
  {
  }

  /** Every call of a running operation goes on record, by whom and on which page; a page that
      moves, by a call or by itself, loses every mark. */
  lemma CallsAreOnRecord(s: Browser, x: OpId, navigates: bool)
    requires Running(s, x)
    ensures var n := Step(s, Use(x, navigates));
            && n.log == s.log + [Touch(s.ops[x].who, s.nav)]
            && (if navigates then n.nav == s.nav + 1 && n.marks == {} else n.nav == s.nav && n.marks == s.marks)
            && n.ops == s.ops && n.tokens == s.tokens && n.owner == s.owner
    ensures Step(s, PageMoves).nav == s.nav + 1 && Step(s, PageMoves).marks == {} && Step(s, PageMoves).tokens == s.tokens
  {
  }

  lemma SuccessfulCloseFreesLease(s: Browser, x: OpId)
    requires LeaseOk(s) && Running(s, x) && s.ops[x].kind.CloseComposer?
    ensures var n := Step(s, Finish(x, Succeeds)); n.owner.None? && n.lock.None? && n.tokens == map[]
  {
    var n := Step(s, Finish(x, Succeeds));
    assert forall b :: b !in n.tokens;
  }
}
