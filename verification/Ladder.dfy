/** Failure frames: optional diagnostics under a fixed byte budget, and the ladder of ever
    smaller candidates whose last rung always fits the wire. */
module Ladder {
  import opened Wrappers
  import opened Bytes
  import opened Json
  import opened Projection
  import Framing

  const OPTIONAL_BUDGET_BYTES: nat := 64 * 1024
  const CODE_MAX: nat := 64
  const MESSAGE_MAX: nat := 2048
  const OPTIONALS := ["data", "trace_stages", "policy"]
  const OMITTED := "capability failed; optional diagnostics omitted"

  // ---- the optional budget -------------------------------------------------------------------

  /** The optional blocks present, in the order they are dropped. */
  function Present(names: seq<string>, safety: map<Text, J>): seq<string>
    decreases |names|
  {
    if names == [] then []
    else if T(names[0]) in safety then [names[0]] + Present(names[1..], safety)
    else Present(names[1..], safety)
  }

  predicate Named(names: seq<string>, k: Text) {
    exists i | 0 <= i < |names| :: T(names[i]) == k
  }

  /** The value as the size probe sees it: what has no rule is written as its string form. */
  function Lenient(v: J): J
    decreases v
  {
    match v
    case JArr(items) => JArr(seq(|items|, i requires 0 <= i < |items| => Lenient(items[i])))
    case JObj(m) => JObj(map k | k in m :: Lenient(m[k]))
    case JOpaque(form) => JStr(form)
    case _ => v
  }

  function Only(safety: map<Text, J>, names: seq<string>): map<Text, J> {
    map k | k in safety && Named(names, k) :: safety[k]
  }

  /** The bytes these blocks take together; what cannot be encoded counts as over budget. */
  function Size(safety: map<Text, J>, names: seq<string>): nat {
    var v := Lenient(JObj(Only(safety, names)));
    if Encodable(v) then |Print(v, Spaced)| else OPTIONAL_BUDGET_BYTES + 1
  }

  /** How many blocks are dropped: the shortest prefix whose removal fits. */
  function DropCount(safety: map<Text, J>, optional: seq<string>, i: nat): (n: nat)
    requires i <= |optional|
    ensures i <= n <= |optional|
    ensures Size(safety, optional[n..]) <= OPTIONAL_BUDGET_BYTES
    ensures forall j | i <= j < n :: Size(safety, optional[j..]) > OPTIONAL_BUDGET_BYTES
    decreases |optional| - i
  {
    if i == |optional| then NothingFits(safety); i
    else if Size(safety, optional[i..]) <= OPTIONAL_BUDGET_BYTES then i
    else DropCount(safety, optional, i + 1)
  }

  lemma NothingFits(safety: map<Text, J>)
    ensures Size(safety, []) == 2
  {
    assert Only(safety, []) == map[];
    assert Lenient(JObj(map[])) == JObj(map[]) by { assert Lenient(JObj(map[])).m == map[]; }
    EmptyObject();
  }

  lemma EmptyObject()
    ensures Print(JObj(map[]), Spaced) == "{}"
  {
    var e: map<Text, J> := map[];
    assert e.Keys == {} && SortedKeys({}) == [];
    assert PrintMembers(JObj(e), [], 0, Spaced) == "";
  }

  function Without(safety: map<Text, J>, names: seq<string>): map<Text, J> {
    map k | k in safety && !Named(names, k) :: safety[k]
  }

  function Budgeted(safety: map<Text, J>): map<Text, J> {
    var optional := Present(OPTIONALS, safety);
    Without(safety, optional[..DropCount(safety, optional, 0)])
  }

  /** The budget loop: blocks leave from the front until the rest fits. */
  method FitOptionalBudget(safety: map<Text, J>) returns (r: map<Text, J>)
    ensures r == Budgeted(safety)
  {
    var optional := Present(OPTIONALS, safety);
    if optional == [] || Size(safety, optional) <= OPTIONAL_BUDGET_BYTES {
      NothingDropped(safety);
      return safety;
    }
    PresentDistinct(OPTIONALS, safety);
    assert optional[0..] == optional;
    r := DropUntilFits(safety, optional);
  }

  lemma NothingDropped(safety: map<Text, J>)
    requires var optional := Present(OPTIONALS, safety); optional == [] || Size(safety, optional) <= OPTIONAL_BUDGET_BYTES
    ensures Budgeted(safety) == safety
  {
    var optional := Present(OPTIONALS, safety);
    assert optional[0..] == optional && optional[..0] == [];
    NothingFits(safety);
    assert Without(safety, []) == safety;
  }

  method DropUntilFits(safety: map<Text, J>, optional: seq<string>) returns (r: map<Text, J>)
    requires Size(safety, optional) > OPTIONAL_BUDGET_BYTES
    requires forall i, j | 0 <= i < j < |optional| :: optional[i] != optional[j]
    ensures r == Without(safety, optional[..DropCount(safety, optional, 0)])
  {
    var remaining, dropped := optional, 0;
    assert optional[0..] == optional;
    while remaining != []
      invariant dropped <= |optional| && remaining == optional[dropped..]
      invariant Size(safety, remaining) > OPTIONAL_BUDGET_BYTES
      invariant DropCount(safety, optional, 0) == DropCount(safety, optional, dropped)
      decreases |remaining|
    {
      remaining, dropped := remaining[1..], dropped + 1;
      assert remaining == optional[dropped..];
      if Size(safety, remaining) <= OPTIONAL_BUDGET_BYTES {
        SplitNames(optional, dropped, safety);
        return Keeping(safety, optional, remaining);
      }
    }
    NothingFits(safety);
    assert false;
  }

  /** What is not optional or still remains. */
  function Keeping(safety: map<Text, J>, optional: seq<string>, remaining: seq<string>): map<Text, J> {
    map k | k in safety && (!Named(optional, k) || Named(remaining, k)) :: safety[k]
  }

  lemma {:induction false} PresentExact(names: seq<string>, safety: map<Text, J>, name: string)
    ensures name in Present(names, safety) <==> name in names && T(name) in safety
    decreases |names|
  {
    if names != [] { PresentExact(names[1..], safety, name); }
  }

  lemma {:induction false} PresentDistinct(names: seq<string>, safety: map<Text, J>)
    requires forall i, j | 0 <= i < j < |names| :: names[i] != names[j]
    ensures var p := Present(names, safety); forall i, j | 0 <= i < j < |p| :: p[i] != p[j]
    decreases |names|
  {
    if names != [] {
      PresentDistinct(names[1..], safety);
      PresentExact(names[1..], safety, names[0]);
    }
  }

  /** Keeping what is not optional or still remains is dropping the prefix. */
  lemma SplitNames(optional: seq<string>, dropped: nat, safety: map<Text, J>)
    requires dropped <= |optional| && forall i, j | 0 <= i < j < |optional| :: optional[i] != optional[j]
    ensures Keeping(safety, optional, optional[dropped..]) == Without(safety, optional[..dropped])
  {
    forall k
      ensures !Named(optional, k) || Named(optional[dropped..], k) <==> !Named(optional[..dropped], k)
    {
      NamedSplits(optional, dropped, k);
    }
  }

  lemma NamedSplits(names: seq<string>, n: nat, k: Text)
    requires n <= |names| && forall i, j | 0 <= i < j < |names| :: names[i] != names[j]
    ensures Named(names, k) <==> Named(names[..n], k) || Named(names[n..], k)
    ensures !(Named(names[..n], k) && Named(names[n..], k))
  {
    LiteralsDiffer();
    if Named(names, k) {
      var i :| 0 <= i < |names| && T(names[i]) == k;
      if i < n { assert names[..n][i] == names[i]; } else { assert names[n..][i - n] == names[i]; }
    }
  }

  /** What the budget keeps: every block that is not optional as it was, and of the optional
      ones those left after the shortest prefix whose removal fits. */
  lemma BudgetExact(safety: map<Text, J>, k: Text)
    ensures var optional := Present(OPTIONALS, safety); var n := DropCount(safety, optional, 0);
            && (k in Budgeted(safety) <==> k in safety && !Named(optional[..n], k))
            && (k in Budgeted(safety) ==> Budgeted(safety)[k] == safety[k])
            && (k in safety && !Named(OPTIONALS, k) ==> k in Budgeted(safety))
            && Size(safety, optional[n..]) <= OPTIONAL_BUDGET_BYTES
            && forall j | 0 <= j < n :: Size(safety, optional[j..]) > OPTIONAL_BUDGET_BYTES
  {
    var optional := Present(OPTIONALS, safety);
    var n := DropCount(safety, optional, 0);
    if Named(optional[..n], k) {
      var i :| 0 <= i < n && T(optional[..n][i]) == k;
      PresentExact(OPTIONALS, safety, optional[i]);
      var j :| 0 <= j < |OPTIONALS| && OPTIONALS[j] == optional[i];
      assert Named(OPTIONALS, k);
    }
  }

  // ---- the ladder ----------------------------------------------------------------------------

  function Failure(code: Text, message: Text, safety: map<Text, J>): J {
    JObj(map[T("ok") := JBool(false), T("error") := JObj(map[T("code") := JStr(code), T("message") := JStr(message)]),
             T("safety") := JObj(safety)])
  }

  function MandatoryOnlyMerge(safety: map<Text, J>): map<Text, J> {
    var facts := map k | k in safety && Named(FACTS, k) :: safety[k];
    facts[T("semantic_key") := if T("semantic_key") in safety then safety[T("semantic_key")] else JStr([])]
  }

  /** The candidates, largest first. */
  function Candidates(safety: map<Text, J>): seq<map<Text, J>> {
    var budgeted := Budgeted(safety);
    var bare := Without(budgeted, OPTIONALS);
    [budgeted] + (if bare != map[] && bare != budgeted then [bare] else []) + [MandatoryOnlyMerge(budgeted)]
  }

  predicate Fits(code: Text, message: Text, safety: map<Text, J>) {
    Framing.EncodeJsonFrame(Failure(code, message, safety), true).Ok?
  }

  /** Of each candidate, whether its envelope encodes. */
  function Fitting(code: Text, message: Text, candidates: seq<map<Text, J>>): (fits: seq<bool>)
    ensures |fits| == |candidates| && forall i | 0 <= i < |fits| :: fits[i] == Fits(code, message, candidates[i])
  {
    seq(|candidates|, i requires 0 <= i < |candidates| => Fits(code, message, candidates[i]))
  }

  /** The first index from `i` on that holds, or the length. */
  function FirstTrue(fits: seq<bool>, i: nat): (n: nat)
    requires i <= |fits|
    ensures i <= n <= |fits| && (n < |fits| ==> fits[n]) && forall j | i <= j < n :: !fits[j]
    decreases |fits| - i
  {
    if i == |fits| || fits[i] then i else FirstTrue(fits, i + 1)
  }

  /** The envelope sent: the first rung that fits, or the floor. */
  function FailureEnvelope(code: Text, message: Text, safety: map<Text, J>, data: Py): J {
    var c, m, rungs := Cut(code, CODE_MAX), Cut(message, MESSAGE_MAX), Candidates(safety);
    var n := FirstTrue(Fitting(c, m, rungs), 0);
    if n < |rungs| then Failure(c, m, rungs[n]) else Failure(c, T(OMITTED), MandatorySafety(data))
  }

  function FailureFrame(code: Text, message: Text, safety: map<Text, J>, data: Py): Result<ByteSeq, Framing.WireError> {
    Framing.EncodeJsonFrame(FailureEnvelope(code, message, safety, data), true)
  }

  /** A capped fact: short text or a boolean. */
  predicate Capped(v: J) {
    v.JBool? || (v.JStr? && |v.s| <= FACT_MAX_STR)
  }

  lemma {:induction false} FactIsCapped(sources: seq<seq<Entry>>, field: string)
    ensures Fact(sources, field).Some? ==> Capped(Fact(sources, field).value)
    decreases |sources|
  {
    if sources != [] { FactIsCapped(sources[1..], field); }
  }

  lemma MandatoryIsCapped(data: Py)
    ensures var m := MandatorySafety(data);
            |m| <= 3 && forall k | k in m :: |k| <= 23 && Capped(m[k])
  {
    var s := Sources(data);
    FactIsCapped(s, FACTS[0]);
    FactIsCapped(s, FACTS[1]);
    FactIsCapped(s, FACTS[2]);
  }

  lemma CappedSafetyBound(m: map<Text, J>)
    requires |m| <= 3 && forall k | k in m :: |k| <= 23 && Capped(m[k])
    ensures Encodable(JObj(m)) && |Print(JObj(m), Compact)| <= 4000
  {
    forall k | k in m
      ensures 12 * |k| + |Print(m[k], Compact)| + 6 <= 1200
    {
    }
    ObjectBound(JObj(m), Compact, 1200);
  }

  lemma ErrorBound(code: Text, message: Text)
    requires |code| <= CODE_MAX && |message| <= MESSAGE_MAX
    ensures var e := JObj(map[T("code") := JStr(code), T("message") := JStr(message)]);
            Encodable(e) && |Print(e, Compact)| <= 50_002
  {
    var m := map[T("code") := JStr(code), T("message") := JStr(message)];
    assert m.Keys == {T("code"), T("message")};
    forall k | k in m
      ensures 12 * |k| + |Print(m[k], Compact)| + 6 <= 25_000
    {
    }
    ObjectBound(JObj(m), Compact, 25_000);
  }

  /** An envelope with a capped code, a capped message and capped facts always fits. */
  lemma CappedEnvelopeFits(code: Text, message: Text, safety: map<Text, J>)
    requires |code| <= CODE_MAX && |message| <= MESSAGE_MAX
    requires |safety| <= 3 && forall k | k in safety :: |k| <= 23 && Capped(safety[k])
    ensures Framing.EncodeJsonFrame(Failure(code, message, safety), true).Ok?
  {
    CappedSafetyBound(safety);
    ErrorBound(code, message);
    EnvelopeBound(JObj(map[T("code") := JStr(code), T("message") := JStr(message)]), JObj(safety));
  }

  lemma EnvelopeBound(e: J, s: J)
    requires Encodable(e) && Encodable(s) && |Print(e, Compact)| <= 50_002 && |Print(s, Compact)| <= 50_002
    ensures var f := JObj(map[T("ok") := JBool(false), T("error") := e, T("safety") := s]);
            Encodable(f) && |Print(f, Compact)| <= 180_002
  {
    var m := map[T("ok") := JBool(false), T("error") := e, T("safety") := s];
    assert m.Keys == {T("ok"), T("error"), T("safety")};
    forall k | k in m
      ensures Encodable(m[k]) && 12 * |k| + |Print(m[k], Compact)| + 6 <= 60_000
    {
    }
    ObjectBound(JObj(m), Compact, 60_000);
  }

  /** A failure frame is always produced, for any code, message, safety map and result, and its
      payload never exceeds the response ceiling. */
  lemma FailureAlwaysFits(code: Text, message: Text, safety: map<Text, J>, data: Py)
    ensures var f := FailureFrame(code, message, safety, data);
            && f.Ok? && |f.value| <= Framing.HEADER_SIZE + Framing.IPC_MAX_RESPONSE_BYTES
            && Framing.Receive(f.value, Framing.IPC_MAX_FRAME_BYTES) == (Ok(f.value[Framing.HEADER_SIZE..]), [])
  {
    EnvelopeFits(code, message, safety, data);
    var v := FailureEnvelope(code, message, safety, data);
    var f := Framing.EncodeJsonFrame(v, true);
    Framing.JsonFrameExact(v, true, []);
    assert f.value + [] == f.value;
    assert f.value[Framing.HEADER_SIZE..] == Framing.WireText(v);
  }

  lemma EnvelopeFits(code: Text, message: Text, safety: map<Text, J>, data: Py)
    ensures Framing.EncodeJsonFrame(FailureEnvelope(code, message, safety, data), true).Ok?
  {
    var c, m, rungs := Cut(code, CODE_MAX), Cut(message, MESSAGE_MAX), Candidates(safety);
    var n := FirstTrue(Fitting(c, m, rungs), 0);
    if n < |rungs| {
      assert Fits(c, m, rungs[n]);
    } else {
      FloorFits(code, data);
    }
  }

  lemma FloorFits(code: Text, data: Py)
    ensures Fits(Cut(code, CODE_MAX), T(OMITTED), MandatorySafety(data))
  {
    MandatoryIsCapped(data);
    CappedEnvelopeFits(Cut(code, CODE_MAX), T(OMITTED), MandatorySafety(data));
  }

  /** What is sent is the first rung that fits, with the capped code and message, and the floor
      exactly when none does. */
  lemma FirstRungThatFits(code: Text, message: Text, safety: map<Text, J>, data: Py, i: nat)
    requires i <= |Candidates(safety)|
    requires forall j | 0 <= j < i :: !Fits(Cut(code, CODE_MAX), Cut(message, MESSAGE_MAX), Candidates(safety)[j])
    requires i < |Candidates(safety)| ==> Fits(Cut(code, CODE_MAX), Cut(message, MESSAGE_MAX), Candidates(safety)[i])
    ensures FailureEnvelope(code, message, safety, data) ==
            if i < |Candidates(safety)| then Failure(Cut(code, CODE_MAX), Cut(message, MESSAGE_MAX), Candidates(safety)[i])
            else Failure(Cut(code, CODE_MAX), T(OMITTED), MandatorySafety(data))
  {
    var n := FirstTrue(Fitting(Cut(code, CODE_MAX), Cut(message, MESSAGE_MAX), Candidates(safety)), 0);
    assert n == i;
  }

  /** A failure envelope as a client reads it: not ok, with this code and message, and this
      safety object, and nothing else. */
  ghost predicate ReadsAsFailure(f: J, code: Text, message: Text, safety: map<Text, J>) {
    && f.JObj? && f.m.Keys == {T("ok"), T("error"), T("safety")}
    && f.m[T("ok")] == JBool(false) && f.m[T("safety")] == JObj(safety)
    && f.m[T("error")].JObj? && f.m[T("error")].m.Keys == {T("code"), T("message")}
    && f.m[T("error")].m[T("code")] == JStr(code) && f.m[T("error")].m[T("message")] == JStr(message)
  }

  /** An envelope that reads this way is within the wire's bounds. */
  ghost predicate Sendable(code: Text, message: Text, safety: map<Text, J>) {
    exists f: J :: ReadsAsFailure(f, code, message, safety) && Framing.EncodeJsonFrame(f, true).Ok?
  }

  /** The first `n` characters. */
  predicate IsPrefix(t: Text, s: Text, n: nat) {
    t <= s && (|t| == n || (|t| < n && t == s))
  }

  /** Only one value reads this way. */
  lemma FailureReads(f: J, code: Text, message: Text, safety: map<Text, J>)
    ensures ReadsAsFailure(f, code, message, safety) <==> f == Failure(code, message, safety)
  {
    LiteralsDiffer();
    var e := map[T("code") := JStr(code), T("message") := JStr(message)];
    if ReadsAsFailure(f, code, message, safety) {
      assert f.m[T("error")].m == e;
      assert f.m == map[T("ok") := JBool(false), T("error") := JObj(e), T("safety") := JObj(safety)];
    }
  }

  lemma SendableFits(code: Text, message: Text, safety: map<Text, J>)
    ensures Sendable(code, message, safety) <==> Fits(code, message, safety)
  {
    FailureReads(Failure(code, message, safety), code, message, safety);
    if Sendable(code, message, safety) {
      var f: J :| ReadsAsFailure(f, code, message, safety) && Framing.EncodeJsonFrame(f, true).Ok?;
      FailureReads(f, code, message, safety);
    }
  }

  /** Every failure is reported as one: not ok, under the first 64 characters of its code. Its
      message is cut to 2048 and its safety object the first candidate that is within bounds;
      exactly when none is, a fixed message goes with the facts taken from the result itself. */
  lemma EnvelopeReads(code: Text, message: Text, safety: map<Text, J>, data: Py) returns (c: Text, m: Text, i: nat)
    ensures IsPrefix(c, code, 64) && IsPrefix(m, message, 2048) && i <= |Candidates(safety)|
    ensures forall j | 0 <= j < i :: !Sendable(c, m, Candidates(safety)[j])
    ensures if i < |Candidates(safety)|
            then Sendable(c, m, Candidates(safety)[i])
                 && ReadsAsFailure(FailureEnvelope(code, message, safety, data), c, m, Candidates(safety)[i])
            else ReadsAsFailure(FailureEnvelope(code, message, safety, data), c, T("capability failed; optional diagnostics omitted"),
                                MandatorySafety(data))
  {
    c, m := Cut(code, CODE_MAX), Cut(message, MESSAGE_MAX);
    i := FirstSendable(c, m, Candidates(safety));
    FailureReads(FailureEnvelope(code, message, safety, data), c, T(OMITTED), MandatorySafety(data));
    if i < |Candidates(safety)| { FailureReads(FailureEnvelope(code, message, safety, data), c, m, Candidates(safety)[i]); }
  }

  lemma FirstSendable(code: Text, message: Text, rungs: seq<map<Text, J>>) returns (i: nat)
    ensures i == FirstTrue(Fitting(code, message, rungs), 0) && i <= |rungs|
    ensures (forall j | 0 <= j < i :: !Sendable(code, message, rungs[j])) && (i < |rungs| ==> Sendable(code, message, rungs[i]))
  {
    i := FirstTrue(Fitting(code, message, rungs), 0);
    forall j | 0 <= j < |rungs| ensures Sendable(code, message, rungs[j]) <==> Fitting(code, message, rungs)[j] {
      SendableFits(code, message, rungs[j]);
    }
  }

  predicate HasNamed(b: map<Text, J>, names: seq<string>) { exists k :: k in b && Named(names, k) }
  predicate HasOther(b: map<Text, J>, names: seq<string>) { exists k :: k in b && !Named(names, k) }

  lemma WithoutExactly(b: map<Text, J>, names: seq<string>)
    ensures var bare := Without(b, names);
            && (bare != map[] <==> HasOther(b, names)) && (bare != b <==> HasNamed(b, names))
            && forall k :: (k in bare <==> k in b && !Named(names, k)) && (k in bare ==> bare[k] == b[k])
  {
    var bare := Without(b, names);
    if HasOther(b, names) {
      var k :| k in b && !Named(names, k);
      assert k in bare;
    }
    if HasNamed(b, names) {
      var k :| k in b && Named(names, k);
      assert k !in bare;
    } else {
      assert bare == b;
    }
  }

  /** The last candidate: of the projection the three facts, and the semantic key in any case. */
  lemma LastCandidate(b: map<Text, J>)
    ensures var last := MandatoryOnlyMerge(b);
            && (forall k :: k in last <==> k == T("semantic_key") || (k in b && Named(FACTS, k)))
            && (forall k | k in last && k in b :: last[k] == b[k])
            && (T("semantic_key") !in b ==> last[T("semantic_key")] == JStr([]))
  {
  }

  /** The candidates in order: the budgeted projection; that without the optional blocks, if it
      had one and then still has something; and the last one. */
  lemma CandidatesExactly(safety: map<Text, J>)
    ensures var cs, b := Candidates(safety), Budgeted(safety);
            && |cs| == (if HasNamed(b, OPTIONALS) && HasOther(b, OPTIONALS) then 3 else 2)
            && cs[0] == b && cs[|cs| - 1] == MandatoryOnlyMerge(b) && (|cs| == 3 ==> cs[1] == Without(b, OPTIONALS))
  {
    WithoutExactly(Budgeted(safety), OPTIONALS);
  }

  // ---- the facts survive every rung -----------------------------------------------------------

  /** The first source's value for a field. */
  function First(sources: seq<seq<Entry>>, field: string): Option<Py>
    decreases |sources|
  {
    if sources == [] then None
    else if Lookup(sources[0], field).Some? then Lookup(sources[0], field)
    else First(sources[1..], field)
  }

  predicate SomeSourceSays(sources: seq<seq<Entry>>, field: string, b: bool) {
    exists i | 0 <= i < |sources| :: Lookup(sources[i], field) == Some(PyBool(b))
  }

  lemma {:induction false} FirstExact(sources: seq<seq<Entry>>, field: string)
    ensures First(sources, field).Some? <==> Shown(sources, field).Some?
    ensures First(sources, field).Some? ==> Shown(sources, field).value == JsonSafe(First(sources, field).value, 0)
    ensures forall b | First(sources, field) == Some(PyBool(b)) :: Fact(sources, field) == Some(JBool(b))
    ensures forall v | First(sources, field) == Some(PyStr(v)) :: Fact(sources, field) == Some(JStr(Cut(v, FACT_MAX_STR)))
    decreases |sources|
  {
    if sources != [] { FirstExact(sources[1..], field); }
  }

  lemma {:induction false} NothingMadeUp(sources: seq<seq<Entry>>, field: string, b: bool)
    ensures Shown(sources, field) == Some(JBool(b)) ==> SomeSourceSays(sources, field, b)
    ensures Fact(sources, field) == Some(JBool(b)) ==> SomeSourceSays(sources, field, b)
    decreases |sources|
  {
    if sources != [] {
      NothingMadeUp(sources[1..], field, b);
      if SomeSourceSays(sources[1..], field, b) {
        var i :| 0 <= i < |sources[1..]| && Lookup(sources[1..][i], field) == Some(PyBool(b));
        assert sources[i + 1] == sources[1..][i];
      }
    }
  }

  lemma FactIsNoOptional(field: string)
    requires field in FACTS
    ensures !Named(OPTIONALS, T(field)) && Named(FACTS, T(field)) && T("semantic_key") != T(field)
  {
    LiteralsDiffer();
    var i :| 0 <= i < |FACTS| && FACTS[i] == field;
  }

  lemma WithoutKeeps(m: map<Text, J>, names: seq<string>, key: Text)
    requires !Named(names, key)
    ensures SameAt(m, Without(m, names), key)
  {
  }

  lemma MergeKeeps(m: map<Text, J>, key: Text)
    requires Named(FACTS, key) && T("semantic_key") != key
    ensures SameAt(m, MandatoryOnlyMerge(m), key)
  {
  }

  /** Every candidate has the facts of the safety map it was made from. */
  lemma CandidatesKeepFacts(safety: map<Text, J>, field: string, i: nat)
    requires field in FACTS && i < |Candidates(safety)|
    ensures SameAt(safety, Candidates(safety)[i], T(field))
  {
    FactIsNoOptional(field);
    BudgetKeeps(safety, T(field));
    var budgeted := Budgeted(safety);
    WithoutKeeps(budgeted, OPTIONALS, T(field));
    MergeKeeps(budgeted, T(field));
    RungsOf(budgeted, Candidates(safety), i);
  }

  lemma BudgetKeeps(safety: map<Text, J>, key: Text)
    requires !Named(OPTIONALS, key)
    ensures SameAt(safety, Budgeted(safety), key)
  {
    BudgetExact(safety, key);
  }

  lemma RungsOf(budgeted: map<Text, J>, candidates: seq<map<Text, J>>, i: nat)
    requires i < |candidates|
    requires candidates == [budgeted] + (if Without(budgeted, OPTIONALS) != map[] && Without(budgeted, OPTIONALS) != budgeted
                                         then [Without(budgeted, OPTIONALS)] else []) + [MandatoryOnlyMerge(budgeted)]
    ensures candidates[i] in [budgeted, Without(budgeted, OPTIONALS), MandatoryOnlyMerge(budgeted)]
  {
  }

  /** Either a candidate or the floor is sent. */
  lemma EnvelopeIsARung(code: Text, message: Text, safety: map<Text, J>, data: Py) returns (m: Text, s: map<Text, J>)
    ensures FailureEnvelope(code, message, safety, data) == Failure(Cut(code, CODE_MAX), m, s)
    ensures s == MandatorySafety(data) || exists i | 0 <= i < |Candidates(safety)| :: s == Candidates(safety)[i]
  {
    var rungs := Candidates(safety);
    var n := FirstTrue(Fitting(Cut(code, CODE_MAX), Cut(message, MESSAGE_MAX), rungs), 0);
    if n < |rungs| {
      m, s := Cut(message, MESSAGE_MAX), rungs[n];
    } else {
      m, s := T(OMITTED), MandatorySafety(data);
    }
  }

  function SafetyOf(envelope: J): map<Text, J> {
    if envelope.JObj? && T("safety") in envelope.m && envelope.m[T("safety")].JObj? then envelope.m[T("safety")].m else map[]
  }

  lemma FailureHasSafety(code: Text, message: Text, safety: map<Text, J>)
    ensures SafetyOf(Failure(code, message, safety)) == safety
  {
    LiteralsDiffer();
  }

  /** What a client reads of a safety fact, whatever had to be left out: a boolean exactly as
      the result gives it first, a text cut to 512 or to 64, and no boolean the result did not
      hold. */
  ghost predicate ReadsTrue(seen: map<Text, J>, sources: seq<seq<Entry>>, field: string) {
    var first := First(sources, field);
    && (forall b | first == Some(PyBool(b)) :: Holds(seen, field, Some(JBool(b))))
    && (forall v | first == Some(PyStr(v)) :: Holds(seen, field, Some(JStr(Cut(v, PROJECTION_MAX_STR))))
                                              || Holds(seen, field, Some(JStr(Cut(v, FACT_MAX_STR)))))
    && (forall b | Holds(seen, field, Some(JBool(b))) :: SomeSourceSays(sources, field, b))
  }

  lemma FactsSurvive(code: Text, message: Text, data: Py, field: string)
    requires field in FACTS
    ensures ReadsTrue(SafetyOf(FailureEnvelope(code, message, SafetyProjection(data), data)), Sources(data), field)
  {
    var m, s := EnvelopeIsARung(code, message, SafetyProjection(data), data);
    FailureHasSafety(Cut(code, CODE_MAX), m, s);
    RungHolds(data, s, field);
    EitherReadsTrue(s, Sources(data), field);
  }

  lemma EitherReadsTrue(s: map<Text, J>, sources: seq<seq<Entry>>, field: string)
    requires Holds(s, field, Shown(sources, field)) || Holds(s, field, Fact(sources, field))
    ensures ReadsTrue(s, sources, field)
  {
    FirstExact(sources, field);
    NothingMadeUp(sources, field, true);
    NothingMadeUp(sources, field, false);
  }

  lemma RungHolds(data: Py, s: map<Text, J>, field: string)
    requires field in FACTS
    requires var p := SafetyProjection(data);
             s == MandatorySafety(data) || exists i | 0 <= i < |Candidates(p)| :: s == Candidates(p)[i]
    ensures Holds(s, field, Shown(Sources(data), field)) || Holds(s, field, Fact(Sources(data), field))
  {
    var p := SafetyProjection(data);
    if s == MandatorySafety(data) {
      MandatoryHolds(data, field);
    } else {
      var i :| 0 <= i < |Candidates(p)| && s == Candidates(p)[i];
      CandidatesKeepFacts(p, field, i);
      ProjectionShows(data, field);
    }
  }
}
