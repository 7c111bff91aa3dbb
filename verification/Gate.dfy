/** The gates a framed request passes before any owner state is consulted. */
module Gate {
  import opened Wrappers
  import opened Json
  import opened Protocol
  import Framing

  datatype Gated = Refused(code: string) | Raised | Passed(op: Operation, normalized: map<Text, J>, id: Text, addressed: Text)

  const ENVELOPE := ["protocol_version", "runtime_build_id", "authority_instance_id", "request_id", "operation", "payload"]

  function EnvelopeKeys(): set<Text> {
    {T(ENVELOPE[0]), T(ENVELOPE[1]), T(ENVELOPE[2]), T(ENVELOPE[3]), T(ENVELOPE[4]), T(ENVELOPE[5])}
  }

  predicate HasText(m: map<Text, J>, key: string) {
    T(key) in m && m[T(key)].JStr? && m[T(key)].s != []
  }

  predicate HexDigit(c: CodePoint) {
    '0' as int <= c <= '9' as int || 'a' as int <= c <= 'f' as int
  }

  predicate IdOk(m: map<Text, J>) {
    HasText(m, "request_id") && 32 <= |m[T("request_id")].s| <= 128
    && forall i | 0 <= i < |m[T("request_id")].s| :: HexDigit(m[T("request_id")].s[i])
  }

  predicate VersionOk(m: map<Text, J>) {
    T("protocol_version") in m && m[T("protocol_version")] == JInt(IPC_PROTOCOL_VERSION)
  }

  /** The supported operation of this name. */
  function OperationOf(name: Text): (r: Option<Operation>)
    ensures r.Some? ==> T(Name(r.value)) == name
    ensures r.None? ==> forall op: Operation :: T(Name(op)) != name
  {
    if exists op: Operation :: T(Name(op)) == name then
      NamesAreUnique();
      var op: Operation :| T(Name(op)) == name;
      Some(op)
    else None
  }

  lemma NamesAreUnique()
    ensures forall a: Operation, b: Operation :: T(Name(a)) == T(Name(b)) ==> a == b
  {
    LiteralsDiffer();
    forall a: Operation, b: Operation | T(Name(a)) == T(Name(b))
      ensures a == b
    {
      NamesDiffer(a, b);
    }
  }

  function PayloadOf(m: map<Text, J>): J {
    if T("payload") in m then m[T("payload")] else JObj(map[])
  }

  function NamedOperation(m: map<Text, J>): Option<Operation> {
    if T("operation") in m && m[T("operation")].JStr? then OperationOf(m[T("operation")].s) else None
  }

  /** Strict decoding of a frame whose text parsed: an object, and nothing refused in it. */
  function DecodeFrame(parsed: Option<Raw>): Option<map<Text, J>> {
    if parsed.None? then None
    else
      var v := Decode(parsed.value);
      if v.Some? && v.value.JObj? then Some(v.value.m) else None
  }

  /** The gates in order. */
  function Check(length: nat, decoded: Option<map<Text, J>>, build: Text, instance: Text): Gated {
    if length > Framing.IPC_MAX_REQUEST_BYTES then Refused("request_oversized")
    else if decoded.None? then Refused("protocol")
    else
      var m := decoded.value;
      if !VersionOk(m) then Refused("protocol_mismatch")
      else if !HasText(m, "runtime_build_id") then Refused("missing_build_id")
      else if m[T("runtime_build_id")].s != build then Refused("build_mismatch")
      else if NamedOperation(m).None? then Refused("unsupported_operation")
      else CheckPayload(m, NamedOperation(m).value, instance)
  }

  function CheckPayload(m: map<Text, J>, op: Operation, instance: Text): Gated {
    var n := Normalize(op, PayloadOf(m));
    if n.Err? then if n.error.SchemaError? then Refused("schema") else Raised
    else if !IdOk(m) then Refused("schema")
    else if m.Keys != EnvelopeKeys() then Refused("schema")
    else if !HasText(m, "authority_instance_id") then Refused("missing_instance")
    else if m[T("authority_instance_id")].s != instance then Refused("stale_authority_instance")
    else Passed(op, n.value, m[T("request_id")].s, m[T("authority_instance_id")].s)
  }

  /** A request addressed to this owner, in every respect. */
  predicate Addressed(length: nat, m: map<Text, J>, build: Text, instance: Text) {
    && length <= Framing.IPC_MAX_REQUEST_BYTES
    && m.Keys == EnvelopeKeys()
    && m[T("protocol_version")] == JInt(IPC_PROTOCOL_VERSION)
    && m[T("runtime_build_id")] == JStr(build)
    && m[T("authority_instance_id")] == JStr(instance)
    && IdOk(m)
    && (exists op: Operation :: m[T("operation")] == JStr(T(Name(op))) && Normalize(op, m[T("payload")]).Ok?)
  }

  /** What passes all gates is exactly a request with the six keys that names this protocol,
      build and instance, a hex id, and a supported operation with an acceptable payload. */
  lemma PassedExactly(length: nat, decoded: Option<map<Text, J>>, build: Text, instance: Text)
    requires build != [] && instance != []
    ensures Check(length, decoded, build, instance).Passed? <==> decoded.Some? && Addressed(length, decoded.value, build, instance)
  {
    if decoded.Some? {
      if Addressed(length, decoded.value, build, instance) { AddressedPasses(length, decoded.value, build, instance); }
      if Check(length, decoded, build, instance).Passed? { PassedIsAddressed(length, decoded.value, build, instance); }
    }
  }

  /** The request frame itself: within its ceiling and an object, of this protocol, with a build. */
  predicate Framed(length: nat, decoded: Option<map<Text, J>>) {
    length <= Framing.IPC_MAX_REQUEST_BYTES && decoded.Some?
  }

  predicate ForThisBuild(m: map<Text, J>, build: Text) {
    VersionOk(m) && HasText(m, "runtime_build_id") && m[T("runtime_build_id")].s == build
  }

  /** Which refusal a frame and its envelope get, the first that applies. */
  lemma EnvelopeRefusals(length: nat, decoded: Option<map<Text, J>>, build: Text, instance: Text)
    ensures var g := Check(length, decoded, build, instance);
            && (g == Refused("request_oversized") <==> length > Framing.IPC_MAX_REQUEST_BYTES)
            && (g == Refused("protocol") <==> length <= Framing.IPC_MAX_REQUEST_BYTES && decoded.None?)
            && (Framed(length, decoded) ==>
                  var m := decoded.value;
                  && (g == Refused("protocol_mismatch") <==> !VersionOk(m))
                  && (g == Refused("missing_build_id") <==> VersionOk(m) && !HasText(m, "runtime_build_id"))
                  && (g == Refused("build_mismatch") <==>
                        VersionOk(m) && HasText(m, "runtime_build_id") && m[T("runtime_build_id")].s != build)
                  && (g == Refused("unsupported_operation") <==> ForThisBuild(m, build) && NamedOperation(m).None?))
  {
  }

  /** And which one a supported operation gets for its payload, id, fields and instance. */
  lemma RequestRefusals(m: map<Text, J>, op: Operation, instance: Text)
    ensures var g, n := CheckPayload(m, op, instance), Normalize(op, PayloadOf(m));
            && (g == Refused("schema") <==> (n.Err? && n.error.SchemaError?) || (n.Ok? && !(IdOk(m) && m.Keys == EnvelopeKeys())))
            && (g == Raised <==> n.Err? && !n.error.SchemaError?)
            && (n.Ok? && IdOk(m) && m.Keys == EnvelopeKeys() ==>
                  && (g == Refused("missing_instance") <==> !HasText(m, "authority_instance_id"))
                  && (g == Refused("stale_authority_instance") <==>
                        HasText(m, "authority_instance_id") && m[T("authority_instance_id")].s != instance))
  {
  }

  /** And what passes is carried on as it came: the request's own id and instance, and its
      operation and payload, normalized. */
  lemma PassedCarries(length: nat, m: map<Text, J>, build: Text, instance: Text)
    requires Check(length, Some(m), build, instance).Passed?
    ensures var g := Check(length, Some(m), build, instance);
            && T("request_id") in m && m[T("request_id")] == JStr(g.id)
            && T("authority_instance_id") in m && m[T("authority_instance_id")] == JStr(g.addressed) && g.addressed == instance
            && T("operation") in m && m[T("operation")] == JStr(T(Name(g.op)))
            && T("payload") in m && Normalize(g.op, m[T("payload")]) == Ok(g.normalized)
  {
    KeysPresent(m);
    assert PayloadOf(m) == m[T("payload")];
  }

  lemma AddressedPasses(length: nat, m: map<Text, J>, build: Text, instance: Text)
    requires build != [] && instance != [] && Addressed(length, m, build, instance)
    ensures Check(length, Some(m), build, instance).Passed?
  {
    KeysPresent(m);
    var op: Operation :| m[T("operation")] == JStr(T(Name(op))) && Normalize(op, m[T("payload")]).Ok?;
    IsNamed(m, op);
    PayloadPasses(m, op, instance);
  }

  lemma IsNamed(m: map<Text, J>, op: Operation)
    requires T("operation") in m && m[T("operation")] == JStr(T(Name(op)))
    ensures NamedOperation(m) == Some(op)
  {
    NamesAreUnique();
  }

  lemma PayloadPasses(m: map<Text, J>, op: Operation, instance: Text)
    requires m.Keys == EnvelopeKeys() && IdOk(m) && HasText(m, "authority_instance_id") && m[T("authority_instance_id")].s == instance
    requires Normalize(op, PayloadOf(m)).Ok?
    ensures CheckPayload(m, op, instance).Passed?
  {
  }

  lemma PassedIsAddressed(length: nat, m: map<Text, J>, build: Text, instance: Text)
    requires Check(length, Some(m), build, instance).Passed?
    ensures Addressed(length, m, build, instance)
  {
    KeysPresent(m);
    var op := NamedOperation(m).value;
    assert m[T("operation")] == JStr(T(Name(op))) && PayloadOf(m) == m[T("payload")];
  }

  lemma KeysPresent(m: map<Text, J>)
    requires m.Keys == EnvelopeKeys()
    ensures
              && T("protocol_version") in m && T("runtime_build_id") in m && T("authority_instance_id") in m
              && T("request_id") in m && T("operation") in m && T("payload") in m
  {
    assert ENVELOPE[0] == "protocol_version" && ENVELOPE[1] == "runtime_build_id" && ENVELOPE[2] == "authority_instance_id";
    assert ENVELOPE[3] == "request_id" && ENVELOPE[4] == "operation" && ENVELOPE[5] == "payload";
  }

  // ---- the tokens the request table compares ----------------------------------------------------

  /** A text as a number. */
  function Code(s: Text): nat
    decreases |s|
  {
    if s == [] then 0 else 1 + s[0] + 0x11_0000 * Code(s[1..])
  }

  lemma {:induction false} CodeInjective(a: Text, b: Text)
    requires Code(a) == Code(b)
    ensures a == b
    decreases |a|
  {
    if a != [] && b != [] {
      assert (Code(a) - 1) % 0x11_0000 == a[0] && (Code(a) - 1) / 0x11_0000 == Code(a[1..]);
      assert (Code(b) - 1) % 0x11_0000 == b[0] && (Code(b) - 1) / 0x11_0000 == Code(b[1..]);
      CodeInjective(a[1..], b[1..]);
      assert a == [a[0]] + a[1..] && b == [b[0]] + b[1..];
    }
  }

  function IdToken(g: Gated): nat
    requires g.Passed?
  {
    Code(g.id)
  }

  function CanonicalToken(g: Gated): nat
    requires g.Passed?
  {
    Code(T(CanonicalRequestIdentity(g.op, g.normalized).text))
  }

  /** Refusal and acceptance aside, the pipeline raises: exactly on a request for a supported
      operation, of this protocol and build, whose payload is an object of known fields the
      first faulty of which escapes the validator. */
  lemma RaisedExactly(length: nat, m: map<Text, J>, build: Text, instance: Text)
    ensures Check(length, Some(m), build, instance).Raised? <==>
            && length <= Framing.IPC_MAX_REQUEST_BYTES && VersionOk(m)
            && HasText(m, "runtime_build_id") && m[T("runtime_build_id")].s == build
            && NamedOperation(m).Some? && Escaping(Schema(NamedOperation(m).value), PayloadOf(m))
  {
    if NamedOperation(m).Some? {
      var op := NamedOperation(m).value;
      EscapingExactly(Schema(op), Defaults(op), Targets(op), PayloadOf(m));
    }
  }

  lemma PassedPayload(length: nat, m: map<Text, J>, build: Text, instance: Text)
    requires Check(length, Some(m), build, instance).Passed?
    ensures var g := Check(length, Some(m), build, instance); Normalize(g.op, PayloadOf(m)) == Ok(g.normalized)
  {
    CheckedPayload(m, NamedOperation(m).value, instance);
  }

  lemma CheckedPayload(m: map<Text, J>, op: Operation, instance: Text)
    requires CheckPayload(m, op, instance).Passed?
    ensures var g := CheckPayload(m, op, instance); g.op == op && Normalize(op, PayloadOf(m)) == Ok(g.normalized)
  {
  }

  /** The parts of a decoded object are whole. */
  lemma PayloadIsWhole(parsed: Option<Raw>)
    requires DecodeFrame(parsed).Some?
    ensures AllWhole(PayloadOf(DecodeFrame(parsed).value))
  {
    DecodedIsWhole(parsed.value);
  }

  /** Two requests that passed look alike to the table exactly when they carry the same id, and
      the same operation and normalized payload. */
  lemma TokensExact(length: nat, a: Option<Raw>, length': nat, b: Option<Raw>, build: Text, instance: Text, g: Gated, h: Gated)
    requires g == Check(length, DecodeFrame(a), build, instance) && g.Passed?
    requires h == Check(length', DecodeFrame(b), build, instance) && h.Passed?
    ensures IdToken(g) == IdToken(h) <==> g.id == h.id
    ensures CanonicalToken(g) == CanonicalToken(h) <==> g.op == h.op && g.normalized == h.normalized
  {
    var m, m' := DecodeFrame(a).value, DecodeFrame(b).value;
    PassedPayload(length, m, build, instance);
    PassedPayload(length', m', build, instance);
    PayloadIsWhole(a);
    PayloadIsWhole(b);
    WholeStays(g.op, PayloadOf(m));
    WholeStays(h.op, PayloadOf(m'));
    SameTokens(g, PayloadOf(m), h, PayloadOf(m'));
  }

  lemma SameTokens(g: Gated, p: J, h: Gated, q: J)
    requires g.Passed? && h.Passed? && Normalize(g.op, p) == Ok(g.normalized) && Normalize(h.op, q) == Ok(h.normalized)
    requires EvidenceWhole(g.op, g.normalized) && EvidenceWhole(h.op, h.normalized)
    ensures IdToken(g) == IdToken(h) <==> g.id == h.id
    ensures CanonicalToken(g) == CanonicalToken(h) <==> g.op == h.op && g.normalized == h.normalized
  {
    if IdToken(g) == IdToken(h) { CodeInjective(g.id, h.id); }
    if CanonicalToken(g) == CanonicalToken(h) {
      CodeInjective(T(CanonicalRequestIdentity(g.op, g.normalized).text), T(CanonicalRequestIdentity(h.op, h.normalized).text));
      LiteralsDiffer();
    }
    WholeIdentity(g.op, p, h.op, q);
  }
}
