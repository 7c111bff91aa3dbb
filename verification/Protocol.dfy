/** Request schemas: validation, normalization and the canonical request identity. */
module Protocol {
  import opened Wrappers
  import opened Json

  const IPC_PROTOCOL_VERSION: nat := 1
  const IPC_MAX_STRING_BYTES: nat := 2048
  const IPC_MAX_LIMIT: nat := 100
  const IPC_MAX_MEDIA_ITEMS: nat := 4
  const MIN_CONFIRMATION_TOKEN_CHARS: nat := 16

  datatype Operation =
    | Health | Read | ReadProfile | ReadThread | ReadSearch | Whoami
    | PostText | ReplyPost | QuotePost | DeletePost | BookmarkPost | LikePost
    | MediaIngest | MediaRelease
    | PostPhoto | ReplyPhoto | QuotePhoto | PostMultiImage | ReplyMultiImage | QuoteMultiImage
    | ReconciliationOpen | ReconciliationClose | ReconciliationList | ReconciliationShow
    | ReconciliationPrepare | ReconciliationConfirm | ReconciliationResolve

  function Name(op: Operation): string {
    match op
    case Health => "health"
    case Read => "read"
    case ReadProfile => "read_profile"
    case ReadThread => "read_thread"
    case ReadSearch => "read_search"
    case Whoami => "whoami"
    case PostText => "post_text"
    case ReplyPost => "reply_post"
    case QuotePost => "quote_post"
    case DeletePost => "delete_post"
    case BookmarkPost => "bookmark_post"
    case LikePost => "like_post"
    case MediaIngest => "media_ingest"
    case MediaRelease => "media_release"
    case PostPhoto => "post_photo"
    case ReplyPhoto => "reply_photo"
    case QuotePhoto => "quote_photo"
    case PostMultiImage => "post_multi_image"
    case ReplyMultiImage => "reply_multi_image"
    case QuoteMultiImage => "quote_multi_image"
    case ReconciliationOpen => "reconciliation_open"
    case ReconciliationClose => "reconciliation_close"
    case ReconciliationList => "reconciliation_list"
    case ReconciliationShow => "reconciliation_show"
    case ReconciliationPrepare => "reconciliation_prepare"
    case ReconciliationConfirm => "reconciliation_confirm"
    case ReconciliationResolve => "reconciliation_resolve"
  }

  datatype FieldType = IntField | BoolField | ListField | DictField | StrField

  /** `allowed` is the enumeration of a string field; empty means any text. */
  datatype Field = Field(name: string, typ: FieldType, required: bool, allowed: seq<string>)

  function Needs(name: string): Field { Field(name, StrField, true, []) }
  function Takes(name: string): Field { Field(name, StrField, false, []) }

  const POST_URL := Takes("post_url")
  const TARGET := Takes("target_post_id")
  const POST_ID := Takes("post_id")
  const TOKEN := Takes("confirmation_token")
  const TEXT := Needs("text")
  const LIMIT := Field("limit", IntField, false, [])
  const REF := Needs("artifact_ref")
  const REFS := Field("artifact_refs", ListField, true, [])
  const SESSION := Needs("reconciliation_session_id")

  /** The fields of an operation, in the order they are checked. */
  function Schema(op: Operation): seq<Field> {
    match op
    case Health => []
    case Read => [Needs("post_url")]
    case ReadProfile => [Needs("handle"), Field("tab", StrField, false, ["posts", "replies", "media"]), LIMIT,
                         Field("include_retweets", BoolField, false, [])]
    case ReadThread => [Needs("post_url"), LIMIT]
    case ReadSearch => [Needs("query"), Field("tab", StrField, false, ["top", "latest", "people"]), LIMIT]
    case Whoami => []
    case PostText => [TEXT, TOKEN]
    case ReplyPost => [POST_URL, TARGET, TEXT, TOKEN]
    case QuotePost => [POST_URL, TARGET, TEXT, TOKEN]
    case DeletePost => [POST_URL, TARGET, TOKEN]
    case BookmarkPost => [POST_ID, POST_URL, TOKEN]
    case LikePost => [POST_ID, POST_URL, TOKEN]
    case MediaIngest => [Needs("staged_name")]
    case MediaRelease => [REF]
    case PostPhoto => [Takes("text"), REF, TOKEN]
    case ReplyPhoto => [POST_URL, TARGET, TEXT, REF, TOKEN]
    case QuotePhoto => [POST_URL, TARGET, TEXT, REF, TOKEN]
    case PostMultiImage => [Takes("text"), REFS, TOKEN]
    case ReplyMultiImage => [POST_URL, TARGET, TEXT, REFS, TOKEN]
    case QuoteMultiImage => [POST_URL, TARGET, TEXT, REFS, TOKEN]
    case ReconciliationOpen => [Needs("operator_id")]
    case ReconciliationClose => [SESSION]
    case ReconciliationList => [SESSION, Takes("after_effect_id"), LIMIT]
    case ReconciliationShow => [SESSION, Needs("effect_id")]
    case ReconciliationPrepare => [SESSION, Needs("effect_id"),
                                   Field("verdict", StrField, true, ["CONFIRMED_EFFECT", "CONFIRMED_NO_EFFECT"]),
                                   Field("evidence", DictField, true, []), Needs("evidence_summary")]
    case ReconciliationConfirm => [SESSION, Needs("proposal_id"), Needs("confirmation_text")]
    case ReconciliationResolve => [SESSION, Needs("proposal_id")]
  }

  function Defaults(op: Operation): map<Text, J> {
    match op
    case ReadProfile => map[T("tab") := JStr(T("posts")), T("limit") := JInt(20), T("include_retweets") := JBool(true)]
    case ReadThread => map[T("limit") := JInt(20)]
    case ReadSearch => map[T("tab") := JStr(T("top")), T("limit") := JInt(20)]
    case _ => map[]
  }

  /** The writes that must name a target, and the fields that can. */
  function Targets(op: Operation): seq<string> {
    match op
    case ReplyPost => ["post_url", "target_post_id"]
    case QuotePost => ["post_url", "target_post_id"]
    case DeletePost => ["post_url", "target_post_id"]
    case BookmarkPost => ["post_id", "post_url"]
    case LikePost => ["post_id", "post_url"]
    case ReplyPhoto => ["post_url", "target_post_id"]
    case QuotePhoto => ["post_url", "target_post_id"]
    case ReplyMultiImage => ["post_url", "target_post_id"]
    case QuoteMultiImage => ["post_url", "target_post_id"]
    case _ => []
  }

  /** `SchemaError` is the refusal the pipeline answers with; the other two are exceptions the
      validator does not catch: a lone surrogate has no UTF-8 form, and an integer beyond the
      float range has no finiteness. */
  datatype Error = SchemaError | UnicodeEscape | OverflowEscape

  // ---- one field ---------------------------------------------------------------------------

  predicate Surrogate(c: CodePoint) { High(c) || Low(c) }

  function Utf8Length(s: Text): nat
    decreases |s|
  {
    if s == [] then 0
    else (if s[0] < 0x80 then 1 else if s[0] < 0x800 then 2 else if s[0] < 0x1_0000 then 3 else 4) + Utf8Length(s[1..])
  }

  function StringFault(s: Text): Option<Error> {
    if s == [] then Some(SchemaError)
    else if exists i | 0 <= i < |s| :: Surrogate(s[i]) then Some(UnicodeEscape)
    else if Utf8Length(s) > IPC_MAX_STRING_BYTES then Some(SchemaError)
    else None
  }

  /** The smallest magnitude that rounds past the largest double: 2^1024 - 2^970. */
  const FLOAT_LIMIT: nat := 0xfffffffffffffc00_0000000000000000_0000000000000000_0000000000000000_0000000000000000_0000000000000000_0000000000000000_0000000000000000_0000000000000000_0000000000000000_0000000000000000_0000000000000000_0000000000000000_0000000000000000_0000000000000000_0000000000000000

  function IntFault(n: int): Option<Error> {
    if n >= FLOAT_LIMIT || -n >= FLOAT_LIMIT then Some(OverflowEscape)
    else if n < 1 || n > IPC_MAX_LIMIT then Some(SchemaError)
    else None
  }

  /** The first fault of a list's items. */
  function ItemsFault(items: seq<J>): Option<Error>
    decreases |items|
  {
    if items == [] then None
    else if !items[0].JStr? then Some(SchemaError)
    else if StringFault(items[0].s).Some? then StringFault(items[0].s)
    else ItemsFault(items[1..])
  }

  function FieldFault(f: Field, v: J): Option<Error> {
    match f.typ
    case IntField => if !v.JInt? then Some(SchemaError) else IntFault(v.n)
    case BoolField => if !v.JBool? then Some(SchemaError) else None
    case ListField =>
      if !v.JArr? then Some(SchemaError)
      else if f.name == "artifact_refs" && !(1 <= |v.items| <= IPC_MAX_MEDIA_ITEMS) then Some(SchemaError)
      else ItemsFault(v.items)
    case DictField =>
      if !v.JObj? || !Encodable(v) || |Print(v, Spaced)| > IPC_MAX_STRING_BYTES then Some(SchemaError) else None
    case StrField =>
      if !v.JStr? then Some(SchemaError)
      else if StringFault(v.s).Some? then StringFault(v.s)
      else if f.name == "confirmation_token" && |v.s| < MIN_CONFIRMATION_TOKEN_CHARS then Some(SchemaError)
      else if f.allowed != [] && !(exists a | a in f.allowed :: T(a) == v.s) then Some(SchemaError)
      else None
  }

  // ---- a whole payload ------------------------------------------------------------------------

  predicate Known(schema: seq<Field>, k: Text) {
    exists i | 0 <= i < |schema| :: T(schema[i].name) == k
  }

  /** The first fault among the fields from index `i` on. */
  function FirstFault(schema: seq<Field>, m: map<Text, J>, i: nat): Option<Error>
    requires i <= |schema|
    decreases |schema| - i
  {
    if i == |schema| then None
    else
      var f, key := schema[i], T(schema[i].name);
      if key !in m then if f.required then Some(SchemaError) else FirstFault(schema, m, i + 1)
      else if FieldFault(f, m[key]).Some? then FieldFault(f, m[key])
      else FirstFault(schema, m, i + 1)
  }

  predicate Truthy(v: J) {
    match v
    case JNull => false
    case JBool(b) => b
    case JInt(n) => n != 0
    case JStr(s) => s != []
    case JArr(items) => items != []
    case JObj(m) => m != map[]
    case _ => true
  }

  predicate HasTarget(targets: seq<string>, m: map<Text, J>) {
    targets == [] || exists a | a in targets :: T(a) in m && Truthy(m[T(a)])
  }

  /** The payload over the defaults, or the first fault. */
  function NormalizeBy(schema: seq<Field>, defaults: map<Text, J>, targets: seq<string>, payload: J): Result<map<Text, J>, Error> {
    if !payload.JObj? || exists k | k in payload.m :: !Known(schema, k) then Err(SchemaError)
    else
      var fault := FirstFault(schema, payload.m, 0);
      if fault.Some? then Err(fault.value)
      else if HasTarget(targets, defaults + payload.m) then Ok(defaults + payload.m)
      else Err(SchemaError)
  }

  function Normalize(op: Operation, payload: J): Result<map<Text, J>, Error> {
    NormalizeBy(Schema(op), Defaults(op), Targets(op), payload)
  }

  /** The validator as it runs: it starts from the defaults and fills in each checked field. */
  method ValidateAndNormalize(op: Operation, payload: J) returns (r: Result<map<Text, J>, Error>)
    ensures r == Normalize(op, payload)
  {
    r := FillFields(Schema(op), Defaults(op), Targets(op), payload);
  }

  method FillFields(schema: seq<Field>, defaults: map<Text, J>, targets: seq<string>, payload: J)
    returns (r: Result<map<Text, J>, Error>)
    ensures r == NormalizeBy(schema, defaults, targets, payload)
  {
    if !payload.JObj? || exists k | k in payload.m :: !Known(schema, k) {
      return Err(SchemaError);
    }
    r := FillFrom(schema, defaults, payload.m);
    if r.Ok? && !HasTarget(targets, r.value) {
      return Err(SchemaError);
    }
  }

  method FillFrom(schema: seq<Field>, defaults: map<Text, J>, m: map<Text, J>) returns (r: Result<map<Text, J>, Error>)
    requires forall k | k in m :: Known(schema, k)
    ensures r == if FirstFault(schema, m, 0).Some? then Err(FirstFault(schema, m, 0).value) else Ok(defaults + m)
  {
    var normalized, i := defaults, 0;
    while i < |schema|
      invariant 0 <= i <= |schema|
      invariant FirstFault(schema, m, 0) == FirstFault(schema, m, i)
      invariant Filled(defaults, m, schema[..i], normalized)
    {
      var f, key := schema[i], T(schema[i].name);
      FillNext(defaults, m, schema, i, normalized);
      if key !in m {
        if f.required {
          return Err(SchemaError);
        }
      } else {
        var fault := FieldFault(f, m[key]);
        if fault.Some? {
          return Err(fault.value);
        }
        normalized := normalized[key := m[key]];
      }
      i := i + 1;
    }
    assert schema[..i] == schema;
    AllFilled(defaults, m, schema, normalized);
    return Ok(normalized);
  }

  /** The defaults overlaid with the payload's values of these fields. */
  ghost predicate Filled(defaults: map<Text, J>, m: map<Text, J>, fields: seq<Field>, n: map<Text, J>) {
    && (forall k :: k in n <==> k in defaults || (k in m && Known(fields, k)))
    && (forall k | k in n :: n[k] == if k in m && Known(fields, k) then m[k] else defaults[k])
  }

  lemma KnownGrows(fields: seq<Field>, f: Field, k: Text)
    ensures Known(fields + [f], k) <==> Known(fields, k) || T(f.name) == k
  {
    var more := fields + [f];
    if Known(fields, k) {
      var i :| 0 <= i < |fields| && T(fields[i].name) == k;
      assert more[i] == fields[i];
    }
    assert more[|fields|] == f;
  }

  lemma FillSkips(defaults: map<Text, J>, m: map<Text, J>, fields: seq<Field>, f: Field, n: map<Text, J>)
    requires Filled(defaults, m, fields, n) && T(f.name) !in m
    ensures Filled(defaults, m, fields + [f], n)
  {
    forall k ensures Known(fields + [f], k) <==> Known(fields, k) || T(f.name) == k { KnownGrows(fields, f, k); }
  }

  lemma FillPuts(defaults: map<Text, J>, m: map<Text, J>, fields: seq<Field>, f: Field, n: map<Text, J>)
    requires Filled(defaults, m, fields, n) && T(f.name) in m
    ensures Filled(defaults, m, fields + [f], n[T(f.name) := m[T(f.name)]])
  {
    forall k ensures Known(fields + [f], k) <==> Known(fields, k) || T(f.name) == k { KnownGrows(fields, f, k); }
  }

  lemma FillNext(defaults: map<Text, J>, m: map<Text, J>, schema: seq<Field>, i: nat, n: map<Text, J>)
    requires i < |schema| && Filled(defaults, m, schema[..i], n)
    ensures var key := T(schema[i].name);
            Filled(defaults, m, schema[..i + 1], if key in m then n[key := m[key]] else n)
  {
    assert schema[..i + 1] == schema[..i] + [schema[i]];
    if T(schema[i].name) in m {
      FillPuts(defaults, m, schema[..i], schema[i], n);
    } else {
      FillSkips(defaults, m, schema[..i], schema[i], n);
    }
  }

  lemma AllFilled(defaults: map<Text, J>, m: map<Text, J>, fields: seq<Field>, n: map<Text, J>)
    requires Filled(defaults, m, fields, n) && forall k | k in m :: Known(fields, k)
    ensures n == defaults + m
  {
  }

  // ---- what is accepted ------------------------------------------------------------------------

  /** Every field present is well formed, and every required one is present. */
  predicate WellFormed(schema: seq<Field>, m: map<Text, J>) {
    forall i | 0 <= i < |schema| ::
      var key := T(schema[i].name);
      if key in m then FieldFault(schema[i], m[key]).None? else !schema[i].required
  }

  lemma {:induction false} NoFaultExact(schema: seq<Field>, m: map<Text, J>, i: nat)
    requires i <= |schema|
    ensures FirstFault(schema, m, i).None? <==>
            forall j | i <= j < |schema| ::
              var key := T(schema[j].name);
              if key in m then FieldFault(schema[j], m[key]).None? else !schema[j].required
    decreases |schema| - i
  {
    if i < |schema| { NoFaultExact(schema, m, i + 1); }
  }

  /** Accepted: an object of known, well-formed fields with the required ones present and,
      where a target is required, a target. */
  predicate Accepts(schema: seq<Field>, targets: seq<string>, payload: J) {
    && payload.JObj? && (forall k | k in payload.m :: Known(schema, k))
    && WellFormed(schema, payload.m)
    && (targets == [] || exists a | a in targets :: T(a) in payload.m)
  }

  lemma AcceptedExactly(op: Operation, payload: J)
    ensures Normalize(op, payload).Ok? <==> Accepts(Schema(op), Targets(op), payload)
  {
    if payload.JObj? && Targets(op) != [] && WellFormed(Schema(op), payload.m) { TargetsAreText(op, payload.m); }
    AcceptsBy(Schema(op), Defaults(op), Targets(op), payload);
  }

  lemma AcceptsBy(schema: seq<Field>, defaults: map<Text, J>, targets: seq<string>, payload: J)
    requires payload.JObj? && targets != [] && WellFormed(schema, payload.m) ==>
               defaults == map[] && forall a | a in targets && T(a) in payload.m :: Truthy(payload.m[T(a)])
    ensures NormalizeBy(schema, defaults, targets, payload).Ok? <==> Accepts(schema, targets, payload)
  {
    if payload.JObj? {
      NoFaultExact(schema, payload.m, 0);
      if targets != [] && WellFormed(schema, payload.m) {
        assert defaults + payload.m == payload.m;
      }
    }
  }

  /** Target fields are string fields of their schema, so a present one is never empty. */
  lemma TargetsAreText(op: Operation, m: map<Text, J>)
    requires WellFormed(Schema(op), m) && Targets(op) != []
    ensures Defaults(op) == map[] && forall a | a in Targets(op) && T(a) in m :: Truthy(m[T(a)])
  {
    forall a | a in Targets(op) && T(a) in m
      ensures Truthy(m[T(a)])
    {
      var s := Schema(op);
      assert s[0].name == a || s[1].name == a;
      var i := if s[0].name == a then 0 else 1;
      assert s[i].typ.StrField? && FieldFault(s[i], m[T(s[i].name)]).None?;
    }
  }

  lemma {:induction false} Utf8Bound(s: Text)
    ensures |s| <= Utf8Length(s) <= 4 * |s|
    decreases |s|
  {
    if s != [] { Utf8Bound(s[1..]); }
  }

  /** The defaults of known optional fields, each a value its field accepts. */
  ghost predicate Conform(schema: seq<Field>, defaults: map<Text, J>) {
    && (forall k | k in defaults :: Known(schema, k))
    && forall i | 0 <= i < |schema| && T(schema[i].name) in defaults ::
         !schema[i].required && FieldFault(schema[i], defaults[T(schema[i].name)]).None?
  }

  /** Every default satisfies its own schema. */
  lemma DefaultsConform(op: Operation)
    ensures Conform(Schema(op), Defaults(op))
  {
    match op
    case ReadProfile => ProfileConforms();
    case ReadThread => ThreadConforms();
    case ReadSearch => SearchConforms();
    case _ =>
  }

  lemma LimitConforms()
    ensures FieldFault(LIMIT, JInt(20)).None?
  {
  }

  lemma TabConforms(f: Field, tab: string)
    requires f.typ.StrField? && f.name == "tab" && tab in f.allowed && 0 < |tab| <= 10
    ensures FieldFault(f, JStr(T(tab))).None?
  {
    Utf8Bound(T(tab));
  }

  lemma ProfileDefaults()
    ensures var d := Defaults(ReadProfile);
            && T("tab") in d && d[T("tab")] == JStr(T("posts")) && T("limit") in d && d[T("limit")] == JInt(20)
            && T("include_retweets") in d && d[T("include_retweets")] == JBool(true) && T("handle") !in d
            && forall k | k in d :: k == T("tab") || k == T("limit") || k == T("include_retweets")
  {
    LiteralsDiffer();
  }

  lemma ProfileConforms()
    ensures Conform(Schema(ReadProfile), Defaults(ReadProfile))
  {
    ProfileDefaults();
    LimitConforms();
    var s, d := Schema(ReadProfile), Defaults(ReadProfile);
    assert "posts" in s[1].allowed;
    TabConforms(s[1], "posts");
    assert s[0].name == "handle" && s[1].name == "tab" && s[2] == LIMIT && s[3].name == "include_retweets";
    forall i | 0 <= i < |s| && T(s[i].name) in d
      ensures !s[i].required && FieldFault(s[i], d[T(s[i].name)]).None?
    {
      assert i == 1 || i == 2 || i == 3;
    }
  }

  lemma ThreadConforms()
    ensures Conform(Schema(ReadThread), Defaults(ReadThread))
  {
    LiteralsDiffer();
    LimitConforms();
    assert Schema(ReadThread)[1] == LIMIT;
  }

  lemma SearchConforms()
    ensures Conform(Schema(ReadSearch), Defaults(ReadSearch))
  {
    LiteralsDiffer();
    LimitConforms();
    var s := Schema(ReadSearch);
    assert "top" in s[1].allowed;
    TabConforms(s[1], "top");
    assert s[1].name == "tab" && s[2] == LIMIT;
  }

  /** Normalizing twice is normalizing once, for every operation. */
  lemma NormalizeIdempotent(op: Operation, payload: J)
    requires Normalize(op, payload).Ok?
    ensures Normalize(op, JObj(Normalize(op, payload).value)) == Normalize(op, payload)
  {
    DefaultsConform(op);
    FilledIsStable(Schema(op), Defaults(op), Targets(op), payload);
  }

  lemma FilledIsStable(schema: seq<Field>, defaults: map<Text, J>, targets: seq<string>, payload: J)
    requires Conform(schema, defaults) && NormalizeBy(schema, defaults, targets, payload).Ok?
    ensures var n := NormalizeBy(schema, defaults, targets, payload).value;
            && NormalizeBy(schema, defaults, targets, JObj(n)) == Ok(n)
            && WellFormed(schema, n) && forall k | k in n :: Known(schema, k)
  {
    var m := payload.m;
    var n := defaults + m;
    NoFaultExact(schema, m, 0);
    NoFaultExact(schema, n, 0);
    assert defaults + n == n;
  }

  lemma {:induction false} SameFaults(schema: seq<Field>, m: map<Text, J>, n: map<Text, J>, i: nat)
    requires i <= |schema| && forall k | k in m :: k in n && n[k] == m[k]
    requires forall j | 0 <= j < |schema| && T(schema[j].name) in n && T(schema[j].name) !in m ::
               !schema[j].required && FieldFault(schema[j], n[T(schema[j].name)]).None?
    ensures FirstFault(schema, m, i) == FirstFault(schema, n, i)
    decreases |schema| - i
  {
    if i < |schema| { SameFaults(schema, m, n, i + 1); }
  }

  /** Leaving defaulted fields out is the same request as spelling the defaults, errors
      included. */
  lemma OmittedIsDefault(op: Operation, m: map<Text, J>, spelled: set<Text>)
    ensures Normalize(op, JObj(Spelled(Defaults(op), spelled) + m)) == Normalize(op, JObj(m))
  {
    DefaultsConform(op);
    SpellingIsNothing(Schema(op), Defaults(op), Targets(op), m, spelled);
  }

  /** Some of the defaults. */
  function Spelled(defaults: map<Text, J>, spelled: set<Text>): map<Text, J> {
    map k | k in spelled && k in defaults :: defaults[k]
  }

  lemma SpellingIsNothing(schema: seq<Field>, defaults: map<Text, J>, targets: seq<string>, m: map<Text, J>, spelled: set<Text>)
    requires Conform(schema, defaults)
    ensures NormalizeBy(schema, defaults, targets, JObj(Spelled(defaults, spelled) + m)) == NormalizeBy(schema, defaults, targets, JObj(m))
  {
    var n := Spelled(defaults, spelled) + m;
    SameFaults(schema, m, n, 0);
    assert defaults + n == defaults + m;
    assert (exists k | k in n :: !Known(schema, k)) <==> (exists k | k in m :: !Known(schema, k));
  }

  // ---- what escapes ---------------------------------------------------------------------------

  /** The fault of one field of the schema, absence included. */
  function FaultAt(schema: seq<Field>, m: map<Text, J>, i: nat): Option<Error>
    requires i < |schema|
  {
    var key := T(schema[i].name);
    if key in m then FieldFault(schema[i], m[key]) else if schema[i].required then Some(SchemaError) else None
  }

  /** Field `j` is the first at fault. */
  ghost predicate FirstAt(schema: seq<Field>, m: map<Text, J>, i: nat, j: nat) {
    i <= j < |schema| && FaultAt(schema, m, j).Some? && forall k | i <= k < j :: FaultAt(schema, m, k).None?
  }

  lemma {:induction false} FirstFaultExact(schema: seq<Field>, m: map<Text, J>, i: nat, e: Error)
    requires i <= |schema|
    ensures FirstFault(schema, m, i) == Some(e) <==> exists j :: FirstAt(schema, m, i, j) && FaultAt(schema, m, j) == Some(e)
    decreases |schema| - i
  {
    if i < |schema| {
      FirstFaultExact(schema, m, i + 1, e);
      if FaultAt(schema, m, i).Some? {
        assert FirstAt(schema, m, i, i);
      } else if j: nat :| FirstAt(schema, m, i + 1, j) && FaultAt(schema, m, j) == Some(e) {
        assert FirstAt(schema, m, i, j);
      }
      if j: nat :| FirstAt(schema, m, i, j) && FaultAt(schema, m, j) == Some(e) {
        assert j > i ==> FirstAt(schema, m, i + 1, j);
      }
    }
  }

  /** The validator raises something it does not catch exactly when the payload is an object of
      known fields and the first field at fault is at fault that way. */
  lemma EscapesExactly(op: Operation, payload: J, e: Error)
    requires !e.SchemaError?
    ensures Normalize(op, payload) == Err(e) <==>
            && payload.JObj? && (forall k | k in payload.m :: Known(Schema(op), k))
            && exists j :: FirstAt(Schema(op), payload.m, 0, j) && FaultAt(Schema(op), payload.m, j) == Some(e)
  {
    EscapesBy(Schema(op), Defaults(op), Targets(op), payload, e);
  }

  lemma EscapesBy(schema: seq<Field>, defaults: map<Text, J>, targets: seq<string>, payload: J, e: Error)
    requires !e.SchemaError?
    ensures NormalizeBy(schema, defaults, targets, payload) == Err(e) <==>
            && payload.JObj? && (forall k | k in payload.m :: Known(schema, k))
            && exists j :: FirstAt(schema, payload.m, 0, j) && FaultAt(schema, payload.m, j) == Some(e)
  {
    if payload.JObj? { FirstFaultExact(schema, payload.m, 0, e); }
  }

  /** The first faulty field is at fault in a way the validator does not catch. */
  ghost predicate Escaping(schema: seq<Field>, payload: J) {
    && payload.JObj? && (forall k | k in payload.m :: Known(schema, k))
    && exists j :: FirstAt(schema, payload.m, 0, j) && FaultAt(schema, payload.m, j) != Some(SchemaError)
  }

  lemma EscapingExactly(schema: seq<Field>, defaults: map<Text, J>, targets: seq<string>, payload: J)
    ensures var r := NormalizeBy(schema, defaults, targets, payload);
            Escaping(schema, payload) <==> r.Err? && !r.error.SchemaError?
  {
    var r := NormalizeBy(schema, defaults, targets, payload);
    if r.Err? && !r.error.SchemaError? { EscapesBy(schema, defaults, targets, payload, r.error); }
    if Escaping(schema, payload) {
      var j: nat :| FirstAt(schema, payload.m, 0, j) && FaultAt(schema, payload.m, j) != Some(SchemaError);
      EscapesBy(schema, defaults, targets, payload, FaultAt(schema, payload.m, j).value);
    }
  }

  predicate HasSurrogate(s: Text) {
    exists i | 0 <= i < |s| :: Surrogate(s[i])
  }

  /** Item `k` is text with a surrogate, and every item before it is in order. */
  predicate BadItem(items: seq<J>, k: nat) {
    && k < |items| && items[k].JStr? && HasSurrogate(items[k].s)
    && forall i | 0 <= i < k :: items[i].JStr? && StringFault(items[i].s).None?
  }

  lemma {:induction false} ItemsEscape(items: seq<J>)
    ensures ItemsFault(items) == Some(UnicodeEscape) <==> exists k :: BadItem(items, k)
    ensures ItemsFault(items) != Some(OverflowEscape)
    decreases |items|
  {
    if items != [] {
      var rest := items[1..];
      ItemsEscape(rest);
      if k: nat :| BadItem(rest, k) {
        if items[0].JStr? && StringFault(items[0].s).None? {
          assert items[k + 1] == rest[k] && forall i | 1 <= i <= k :: items[i] == rest[i - 1];
          assert BadItem(items, k + 1);
        }
      }
      if items[0].JStr? && HasSurrogate(items[0].s) { assert BadItem(items, 0); }
      if k: nat :| BadItem(items, k) {
        if k > 0 {
          assert items[0].JStr? && rest[k - 1] == items[k] && forall i | 0 <= i < k - 1 :: rest[i] == items[i + 1];
          assert BadItem(rest, k - 1);
        }
      }
    }
  }

  /** Which values of a field escape: an integer out of the float range, and text with a
      surrogate, alone or as the first faulty item of a list of acceptable length. */
  lemma FieldEscapes(f: Field, v: J)
    ensures FieldFault(f, v) == Some(OverflowEscape) <==>
            f.typ.IntField? && v.JInt? && (v.n >= FLOAT_LIMIT || -v.n >= FLOAT_LIMIT)
    ensures FieldFault(f, v) == Some(UnicodeEscape) <==>
            || (f.typ.StrField? && v.JStr? && HasSurrogate(v.s))
            || (f.typ.ListField? && v.JArr? && (f.name == "artifact_refs" ==> 1 <= |v.items| <= IPC_MAX_MEDIA_ITEMS)
                && exists k :: BadItem(v.items, k))
  {
    if f.typ.ListField? && v.JArr? { ItemsEscape(v.items); }
  }

  /** Both happen to requests a client can send. */
  lemma EscapingRequests(n: int)
    requires n >= FLOAT_LIMIT || -n >= FLOAT_LIMIT
    ensures Normalize(ReadThread, JObj(map[T("post_url") := JStr(T("u")), T("limit") := JInt(n)])) == Err(OverflowEscape)
    ensures Decode(RawObj([Member(Units(T("post_url")), RawStr([0xd800]))])) == Some(JObj(map[T("post_url") := JStr([0xd800])]))
    ensures Normalize(Read, JObj(map[T("post_url") := JStr([0xd800])])) == Err(UnicodeEscape)
  {
    LiteralsDiffer();
    OverflowingLimit(n);
    SurrogateUrl();
    SurrogateOnTheWire();
  }

  lemma OverflowingLimit(n: int)
    requires n >= FLOAT_LIMIT || -n >= FLOAT_LIMIT
    ensures Normalize(ReadThread, JObj(map[T("post_url") := JStr(T("u")), T("limit") := JInt(n)])) == Err(OverflowEscape)
  {
    LiteralsDiffer();
    var m := map[T("post_url") := JStr(T("u")), T("limit") := JInt(n)];
    var s := Schema(ReadThread);
    Utf8Bound(T("u"));
    assert s[0].name == "post_url" && s[1].name == "limit";
    assert FaultAt(s, m, 0).None? && FaultAt(s, m, 1) == Some(OverflowEscape);
    assert FirstAt(s, m, 0, 1);
    assert Known(s, T("post_url")) && Known(s, T("limit"));
    EscapesExactly(ReadThread, JObj(m), OverflowEscape);
  }

  lemma SurrogateUrl()
    ensures Normalize(Read, JObj(map[T("post_url") := JStr([0xd800])])) == Err(UnicodeEscape)
  {
    var m := map[T("post_url") := JStr([0xd800])];
    var s := Schema(Read);
    assert s[0].name == "post_url";
    assert Surrogate([0xd800][0]);
    assert FirstAt(s, m, 0, 0) && FaultAt(s, m, 0) == Some(UnicodeEscape);
    assert Known(s, T("post_url"));
    EscapesExactly(Read, JObj(m), UnicodeEscape);
  }

  lemma SurrogateOnTheWire()
    ensures Decode(RawObj([Member(Units(T("post_url")), RawStr([0xd800]))])) == Some(JObj(map[T("post_url") := JStr([0xd800])]))
  {
    assert [0xd800][1..] == [];
    assert FromUnits([0xd800]) == [0xd800];
    UnitsRoundTrip(T("post_url"));
    OneMember(Units(T("post_url")), RawStr([0xd800]));
  }

  // ---- which values a field accepts -----------------------------------------------------------

  /** Text a client may send: not empty, with a UTF-8 form, of at most 2048 bytes. */
  predicate Sendable(s: Text) {
    s != [] && !HasSurrogate(s) && Utf8Length(s) <= 2048
  }

  lemma {:induction false} ItemsAccepted(items: seq<J>)
    ensures ItemsFault(items).None? <==> forall i | 0 <= i < |items| :: items[i].JStr? && Sendable(items[i].s)
    decreases |items|
  {
    if items != [] {
      ItemsAccepted(items[1..]);
      assert items == [items[0]] + items[1..];
    }
  }

  /** What each kind of field accepts, in full. */
  lemma FieldAccepts(f: Field, v: J)
    ensures FieldFault(f, v).None? <==>
            match f.typ
            case IntField => v.JInt? && 1 <= v.n <= 100
            case BoolField => v.JBool?
            case ListField =>
              && v.JArr? && (f.name == "artifact_refs" ==> 1 <= |v.items| <= 4)
              && forall i | 0 <= i < |v.items| :: v.items[i].JStr? && Sendable(v.items[i].s)
            case DictField => v.JObj? && Encodable(v) && |Print(v, Spaced)| <= 2048
            case StrField =>
              && v.JStr? && Sendable(v.s) && (f.name == "confirmation_token" ==> |v.s| >= 16)
              && (f.allowed != [] ==> exists a | a in f.allowed :: T(a) == v.s)
  {
    if f.typ.ListField? && v.JArr? { ItemsAccepted(v.items); }
  }

  lemma ShortWord(w: string)
    requires 0 < |w| <= 16 && forall c | c in w :: 'a' <= c <= 'z'
    ensures Sendable(T(w))
  {
    forall i | 0 <= i < |T(w)| ensures 0x61 <= T(w)[i] <= 0x7a { assert T(w)[i] == w[i] as int && w[i] in w; }
    AsciiLength(T(w));
  }

  lemma {:induction false} AsciiLength(s: Text)
    requires forall i | 0 <= i < |s| :: s[i] < 0x80
    ensures Utf8Length(s) == |s|
    decreases |s|
  {
    if s != [] { AsciiLength(s[1..]); }
  }

  /** A payload of the first two fields of a schema that requires no other. */
  lemma AcceptsTwo(schema: seq<Field>, u: J, v: J)
    requires |schema| >= 2 && schema[0].name != schema[1].name && !schema[1].required
    requires forall i | 2 <= i < |schema| :: !schema[i].required && schema[i].name != schema[0].name && schema[i].name != schema[1].name
    ensures Accepts(schema, [], JObj(map[T(schema[0].name) := u, T(schema[1].name) := v])) <==>
              FieldFault(schema[0], u).None? && FieldFault(schema[1], v).None?
  {
    TwoFieldsWellFormed(schema, u, v);
    var m := map[T(schema[0].name) := u, T(schema[1].name) := v];
    assert forall k | k in m :: Known(schema, k);
  }

  lemma TwoFieldsWellFormed(schema: seq<Field>, u: J, v: J)
    requires |schema| >= 2 && schema[0].name != schema[1].name && !schema[1].required
    requires forall i | 2 <= i < |schema| :: !schema[i].required && schema[i].name != schema[0].name && schema[i].name != schema[1].name
    ensures T(schema[0].name) != T(schema[1].name)
    ensures WellFormed(schema, map[T(schema[0].name) := u, T(schema[1].name) := v]) <==>
              FieldFault(schema[0], u).None? && FieldFault(schema[1], v).None?
  {
    NamesTellApart(schema[0].name, schema[1].name);
    forall i | 2 <= i < |schema|
      ensures T(schema[i].name) != T(schema[0].name) && T(schema[i].name) != T(schema[1].name)
    {
      NamesTellApart(schema[i].name, schema[0].name);
      NamesTellApart(schema[i].name, schema[1].name);
    }
  }

  lemma NamesTellApart(a: string, b: string)
    requires a != b
    ensures T(a) != T(b)
  {
    LiteralsDiffer();
  }

  /** An operation on a text field and a tab, with nothing else required. */
  ghost predicate TakesTab(op: Operation, name: string, a: string, b: string, c: string) {
    && Targets(op) == [] && |Schema(op)| >= 2
    && Schema(op)[0] == Needs(name) && Schema(op)[1] == Field("tab", StrField, false, [a, b, c])
    && name != "tab" && name != "confirmation_token"
    && (forall i | 2 <= i < |Schema(op)| :: !Schema(op)[i].required && Schema(op)[i].name != name && Schema(op)[i].name != "tab")
    && forall w | w in [a, b, c] :: 0 < |w| <= 16 && forall x | x in w :: 'a' <= x <= 'z'
  }

  lemma TabsOf(op: Operation, name: string, l: Text, s: Text, a: string, b: string, c: string)
    requires TakesTab(op, name, a, b, c) && Sendable(l)
    ensures Normalize(op, JObj(map[T(name) := JStr(l), T("tab") := JStr(s)])).Ok? <==> s == T(a) || s == T(b) || s == T(c)
  {
    AcceptedExactly(op, JObj(map[T(name) := JStr(l), T("tab") := JStr(s)]));
    TabWords(Schema(op)[1], a, b, c, s);
    FieldAccepts(Schema(op)[0], JStr(l));
    AcceptsTwo(Schema(op), JStr(l), JStr(s));
  }

  lemma ProfileTakesTab()
    ensures TakesTab(ReadProfile, "handle", "posts", "replies", "media")
  {
  }

  lemma SearchTakesTab()
    ensures TakesTab(ReadSearch, "query", "top", "latest", "people")
  {
  }

  /** The timeline of a profile is one of three, and of a search one of three others. */
  lemma TabsAreEnumerated(l: Text, s: Text)
    requires Sendable(l)
    ensures Normalize(ReadProfile, JObj(map[T("handle") := JStr(l), T("tab") := JStr(s)])).Ok?
            <==> s == T("posts") || s == T("replies") || s == T("media")
    ensures Normalize(ReadSearch, JObj(map[T("query") := JStr(l), T("tab") := JStr(s)])).Ok?
            <==> s == T("top") || s == T("latest") || s == T("people")
  {
    ProfileTakesTab();
    SearchTakesTab();
    TabsOf(ReadProfile, "handle", l, s, "posts", "replies", "media");
    TabsOf(ReadSearch, "query", l, s, "top", "latest", "people");
  }

  lemma TabWords(f: Field, a: string, b: string, c: string, s: Text)
    requires f == Field("tab", StrField, false, [a, b, c])
    requires forall w | w in [a, b, c] :: 0 < |w| <= 16 && forall x | x in w :: 'a' <= x <= 'z'
    ensures FieldFault(f, JStr(s)).None? <==> s == T(a) || s == T(b) || s == T(c)
  {
    FieldAccepts(f, JStr(s));
    assert a in f.allowed && b in f.allowed && c in f.allowed;
    assert forall x | x in f.allowed :: x == a || x == b || x == c;
    ShortWord(a);
    ShortWord(b);
    ShortWord(c);
  }

  // ---- identity -----------------------------------------------------------------------------

  /** SHA-256 of the canonical text, as an injective tag. */
  datatype Identity = Sha256(text: string)

  function Canonical(op: Operation, n: map<Text, J>): J {
    JObj(map[T("protocol_version") := JInt(IPC_PROTOCOL_VERSION), T("operation") := JStr(T(Name(op))), T("payload") := JObj(n)])
  }

  function CanonicalRequestIdentity(op: Operation, n: map<Text, J>): Identity {
    Sha256(Print(Canonical(op, n), Compact))
  }

  predicate Reads(op: Operation) {
    op.Health? || op.Read? || op.ReadProfile? || op.ReadThread? || op.ReadSearch? || op.Whoami?
  }

  predicate Reconciles(op: Operation) {
    || op.ReconciliationOpen? || op.ReconciliationClose? || op.ReconciliationList? || op.ReconciliationShow?
    || op.ReconciliationPrepare? || op.ReconciliationConfirm? || op.ReconciliationResolve?
  }

  lemma NamesDiffer(a: Operation, b: Operation)
    requires Name(a) == Name(b)
    ensures a == b
  {
    if Reads(a) { ReadNames(a, b); } else if Reconciles(a) { ReconciliationNames(a, b); } else { WriteNames(a, b); }
  }

  lemma ReadNames(a: Operation, b: Operation)
    requires Reads(a) && Name(a) == Name(b)
    ensures a == b
  {
  }

  lemma ReconciliationNames(a: Operation, b: Operation)
    requires Reconciles(a) && Name(a) == Name(b)
    ensures a == b
  {
  }

  lemma WriteNames(a: Operation, b: Operation)
    requires !Reads(a) && !Reconciles(a) && Name(a) == Name(b)
    ensures a == b
  {
  }

  lemma {:induction false} TextsAreWhole(items: seq<J>)
    requires ItemsFault(items).None?
    ensures forall i | 0 <= i < |items| :: items[i].JStr? && Whole(items[i].s)
    decreases |items|
  {
    if items != [] {
      TextsAreWhole(items[1..]);
      assert items == [items[0]] + items[1..];
    }
  }

  /** Everything the schemas admit encodes, and only the evidence object can hold a surrogate. */
  lemma FieldIsPrintable(f: Field, v: J)
    requires FieldFault(f, v).None?
    ensures Encodable(v) && (!f.typ.DictField? ==> AllWhole(v))
  {
    match f.typ
    case IntField => SmallDigits(v.n);
    case ListField => TextsAreWhole(v.items);
    case _ =>
  }

  lemma SmallDigits(n: int)
    requires 1 <= n <= IPC_MAX_LIMIT
    ensures |Digits(n)| <= 3
  {
    assert n >= 10 ==> |Digits(n)| == |Digits(n / 10)| + 1;
    assert n >= 100 ==> |Digits(n / 10)| == |Digits(n / 10 / 10)| + 1;
  }

  /** The evidence a request carries, if its operation takes any. */
  predicate EvidenceWhole(op: Operation, n: map<Text, J>) {
    op.ReconciliationPrepare? && T("evidence") in n ==> AllWhole(n[T("evidence")])
  }

  lemma OnlyEvidenceIsDict(op: Operation, i: nat)
    requires i < |Schema(op)| && Schema(op)[i].typ.DictField?
    ensures op.ReconciliationPrepare? && Schema(op)[i].name == "evidence"
  {
  }

  lemma NormalizedIsPrintable(op: Operation, payload: J)
    requires Normalize(op, payload).Ok?
    ensures var n := Normalize(op, payload).value;
            Encodable(JObj(n)) && (EvidenceWhole(op, n) ==> AllWhole(JObj(n)))
  {
    var n := Normalize(op, payload).value;
    DefaultsConform(op);
    FilledIsStable(Schema(op), Defaults(op), Targets(op), payload);
    forall k | k in n
      ensures Encodable(n[k]) && (EvidenceWhole(op, n) ==> Whole(k) && AllWhole(n[k]))
    {
      var i :| 0 <= i < |Schema(op)| && T(Schema(op)[i].name) == k;
      FieldIsPrintable(Schema(op)[i], n[k]);
      if Schema(op)[i].typ.DictField? { OnlyEvidenceIsDict(op, i); }
    }
  }

  lemma CanonicalIsPrintable(op: Operation, n: map<Text, J>)
    requires Encodable(JObj(n))
    ensures Encodable(Canonical(op, n)) && (AllWhole(JObj(n)) ==> AllWhole(Canonical(op, n)))
  {
    SmallDigits(IPC_PROTOCOL_VERSION);
  }

  /** Two accepted requests have one identity exactly when their operations and normalized
      payloads are equal, as long as no evidence object splits a surrogate pair. */
  lemma WholeIdentity(op: Operation, p: J, op': Operation, p': J)
    requires Normalize(op, p).Ok? && Normalize(op', p').Ok?
    requires EvidenceWhole(op, Normalize(op, p).value) && EvidenceWhole(op', Normalize(op', p').value)
    ensures CanonicalRequestIdentity(op, Normalize(op, p).value) == CanonicalRequestIdentity(op', Normalize(op', p').value)
            <==> op == op' && Normalize(op, p) == Normalize(op', p')
  {
    var n, n' := Normalize(op, p).value, Normalize(op', p').value;
    NormalizedIsPrintable(op, p);
    NormalizedIsPrintable(op', p');
    CanonicalIsPrintable(op, n);
    CanonicalIsPrintable(op', n');
    PrintInjective(Canonical(op, n), Canonical(op', n'));
    CanonicalExact(op, n, op', n');
  }

  /** A whole payload is normalized with whole evidence: the evidence is the payload's own. */
  lemma WholeStays(op: Operation, p: J)
    requires Normalize(op, p).Ok? && AllWhole(p)
    ensures EvidenceWhole(op, Normalize(op, p).value)
  {
    if op.ReconciliationPrepare? { assert Defaults(op) == map[]; }
  }

  /** Two accepted requests that came off the wire have one identity exactly when their
      operations and normalized payloads are equal. */
  lemma IdentityExact(op: Operation, r: Raw, op': Operation, r': Raw)
    requires Decode(r).Some? && Normalize(op, Decode(r).value).Ok?
    requires Decode(r').Some? && Normalize(op', Decode(r').value).Ok?
    ensures var n, n' := Normalize(op, Decode(r).value).value, Normalize(op', Decode(r').value).value;
            CanonicalRequestIdentity(op, n) == CanonicalRequestIdentity(op', n') <==> op == op' && n == n'
  {
    DecodedIsWhole(r);
    DecodedIsWhole(r');
    WholeStays(op, Decode(r).value);
    WholeStays(op', Decode(r').value);
    WholeIdentity(op, Decode(r).value, op', Decode(r').value);
  }

  lemma CanonicalMembers(op: Operation, n: map<Text, J>)
    ensures var c := Canonical(op, n).m;
            T("operation") in c && c[T("operation")] == JStr(T(Name(op))) && T("payload") in c && c[T("payload")] == JObj(n)
  {
    LiteralsDiffer();
  }

  lemma CanonicalExact(op: Operation, n: map<Text, J>, op': Operation, n': map<Text, J>)
    ensures Canonical(op, n) == Canonical(op', n') <==> op == op' && n == n'
  {
    CanonicalMembers(op, n);
    CanonicalMembers(op', n');
    if Canonical(op, n) == Canonical(op', n') {
      LiteralsDiffer();
      NamesDiffer(op, op');
    }
  }
}
