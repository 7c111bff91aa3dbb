/** What a failed result may show on the wire: the bounded, JSON-safe projection of its data,
    and the hard-capped safety facts taken from it independently. */
module Projection {
  import opened Wrappers
  import opened Json

  const PROJECTION_MAX_DEPTH: nat := 4
  const PROJECTION_MAX_ITEMS: nat := 32
  const PROJECTION_MAX_STR: nat := 512
  const PROJECTION_MAX_KEY: nat := 128
  const FACT_MAX_STR: nat := 64
  const MAX_STAGES: nat := 16

  /** An arbitrary runtime value. A list stands for tuples too; a dict lists its items in
      insertion order, each key with its string form and whether it is itself text. */
  datatype Py =
    | PyNone
    | PyBool(b: bool)
    | PyInt(n: int)
    | PyFloat(repr: string, finite: bool)
    | PyStr(s: Text)
    | PyList(items: seq<Py>)
    | PyDict(entries: seq<Entry>)
    | PyOther(typeName: Text, truthy: bool)

  datatype Entry = Entry(key: Text, isText: bool, val: Py)

  function Cut(s: Text, n: nat): (t: Text)
    ensures t <= s && |t| == if |s| <= n then |s| else n
  {
    if |s| <= n then s else s[..n]
  }

  // ---- the projection -----------------------------------------------------------------------

  function Redaction(typeName: Text): Text {
    T("<redacted:") + typeName + T(">")
  }

  function TruncatedList(n: nat): Text {
    T("<") + T(Digits(n)) + T(" items truncated>")
  }

  function JsonSafe(v: Py, depth: nat): J
    decreases v
  {
    match v
    case PyNone => JNull
    case PyBool(b) => JBool(b)
    case PyInt(n) => JInt(n)
    case PyFloat(repr, finite) => if finite then JFloat(repr) else JNull
    case PyStr(s) => JStr(Cut(s, PROJECTION_MAX_STR))
    case PyList(items) =>
      if depth >= PROJECTION_MAX_DEPTH then JStr(TruncatedList(|items|)) else JArr(SafeItems(v, 0, depth + 1))
    case PyDict(entries) =>
      if depth >= PROJECTION_MAX_DEPTH then JObj(map[T("<truncated>") := JBool(true)])
      else JObj(SafeEntries(v, if |entries| <= PROJECTION_MAX_ITEMS then |entries| else PROJECTION_MAX_ITEMS, depth + 1))
    case PyOther(typeName, _) => JStr(Redaction(typeName))
  }

  /** The items kept, from index `i` on. */
  function SafeItems(v: Py, i: nat, depth: nat): (r: seq<J>)
    requires v.PyList?
    ensures |r| <= if i < PROJECTION_MAX_ITEMS then PROJECTION_MAX_ITEMS - i else 0
    decreases v, |v.items| - i
  {
    if i >= |v.items| || i >= PROJECTION_MAX_ITEMS then []
    else [JsonSafe(v.items[i], depth)] + SafeItems(v, i + 1, depth)
  }

  /** The first `n` entries in order; a later entry whose cut key is already there wins. */
  function SafeEntries(v: Py, n: nat, depth: nat): (r: map<Text, J>)
    requires v.PyDict? && n <= |v.entries|
    ensures |r| <= n
    decreases v, n
  {
    if n == 0 then map[]
    else
      var e := v.entries[n - 1];
      SafeEntries(v, n - 1, depth)[Cut(e.key, PROJECTION_MAX_KEY) := JsonSafe(e.val, depth)]
  }

  // ---- what the projection keeps --------------------------------------------------------------

  function Fewer(n: nat): (r: nat)
    ensures r == if n <= PROJECTION_MAX_ITEMS then n else PROJECTION_MAX_ITEMS
  {
    if n <= PROJECTION_MAX_ITEMS then n else PROJECTION_MAX_ITEMS
  }

  lemma {:induction false} FirstItems(v: Py, i: nat, depth: nat)
    requires v.PyList? && i <= Fewer(|v.items|)
    ensures var r := SafeItems(v, i, depth);
            |r| == Fewer(|v.items|) - i && forall j | 0 <= j < |r| :: r[j] == JsonSafe(v.items[i + j], depth)
    decreases Fewer(|v.items|) - i
  {
    if i < Fewer(|v.items|) { FirstItems(v, i + 1, depth); }
  }

  /** One of the first `n` entries has this cut key. */
  predicate HasKey(v: Py, n: nat, k: Text)
    requires v.PyDict? && n <= |v.entries|
  {
    exists i | 0 <= i < n :: Cut(v.entries[i].key, PROJECTION_MAX_KEY) == k
  }

  /** Entry `i` is the last of them that has it. */
  predicate Decides(v: Py, n: nat, k: Text, i: nat)
    requires v.PyDict? && n <= |v.entries|
  {
    i < n && Cut(v.entries[i].key, PROJECTION_MAX_KEY) == k
    && forall j | i < j < n :: Cut(v.entries[j].key, PROJECTION_MAX_KEY) != k
  }

  /** A key shows up if an entry has it, with the value of the last that does. */
  ghost predicate KeyShows(v: Py, n: nat, depth: nat, k: Text, m: map<Text, J>)
    requires v.PyDict? && n <= |v.entries|
  {
    (k in m <==> HasKey(v, n, k)) && forall i: nat | Decides(v, n, k, i) :: k in m && m[k] == JsonSafe(v.entries[i].val, depth)
  }

  lemma {:induction false} LastEntries(v: Py, n: nat, depth: nat, k: Text)
    requires v.PyDict? && n <= |v.entries|
    ensures KeyShows(v, n, depth, k, SafeEntries(v, n, depth))
    decreases n
  {
    if n > 0 {
      LastEntries(v, n - 1, depth, k);
      if Cut(v.entries[n - 1].key, PROJECTION_MAX_KEY) != k {
        forall i: nat ensures Decides(v, n, k, i) <==> Decides(v, n - 1, k, i) {}
      }
    }
  }

  /** Nothing within the limits is dropped: text up to 512 characters, the first 32 items, and
      under each cut key the last of the first 32 entries that has it, each projected in turn;
      beyond the fourth level a container shows only that it was cut off. */
  lemma JsonSafeKeeps(v: Py, depth: nat, k: Text)
    ensures v.PyStr? ==> JsonSafe(v, depth) == JStr(if |v.s| <= 512 then v.s else v.s[..512])
    ensures v.PyList? && depth < PROJECTION_MAX_DEPTH ==>
              var r := JsonSafe(v, depth);
              && r.JArr? && |r.items| == Fewer(|v.items|)
              && forall j | 0 <= j < |r.items| :: r.items[j] == JsonSafe(v.items[j], depth + 1)
    ensures v.PyDict? && depth < PROJECTION_MAX_DEPTH ==>
              var r, n := JsonSafe(v, depth), Fewer(|v.entries|);
              r.JObj? && KeyShows(v, n, depth + 1, k, r.m)
    ensures v.PyList? && depth >= PROJECTION_MAX_DEPTH ==> JsonSafe(v, depth).JStr?
    ensures v.PyDict? && depth >= PROJECTION_MAX_DEPTH ==> JsonSafe(v, depth) == JObj(map[T("<truncated>") := JBool(true)])
  {
    if v.PyList? && depth < PROJECTION_MAX_DEPTH { FirstItems(v, 0, depth + 1); }
    if v.PyDict? && depth < PROJECTION_MAX_DEPTH { LastEntries(v, Fewer(|v.entries|), depth + 1, k); }
  }

  // ---- bounds on the projection ---------------------------------------------------------------

  /** At most `levels` nested containers, 32 members in each, keys of at most 128 and strings of
      at most `chars` code points, and nothing the encoder has no rule for. */
  predicate Bounded(j: J, levels: nat, chars: nat)
    decreases j
  {
    match j
    case JStr(s) => |s| <= chars
    case JArr(items) =>
      levels > 0 && |items| <= PROJECTION_MAX_ITEMS && forall i | 0 <= i < |items| :: Bounded(items[i], levels - 1, chars)
    case JObj(m) =>
      levels > 0 && |m| <= PROJECTION_MAX_ITEMS && forall k | k in m :: |k| <= PROJECTION_MAX_KEY && Bounded(m[k], levels - 1, chars)
    case JOpaque(_) => false
    case _ => true
  }

  /** The longest list the runtime can hold. */
  const MAX_LIST: nat := 0x7fff_ffff_ffff_ffff

  /** Lists are no longer than the runtime allows, and type names no longer than `n`. */
  predicate Fits(v: Py, n: nat)
    decreases v
  {
    match v
    case PyList(items) => |items| <= MAX_LIST && forall i | 0 <= i < |items| :: Fits(items[i], n)
    case PyDict(entries) => forall i | 0 <= i < |entries| :: Fits(entries[i].val, n)
    case PyOther(typeName, _) => |typeName| <= n
    case _ => true
  }

  /** Container levels left below a depth. */
  function Levels(depth: nat): nat {
    if depth < PROJECTION_MAX_DEPTH then PROJECTION_MAX_DEPTH + 1 - depth else 1
  }

  function MaxChars(n: nat): nat {
    if n + 11 <= PROJECTION_MAX_STR then PROJECTION_MAX_STR else n + 11
  }

  /** For a value of any shape the projection is bounded: five levels, 32 wide, and strings of
      512, or the longest redaction marker if that is longer. */
  lemma {:induction false} JsonSafeBounded(v: Py, depth: nat, n: nat)
    requires Fits(v, n)
    ensures Bounded(JsonSafe(v, depth), Levels(depth), MaxChars(n))
    decreases v, 1, 0
  {
    match v
    case PyList(items) => if depth < PROJECTION_MAX_DEPTH { ListBounded(v, depth, n); } else { DigitsBound(|items|); }
    case PyDict(entries) => if depth < PROJECTION_MAX_DEPTH { DictBounded(v, depth, n); }
    case _ =>
  }

  lemma {:induction false} ListBounded(v: Py, depth: nat, n: nat)
    requires v.PyList? && Fits(v, n) && depth < PROJECTION_MAX_DEPTH
    ensures Bounded(JsonSafe(v, depth), Levels(depth), MaxChars(n))
    decreases v, 0, |v.items| + 1
  {
    SafeItemsBounded(v, 0, depth + 1, n);
    BoundedArray(SafeItems(v, 0, depth + 1), Levels(depth), MaxChars(n));
  }

  lemma BoundedArray(items: seq<J>, levels: nat, chars: nat)
    requires levels > 0 && |items| <= PROJECTION_MAX_ITEMS
    requires forall i | 0 <= i < |items| :: Bounded(items[i], levels - 1, chars)
    ensures Bounded(JArr(items), levels, chars)
  {
  }

  lemma {:induction false} DictBounded(v: Py, depth: nat, n: nat)
    requires v.PyDict? && Fits(v, n) && depth < PROJECTION_MAX_DEPTH
    ensures Bounded(JsonSafe(v, depth), Levels(depth), MaxChars(n))
    decreases v, 0, |v.entries| + 1
  {
    var k := if |v.entries| <= PROJECTION_MAX_ITEMS then |v.entries| else PROJECTION_MAX_ITEMS;
    SafeEntriesBounded(v, k, depth + 1, n);
    BoundedObject(SafeEntries(v, k, depth + 1), Levels(depth), MaxChars(n));
  }

  lemma BoundedObject(m: map<Text, J>, levels: nat, chars: nat)
    requires levels > 0 && |m| <= PROJECTION_MAX_ITEMS
    requires forall k | k in m :: |k| <= PROJECTION_MAX_KEY && Bounded(m[k], levels - 1, chars)
    ensures Bounded(JObj(m), levels, chars)
  {
  }

  lemma {:induction false} SafeItemsBounded(v: Py, i: nat, depth: nat, n: nat)
    requires v.PyList? && Fits(v, n)
    ensures forall j | 0 <= j < |SafeItems(v, i, depth)| :: Bounded(SafeItems(v, i, depth)[j], Levels(depth), MaxChars(n))
    decreases v, 0, |v.items| - i
  {
    if i < |v.items| && i < PROJECTION_MAX_ITEMS {
      JsonSafeBounded(v.items[i], depth, n);
      SafeItemsBounded(v, i + 1, depth, n);
      assert SafeItems(v, i, depth) == [JsonSafe(v.items[i], depth)] + SafeItems(v, i + 1, depth);
    }
  }

  lemma {:induction false} SafeEntriesBounded(v: Py, k: nat, depth: nat, n: nat)
    requires v.PyDict? && k <= |v.entries| && Fits(v, n)
    ensures var r := SafeEntries(v, k, depth);
            forall key | key in r :: |key| <= PROJECTION_MAX_KEY && Bounded(r[key], Levels(depth), MaxChars(n))
    decreases v, 0, k
  {
    if k > 0 {
      JsonSafeBounded(v.entries[k - 1].val, depth, n);
      SafeEntriesBounded(v, k - 1, depth, n);
    }
  }

  function Pow10(k: nat): nat {
    if k == 0 then 1 else 10 * Pow10(k - 1)
  }

  lemma {:induction false} DigitsUpTo(n: nat, k: nat)
    requires k > 0 && n < Pow10(k)
    ensures |Digits(n)| <= k
    decreases k
  {
    if n >= 10 { DigitsUpTo(n / 10, k - 1); }
  }

  lemma DigitsBound(n: nat)
    requires n <= MAX_LIST
    ensures |Digits(n)| <= 19
  {
    assert Pow10(4) == 10_000;
    assert Pow10(8) == 10_000 * Pow10(4) && Pow10(12) == 10_000 * Pow10(8) && Pow10(16) == 10_000 * Pow10(12);
    assert Pow10(19) == 1_000 * Pow10(16);
    DigitsUpTo(n, 19);
  }

  /** The 512 bound is exactly a bound of 501 on type names: the marker adds eleven. */
  lemma RedactionExact(typeName: Text, truthy: bool, depth: nat)
    ensures Bounded(JsonSafe(PyOther(typeName, truthy), depth), Levels(depth), PROJECTION_MAX_STR) <==> |typeName| <= 501
  {
  }

  /** The plain JSON image of a value, nothing cut. */
  function Image(v: Py): J
    decreases v
  {
    match v
    case PyNone => JNull
    case PyBool(b) => JBool(b)
    case PyInt(n) => JInt(n)
    case PyFloat(repr, _) => JFloat(repr)
    case PyStr(s) => JStr(s)
    case PyList(items) => JArr(seq(|items|, i requires 0 <= i < |items| => Image(items[i])))
    case PyDict(entries) => JObj(ImageEntries(v, |entries|))
    case PyOther(typeName, _) => JOpaque(typeName)
  }

  function ImageEntries(v: Py, n: nat): map<Text, J>
    requires v.PyDict? && n <= |v.entries|
    decreases v, n
  {
    if n == 0 then map[] else ImageEntries(v, n - 1)[v.entries[n - 1].key := Image(v.entries[n - 1].val)]
  }

  /** Within every limit of the projection. */
  predicate Small(v: Py, depth: nat)
    decreases v
  {
    match v
    case PyFloat(_, finite) => finite
    case PyStr(s) => |s| <= PROJECTION_MAX_STR
    case PyList(items) =>
      depth < PROJECTION_MAX_DEPTH && |items| <= PROJECTION_MAX_ITEMS && forall i | 0 <= i < |items| :: Small(items[i], depth + 1)
    case PyDict(entries) =>
      depth < PROJECTION_MAX_DEPTH && |entries| <= PROJECTION_MAX_ITEMS
      && forall i | 0 <= i < |entries| :: |entries[i].key| <= PROJECTION_MAX_KEY && Small(entries[i].val, depth + 1)
    case PyOther(_, _) => false
    case _ => true
  }

  /** Within the limits the projection loses nothing. */
  lemma {:induction false} SmallIsKept(v: Py, depth: nat)
    requires Small(v, depth)
    ensures JsonSafe(v, depth) == Image(v)
    decreases v, 1, 0
  {
    match v
    case PyList(items) =>
      ItemsKept(v, 0, depth + 1);
      assert SafeItems(v, 0, depth + 1) == seq(|items|, i requires 0 <= i < |items| => Image(items[i]));
    case PyDict(entries) => EntriesKept(v, |entries|, depth + 1);
    case _ =>
  }

  lemma {:induction false} ItemsKept(v: Py, i: nat, depth: nat)
    requires v.PyList? && i <= |v.items| <= PROJECTION_MAX_ITEMS && forall j | 0 <= j < |v.items| :: Small(v.items[j], depth)
    ensures var r := SafeItems(v, i, depth);
            |r| == |v.items| - i && forall j | 0 <= j < |r| :: r[j] == Image(v.items[i + j])
    decreases v, 0, |v.items| - i
  {
    if i < |v.items| {
      SmallIsKept(v.items[i], depth);
      ItemsKept(v, i + 1, depth);
      assert SafeItems(v, i, depth) == [JsonSafe(v.items[i], depth)] + SafeItems(v, i + 1, depth);
    }
  }

  lemma {:induction false} EntriesKept(v: Py, n: nat, depth: nat)
    requires v.PyDict? && n <= |v.entries|
    requires forall j | 0 <= j < |v.entries| :: |v.entries[j].key| <= PROJECTION_MAX_KEY && Small(v.entries[j].val, depth)
    ensures SafeEntries(v, n, depth) == ImageEntries(v, n)
    decreases v, 0, n
  {
    if n > 0 {
      SmallIsKept(v.entries[n - 1].val, depth);
      EntriesKept(v, n - 1, depth);
    }
  }

  // ---- the safety facts ---------------------------------------------------------------------

  /** The value under a text key. */
  function Lookup(entries: seq<Entry>, key: string): Option<Py>
    decreases |entries|
  {
    if entries == [] then None
    else if entries[0].isText && entries[0].key == T(key) then Some(entries[0].val)
    else Lookup(entries[1..], key)
  }

  const FACTS := ["public_side_effect", "reconciliation_required", "m5_effect_state"]

  /** The top-level data of a result and, if it is a dict, the payload nested under "data". */
  function Sources(data: Py): seq<seq<Entry>> {
    if !data.PyDict? then []
    else
      var nested := Lookup(data.entries, "data");
      [data.entries] + if nested.Some? && nested.value.PyDict? then [nested.value.entries] else []
  }

  /** The first source with text or a boolean for the field. */
  function Fact(sources: seq<seq<Entry>>, field: string): Option<J>
    decreases |sources|
  {
    if sources == [] then None
    else
      var found := Lookup(sources[0], field);
      if found.Some? && found.value.PyStr? then Some(JStr(Cut(found.value.s, FACT_MAX_STR)))
      else if found.Some? && found.value.PyBool? then Some(JBool(found.value.b))
      else Fact(sources[1..], field)
  }

  function Put(m: map<Text, J>, key: string, v: Option<J>): (r: map<Text, J>)
    ensures |r| <= |m| + 1
  {
    if v.Some? then m[T(key) := v.value] else m
  }

  function MandatorySafety(data: Py): map<Text, J> {
    var s := Sources(data);
    Put(Put(Put(map[], FACTS[0], Fact(s, FACTS[0])), FACTS[1], Fact(s, FACTS[1])), FACTS[2], Fact(s, FACTS[2]))
  }

  const SCALARS := ["public_side_effect", "reconciliation_required", "m5_effect_state", "terminal_persistence_failed",
                    "semantic_key", "dedupe_key", "posted_url", "posted_post_id", "failure_code", "status"]

  /** The allowlisted scalars of a source, none replacing one already there. */
  function Hoist(entries: seq<Entry>, names: seq<string>, m: map<Text, J>): map<Text, J>
    decreases |names|
  {
    if names == [] then m
    else
      var found := Lookup(entries, names[0]);
      Hoist(entries, names[1..], if found.Some? && T(names[0]) !in m then m[T(names[0]) := JsonSafe(found.value, 0)] else m)
  }

  function PickPolicy(policy: seq<Entry>): map<Text, J> {
    Hoist(policy, ["verdict", "blocked_by", "risk_tier", "reason"], map[])
  }

  predicate Truthy(v: Py) {
    match v
    case PyNone => false
    case PyBool(b) => b
    case PyInt(n) => n != 0
    case PyFloat(repr, _) => repr != "0.0" && repr != "-0.0"
    case PyStr(s) => s != []
    case PyList(items) => items != []
    case PyDict(entries) => entries != []
    case PyOther(_, truthy) => truthy
  }

  function LastStages(stages: seq<Py>): Py {
    PyList(if |stages| <= MAX_STAGES then stages else stages[|stages| - MAX_STAGES..])
  }

  /** What the trace adds: its last stages, and the dedupe key when no semantic key is known. */
  function AddTrace(trace: seq<Entry>, m: map<Text, J>): map<Text, J> {
    var stages, intent := Lookup(trace, "stages"), Lookup(trace, "intent");
    var n := Put(m, "trace_stages",
                 if stages.Some? && stages.value.PyList? then Some(JsonSafe(LastStages(stages.value.items), 0)) else None);
    if intent.Some? && intent.value.PyDict? && T("semantic_key") !in n then
      var key := Lookup(intent.value.entries, "dedupe_key");
      Put(n, "semantic_key", if key.Some? && Truthy(key.value) then Some(JsonSafe(key.value, 0)) else None)
    else n
  }

  /** The scalars of the result and of its nested payload. */
  function HoistAll(entries: seq<Entry>, nested: Option<Py>, names: seq<string>): map<Text, J> {
    var top := Hoist(entries, names, map[]);
    if nested.Some? && nested.value.PyDict? then Hoist(nested.value.entries, names, top) else top
  }

  function Hoisted(data: Py): map<Text, J>
    requires data.PyDict?
  {
    HoistAll(data.entries, Lookup(data.entries, "data"), SCALARS)
  }

  /** The blocks that are only diagnostics. */
  function AddDiagnostics(data: Py, m: map<Text, J>): map<Text, J>
    requires data.PyDict?
  {
    var nested, policy, trace := Lookup(data.entries, "data"), Lookup(data.entries, "policy"), Lookup(data.entries, "trace");
    var judged := Put(m, "policy",
                      if policy.Some? && policy.value.PyDict? then Some(JObj(PickPolicy(policy.value.entries))) else None);
    var traced := if trace.Some? && trace.value.PyDict? then AddTrace(trace.value.entries, judged) else judged;
    Put(traced, "data", if nested.Some? && !nested.value.PyNone? then Some(JsonSafe(nested.value, 0)) else None)
  }

  function SafetyProjection(data: Py): map<Text, J> {
    if !data.PyDict? then map[] else AddDiagnostics(data, Hoisted(data))
  }

  // ---- the two agree --------------------------------------------------------------------------

  lemma {:induction false} HoistExact(entries: seq<Entry>, names: seq<string>, m: map<Text, J>, field: string)
    ensures var r := Hoist(entries, names, m);
            && (T(field) in m ==> T(field) in r && r[T(field)] == m[T(field)])
            && (T(field) !in m ==>
                  var found := Lookup(entries, field);
                  if field in names && found.Some? then T(field) in r && r[T(field)] == JsonSafe(found.value, 0)
                  else T(field) !in r)
    decreases |names|
  {
    LiteralsDiffer();
    if names != [] {
      var found := Lookup(entries, names[0]);
      var next := if found.Some? && T(names[0]) !in m then m[T(names[0]) := JsonSafe(found.value, 0)] else m;
      HoistExact(entries, names[1..], next, field);
    }
  }

  /** The value a projection shows for a safety fact: the first source that has the field. */
  function Shown(sources: seq<seq<Entry>>, field: string): Option<J>
    decreases |sources|
  {
    if sources == [] then None
    else
      var found := Lookup(sources[0], field);
      if found.Some? then Some(JsonSafe(found.value, 0)) else Shown(sources[1..], field)
  }

  predicate Holds(m: map<Text, J>, field: string, v: Option<J>) {
    if v.Some? then T(field) in m && m[T(field)] == v.value else T(field) !in m
  }

  /** The projection holds each safety fact as its first source gives it. */
  lemma ProjectionShows(data: Py, field: string)
    requires field in FACTS
    ensures Holds(SafetyProjection(data), field, Shown(Sources(data), field))
  {
    if data.PyDict? {
      HoistedShows(data, field);
      DiagnosticsKeep(data, Hoisted(data), field);
    }
  }

  lemma HoistedShows(data: Py, field: string)
    requires field in FACTS && data.PyDict?
    ensures Holds(Hoisted(data), field, Shown(Sources(data), field))
  {
    FactIsScalar(field);
    HoistedFrom(data, SCALARS, Lookup(data.entries, "data"), field);
  }

  lemma HoistedFrom(data: Py, names: seq<string>, nested: Option<Py>, field: string)
    requires data.PyDict? && field in names && nested == Lookup(data.entries, "data")
    ensures Holds(HoistAll(data.entries, nested, names), field, Shown(Sources(data), field))
  {
    if nested.Some? && nested.value.PyDict? {
      assert Sources(data) == [data.entries, nested.value.entries];
      HoistTwo(data.entries, nested.value.entries, names, field);
    } else {
      assert Sources(data) == [data.entries];
      HoistOne(data.entries, names, field);
    }
  }

  /** What one source shows. */
  function ShownIn(a: seq<Entry>, field: string): Option<J> {
    var found := Lookup(a, field);
    if found.Some? then Some(JsonSafe(found.value, 0)) else None
  }

  lemma ShownOne(a: seq<Entry>, field: string)
    ensures Shown([a], field) == ShownIn(a, field)
  {
    assert [a][1..] == [];
  }

  lemma ShownTwo(a: seq<Entry>, b: seq<Entry>, field: string)
    ensures Shown([a, b], field) == if ShownIn(a, field).Some? then ShownIn(a, field) else ShownIn(b, field)
  {
    assert [a, b][1..] == [b];
    ShownOne(b, field);
  }

  lemma HoistOne(a: seq<Entry>, names: seq<string>, field: string)
    requires field in names
    ensures Holds(Hoist(a, names, map[]), field, Shown([a], field))
  {
    HoistExact(a, names, map[], field);
    ShownOne(a, field);
  }

  lemma HoistTwo(a: seq<Entry>, b: seq<Entry>, names: seq<string>, field: string)
    requires field in names
    ensures Holds(Hoist(b, names, Hoist(a, names, map[])), field, Shown([a, b], field))
  {
    HoistExact(a, names, map[], field);
    HoistExact(b, names, Hoist(a, names, map[]), field);
    ShownTwo(a, b, field);
  }

  lemma FactIsScalar(field: string)
    requires field in FACTS
    ensures field in SCALARS
  {
    assert SCALARS[0] == FACTS[0] && SCALARS[1] == FACTS[1] && SCALARS[2] == FACTS[2];
  }

  predicate SameAt(m: map<Text, J>, n: map<Text, J>, key: Text) {
    (key in m <==> key in n) && (key in m ==> m[key] == n[key])
  }

  lemma PutKeeps(m: map<Text, J>, key: string, v: Option<J>, field: string)
    requires key != field
    ensures SameAt(m, Put(m, key, v), T(field))
  {
    LiteralsDiffer();
  }

  lemma TraceKeeps(trace: seq<Entry>, m: map<Text, J>, field: string)
    requires field != "trace_stages" && field != "semantic_key"
    ensures SameAt(m, AddTrace(trace, m), T(field))
  {
    var stages, intent := Lookup(trace, "stages"), Lookup(trace, "intent");
    var v := if stages.Some? && stages.value.PyList? then Some(JsonSafe(LastStages(stages.value.items), 0)) else None;
    PutKeeps(m, "trace_stages", v, field);
    if intent.Some? && intent.value.PyDict? {
      var key := Lookup(intent.value.entries, "dedupe_key");
      var k := if key.Some? && Truthy(key.value) then Some(JsonSafe(key.value, 0)) else None;
      PutKeeps(Put(m, "trace_stages", v), "semantic_key", k, field);
    }
  }

  lemma DiagnosticsKeep(data: Py, m: map<Text, J>, field: string)
    requires data.PyDict? && field in FACTS
    ensures SameAt(m, AddDiagnostics(data, m), T(field))
  {
    var nested, policy, trace := Lookup(data.entries, "data"), Lookup(data.entries, "policy"), Lookup(data.entries, "trace");
    var v := if policy.Some? && policy.value.PyDict? then Some(JObj(PickPolicy(policy.value.entries))) else None;
    var judged := Put(m, "policy", v);
    PutKeeps(m, "policy", v, field);
    if trace.Some? && trace.value.PyDict? { TraceKeeps(trace.value.entries, judged, field); }
    var traced := if trace.Some? && trace.value.PyDict? then AddTrace(trace.value.entries, judged) else judged;
    PutKeeps(traced, "data", if nested.Some? && !nested.value.PyNone? then Some(JsonSafe(nested.value, 0)) else None, field);
  }

  lemma MandatoryHolds(data: Py, field: string)
    requires field in FACTS
    ensures Holds(MandatorySafety(data), field, Fact(Sources(data), field))
    ensures |MandatorySafety(data)| <= 3
  {
    LiteralsDiffer();
  }
}
