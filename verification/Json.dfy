/** JSON values and the sorted-key ASCII printer the wire and the request identity use
    (sections 4 to 7 of RFC 8259). Text is a sequence of code points, lone surrogates
    included; printed text is ASCII. */
module Json {
  import opened Wrappers

  type CodePoint = c: int | 0 <= c < 0x11_0000
  type Text = seq<CodePoint>

  /** An object's members are a map: decoding has already refused duplicate keys. `JFloat`
      holds the number's own shortest text; `JOpaque` is anything the encoder has no rule
      for, with its string form. */
  datatype J =
    | JNull
    | JBool(b: bool)
    | JInt(n: int)
    | JFloat(repr: string)
    | JStr(s: Text)
    | JArr(items: seq<J>)
    | JObj(m: map<Text, J>)
    | JOpaque(form: Text)

  /** An ASCII literal as text. */
  function T(s: string): (t: Text)
    ensures |t| == |s|
  {
    seq(|s|, i requires 0 <= i < |s| => s[i] as int)
  }

  lemma LiteralsDiffer()
    ensures forall a, b :: T(a) == T(b) ==> a == b
  {
    forall a, b | T(a) == T(b)
      ensures a == b
    {
      forall i | 0 <= i < |a|
        ensures a[i] == b[i]
      {
        assert T(a)[i] == a[i] as int && T(b)[i] == b[i] as int;
      }
    }
  }

  // ---- key order ------------------------------------------------------------------------

  predicate TextLt(a: Text, b: Text)
    decreases |a|
  {
    b != [] && (a == [] || a[0] < b[0] || (a[0] == b[0] && TextLt(a[1..], b[1..])))
  }

  lemma {:induction false} TextTotal(a: Text, b: Text)
    ensures a == b || TextLt(a, b) || TextLt(b, a)
    ensures !TextLt(a, a)
    ensures !(TextLt(a, b) && TextLt(b, a))
    decreases |a|
  {
    if a != [] { TextTotal(a[1..], a[1..]); }
    if a != [] && b != [] && a[0] == b[0] {
      TextTotal(a[1..], b[1..]);
      assert a == [a[0]] + a[1..] && b == [b[0]] + b[1..];
    }
  }

  lemma {:induction false} TextTransitive(a: Text, b: Text, c: Text)
    requires TextLt(a, b) && TextLt(b, c)
    ensures TextLt(a, c)
    decreases |a|
  {
    if a != [] && a[0] == b[0] && b[0] == c[0] { TextTransitive(a[1..], b[1..], c[1..]); }
  }

  predicate IsLeast(k: Text, keys: set<Text>) {
    k in keys && forall l | l in keys && l != k :: TextLt(k, l)
  }

  lemma {:induction false} LeastExists(keys: set<Text>)
    requires keys != {}
    ensures exists k :: IsLeast(k, keys)
    ensures forall k, l | IsLeast(k, keys) && IsLeast(l, keys) :: k == l
    decreases |keys|
  {
    forall k, l | IsLeast(k, keys) && IsLeast(l, keys)
      ensures k == l
    {
      TextTotal(k, l);
    }
    var x :| x in keys;
    var others := keys - {x};
    if others == {} {
      assert keys == {x};
      assert IsLeast(x, keys);
    } else {
      LeastExists(others);
      var y :| IsLeast(y, others);
      TextTotal(x, y);
      if TextLt(y, x) {
        assert IsLeast(y, keys);
      } else {
        forall l | l in keys && l != x
          ensures TextLt(x, l)
        {
          if l != y { TextTransitive(x, y, l); }
        }
        assert IsLeast(x, keys);
      }
    }
  }

  /** The keys in ascending code point order. */
  function SortedKeys(keys: set<Text>): (ks: seq<Text>)
    ensures |ks| == |keys|
    ensures forall k :: k in ks <==> k in keys
    decreases |keys|
  {
    if keys == {} then []
    else
      LeastExists(keys);
      var k :| IsLeast(k, keys);
      [k] + SortedKeys(keys - {k})
  }

  predicate Ascending(ks: seq<Text>) {
    forall i, j | 0 <= i < j < |ks| :: TextLt(ks[i], ks[j])
  }

  lemma {:induction false} SortedAscends(keys: set<Text>)
    ensures Ascending(SortedKeys(keys))
    decreases |keys|
  {
    if keys != {} {
      LeastExists(keys);
      var ks := SortedKeys(keys);
      var rest := SortedKeys(keys - {ks[0]});
      assert ks == [ks[0]] + rest;
      SortedAscends(keys - {ks[0]});
      forall i, j | 0 <= i < j < |ks|
        ensures TextLt(ks[i], ks[j])
      {
        assert ks[j] == rest[j - 1] && ks[j] in rest;
        if i > 0 { assert ks[i] == rest[i - 1]; }
      }
    }
  }

  /** Sorting has one outcome, whatever order the members were inserted in. */
  lemma {:induction false} SortIsUnique(ks: seq<Text>, ls: seq<Text>)
    requires Ascending(ks) && Ascending(ls) && forall k :: k in ks <==> k in ls
    ensures ks == ls
    decreases |ks|
  {
    if ks == [] || ls == [] {
      HeadIn(ks);
      HeadIn(ls);
    } else {
      HeadsAgree(ks, ls);
      TailMembers(ks);
      TailMembers(ls);
      SortIsUnique(ks[1..], ls[1..]);
      assert ks == [ks[0]] + ks[1..] && ls == [ls[0]] + ls[1..];
    }
  }

  lemma HeadIn(ks: seq<Text>)
    ensures ks != [] ==> ks[0] in ks
  {
  }

  lemma TailMembers(ks: seq<Text>)
    requires Ascending(ks) && ks != []
    ensures forall k :: k in ks[1..] <==> k in ks && k != ks[0]
  {
    TextTotal(ks[0], ks[0]);
    forall k | k in ks && k != ks[0] ensures k in ks[1..] {
      var i :| 0 <= i < |ks| && ks[i] == k;
      assert ks[1..][i - 1] == k;
    }
  }

  lemma HeadsAgree(ks: seq<Text>, ls: seq<Text>)
    requires Ascending(ks) && Ascending(ls) && ks != [] && ls != [] && forall k :: k in ks <==> k in ls
    ensures ks[0] == ls[0]
  {
    assert ks[0] in ls && ls[0] in ks;
    TextTotal(ks[0], ls[0]);
  }

  /** The printer's key order is the ascending listing of the keys, and the only one. */
  lemma SortedKeysExact(keys: set<Text>, ks: seq<Text>)
    requires forall k :: k in ks <==> k in keys
    ensures Ascending(ks) <==> ks == SortedKeys(keys)
  {
    SortedAscends(keys);
    if Ascending(ks) { SortIsUnique(ks, SortedKeys(keys)); }
  }

  // ---- strings --------------------------------------------------------------------------

  type Unit = u: int | 0 <= u < 0x1_0000

  predicate High(u: int) { 0xd800 <= u < 0xdc00 }
  predicate Low(u: int) { 0xdc00 <= u < 0xe000 }

  /** The UTF-16 code units of a text. */
  function Units(s: Text): (us: seq<Unit>)
    ensures |us| <= 2 * |s|
    decreases |s|
  {
    if s == [] then []
    else if s[0] < 0x1_0000 then [s[0]] + Units(s[1..])
    else [0xd800 + (s[0] - 0x1_0000) / 0x400, 0xdc00 + (s[0] - 0x1_0000) % 0x400] + Units(s[1..])
  }

  /** Reads units back as text, joining every high-low pair. */
  function FromUnits(us: seq<Unit>): Text
    decreases |us|
  {
    if us == [] then []
    else if |us| > 1 && High(us[0]) && Low(us[1])
      then [0x1_0000 + (us[0] - 0xd800) * 0x400 + (us[1] - 0xdc00)] + FromUnits(us[2..])
    else [us[0]] + FromUnits(us[1..])
  }

  /** No surrogate pair written as two code points. */
  predicate Whole(s: Text) {
    forall i | 0 <= i && i + 1 < |s| :: !(High(s[i]) && Low(s[i + 1]))
  }

  lemma {:induction false} UnitsRoundTrip(s: Text)
    requires Whole(s)
    ensures FromUnits(Units(s)) == s
    decreases |s|
  {
    if s != [] {
      var rest := s[1..];
      assert Whole(rest) by {
        forall i | 0 <= i && i + 1 < |rest| ensures !(High(rest[i]) && Low(rest[i + 1])) {
          assert rest[i] == s[i + 1] && rest[i + 1] == s[i + 2];
        }
      }
      UnitsRoundTrip(rest);
      assert s == [s[0]] + rest;
      if s[0] < 0x1_0000 {
        assert Units(s)[1..] == Units(rest);
        if High(s[0]) && rest != [] { assert rest[0] == s[1]; }
      } else {
        assert Units(s)[2..] == Units(rest);
      }
    }
  }

  function Hex(d: int): (c: char)
    requires 0 <= d < 16
  {
    if d < 10 then ('0' as int + d) as char else ('a' as int + d - 10) as char
  }

  function HexValue(c: char): int {
    if '0' <= c <= '9' then c as int - '0' as int else c as int - 'a' as int + 10
  }

  function Hex4(u: Unit): (s: string)
    ensures |s| == 4
  {
    [Hex(u / 16 / 16 / 16), Hex(u / 16 / 16 % 16), Hex(u / 16 % 16), Hex(u % 16)]
  }

  function Hex4Value(s: string): int
    requires |s| == 4
  {
    HexValue(s[0]) * 0x1000 + HexValue(s[1]) * 0x100 + HexValue(s[2]) * 16 + HexValue(s[3])
  }

  lemma HexRoundTrip(d: int)
    requires 0 <= d < 16
    ensures HexValue(Hex(d)) == d
  {
  }

  lemma Hex4RoundTrip(u: Unit)
    ensures Hex4Value(Hex4(u)) == u
  {
    HexRoundTrip(u / 16 / 16 / 16);
    HexRoundTrip(u / 16 / 16 % 16);
    HexRoundTrip(u / 16 % 16);
    HexRoundTrip(u % 16);
  }

  /** One unit inside quotes. */
  function EscapeUnit(u: Unit): (s: string)
    ensures 1 <= |s| <= 6 && s[0] != '"'
  {
    if u == 0x22 then "\\\""
    else if u == 0x5c then "\\\\"
    else if u == 0x0a then "\\n"
    else if u == 0x0d then "\\r"
    else if u == 0x09 then "\\t"
    else if u == 0x0c then "\\f"
    else if u == 0x08 then "\\b"
    else if 0x20 <= u <= 0x7e then [u as char]
    else "\\u" + Hex4(u)
  }

  function EscapeUnits(us: seq<Unit>): (s: string)
    ensures |s| <= 6 * |us|
    decreases |us|
  {
    if us == [] then "" else EscapeUnit(us[0]) + EscapeUnits(us[1..])
  }

  /** A quoted string: at most twelve characters a code point, and the quotes. */
  function Quote(s: Text): (q: string)
    ensures 2 <= |q| <= 12 * |s| + 2
  {
    "\"" + EscapeUnits(Units(s)) + "\""
  }

  /** Reads one escaped unit back: the unit and the characters it took. */
  function ReadUnit(t: string): (int, nat)
    requires |t| >= 1
  {
    if t[0] != '\\' || |t| < 2 then (t[0] as int, 1)
    else if t[1] == 'n' then (0x0a, 2)
    else if t[1] == 'r' then (0x0d, 2)
    else if t[1] == 't' then (0x09, 2)
    else if t[1] == 'f' then (0x0c, 2)
    else if t[1] == 'b' then (0x08, 2)
    else if t[1] != 'u' || |t| < 6 then (t[1] as int, 2)
    else (Hex4Value(t[2..6]), 6)
  }

  lemma ReadsEscaped(u: Unit, rest: string)
    ensures ReadUnit(EscapeUnit(u) + rest) == (u, |EscapeUnit(u)|)
  {
    var e := EscapeUnit(u);
    var t := e + rest;
    assert t[0] == e[0] && (|e| > 1 ==> t[1] == e[1]);
    if |e| == 6 {
      assert t[2..6] == Hex4(u);
      Hex4RoundTrip(u);
    }
  }

  // ---- cutting text -----------------------------------------------------------------------

  lemma LeftCancel(p: string, x: string, y: string)
    requires p + x == p + y
    ensures x == y
  {
    assert x == (p + x)[|p|..] && y == (p + y)[|p|..];
  }

  /** Equal texts with equally long heads have equal heads and equal tails. */
  lemma HeadCancel(p: string, q: string, x: string, y: string)
    requires |p| == |q| && p + x == q + y
    ensures p == q && x == y
  {
    assert p == (p + x)[..|p|] && q == (q + y)[..|q|];
    LeftCancel(p, x, y);
  }

  lemma Regroup(p: string, q: string, r: string)
    ensures (p + q) + r == p + (q + r)
  {
  }

  /** A bracketed text followed by another, regrouped after its opening bracket. */
  lemma Bracketed(open: string, body: string, close: string, x: string)
    ensures (open + body + close) + x == open + (body + (close + x))
  {
  }

  lemma FirstOf(p: string, x: string)
    requires p != ""
    ensures (p + x)[0] == p[0]
  {
  }

  /** A quoted string is delimited by itself: what is before and after it can be told apart. */
  lemma {:induction false} EscapedUnitsSplit(us: seq<Unit>, vs: seq<Unit>, x: string, y: string)
    requires EscapeUnits(us) + ("\"" + x) == EscapeUnits(vs) + ("\"" + y)
    ensures us == vs && x == y
    decreases |us|
  {
    if us == [] || vs == [] {
      OneEnds(us, vs, x, y);
    } else {
      var s1, t1 := EscapeUnits(us[1..]) + ("\"" + x), EscapeUnits(vs[1..]) + ("\"" + y);
      Regroup(EscapeUnit(us[0]), EscapeUnits(us[1..]), "\"" + x);
      Regroup(EscapeUnit(vs[0]), EscapeUnits(vs[1..]), "\"" + y);
      ReadsEscaped(us[0], s1);
      ReadsEscaped(vs[0], t1);
      HeadCancel(EscapeUnit(us[0]), EscapeUnit(vs[0]), s1, t1);
      EscapedUnitsSplit(us[1..], vs[1..], x, y);
      assert us == [us[0]] + us[1..] && vs == [vs[0]] + vs[1..];
    }
  }

  lemma OneEnds(us: seq<Unit>, vs: seq<Unit>, x: string, y: string)
    requires us == [] || vs == []
    requires EscapeUnits(us) + ("\"" + x) == EscapeUnits(vs) + ("\"" + y)
    ensures us == vs && x == y
  {
    if us != [] { FirstOf(EscapeUnits(us), "\"" + x); }
    if vs != [] { FirstOf(EscapeUnits(vs), "\"" + y); }
    assert us == [] || vs == [] ==> EscapeUnits([]) + ("\"" + x) == "\"" + x && EscapeUnits([]) + ("\"" + y) == "\"" + y;
    LeftCancel(EscapeUnits(us), "\"" + x, "\"" + y);
    LeftCancel("\"", x, y);
  }

  lemma QuoteThen(a: Text, x: string)
    ensures Quote(a) + x == "\"" + (EscapeUnits(Units(a)) + ("\"" + x))
  {
    Bracketed("\"", EscapeUnits(Units(a)), "\"", x);
  }

  lemma QuoteSplit(a: Text, b: Text, x: string, y: string)
    requires Quote(a) + x == Quote(b) + y
    ensures Units(a) == Units(b) && x == y
  {
    QuoteThen(a, x);
    QuoteThen(b, y);
    LeftCancel("\"", EscapeUnits(Units(a)) + ("\"" + x), EscapeUnits(Units(b)) + ("\"" + y));
    EscapedUnitsSplit(Units(a), Units(b), x, y);
  }

  lemma UnitsInjective(a: Text, b: Text)
    requires Whole(a) && Whole(b) && Units(a) == Units(b)
    ensures a == b
  {
    UnitsRoundTrip(a);
    UnitsRoundTrip(b);
  }

  /** Two texts print alike exactly when they have the same UTF-16 units. */
  lemma QuoteExact(a: Text, b: Text)
    ensures Quote(a) == Quote(b) <==> Units(a) == Units(b)
  {
    if Quote(a) == Quote(b) { QuoteSplit(a, b, "", ""); }
  }

  /** A split surrogate pair prints like the one character it encodes. */
  lemma SplitPairCollides(hi: CodePoint, lo: CodePoint)
    requires High(hi) && Low(lo)
    ensures var c: CodePoint := 0x1_0000 + (hi - 0xd800) * 0x400 + (lo - 0xdc00);
            [hi, lo] != [c] && Quote([hi, lo]) == Quote([c])
  {
    PairUnits(hi, lo);
  }

  lemma PairUnits(hi: CodePoint, lo: CodePoint)
    requires High(hi) && Low(lo)
    ensures Units([hi, lo]) == [hi, lo]
    ensures Units([0x1_0000 + (hi - 0xd800) * 0x400 + (lo - 0xdc00)]) == [hi, lo]
  {
    assert [hi, lo][1..] == [lo] && [lo][1..] == [];
    assert Units([lo]) == [lo];
    var c: CodePoint := 0x1_0000 + (hi - 0xd800) * 0x400 + (lo - 0xdc00);
    assert [c][1..] == [];
    assert Units([c]) == [0xd800 + (c - 0x1_0000) / 0x400, 0xdc00 + (c - 0x1_0000) % 0x400];
  }

  // ---- numbers --------------------------------------------------------------------------

  function Digits(n: nat): (s: string)
    ensures |s| >= 1 && '0' <= s[0] <= '9' && forall c | c in s :: '0' <= c <= '9'
  {
    if n < 10 then [(n + '0' as int) as char] else Digits(n / 10) + [(n % 10 + '0' as int) as char]
  }

  function DigitsValue(s: string): int
    decreases |s|
  {
    if s == "" then 0 else 10 * DigitsValue(s[..|s| - 1]) + s[|s| - 1] as int - '0' as int
  }

  lemma {:induction false} DigitsRoundTrip(n: nat)
    ensures DigitsValue(Digits(n)) == n
  {
    if n >= 10 {
      DigitsRoundTrip(n / 10);
      assert Digits(n)[..|Digits(n)| - 1] == Digits(n / 10);
    } else {
      assert Digits(n)[..0] == "";
    }
  }

  predicate NumberStart(c: char) { c == '-' || '0' <= c <= '9' }
  predicate NumberChar(c: char) { NumberStart(c) || c == '.' || c == 'e' || c == '+' }

  function IntText(n: int): (s: string)
    ensures s != "" && NumberStart(s[0]) && forall c | c in s :: NumberStart(c)
  {
    if n < 0 then "-" + Digits(-n) else Digits(n)
  }

  lemma IntTextInjective(a: int, b: int)
    requires IntText(a) == IntText(b)
    ensures a == b
  {
    DigitsRoundTrip(if a < 0 then -a else a);
    DigitsRoundTrip(if b < 0 then -b else b);
    if a < 0 { assert IntText(a)[0] == '-' && IntText(a)[1..] == Digits(-a); }
    if b < 0 { assert IntText(b)[0] == '-' && IntText(b)[1..] == Digits(-b); }
  }

  /** The text of a finite float: it has a point or an exponent. */
  predicate FloatText(s: string) {
    s != "" && NumberStart(s[0]) && (forall c | c in s :: NumberChar(c)) && ('.' in s || 'e' in s)
  }

  // ---- values ---------------------------------------------------------------------------

  /** The longest decimal text the runtime converts an integer to. */
  const MAX_INT_DIGITS: nat := 4300

  /** The encoder accepts the value. */
  predicate Encodable(v: J)
    decreases v
  {
    match v
    case JNull => true
    case JBool(_) => true
    case JInt(n) => |Digits(if n < 0 then -n else n)| <= MAX_INT_DIGITS
    case JFloat(repr) => FloatText(repr)
    case JStr(_) => true
    case JArr(items) => forall i | 0 <= i < |items| :: Encodable(items[i])
    case JObj(m) => forall k | k in m :: Encodable(m[k])
    case JOpaque(_) => false
  }

  /** No string or key in the value has a split surrogate pair. */
  predicate AllWhole(v: J)
    decreases v
  {
    match v
    case JStr(s) => Whole(s)
    case JArr(items) => forall i | 0 <= i < |items| :: AllWhole(items[i])
    case JObj(m) => forall k | k in m :: Whole(k) && AllWhole(m[k])
    case _ => true
  }

  /** The separators between items and between a key and its value. */
  datatype Style = Compact | Spaced {
    function Item(): string { if Compact? then "," else ", " }
    function Colon(): string { if Compact? then ":" else ": " }
  }

  /** Every key listed is a member's. */
  predicate Lists(ks: seq<Text>, v: J) {
    v.JObj? && forall i | 0 <= i < |ks| :: ks[i] in v.m
  }

  function Print(v: J, st: Style): string
    decreases v
  {
    match v
    case JNull => "null"
    case JBool(b) => if b then "true" else "false"
    case JInt(n) => IntText(n)
    case JFloat(repr) => repr
    case JStr(s) => Quote(s)
    case JArr(items) => "[" + PrintItems(v, 0, st) + "]"
    case JObj(m) => "{" + PrintMembers(v, SortedKeys(m.Keys), 0, st) + "}"
    case JOpaque(form) => ""
  }

  function PrintItems(v: J, i: nat, st: Style): string
    requires v.JArr? && i <= |v.items|
    decreases v, |v.items| - i
  {
    if i == |v.items| then ""
    else (if i > 0 then st.Item() else "") + Print(v.items[i], st) + PrintItems(v, i + 1, st)
  }

  function PrintMembers(v: J, ks: seq<Text>, i: nat, st: Style): string
    requires v.JObj? && i <= |ks| && Lists(ks, v)
    decreases v, |ks| - i
  {
    if i == |ks| then ""
    else (if i > 0 then st.Item() else "") + Quote(ks[i]) + st.Colon() + Print(v.m[ks[i]], st) + PrintMembers(v, ks, i + 1, st)
  }

  // ---- reading the printed text ------------------------------------------------------------

  /** Reads escaped text back, unit by unit. */
  function ReadUnits(t: string): seq<int>
    decreases |t|
  {
    if t == "" then []
    else
      var (u, n) := ReadUnit(t);
      [u] + if 0 < n <= |t| then ReadUnits(t[n..]) else []
  }

  lemma {:induction false} ReadsAllEscaped(us: seq<Unit>)
    ensures ReadUnits(EscapeUnits(us)) == us
    decreases |us|
  {
    if us != [] {
      var e, rest := EscapeUnit(us[0]), EscapeUnits(us[1..]);
      ReadsEscaped(us[0], rest);
      assert (e + rest)[|e|..] == rest;
      ReadsAllEscaped(us[1..]);
    }
  }

  /** What a reader of JSON makes of a printed scalar: the three literals, the decimal value of a
      number, and the text between the quotes with its escapes undone. */
  lemma PrintedScalarsRead(v: J, st: Style)
    ensures v.JNull? ==> Print(v, st) == "null"
    ensures v.JBool? ==> Print(v, st) == if v.b then "true" else "false"
    ensures v.JInt? && v.n >= 0 ==> DigitsValue(Print(v, st)) == v.n
    ensures v.JInt? && v.n < 0 ==> Print(v, st)[0] == '-' && DigitsValue(Print(v, st)[1..]) == -v.n
    ensures v.JStr? ==> var q := Print(v, st);
                        |q| >= 2 && q[0] == '"' && q[|q| - 1] == '"' && ReadUnits(q[1..|q| - 1]) == Units(v.s)
  {
    if v.JInt? { PrintedNumberReads(v.n); } else if v.JStr? { QuotedTextReads(v.s); }
  }

  lemma PrintedNumberReads(n: int)
    ensures n >= 0 ==> DigitsValue(IntText(n)) == n
    ensures n < 0 ==> IntText(n)[0] == '-' && DigitsValue(IntText(n)[1..]) == -n
  {
    DigitsRoundTrip(if n < 0 then -n else n);
    if n < 0 { assert ("-" + Digits(-n))[1..] == Digits(-n); }
  }

  lemma QuotedTextReads(s: Text)
    ensures var q := Quote(s); |q| >= 2 && q[0] == '"' && q[|q| - 1] == '"' && ReadUnits(q[1..|q| - 1]) == Units(s)
  {
    var body := EscapeUnits(Units(s));
    ReadsAllEscaped(Units(s));
    assert ("\"" + body + "\"")[1..|body| + 1] == body;
  }

  // ---- the printed text determines the value ----------------------------------------------

  /** What may follow a value. */
  predicate Closed(x: string) {
    x == "" || x[0] == ',' || x[0] == ']' || x[0] == '}'
  }

  lemma {:induction false} TokenSplit(s: string, t: string, x: string, y: string)
    requires (forall c | c in s :: NumberChar(c)) && (forall c | c in t :: NumberChar(c))
    requires Closed(x) && Closed(y) && s + x == t + y
    ensures s == t && x == y
    decreases |s|
  {
    if s != "" { FirstOf(s, x); assert s[0] in s; }
    if t != "" { FirstOf(t, y); assert t[0] in t; }
    if s != "" && t != "" {
      assert s == [s[0]] + s[1..] && t == [t[0]] + t[1..];
      Regroup([s[0]], s[1..], x);
      Regroup([t[0]], t[1..], y);
      LeftCancel([s[0]], s[1..] + x, t[1..] + y);
      TokenSplit(s[1..], t[1..], x, y);
    } else {
      assert s + x == x || t + y == y;
      assert s == "" && t == "";
      LeftCancel("", x, y);
    }
  }

  lemma PrintStart(v: J, st: Style)
    requires Encodable(v)
    ensures var p := Print(v, st);
            && p != ""
            && (v.JNull? ==> p[0] == 'n') && (v.JBool? ==> p[0] == if v.b then 't' else 'f')
            && (v.JInt? || v.JFloat? ==> NumberStart(p[0]) && forall c | c in p :: NumberChar(c))
            && (v.JStr? ==> p[0] == '"') && (v.JArr? ==> p[0] == '[') && (v.JObj? ==> p[0] == '{')
  {
  }

  lemma NumberSplit(a: J, b: J, x: string, y: string)
    requires Encodable(a) && Encodable(b) && (a.JInt? || a.JFloat?) && (b.JInt? || b.JFloat?)
    requires Closed(x) && Closed(y) && Print(a, Compact) + x == Print(b, Compact) + y
    ensures a == b && x == y
  {
    PrintStart(a, Compact);
    PrintStart(b, Compact);
    TokenSplit(Print(a, Compact), Print(b, Compact), x, y);
    if a.JInt? && b.JInt? { IntTextInjective(a.n, b.n); }
  }

  lemma WordSplit(a: J, b: J, x: string, y: string)
    requires (a.JNull? && b.JNull?) || (a.JBool? && b.JBool? && a.b == b.b)
    requires Print(a, Compact) + x == Print(b, Compact) + y
    ensures a == b && x == y
  {
    LeftCancel(Print(a, Compact), x, y);
  }

  /** A printed value can be told apart from what follows it, and determines the value. */
  lemma {:induction false} PrintSplit(a: J, b: J, x: string, y: string)
    requires Encodable(a) && Encodable(b) && AllWhole(a) && AllWhole(b)
    requires Closed(x) && Closed(y) && Print(a, Compact) + x == Print(b, Compact) + y
    ensures a == b && x == y
    decreases a, 2, 0
  {
    PrintStart(a, Compact);
    PrintStart(b, Compact);
    FirstOf(Print(a, Compact), x);
    FirstOf(Print(b, Compact), y);
    match a
    case JNull => WordSplit(a, b, x, y);
    case JBool(v) => WordSplit(a, b, x, y);
    case JInt(_) => NumberSplit(a, b, x, y);
    case JFloat(_) => NumberSplit(a, b, x, y);
    case JStr(v) => QuoteSplit(v, b.s, x, y); UnitsInjective(v, b.s);
    case JArr(_) => ArraySplit(a, b, x, y);
    case JObj(_) => ObjectSplit(a, b, x, y);
  }

  lemma {:induction false} ArraySplit(a: J, b: J, x: string, y: string)
    requires a.JArr? && b.JArr?
    requires Encodable(a) && Encodable(b) && AllWhole(a) && AllWhole(b)
    requires Print(a, Compact) + x == Print(b, Compact) + y
    ensures a == b && x == y
    decreases a, 1, 0
  {
    Bracketed("[", PrintItems(a, 0, Compact), "]", x);
    Bracketed("[", PrintItems(b, 0, Compact), "]", y);
    LeftCancel("[", PrintItems(a, 0, Compact) + ("]" + x), PrintItems(b, 0, Compact) + ("]" + y));
    ItemsSplit(a, b, 0, x, y);
    assert a.items == b.items;
  }

  function Lead(i: nat): string {
    if i > 0 then "," else ""
  }

  /** The text from item `i` on, with what follows the array. */
  lemma ItemsThen(v: J, i: nat, x: string)
    requires v.JArr? && i <= |v.items| && Encodable(v)
    ensures var s := PrintItems(v, i, Compact) + ("]" + x);
            && s != ""
            && if i == |v.items| then s == "]" + x
               else s == Lead(i) + (Print(v.items[i], Compact) + (PrintItems(v, i + 1, Compact) + ("]" + x))) && s[0] != ']'
  {
    if i < |v.items| {
      var p, r := Print(v.items[i], Compact), PrintItems(v, i + 1, Compact);
      PrintStart(v.items[i], Compact);
      Regroup(Lead(i) + p, r, "]" + x);
      Regroup(Lead(i), p, r + ("]" + x));
      if i == 0 { FirstOf(p, r + ("]" + x)); }
    }
  }

  lemma {:induction false} ItemsSplit(a: J, b: J, i: nat, x: string, y: string)
    requires a.JArr? && b.JArr? && i <= |a.items| && i <= |b.items|
    requires Encodable(a) && Encodable(b) && AllWhole(a) && AllWhole(b)
    requires PrintItems(a, i, Compact) + ("]" + x) == PrintItems(b, i, Compact) + ("]" + y)
    ensures |a.items| == |b.items| && (forall k | i <= k < |a.items| :: a.items[k] == b.items[k]) && x == y
    decreases a, 0, |a.items| - i
  {
    ItemsThen(a, i, x);
    ItemsThen(b, i, y);
    if i < |a.items| && i < |b.items| {
      ItemStep(a, b, i, x, y);
      PrintSplit(a.items[i], b.items[i], AfterItem(a, i, x), AfterItem(b, i, y));
      ItemsSplit(a, b, i + 1, x, y);
    } else {
      LeftCancel("]", x, y);
    }
  }

  /** The text after item `i`, with what follows the array. */
  function AfterItem(v: J, i: nat, x: string): string
    requires v.JArr? && i < |v.items|
  {
    PrintItems(v, i + 1, Compact) + ("]" + x)
  }

  lemma ItemStep(a: J, b: J, i: nat, x: string, y: string)
    requires a.JArr? && b.JArr? && i < |a.items| && i < |b.items|
    requires Encodable(a) && Encodable(b) && AllWhole(a) && AllWhole(b)
    requires PrintItems(a, i, Compact) + ("]" + x) == PrintItems(b, i, Compact) + ("]" + y)
    ensures Encodable(a.items[i]) && Encodable(b.items[i]) && AllWhole(a.items[i]) && AllWhole(b.items[i])
    ensures Print(a.items[i], Compact) + AfterItem(a, i, x) == Print(b.items[i], Compact) + AfterItem(b, i, y)
    ensures Closed(AfterItem(a, i, x)) && Closed(AfterItem(b, i, y))
  {
    ItemsThen(a, i, x);
    ItemsThen(b, i, y);
    LeftCancel(Lead(i), Print(a.items[i], Compact) + AfterItem(a, i, x), Print(b.items[i], Compact) + AfterItem(b, i, y));
    ItemsClosed(a, i + 1, x);
    ItemsClosed(b, i + 1, y);
  }

  lemma ItemsClosed(v: J, i: nat, x: string)
    requires v.JArr? && 0 < i <= |v.items| && Encodable(v)
    ensures Closed(PrintItems(v, i, Compact) + ("]" + x))
  {
    ItemsThen(v, i, x);
  }

  lemma {:induction false} ObjectSplit(a: J, b: J, x: string, y: string)
    requires a.JObj? && b.JObj?
    requires Encodable(a) && Encodable(b) && AllWhole(a) && AllWhole(b)
    requires Print(a, Compact) + x == Print(b, Compact) + y
    ensures a == b && x == y
    decreases a, 1, 0
  {
    var ka, kb := SortedKeys(a.m.Keys), SortedKeys(b.m.Keys);
    ObjectOpens(a, x);
    ObjectOpens(b, y);
    LeftCancel("{", PrintMembers(a, ka, 0, Compact) + ("}" + x), PrintMembers(b, kb, 0, Compact) + ("}" + y));
    MembersSplit(a, b, ka, kb, 0, x, y);
    SameMembers(a.m, b.m, ka, kb);
  }

  lemma ObjectOpens(a: J, x: string)
    requires a.JObj?
    ensures Print(a, Compact) + x == "{" + (PrintMembers(a, SortedKeys(a.m.Keys), 0, Compact) + ("}" + x))
  {
    Bracketed("{", PrintMembers(a, SortedKeys(a.m.Keys), 0, Compact), "}", x);
  }

  lemma SameMembers(m: map<Text, J>, n: map<Text, J>, km: seq<Text>, kn: seq<Text>)
    requires (forall k :: k in km <==> k in m) && (forall k :: k in kn <==> k in n) && |km| == |kn|
    requires forall j | 0 <= j < |km| :: km[j] == kn[j] && kn[j] in n && m[km[j]] == n[kn[j]]
    ensures m == n
  {
    assert km == kn;
    forall k | k in m ensures m[k] == n[k] {
      assert k in km;
      var j :| 0 <= j < |km| && km[j] == k;
    }
  }

  /** The text from member `i` on, with what follows the object. */
  lemma MembersThen(v: J, ks: seq<Text>, i: nat, x: string)
    requires v.JObj? && i <= |ks| && Lists(ks, v)
    ensures var s := PrintMembers(v, ks, i, Compact) + ("}" + x);
            && s != ""
            && if i == |ks| then s == "}" + x
               else
                 var after := PrintMembers(v, ks, i + 1, Compact) + ("}" + x);
                 s == Lead(i) + (Quote(ks[i]) + (":" + (Print(v.m[ks[i]], Compact) + after))) && s[0] != '}'
  {
    if i < |ks| {
      var q, p, r := Quote(ks[i]), Print(v.m[ks[i]], Compact), PrintMembers(v, ks, i + 1, Compact);
      Regroup5(Lead(i), q, p, r, "}" + x);
    }
  }

  lemma Regroup5(lead: string, q: string, p: string, r: string, x: string)
    ensures (((lead + q + ":") + p) + r) + x == lead + (q + (":" + (p + (r + x))))
  {
  }

  lemma MembersClosed(v: J, ks: seq<Text>, i: nat, x: string)
    requires v.JObj? && 0 < i <= |ks| && Lists(ks, v)
    ensures Closed(PrintMembers(v, ks, i, Compact) + ("}" + x))
  {
    MembersThen(v, ks, i, x);
  }

  lemma {:induction false} MembersSplit(a: J, b: J, ka: seq<Text>, kb: seq<Text>, i: nat, x: string, y: string)
    requires a.JObj? && b.JObj? && i <= |ka| && i <= |kb|
    requires Lists(ka, a) && Lists(kb, b)
    requires Encodable(a) && Encodable(b) && AllWhole(a) && AllWhole(b)
    requires PrintMembers(a, ka, i, Compact) + ("}" + x) == PrintMembers(b, kb, i, Compact) + ("}" + y)
    ensures |ka| == |kb| && x == y
    ensures forall j | i <= j < |ka| :: ka[j] == kb[j] && a.m[ka[j]] == b.m[kb[j]]
    decreases a, 0, 2 * (|ka| - i) + 2
  {
    if i == |ka| || i == |kb| {
      MembersEnd(a, b, ka, kb, i, x, y);
    } else {
      MemberSplit(a, b, ka, kb, i, x, y);
      RestSplit(a, b, ka, kb, i, x, y);
    }
  }

  lemma {:induction false} RestSplit(a: J, b: J, ka: seq<Text>, kb: seq<Text>, i: nat, x: string, y: string)
    requires a.JObj? && b.JObj? && i < |ka| && i < |kb|
    requires Lists(ka, a) && Lists(kb, b)
    requires Encodable(a) && Encodable(b) && AllWhole(a) && AllWhole(b)
    requires AfterMember(a, ka, i, x) == AfterMember(b, kb, i, y)
    ensures |ka| == |kb| && x == y
    ensures forall j | i < j < |ka| :: ka[j] == kb[j] && a.m[ka[j]] == b.m[kb[j]]
    decreases a, 0, 2 * (|ka| - i) + 1
  {
    MembersSplit(a, b, ka, kb, i + 1, x, y);
  }

  lemma {:induction false} MemberSplit(a: J, b: J, ka: seq<Text>, kb: seq<Text>, i: nat, x: string, y: string)
    requires a.JObj? && b.JObj? && i < |ka| && i < |kb| && Lists(ka, a) && Lists(kb, b)
    requires Encodable(a) && Encodable(b) && AllWhole(a) && AllWhole(b)
    requires PrintMembers(a, ka, i, Compact) + ("}" + x) == PrintMembers(b, kb, i, Compact) + ("}" + y)
    ensures ka[i] == kb[i] && a.m[ka[i]] == b.m[kb[i]] && AfterMember(a, ka, i, x) == AfterMember(b, kb, i, y)
    decreases a, 0, 0
  {
    MemberStep(a, b, ka, kb, i, x, y);
    PrintSplit(a.m[ka[i]], b.m[kb[i]], AfterMember(a, ka, i, x), AfterMember(b, kb, i, y));
  }

  lemma MembersEnd(a: J, b: J, ka: seq<Text>, kb: seq<Text>, i: nat, x: string, y: string)
    requires a.JObj? && b.JObj? && i <= |ka| && i <= |kb| && Lists(ka, a) && Lists(kb, b) && (i == |ka| || i == |kb|)
    requires PrintMembers(a, ka, i, Compact) + ("}" + x) == PrintMembers(b, kb, i, Compact) + ("}" + y)
    ensures |ka| == |kb| && x == y
  {
    MembersThen(a, ka, i, x);
    MembersThen(b, kb, i, y);
    LeftCancel("}", x, y);
  }

  /** The text after member `i`, with what follows the object. */
  function AfterMember(v: J, ks: seq<Text>, i: nat, x: string): string
    requires v.JObj? && i < |ks| && Lists(ks, v)
  {
    PrintMembers(v, ks, i + 1, Compact) + ("}" + x)
  }

  lemma MemberStep(a: J, b: J, ka: seq<Text>, kb: seq<Text>, i: nat, x: string, y: string)
    requires a.JObj? && b.JObj? && i < |ka| && i < |kb| && Lists(ka, a) && Lists(kb, b)
    requires Encodable(a) && Encodable(b) && AllWhole(a) && AllWhole(b)
    requires PrintMembers(a, ka, i, Compact) + ("}" + x) == PrintMembers(b, kb, i, Compact) + ("}" + y)
    ensures ka[i] == kb[i] && Encodable(a.m[ka[i]]) && Encodable(b.m[kb[i]]) && AllWhole(a.m[ka[i]]) && AllWhole(b.m[kb[i]])
    ensures Print(a.m[ka[i]], Compact) + AfterMember(a, ka, i, x) == Print(b.m[kb[i]], Compact) + AfterMember(b, kb, i, y)
    ensures Closed(AfterMember(a, ka, i, x)) && Closed(AfterMember(b, kb, i, y))
  {
    MembersThen(a, ka, i, x);
    MembersThen(b, kb, i, y);
    var x0 := Print(a.m[ka[i]], Compact) + AfterMember(a, ka, i, x);
    var y0 := Print(b.m[kb[i]], Compact) + AfterMember(b, kb, i, y);
    LeftCancel(Lead(i), Quote(ka[i]) + (":" + x0), Quote(kb[i]) + (":" + y0));
    QuoteSplit(ka[i], kb[i], ":" + x0, ":" + y0);
    LeftCancel(":", x0, y0);
    UnitsInjective(ka[i], kb[i]);
    MembersClosed(a, ka, i + 1, x);
    MembersClosed(b, kb, i + 1, y);
  }

  /** Over values without split surrogate pairs, equal text means equal values. */
  lemma PrintInjective(a: J, b: J)
    requires Encodable(a) && Encodable(b) && AllWhole(a) && AllWhole(b)
    ensures Print(a, Compact) == Print(b, Compact) <==> a == b
  {
    if Print(a, Compact) == Print(b, Compact) {
      PrintSplit(a, b, "", "");
    }
  }

  // ---- what the printer emits ---------------------------------------------------------------

  predicate Ascii(s: string) {
    forall c | c in s :: c as int < 0x80
  }

  lemma AsciiJoin(s: string, t: string)
    requires Ascii(s) && Ascii(t)
    ensures Ascii(s + t)
  {
  }

  lemma {:induction false} EscapeAscii(us: seq<Unit>)
    ensures Ascii(EscapeUnits(us))
    decreases |us|
  {
    if us != [] {
      EscapeAscii(us[1..]);
      AsciiJoin(EscapeUnit(us[0]), EscapeUnits(us[1..]));
    }
  }

  lemma QuoteAscii(s: Text)
    ensures Ascii(Quote(s))
  {
    EscapeAscii(Units(s));
    AsciiJoin("\"", EscapeUnits(Units(s)));
    AsciiJoin("\"" + EscapeUnits(Units(s)), "\"");
  }

  /** Every value the encoder accepts is printed in ASCII. */
  lemma {:induction false} PrintAscii(v: J, st: Style)
    requires Encodable(v)
    ensures Ascii(Print(v, st))
    decreases v, 1, 0
  {
    match v
    case JStr(s) => QuoteAscii(s);
    case JArr(items) =>
      ItemsAscii(v, 0, st);
      AsciiJoin("[" + PrintItems(v, 0, st), "]");
    case JObj(m) =>
      MembersAscii(v, SortedKeys(m.Keys), 0, st);
      AsciiJoin("{" + PrintMembers(v, SortedKeys(m.Keys), 0, st), "}");
    case _ =>
  }

  lemma {:induction false} ItemsAscii(v: J, i: nat, st: Style)
    requires v.JArr? && i <= |v.items| && Encodable(v)
    ensures Ascii(PrintItems(v, i, st))
    decreases v, 0, |v.items| - i
  {
    if i < |v.items| {
      PrintAscii(v.items[i], st);
      ItemsAscii(v, i + 1, st);
    }
  }

  lemma {:induction false} MembersAscii(v: J, ks: seq<Text>, i: nat, st: Style)
    requires i <= |ks| && Lists(ks, v) && Encodable(v)
    ensures Ascii(PrintMembers(v, ks, i, st))
    decreases v, 0, |ks| - i
  {
    if i < |ks| {
      PrintAscii(v.m[ks[i]], st);
      MembersAscii(v, ks, i + 1, st);
      QuoteAscii(ks[i]);
      AsciiJoin((if i > 0 then st.Item() else "") + Quote(ks[i]) + st.Colon(), Print(v.m[ks[i]], st));
    }
  }

  /** An object's text is bounded by its widest member. */
  lemma {:induction false} MembersBound(v: J, ks: seq<Text>, i: nat, st: Style, width: nat)
    requires i <= |ks| && Lists(ks, v)
    requires forall k | k in v.m :: 12 * |k| + |Print(v.m[k], st)| + 6 <= width
    ensures |PrintMembers(v, ks, i, st)| <= (|ks| - i) * width
    decreases |ks| - i
  {
    if i < |ks| {
      MembersBound(v, ks, i + 1, st, width);
      MemberBound(v, ks, i, st);
      OneMore(|ks| - (i + 1), width);
    }
  }

  lemma MemberBound(v: J, ks: seq<Text>, i: nat, st: Style)
    requires i < |ks| && Lists(ks, v)
    ensures |PrintMembers(v, ks, i, st)| <= 12 * |ks[i]| + |Print(v.m[ks[i]], st)| + 6 + |PrintMembers(v, ks, i + 1, st)|
  {
  }

  lemma OneMore(n: nat, width: nat)
    ensures (n + 1) * width == n * width + width
  {
  }

  lemma ObjectBound(v: J, st: Style, width: nat)
    requires v.JObj? && forall k | k in v.m :: 12 * |k| + |Print(v.m[k], st)| + 6 <= width
    ensures |Print(v, st)| <= |v.m| * width + 2
  {
    var ks := SortedKeys(v.m.Keys);
    assert |v.m.Keys| == |v.m|;
    MembersBound(v, ks, 0, st, width);
  }

  // ---- decoding an object ---------------------------------------------------------------------

  /** The pairs as a map, unless a key repeats. */
  function FromPairs(keys: seq<Text>, values: seq<J>): map<Text, J>
    requires |keys| == |values|
    decreases |keys|
  {
    var n := |keys|;
    if n == 0 then map[] else FromPairs(keys[..n - 1], values[..n - 1])[keys[n - 1] := values[n - 1]]
  }

  predicate Distinct(keys: seq<Text>) {
    forall i, j | 0 <= i < j < |keys| :: keys[i] != keys[j]
  }

  /** What decoding does with an object's pairs: refuse a repeated key, else map them. */
  method RejectDuplicateKeys(keys: seq<Text>, values: seq<J>) returns (ok: bool, m: map<Text, J>)
    requires |keys| == |values|
    ensures ok <==> Distinct(keys)
    ensures ok ==> m == FromPairs(keys, values)
  {
    m := map[];
    var seen: set<Text>, n := {}, 0;
    while n < |keys|
      invariant 0 <= n <= |keys|
      invariant Distinct(keys[..n]) && m == FromPairs(keys[..n], values[..n])
      invariant forall k :: k in seen <==> k in keys[..n]
    {
      if keys[n] in seen {
        assert keys[n] in keys[..n];
        return false, m;
      }
      seen := seen + {keys[n]};
      m := m[keys[n] := values[n]];
      assert keys[..n + 1][..n] == keys[..n] && values[..n + 1][..n] == values[..n];
      n := n + 1;
    }
    assert keys[..n] == keys && values[..n] == values;
    return true, m;
  }

  /** The map holds exactly the pairs. */
  lemma {:induction false} FromPairsExact(keys: seq<Text>, values: seq<J>)
    requires |keys| == |values| && Distinct(keys)
    ensures var m := FromPairs(keys, values);
            (forall k :: k in m <==> k in keys) && forall i | 0 <= i < |keys| :: m[keys[i]] == values[i]
    decreases |keys|
  {
    if keys != [] {
      var n := |keys| - 1;
      FromPairsExact(keys[..n], values[..n]);
      LastKey(keys);
      forall i | 0 <= i < n
        ensures FromPairs(keys, values)[keys[i]] == values[i]
      {
        PairKept(keys, values, FromPairs(keys[..n], values[..n]), i);
      }
    }
  }

  lemma LastKey(keys: seq<Text>)
    requires keys != []
    ensures forall k :: k in keys <==> k in keys[..|keys| - 1] || k == keys[|keys| - 1]
  {
    assert keys == keys[..|keys| - 1] + [keys[|keys| - 1]];
  }

  lemma PairKept(keys: seq<Text>, values: seq<J>, m: map<Text, J>, i: nat)
    requires |keys| == |values| && Distinct(keys) && i < |keys| - 1
    requires keys[..|keys| - 1][i] in m && m[keys[..|keys| - 1][i]] == values[..|keys| - 1][i]
    ensures m[keys[|keys| - 1] := values[|keys| - 1]][keys[i]] == values[i]
  {
  }

  // ---- decoding -------------------------------------------------------------------------------

  /** Parsed text before strings are joined and objects built. A string is the UTF-16 units its
      characters and escapes stand for, a character beyond the basic plane giving two. */
  datatype Raw =
    | RawNull
    | RawBool(b: bool)
    | RawInt(n: int)
    | RawFloat(repr: string)
    | RawConstant
    | RawStr(units: seq<Unit>)
    | RawArr(items: seq<Raw>)
    | RawObj(members: seq<Member>)

  datatype Member = Member(key: seq<Unit>, value: Raw)

  /** The value, or nothing where decoding refuses: a non-finite constant, a repeated key. A
      surrogate pair becomes one character however it was written. */
  function Decode(r: Raw): Option<J>
    decreases r
  {
    match r
    case RawNull => Some(JNull)
    case RawBool(b) => Some(JBool(b))
    case RawInt(n) => Some(JInt(n))
    case RawFloat(repr) => Some(JFloat(repr))
    case RawConstant => None
    case RawStr(units) => Some(JStr(FromUnits(units)))
    case RawArr(items) => (
      match DecodeItems(r, |items|)
      case None => None
      case Some(vs) => Some(JArr(vs)))
    case RawObj(members) => (
      match DecodeMembers(r, |members|)
      case None => None
      case Some(vs) => if Distinct(Keys(members)) then Some(JObj(FromPairs(Keys(members), vs))) else None)
  }

  /** The first `n` items. */
  function DecodeItems(r: Raw, n: nat): (vs: Option<seq<J>>)
    requires r.RawArr? && n <= |r.items|
    ensures vs.Some? ==> |vs.value| == n
    decreases r, n
  {
    if n == 0 then Some([])
    else
      var before := DecodeItems(r, n - 1);
      var v := Decode(r.items[n - 1]);
      if before.Some? && v.Some? then Some(before.value + [v.value]) else None
  }

  function DecodeMembers(r: Raw, n: nat): (vs: Option<seq<J>>)
    requires r.RawObj? && n <= |r.members|
    ensures vs.Some? ==> |vs.value| == n
    decreases r, n
  {
    if n == 0 then Some([])
    else
      var before := DecodeMembers(r, n - 1);
      var v := Decode(r.members[n - 1].value);
      if before.Some? && v.Some? then Some(before.value + [v.value]) else None
  }

  function Keys(members: seq<Member>): (ks: seq<Text>)
    ensures |ks| == |members|
  {
    seq(|members|, i requires 0 <= i < |members| => FromUnits(members[i].key))
  }

  /** An object of one member. */
  lemma OneMember(key: seq<Unit>, value: Raw)
    requires Decode(value).Some?
    ensures Decode(RawObj([Member(key, value)])) == Some(JObj(map[FromUnits(key) := Decode(value).value]))
  {
    var r := RawObj([Member(key, value)]);
    assert Keys(r.members) == [FromUnits(key)];
    assert DecodeMembers(r, 0) == Some([]);
    assert r.members[0].value == value && [] + [Decode(value).value] == [Decode(value).value];
    assert DecodeMembers(r, 1) == Some([Decode(value).value]);
    assert FromPairs([FromUnits(key)][..0], [Decode(value).value][..0]) == map[];
  }

  /** Joining units leaves no pair apart. */
  lemma {:induction false} JoinedIsWhole(us: seq<Unit>)
    ensures Whole(FromUnits(us)) && (us != [] ==> FromUnits(us) != [] && (Low(FromUnits(us)[0]) ==> Low(us[0])))
    decreases |us|
  {
    if us != [] {
      var paired := |us| > 1 && High(us[0]) && Low(us[1]);
      var rest := if paired then us[2..] else us[1..];
      JoinedIsWhole(rest);
      var s := FromUnits(us);
      assert s == [s[0]] + FromUnits(rest);
      forall i | 0 <= i && i + 1 < |s|
        ensures !(High(s[i]) && Low(s[i + 1]))
      {
        if i > 0 { assert s[i] == FromUnits(rest)[i - 1] && s[i + 1] == FromUnits(rest)[i]; }
      }
    }
  }

  /** The texts a decoder can produce are exactly the whole ones. */
  lemma DecodedTextsExactly(s: Text)
    ensures Whole(s) <==> exists us :: FromUnits(us) == s
  {
    if Whole(s) { UnitsRoundTrip(s); }
    if us :| FromUnits(us) == s { JoinedIsWhole(us); }
  }

  /** Whatever was on the wire, no string or key of a decoded value has a split surrogate pair. */
  lemma {:induction false} DecodedIsWhole(r: Raw)
    requires Decode(r).Some?
    ensures AllWhole(Decode(r).value)
    decreases r, 1, 0
  {
    match r
    case RawStr(units) => JoinedIsWhole(units);
    case RawArr(items) => ItemsAreWhole(r, |items|);
    case RawObj(members) => ObjectIsWhole(r);
    case _ =>
  }

  lemma {:induction false} ItemsAreWhole(r: Raw, n: nat)
    requires r.RawArr? && n <= |r.items| && DecodeItems(r, n).Some?
    ensures forall i | 0 <= i < n :: AllWhole(DecodeItems(r, n).value[i])
    decreases r, 0, n
  {
    if n > 0 {
      ItemsAreWhole(r, n - 1);
      DecodedIsWhole(r.items[n - 1]);
    }
  }

  lemma {:induction false} MembersAreWhole(r: Raw, n: nat)
    requires r.RawObj? && n <= |r.members| && DecodeMembers(r, n).Some?
    ensures forall i | 0 <= i < n :: AllWhole(DecodeMembers(r, n).value[i])
    decreases r, 0, n
  {
    if n > 0 {
      MembersAreWhole(r, n - 1);
      DecodedIsWhole(r.members[n - 1].value);
    }
  }

  lemma {:induction false} ObjectIsWhole(r: Raw)
    requires r.RawObj? && Decode(r).Some?
    ensures AllWhole(Decode(r).value)
    decreases r, 0, |r.members| + 1
  {
    var ks, vs := Keys(r.members), DecodeMembers(r, |r.members|).value;
    MembersAreWhole(r, |r.members|);
    FromPairsExact(ks, vs);
    forall k | k in FromPairs(ks, vs)
      ensures Whole(k) && AllWhole(FromPairs(ks, vs)[k])
    {
      var i :| 0 <= i < |ks| && ks[i] == k;
      JoinedIsWhole(r.members[i].key);
    }
  }

  /** The parse of a value's own printed text. */
  function RawOf(v: J): Raw
    decreases v
  {
    match v
    case JNull => RawNull
    case JBool(b) => RawBool(b)
    case JInt(n) => RawInt(n)
    case JFloat(repr) => RawFloat(repr)
    case JStr(s) => RawStr(Units(s))
    case JArr(items) => RawArr(seq(|items|, i requires 0 <= i < |items| => RawOf(items[i])))
    case JObj(m) =>
      var ks := SortedKeys(m.Keys);
      RawObj(seq(|ks|, i requires 0 <= i < |ks| => (assert ks[i] in ks; Member(Units(ks[i]), RawOf(m[ks[i]])))))
    case JOpaque(_) => RawConstant
  }

  /** Decoding what was encoded gives the value back. */
  lemma {:induction false} DecodeInvertsEncode(v: J)
    requires Encodable(v) && AllWhole(v)
    ensures Decode(RawOf(v)) == Some(v)
    decreases v, 1, 0
  {
    match v
    case JStr(s) => UnitsRoundTrip(s);
    case JArr(items) =>
      ItemsDecode(v, |items|);
      assert items[..|items|] == items;
    case JObj(m) => ObjectDecodes(v);
    case _ =>
  }

  lemma {:induction false} ItemsDecode(v: J, n: nat)
    requires v.JArr? && Encodable(v) && AllWhole(v) && n <= |v.items|
    ensures DecodeItems(RawOf(v), n) == Some(v.items[..n])
    decreases v, 0, n
  {
    if n > 0 {
      ItemsDecode(v, n - 1);
      DecodeInvertsEncode(v.items[n - 1]);
      assert v.items[..n] == v.items[..n - 1] + [v.items[n - 1]];
    }
  }

  /** The members in key order. */
  function InOrder(v: J): (vs: seq<J>)
    requires v.JObj?
    ensures |vs| == |SortedKeys(v.m.Keys)|
  {
    var ks := SortedKeys(v.m.Keys);
    seq(|ks|, i requires 0 <= i < |ks| => (assert ks[i] in ks; v.m[ks[i]]))
  }

  lemma {:induction false} DecodeEach(r: Raw, vs: seq<J>, n: nat)
    requires r.RawObj? && n <= |r.members| == |vs| && forall i | 0 <= i < n :: Decode(r.members[i].value) == Some(vs[i])
    ensures DecodeMembers(r, n) == Some(vs[..n])
    decreases n
  {
    if n > 0 {
      DecodeEach(r, vs, n - 1);
      assert vs[..n] == vs[..n - 1] + [vs[n - 1]];
    }
  }

  lemma RawMembers(v: J)
    requires v.JObj?
    ensures RawOf(v).RawObj? && |RawOf(v).members| == |SortedKeys(v.m.Keys)|
    ensures forall i | 0 <= i < |SortedKeys(v.m.Keys)| ::
              var k := SortedKeys(v.m.Keys)[i];
              k in v.m && RawOf(v).members[i] == Member(Units(k), RawOf(v.m[k])) && InOrder(v)[i] == v.m[k]
  {
    var ks := SortedKeys(v.m.Keys);
    forall i | 0 <= i < |ks| ensures ks[i] in v.m { assert ks[i] in ks; }
  }

  lemma DecodedObject(r: Raw, ks: seq<Text>, vs: seq<J>)
    requires r.RawObj? && Keys(r.members) == ks && DecodeMembers(r, |r.members|) == Some(vs) && Distinct(ks)
    ensures |vs| == |ks| && Decode(r) == Some(JObj(FromPairs(ks, vs)))
  {
  }

  lemma {:induction false} ObjectDecodes(v: J)
    requires v.JObj? && Encodable(v) && AllWhole(v)
    ensures Decode(RawOf(v)) == Some(v)
    decreases v, 0, |SortedKeys(v.m.Keys)| + 1
  {
    var ks, vs := SortedKeys(v.m.Keys), InOrder(v);
    RawMembers(v);
    EachMemberDecodes(v);
    DecodeEach(RawOf(v), vs, |ks|);
    assert vs[..|ks|] == vs;
    KeysDecode(v);
    SortedDistinct(v.m.Keys);
    DecodedObject(RawOf(v), ks, vs);
    PairsInOrder(v);
  }

  /** The members, listed in key order, make the map again. */
  lemma PairsInOrder(v: J)
    requires v.JObj?
    ensures FromPairs(SortedKeys(v.m.Keys), InOrder(v)) == v.m
  {
    var ks, vs := SortedKeys(v.m.Keys), InOrder(v);
    RawMembers(v);
    SortedDistinct(v.m.Keys);
    FromPairsExact(ks, vs);
    PairsOfMap(v.m, ks, FromPairs(ks, vs));
  }

  lemma {:induction false} EachMemberDecodes(v: J)
    requires v.JObj? && Encodable(v) && AllWhole(v)
    ensures |RawOf(v).members| == |InOrder(v)|
    ensures forall i | 0 <= i < |InOrder(v)| :: Decode(RawOf(v).members[i].value) == Some(InOrder(v)[i])
    decreases v, 0, 0
  {
    RawMembers(v);
    forall i | 0 <= i < |InOrder(v)|
      ensures Decode(RawOf(v).members[i].value) == Some(InOrder(v)[i])
    {
      DecodeInvertsEncode(v.m[SortedKeys(v.m.Keys)[i]]);
    }
  }

  lemma KeysDecode(v: J)
    requires v.JObj? && AllWhole(v)
    ensures Keys(RawOf(v).members) == SortedKeys(v.m.Keys)
  {
    var ks := SortedKeys(v.m.Keys);
    forall i | 0 <= i < |ks|
      ensures FromUnits(Units(ks[i])) == ks[i]
    {
      assert ks[i] in ks;
      UnitsRoundTrip(ks[i]);
    }
  }

  lemma SortedDistinct(keys: set<Text>)
    ensures Distinct(SortedKeys(keys))
  {
    var ks := SortedKeys(keys);
    SortedAscends(keys);
    forall i, j | 0 <= i < j < |ks| ensures ks[i] != ks[j] { TextTotal(ks[i], ks[i]); }
  }

  lemma PairsOfMap(m: map<Text, J>, ks: seq<Text>, n: map<Text, J>)
    requires (forall k :: k in ks <==> k in m) && (forall k :: k in n <==> k in ks)
    requires forall i | 0 <= i < |ks| :: ks[i] in m && ks[i] in n && n[ks[i]] == m[ks[i]]
    ensures n == m
  {
    forall k | k in m ensures n[k] == m[k] {
      assert k in ks;
      var i :| 0 <= i < |ks| && ks[i] == k;
    }
  }
}
