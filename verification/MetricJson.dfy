/** models.Metrics as JSON: what encoding/json writes for it and what it accepts. */
module MetricJson {
  import opened Wrappers
  import opened Int64
  import opened Strconv
  import opened Models
  import opened Json

  /** Hypothesis on Go's float text: a finite value prints as a number literal that parses back to it. */
  ghost predicate ValidText(text: GaugeText) {
    forall g: Gauge :: Finite(g) ==> IsNumber(text.json(g)) && text.parse(text.json(g)) == Some(g)
  }

  /** An infinity or NaN has no JSON form, and fails the whole encoding. */
  predicate Encodable(m: Metric) {
    m.value.Some? ==> Finite(m.value.value)
  }

  /** A nil pointer is omitted, a pointer to zero is not. */
  function DeltaMembers(d: Option<int64>): seq<Member> {
    if d.Some? then [Member("delta", Number(FormatInt(d.value)))] else []
  }

  function ValueMembers(v: Option<Gauge>, text: GaugeText): seq<Member> {
    if v.Some? then [Member("value", Number(text.json(v.value)))] else []
  }

  function NameMembers(id: string, mtype: string): seq<Member> {
    [Member("id", String(id)), Member("type", String(mtype))]
  }

  /** The fields in the order of the struct. */
  function ToJson(m: Metric, text: GaugeText): Json {
    Object(DeltaMembers(m.delta) + ValueMembers(m.value, text) + NameMembers(m.id, m.mtype))
  }

  function LowerChar(c: char): char {
    if 'A' <= c <= 'Z' then (c as int + 32) as char else c
  }

  /** Names of fields match without regard to case. */
  predicate EqualFold(a: string, b: string) {
    |a| == |b| && forall i :: 0 <= i < |a| ==> LowerChar(a[i]) == LowerChar(b[i])
  }

  /** One member stored into the struct; None is a type error. */
  function DecodeMember(m: Metric, mem: Member, text: GaugeText): Option<Metric> {
    if EqualFold(mem.key, "delta") then
      match mem.value
      case Null => Some(m.(delta := None))
      case Number(t) => (match ParseInt(t) case None => None case Some(d) => Some(m.(delta := Some(d))))
      case _ => None
    else if EqualFold(mem.key, "value") then
      match mem.value
      case Null => Some(m.(value := None))
      case Number(t) => (match text.parse(t) case None => None case Some(g) => Some(m.(value := Some(g))))
      case _ => None
    else if EqualFold(mem.key, "id") then
      match mem.value
      case Null => Some(m)
      case String(s) => Some(m.(id := s))
      case _ => None
    else if EqualFold(mem.key, "type") then
      match mem.value
      case Null => Some(m)
      case String(s) => Some(m.(mtype := s))
      case _ => None
    else
      Some(m)
  }

  function DecodeMembers(m: Metric, members: seq<Member>, text: GaugeText): Option<Metric>
    decreases members
  {
    if members == [] then Some(m)
    else
      match DecodeMember(m, members[0], text)
      case None => None
      case Some(m1) => DecodeMembers(m1, members[1..], text)
  }

  const ZERO_METRIC := Metric(None, None, "", "")

  /** json.Unmarshal into a zero struct, the syntax already read. */
  function FromJson(v: Json, text: GaugeText): Option<Metric> {
    match v
    case Null => Some(ZERO_METRIC)
    case Object(members) => DecodeMembers(ZERO_METRIC, members, text)
    case _ => None
  }

  lemma {:induction false} DecodeMembersConcat(m: Metric, a: seq<Member>, b: seq<Member>, text: GaugeText)
    requires DecodeMembers(m, a, text).Some?
    ensures DecodeMembers(m, a + b, text) == DecodeMembers(DecodeMembers(m, a, text).value, b, text)
    decreases a
  {
    if a == [] {
      assert a + b == b;
    } else {
      assert (a + b)[1..] == a[1..] + b;
      DecodeMembersConcat(DecodeMember(m, a[0], text).value, a[1..], b, text);
    }
  }

  lemma KeysDistinct()
    ensures !EqualFold("value", "delta") && !EqualFold("id", "delta") && !EqualFold("id", "value")
    ensures !EqualFold("type", "delta") && !EqualFold("type", "value") && !EqualFold("type", "id")
  {
    assert LowerChar("value"[0]) != LowerChar("delta"[0]);
  }

  lemma DeltaDecodes(m: Metric, d: Option<int64>, text: GaugeText)
    requires m.delta.None?
    ensures DecodeMembers(m, DeltaMembers(d), text) == Some(m.(delta := d))
  {
    if d.Some? {
      ParseFormat(d.value);
      assert DeltaMembers(d)[1..] == [];
    }
  }

  lemma ValueDecodes(m: Metric, v: Option<Gauge>, text: GaugeText)
    requires ValidText(text) && m.value.None? && (v.Some? ==> Finite(v.value))
    ensures DecodeMembers(m, ValueMembers(v, text), text) == Some(m.(value := v))
  {
    KeysDistinct();
    if v.Some? {
      assert ValueMembers(v, text)[1..] == [];
    }
  }

  lemma NamesDecode(m: Metric, id: string, mtype: string, text: GaugeText)
    ensures DecodeMembers(m, NameMembers(id, mtype), text) == Some(m.(id := id, mtype := mtype))
  {
    KeysDistinct();
    var (a, b) := (Member("id", String(id)), Member("type", String(mtype)));
    var m1 := m.(id := id);
    assert DecodeMember(m, a, text) == Some(m1);
    assert DecodeMember(m1, b, text) == Some(m1.(mtype := mtype));
    assert NameMembers(id, mtype)[1..] == [b] && [b][1..] == [];
    assert DecodeMembers(m1, [b], text) == Some(m1.(mtype := mtype));
  }

  lemma MetricWellFormed(m: Metric, text: GaugeText)
    requires ValidText(text) && Encodable(m)
    ensures WellFormed(ToJson(m, text))
  {
    if m.delta.Some? {
      FormatIntIsNumber(m.delta.value);
    }
  }

  /** Decoding what was encoded gives the metric back, nil pointers and zero values told apart. */
  lemma MetricRoundTrip(m: Metric, text: GaugeText)
    requires ValidText(text) && Encodable(m)
    ensures FromJson(ToJson(m, text), text) == Some(m)
  {
    hide DecodeMembers, DeltaMembers, ValueMembers, NameMembers;
    var (ds, vs, ns) := (DeltaMembers(m.delta), ValueMembers(m.value, text), NameMembers(m.id, m.mtype));
    var m1 := ZERO_METRIC.(delta := m.delta);
    var m2 := m1.(value := m.value);
    DeltaDecodes(ZERO_METRIC, m.delta, text);
    ValueDecodes(m1, m.value, text);
    NamesDecode(m2, m.id, m.mtype, text);
    DecodeMembersConcat(ZERO_METRIC, ds, vs, text);
    DecodeMembersConcat(ZERO_METRIC, ds + vs, ns, text);
  }

  // The batch the agent posts and the server reads.

  /** json.Marshal of a slice; None when some value has no JSON form. */
  function EncodeBatch(ms: seq<Metric>, text: GaugeText): Option<string> {
    if forall i :: 0 <= i < |ms| ==> Encodable(ms[i]) then
      Some(Print(Array(seq(|ms|, i requires 0 <= i < |ms| => ToJson(ms[i], text)))))
    else None
  }

  function DecodeItems(vs: seq<Json>, text: GaugeText): Option<seq<Metric>> {
    if vs == [] then Some([])
    else
      match (FromJson(vs[0], text), DecodeItems(vs[1..], text))
      case (Some(m), Some(ms)) => Some([m] + ms)
      case _ => None
  }

  /** Decoder.Decode into a slice: the first value of the body, whatever follows it. */
  function DecodeBatch(body: string, text: GaugeText): Option<seq<Metric>> {
    match ParseValue(body)
    case Some((Null, _)) => Some([])
    case Some((Array(vs), _)) => DecodeItems(vs, text)
    case _ => None
  }

  /** The body is a JSON null, which decodes to a nil slice. */
  predicate IsNullBody(body: string) {
    match ParseValue(body) case Some((v, _)) => v.Null? case None => false
  }

  lemma {:induction false} ItemsDecode(ms: seq<Metric>, vs: seq<Json>, text: GaugeText)
    requires ValidText(text) && |vs| == |ms|
    requires forall i :: 0 <= i < |ms| ==> Encodable(ms[i]) && vs[i] == ToJson(ms[i], text)
    ensures forall i :: 0 <= i < |vs| ==> WellFormed(vs[i])
    ensures DecodeItems(vs, text) == Some(ms)
  {
    if ms == [] {
    } else {
      MetricWellFormed(ms[0], text);
      MetricRoundTrip(ms[0], text);
      ItemsDecode(ms[1..], vs[1..], text);
      assert ms == [ms[0]] + ms[1..];
      assert vs == [vs[0]] + vs[1..];
    }
  }

  /** The HTTP transport loses nothing: a batch that can be encoded at all decodes to itself. */
  lemma BatchRoundTrip(ms: seq<Metric>, text: GaugeText)
    requires ValidText(text)
    ensures EncodeBatch(ms, text).Some? <==> forall i :: 0 <= i < |ms| ==> Encodable(ms[i])
    ensures EncodeBatch(ms, text).Some? ==> DecodeBatch(EncodeBatch(ms, text).value, text) == Some(ms)
  {
    if EncodeBatch(ms, text).Some? {
      var vs := seq(|ms|, i requires 0 <= i < |ms| => ToJson(ms[i], text));
      ItemsDecode(ms, vs, text);
      ValueRoundTrip(Array(vs), "");
      assert Print(Array(vs)) + "" == Print(Array(vs));
    }
  }

  lemma EncodedIsArray(ms: seq<Metric>, text: GaugeText)
    requires ValidText(text) && EncodeBatch(ms, text).Some?
    ensures !IsNullBody(EncodeBatch(ms, text).value)
  {
    hide ParseValue, Print, DecodeItems;
    var vs := seq(|ms|, i requires 0 <= i < |ms| => ToJson(ms[i], text));
    ItemsDecode(ms, vs, text);
    ValueRoundTrip(Array(vs), "");
    assert Print(Array(vs)) + "" == Print(Array(vs));
  }

  /** The hypothesis can be met, for instance by printing the bit pattern in decimal. */
  lemma ValidTextExists() returns (text: GaugeText)
    ensures ValidText(text)
  {
    var decimal := (g: Gauge) => Digits(g);
    var parse := (s: string) =>
      if AllDigits(s) && DigitsValue(s) < TWO_TO_THE_64 then Some(DigitsValue(s)) else None;
    text := GaugeText(decimal, decimal, parse);
    forall g: Gauge ensures IsNumber(text.json(g)) && text.parse(text.json(g)) == Some(g) {
      DigitsAreNumber(Start, g);
      DigitsRoundTrip(g);
    }
  }

  // The text of a metric, letter by letter.

  function DeltaText(d: Option<int64>): string {
    if d.Some? then "\"delta\":" + FormatInt(d.value) + "," else ""
  }

  function ValueText(v: Option<Gauge>, text: GaugeText): string {
    if v.Some? then "\"value\":" + text.json(v.value) + "," else ""
  }

  function NamesText(id: string, mtype: string): string {
    "\"id\":" + Quote(id) + ",\"type\":" + Quote(mtype)
  }

  lemma QuotePlain(s: string)
    requires forall i :: 0 <= i < |s| ==> Plain(s[i])
    ensures Quote(s) == "\"" + s + "\""
  {
    PlainEscape(s);
  }

  lemma KeysQuoted()
    ensures Quote("delta") == "\"delta\"" && Quote("value") == "\"value\""
    ensures Quote("id") == "\"id\"" && Quote("type") == "\"type\""
  {
    hide Quote;
    QuotePlain("delta");
    QuotePlain("value");
    QuotePlain("id");
    QuotePlain("type");
  }

  lemma {:induction false} PlainEscape(s: string)
    requires forall i :: 0 <= i < |s| ==> Plain(s[i])
    ensures Escape(s) == s
  {
    if s != [] {
      PlainEscape(s[1..]);
      assert s == [s[0]] + s[1..];
    }
  }

  lemma PrintTwo(a: Member, b: Member)
    ensures PrintMembers([a, b]) ==
            Quote(a.key) + ":" + Print(a.value) + ("," + (Quote(b.key) + ":" + Print(b.value) + ""))
  {
    hide Print, Quote;
    assert [a, b][1..] == [b];
  }

  lemma PrintFirst(a: Member, rest: seq<Member>)
    requires rest != []
    ensures PrintMembers([a] + rest) == Quote(a.key) + ":" + Print(a.value) + ("," + PrintMembers(rest))
  {
    hide Print, Quote;
    assert ([a] + rest)[1..] == rest;
  }

  lemma DeltaPrints(d: Option<int64>, rest: seq<Member>)
    requires rest != []
    ensures PrintMembers(DeltaMembers(d) + rest) == DeltaText(d) + PrintMembers(rest)
  {
    hide Quote, FormatInt, PrintMembers;
    KeysQuoted();
    if d.Some? {
      PrintFirst(DeltaMembers(d)[0], rest);
    } else {
      assert DeltaMembers(d) + rest == rest;
    }
  }

  lemma ValuePrints(v: Option<Gauge>, rest: seq<Member>, text: GaugeText)
    requires rest != []
    ensures PrintMembers(ValueMembers(v, text) + rest) == ValueText(v, text) + PrintMembers(rest)
  {
    hide Quote, PrintMembers;
    KeysQuoted();
    if v.Some? {
      PrintFirst(ValueMembers(v, text)[0], rest);
    } else {
      assert ValueMembers(v, text) + rest == rest;
    }
  }

  lemma NamesPrint(id: string, mtype: string)
    ensures PrintMembers(NameMembers(id, mtype)) == NamesText(id, mtype)
  {
    hide Quote, PrintMembers;
    KeysQuoted();
    var ns := NameMembers(id, mtype);
    PrintTwo(ns[0], ns[1]);
  }

  /** A pointer that is not nil is written, zero or not, in the order of the struct. */
  lemma MetricPrints(m: Metric, text: GaugeText)
    ensures Print(ToJson(m, text)) ==
            "{" + DeltaText(m.delta) + ValueText(m.value, text) + NamesText(m.id, m.mtype) + "}"
  {
    hide DeltaText, ValueText, NamesText, PrintMembers, DeltaMembers, ValueMembers;
    var (ds, vs, ns) := (DeltaMembers(m.delta), ValueMembers(m.value, text), NameMembers(m.id, m.mtype));
    NamesPrint(m.id, m.mtype);
    ValuePrints(m.value, ns, text);
    DeltaPrints(m.delta, vs + ns);
    assert ds + vs + ns == ds + (vs + ns);
  }

  lemma Join(open: string, key: string, n: string, comma: string, names: string, close: string)
    ensures open + (key + n + comma) + "" + names + close == (open + key) + n + (comma + names + close)
  {}

  lemma JoinNames(comma: string, key: string, quote: string, id: string, rest: string, close: string)
    ensures comma + (key + (quote + id + quote) + rest) + close == (comma + key + quote) + id + (quote + rest + close)
  {}

  /** The line of a counter whose name needs no escaping. */
  lemma CounterText(id: string, d: int64, text: GaugeText)
    requires forall i :: 0 <= i < |id| ==> Plain(id[i])
    ensures Print(ToJson(Metric(Some(d), None, id, "counter"), text)) ==
            "{\"delta\":" + FormatInt(d) + (",\"id\":\"" + id + "\",\"type\":\"counter\"}")
  {
    hide Print, ToJson, Quote, FormatInt, NamesText;
    MetricPrints(Metric(Some(d), None, id, "counter"), text);
    var names := NamesText(id, "counter");
    Join("{", "\"delta\":", FormatInt(d), ",", names, "}");
    assert "{" + "\"delta\":" == "{\"delta\":";
    assert "," + names + "}" == ",\"id\":\"" + id + "\",\"type\":\"counter\"}" by {
      CounterNames(id);
    }
  }

  lemma CounterNames(id: string)
    requires forall i :: 0 <= i < |id| ==> Plain(id[i])
    ensures "," + NamesText(id, "counter") + "}" == ",\"id\":\"" + id + "\",\"type\":\"counter\"}"
  {
    hide Quote;
    QuotePlain(id);
    QuotePlain("counter");
    var rest := ",\"type\":" + "\"counter\"";
    assert NamesText(id, "counter") == "\"id\":" + ("\"" + id + "\"") + rest;
    JoinNames(",", "\"id\":", "\"", id, rest, "}");
    assert "," + "\"id\":" + "\"" == ",\"id\":\"";
    assert "\"" + rest + "}" == "\",\"type\":\"counter\"}";
  }

  // What is accepted beside what is written.

  /** Names of fields in any case, other members passed over, the last of several deltas, null like a missing member. */
  lemma DecodeExamples(text: GaugeText)
    ensures FromJson(Object([Member("ID", String("a")), Member("Type", String("counter"))]), text) ==
            Some(Metric(None, None, "a", "counter"))
    ensures FromJson(Object([Member("DELTA", Number("5")), Member("other", Bool(true))]), text) ==
            Some(Metric(Some(5), None, "", ""))
    ensures FromJson(Object([Member("delta", Number("5")), Member("delta", Number("-12"))]), text) ==
            Some(Metric(Some(-12), None, "", ""))
    ensures FromJson(Object([Member("value", Null), Member("id", Null)]), text) == Some(Metric(None, None, "", ""))
  {
    hide EqualFold, ParseInt;
    FoldExamples();
    KeysDistinct();
    ParseExamples();
    TwoMembers(Member("ID", String("a")), Member("Type", String("counter")), text);
    TwoMembers(Member("DELTA", Number("5")), Member("other", Bool(true)), text);
    TwoMembers(Member("delta", Number("5")), Member("delta", Number("-12")), text);
    TwoMembers(Member("value", Null), Member("id", Null), text);
  }

  lemma TwoMembers(a: Member, b: Member, text: GaugeText)
    requires DecodeMember(ZERO_METRIC, a, text).Some?
    ensures FromJson(Object([a, b]), text) == DecodeMember(DecodeMember(ZERO_METRIC, a, text).value, b, text)
  {
    hide DecodeMember;
    assert [a, b][1..] == [b] && [b][1..] == [];
    var m := DecodeMember(ZERO_METRIC, a, text).value;
    assert DecodeMembers(m, [b], text) == DecodeMember(m, b, text);
  }

  lemma FoldExamples()
    ensures EqualFold("ID", "id") && !EqualFold("ID", "delta") && !EqualFold("ID", "value")
    ensures EqualFold("Type", "type") && !EqualFold("Type", "delta") && !EqualFold("Type", "value")
    ensures !EqualFold("Type", "id") && EqualFold("DELTA", "delta") && EqualFold("delta", "delta")
    ensures !EqualFold("other", "delta") && !EqualFold("other", "value") && !EqualFold("other", "id")
    ensures !EqualFold("other", "type") && EqualFold("value", "value") && EqualFold("id", "id")
  {
    assert LowerChar("other"[0]) != LowerChar("delta"[0]) && LowerChar("other"[0]) != LowerChar("value"[0]);
  }

  /** A number for a string, a string for a number, and a delta that is no int64 are refused. */
  lemma RefusedExamples(m: Metric, s: string, t: string, text: GaugeText)
    requires ParseInt(t) == None
    ensures DecodeMember(m, Member("delta", String(s)), text) == None
    ensures DecodeMember(m, Member("delta", Number(t)), text) == None
    ensures DecodeMember(m, Member("id", Number(s)), text) == None
    ensures FromJson(String(s), text) == None && FromJson(Array([]), text) == None
  {
    hide ParseInt;
    KeysDistinct();
  }

  /** The decoder of a batch takes the first value and leaves what follows it; a line of the snapshot must end there. */
  lemma TrailingText(ms: seq<Metric>, rest: string, text: GaugeText)
    requires ValidText(text) && EncodeBatch(ms, text).Some?
    ensures var body := EncodeBatch(ms, text).value;
            && DecodeBatch(body + rest, text) == Some(ms)
            && (SkipSpace(rest) != [] ==> Parse(body + rest) == None)
  {
    hide ParseValue, Print, DecodeItems;
    var vs := seq(|ms|, i requires 0 <= i < |ms| => ToJson(ms[i], text));
    ItemsDecode(ms, vs, text);
    ValueRoundTrip(Array(vs), rest);
  }
}
