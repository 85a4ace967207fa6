/** Which lines and which stores the line scanner lets through, counted in bytes. */
module SnapshotLaws {
  import opened Wrappers
  import opened Int64
  import opened Strconv
  import opened Models
  import opened Stores
  import opened Listing
  import opened Encoding
  import opened Json
  import opened MetricJson
  import opened Snapshot

  lemma {:induction false} ByteLengthIs(s: string)
    ensures ByteLength(s) == |Utf8(s)|
  {
    if s != [] {
      ByteLengthIs(s[1..]);
    }
  }

  lemma {:induction false} Utf8Concat(a: string, b: string)
    ensures Utf8(a + b) == Utf8(a) + Utf8(b)
  {
    hide Utf8Char;
    if a == [] {
      assert a + b == b;
    } else {
      assert (a + b)[1..] == a[1..] + b;
      Utf8Concat(a[1..], b);
    }
  }

  lemma {:induction false} AtMostFourEach(s: string)
    ensures |Utf8(s)| <= 4 * |s|
  {
    if s != [] {
      AtMostFourEach(s[1..]);
    }
  }

  predicate Ascii(s: string) {
    forall i :: 0 <= i < |s| ==> s[i] as int < 0x80
  }

  lemma {:induction false} OneEach(s: string)
    requires Ascii(s)
    ensures |Utf8(s)| == |s|
  {
    if s != [] {
      OneEach(s[1..]);
    }
  }

  lemma EscapeCharBytes(c: char)
    ensures |Utf8(EscapeChar(c))| <= 6
  {
    if Plain(c) {
      assert [c][1..] == [];
    } else {
      assert |EscapeChar(c)| <= 6 && Ascii(EscapeChar(c));
      OneEach(EscapeChar(c));
    }
  }

  lemma {:induction false} EscapeBytes(s: string)
    ensures |Utf8(Escape(s))| <= 6 * |s|
  {
    hide EscapeChar;
    if s != [] {
      EscapeCharBytes(s[0]);
      Utf8Concat(EscapeChar(s[0]), Escape(s[1..]));
      EscapeBytes(s[1..]);
    }
  }

  lemma QuoteBytes(s: string)
    ensures |Utf8(Quote(s))| <= 6 * |s| + 2
  {
    hide Escape;
    EscapeBytes(s);
    Utf8Concat("\"" + Escape(s), "\"");
    Utf8Concat("\"", Escape(s));
    OneEach("\"");
  }

  // One line.

  /** A line of 65535 bytes is read, one of 65536 is too long; of the rest, which are refused and what is stored. */
  lemma ReadLineIs(s: Store, line: string, text: GaugeText)
    ensures var (r, m) := (ReadLine(s, line, text), Unmarshal(DropReturn(line), text));
            && (r.1 == LineTooLong <==> |Utf8(line)| >= 65536)
            && (r.1 == BadLine <==> |Utf8(line)| < 65536 && m == None)
            && (r.1 == NilDereference <==>
                && |Utf8(line)| < 65536 && m.Some?
                && (if m.value.mtype == "counter" then m.value.delta == None
                    else m.value.mtype == "gauge" && m.value.value == None))
            && (r.1 != Done ==> r.0 == s)
            && (r.1 == Done && m.value.mtype == "counter" ==>
                r.0 == s.(counter := s.counter[m.value.id := m.value.delta.value]))
            && (r.1 == Done && m.value.mtype == "gauge" ==>
                r.0 == s.(gauge := s.gauge[m.value.id := m.value.value.value]))
            && (r.1 == Done && m.value.mtype != "counter" && m.value.mtype != "gauge" ==> r.0 == s)
  {
    hide ByteLength, Unmarshal;
    ByteLengthIs(line);
  }

  /** A line of JSON is decoded the same with a carriage return behind it. */
  lemma ReturnDropped(line: string, text: GaugeText)
    requires line != [] && line[|line| - 1] == '}'
    ensures DropReturn(line + "\r") == line == DropReturn(line)
  {
    assert (line + "\r")[..|line|] == line;
  }

  lemma {:induction false} LineLengthIs(line: string, rest: string)
    requires '\n' !in line
    ensures LineLength(line) == |line|
    ensures LineLength(line + "\n" + rest) == |line|
  {
    var s := line + "\n" + rest;
    if line != [] {
      assert s[1..] == line[1..] + "\n" + rest;
      LineLengthIs(line[1..], rest);
    }
  }

  /** A file is read line by line, its last line with or without a line end, up to the first that fails. */
  lemma FileByLine(s: Store, line: string, rest: string, text: GaugeText)
    requires '\n' !in line
    ensures ReadLines(s, line + "\n" + rest, text) ==
            var (s1, outcome) := ReadLine(s, line, text);
            if outcome == Done then ReadLines(s1, rest, text) else (s1, outcome)
    ensures line != "" ==> ReadLines(s, line, text) == ReadLine(s, line, text)
  {
    hide ReadLine;
    var content := line + "\n" + rest;
    LineLengthIs(line, rest);
    assert content[..|line|] == line && content[|line| + 1..] == rest;
    assert line[..|line|] == line;
  }

  // Lines that were written.

  lemma MetricBytes(m: Metric, text: GaugeText)
    requires m.delta == None || m.value == None
    ensures |Utf8(Print(ToJson(m, text)))| <=
            6 * |m.id| + 6 * |m.mtype| + 100 + if m.value.Some? then 4 * |text.json(m.value.value)| else 0
  {
    hide ToJson, Quote, Utf8, FormatInt, Print;
    MetricPrints(m, text);
    var (d, v, n) := (DeltaText(m.delta), ValueText(m.value, text), NamesText(m.id, m.mtype));
    Utf8Concat("{" + d + v + n, "}");
    Utf8Concat("{" + d + v, n);
    Utf8Concat("{" + d, v);
    Utf8Concat("{", d);
    OneEach("{");
    OneEach("}");
    DeltaBytes(m.delta);
    ValueBytes(m.value, text);
    NamesBytes(m.id, m.mtype);
  }

  lemma DeltaBytes(d: Option<int64>)
    ensures |Utf8(DeltaText(d))| <= 29
  {
    hide Utf8, FormatInt;
    OneEach("");
    if d.Some? {
      FormatIntAtMost(d.value);
      FormatIntAscii(d.value);
      OneEach(DeltaText(d));
    }
  }

  lemma FormatIntAscii(x: int)
    ensures Ascii(FormatInt(x))
  {
    hide Digits;
  }

  lemma ValueBytes(v: Option<Gauge>, text: GaugeText)
    ensures |Utf8(ValueText(v, text))| <= if v.Some? then 9 + 4 * |text.json(v.value)| else 0
  {
    hide Utf8;
    OneEach("");
    if v.Some? {
      var t := text.json(v.value);
      Utf8Concat("\"value\":" + t, ",");
      Utf8Concat("\"value\":", t);
      AtMostFourEach(t);
      OneEach("\"value\":");
      OneEach(",");
    }
  }

  lemma NamesBytes(id: string, mtype: string)
    ensures |Utf8(NamesText(id, mtype))| <= 6 * |id| + 6 * |mtype| + 17
  {
    hide Utf8, Quote;
    var (a, b, c, d) := ("\"id\":", Quote(id), ",\"type\":", Quote(mtype));
    Utf8Concat(a + b + c, d);
    Utf8Concat(a + b, c);
    Utf8Concat(a, b);
    QuoteBytes(id);
    QuoteBytes(mtype);
    OneEach(a);
    OneEach(c);
  }

  // Stores that survive.

  predicate ShortIds(ids: set<string>) {
    forall k :: k in ids ==> |k| <= 10_000
  }

  /** Every value has a JSON form, and none is longer than Go ever prints one. */
  predicate ShortTexts(s: Store, text: GaugeText) {
    forall k :: k in s.gauge ==> Finite(s.gauge[k]) && |text.json(s.gauge[k])| <= 64
  }

  /** Saved and restored, a store with ids of at most 10000 characters and finite gauges is what it was. */
  lemma ShortStoreSurvives(s: Store, co: seq<string>, go: seq<string>, text: GaugeText)
    requires ValidText(text)
    requires Enumerates(co, s.counter.Keys) && Enumerates(go, s.gauge.Keys)
    requires ShortIds(s.counter.Keys) && ShortIds(s.gauge.Keys) && ShortTexts(s, text)
    ensures ReadLines(EMPTY_STORE, FileContent(s, co, go, text), text) == (s, Done)
  {
    hide ReadLines, FileContent, ValidText, ToJson, Print, ByteLength, Finite;
    SnapshotExactIff(s, co, go, text);
    assert AllFinite(s);
    forall k | k in s.counter ensures Fits(CounterMetric(k, s.counter[k]), text) {
      MetricBytes(CounterMetric(k, s.counter[k]), text);
      ByteLengthIs(Print(ToJson(CounterMetric(k, s.counter[k]), text)));
    }
    forall k | k in s.gauge ensures Fits(GaugeMetric(k, s.gauge[k]), text) {
      MetricBytes(GaugeMetric(k, s.gauge[k]), text);
      ByteLengthIs(Print(ToJson(GaugeMetric(k, s.gauge[k]), text)));
    }
  }

  /** The limit in characters, for a counter whose name is plain ASCII. */
  lemma CounterReadIff(s: Store, id: string, d: int64, text: GaugeText)
    requires ValidText(text) && Ascii(id) && forall i :: 0 <= i < |id| ==> Plain(id[i])
    ensures var line := "{\"delta\":" + FormatInt(d) + (",\"id\":\"" + id + "\",\"type\":\"counter\"}");
            ReadLine(s, line, text) ==
            if |id| + |FormatInt(d)| <= 65500 then (s.(counter := s.counter[id := d]), Done) else (s, LineTooLong)
  {
    hide ReadLine, ToJson, Print, FormatInt, ValidText, Plain;
    var (a, b, c) := ("{\"delta\":", ",\"id\":\"", "\",\"type\":\"counter\"}");
    var line := a + FormatInt(d) + (b + id + c);
    CounterText(id, d, text);
    ReadEncodedLine(s, CounterMetric(id, d), text);
    FormatIntAscii(d);
    assert Ascii(a) && Ascii(b) && Ascii(c);
    AsciiLine(a, FormatInt(d), b, id, c);
    OneEach(line);
    ByteLengthIs(line);
  }

  lemma AsciiLine(a: string, n: string, b: string, id: string, c: string)
    requires Ascii(a) && Ascii(n) && Ascii(b) && Ascii(id) && Ascii(c)
    ensures Ascii(a + n + (b + id + c)) && |a + n + (b + id + c)| == |a| + |n| + |b| + |id| + |c|
  {}

  /** The snapshot of one counter, read back. */
  lemma CounterFileRead(id: string, d: int64, text: GaugeText)
    requires ValidText(text) && Ascii(id) && |id| <= 65000 && forall i :: 0 <= i < |id| ==> Plain(id[i])
    ensures var line := "{\"delta\":" + FormatInt(d) + (",\"id\":\"" + id + "\",\"type\":\"counter\"}");
            ReadLines(EMPTY_STORE, line + "\n", text) == (Store(map[], map[id := d]), Done)
  {
    hide ReadLine, FormatInt, ValidText, ReadLines;
    var line := "{\"delta\":" + FormatInt(d) + (",\"id\":\"" + id + "\",\"type\":\"counter\"}");
    FormatIntAtMost(d);
    CounterReadIff(EMPTY_STORE, id, d, text);
    var m := CounterMetric(id, d);
    CounterText(id, d, text);
    MetricWellFormed(m, text);
    PrintNoControls(ToJson(m, text));
    FileByLine(EMPTY_STORE, line, "", text);
    assert line + "\n" + "" == line + "\n";
    ReadNothing(Store(map[], map[id := d]), text);
  }
}
