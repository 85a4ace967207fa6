/** The snapshot file: one JSON object per line, and the line scanner that reads it back. */
module Snapshot {
  import opened Wrappers
  import opened Int64
  import opened Models
  import opened Stores
  import opened Listing
  import opened Json
  import opened MetricJson

  // Writing.

  function CounterMetric(id: string, d: int64): Metric { Metric(Some(d), None, id, COUNTER_TYPE) }

  function GaugeMetric(id: string, g: Gauge): Metric { Metric(None, Some(g), id, GAUGE_TYPE) }

  /** json.Encoder.Encode: nothing at all is written for a value it refuses. */
  function EncodeLine(m: Metric, text: GaugeText): string {
    if Encodable(m) then Print(ToJson(m, text)) + "\n" else ""
  }

  function CounterFile(ks: seq<string>, m: map<string, int64>, text: GaugeText): string
    requires forall k :: k in ks ==> k in m
  {
    if ks == [] then ""
    else EncodeLine(CounterMetric(ks[0], m[ks[0]]), text) + CounterFile(ks[1..], m, text)
  }

  function GaugeFile(ks: seq<string>, m: map<string, Gauge>, text: GaugeText): string
    requires forall k :: k in ks ==> k in m
  {
    if ks == [] then ""
    else EncodeLine(GaugeMetric(ks[0], m[ks[0]]), text) + GaugeFile(ks[1..], m, text)
  }

  // Reading.

  /** Bytes of the UTF-8 form. */
  function ByteLength(s: string): nat {
    if s == [] then 0
    else
      var n := s[0] as int;
      (if n < 0x80 then 1 else if n < 0x800 then 2 else if n < 0x1_0000 then 3 else 4) + ByteLength(s[1..])
  }

  /** bufio.MaxScanTokenSize; a line and its newline must fit into it. */
  const MAX_TOKEN: nat := 65536

  function LineLength(s: string): (n: nat)
    ensures n <= |s| && (n < |s| ==> s[n] == '\n')
  {
    if s == [] || s[0] == '\n' then 0 else 1 + LineLength(s[1..])
  }

  function DropReturn(line: string): string {
    if line != [] && line[|line| - 1] == '\r' then line[..|line| - 1] else line
  }

  datatype ReadOutcome = Done | BadLine | LineTooLong | NilDereference

  /** One line into the store; entries of an unknown type are read and forgotten. */
  function ReadLine(s: Store, line: string, text: GaugeText): (Store, ReadOutcome) {
    if ByteLength(line) >= MAX_TOKEN then (s, LineTooLong)
    else
      match Unmarshal(DropReturn(line), text)
      case None => (s, BadLine)
      case Some(m) =>
        if m.mtype == COUNTER_TYPE then
          if m.delta.None? then (s, NilDereference)
          else (s.(counter := s.counter[m.id := m.delta.value]), Done)
        else if m.mtype == GAUGE_TYPE then
          if m.value.None? then (s, NilDereference)
          else (s.(gauge := s.gauge[m.id := m.value.value]), Done)
        else
          (s, Done)
  }

  function Unmarshal(line: string, text: GaugeText): Option<Metric> {
    match Parse(line)
    case None => None
    case Some(v) => FromJson(v, text)
  }

  function AfterLine(content: string): (rest: string)
    requires content != []
    ensures |rest| < |content|
  {
    var n := LineLength(content);
    if n < |content| then content[n + 1..] else []
  }

  /** Lines are read until the file ends or one of them fails; earlier lines stay read. */
  function ReadLines(s: Store, content: string, text: GaugeText): (Store, ReadOutcome)
    decreases |content|
  {
    if content == [] then (s, Done)
    else
      var (s1, outcome) := ReadLine(s, content[..LineLength(content)], text);
      if outcome == Done then ReadLines(s1, AfterLine(content), text) else (s1, outcome)
  }

  // Round trip.

  lemma {:induction false} LineLengthOf(line: string, rest: string)
    requires NoControls(line)
    ensures LineLength(line + "\n" + rest) == |line|
  {
    var s := line + "\n" + rest;
    if line == [] {
    } else {
      assert s[1..] == line[1..] + "\n" + rest;
      LineLengthOf(line[1..], rest);
    }
  }

  predicate Fits(m: Metric, text: GaugeText) {
    ByteLength(Print(ToJson(m, text))) < MAX_TOKEN
  }

  lemma {:induction false} ReadEncodedLine(s: Store, m: Metric, text: GaugeText)
    requires ValidText(text) && Encodable(m)
    ensures var line := Print(ToJson(m, text));
            ReadLine(s, line, text) ==
            if !Fits(m, text) then (s, LineTooLong)
            else if m.mtype == COUNTER_TYPE then
              if m.delta.None? then (s, NilDereference)
              else (s.(counter := s.counter[m.id := m.delta.value]), Done)
            else if m.mtype == GAUGE_TYPE then
              if m.value.None? then (s, NilDereference)
              else (s.(gauge := s.gauge[m.id := m.value.value]), Done)
            else (s, Done)
  {
    hide ToJson, FromJson;
    var v := ToJson(m, text);
    var line := Print(v);
    MetricWellFormed(m, text);
    PrintEndsWithBrace(m, text);
    ParsePrint(v);
    MetricRoundTrip(m, text);
  }

  lemma PrintEndsWithBrace(m: Metric, text: GaugeText)
    ensures var line := Print(ToJson(m, text)); line != [] && line[|line| - 1] == '}'
  {}

  /** Reading a file that starts with an encoded line. */
  lemma ReadFileLine(s: Store, m: Metric, rest: string, text: GaugeText)
    requires ValidText(text) && Encodable(m)
    ensures ReadLines(s, EncodeLine(m, text) + rest, text) ==
            var (s1, outcome) := ReadLine(s, Print(ToJson(m, text)), text);
            if outcome == Done then ReadLines(s1, rest, text) else (s1, outcome)
  {
    hide ToJson, ReadLine, Print;
    var line := Print(ToJson(m, text));
    var content := EncodeLine(m, text) + rest;
    assert content == line + "\n" + rest;
    MetricWellFormed(m, text);
    PrintNoControls(ToJson(m, text));
    LineLengthOf(line, rest);
    assert content[..|line|] == line && content[|line| + 1..] == rest;
  }

  predicate CountersFit(ks: seq<string>, m: map<string, int64>, text: GaugeText)
    requires forall k :: k in ks ==> k in m
  {
    forall i :: 0 <= i < |ks| ==> Fits(CounterMetric(ks[i], m[ks[i]]), text)
  }

  /** The gauges that reach the file fit; the others are not in it. */
  predicate GaugesFit(ks: seq<string>, m: map<string, Gauge>, text: GaugeText)
    requires forall k :: k in ks ==> k in m
  {
    forall i :: 0 <= i < |ks| && Finite(m[ks[i]]) ==> Fits(GaugeMetric(ks[i], m[ks[i]]), text)
  }

  function OverrideCounters(s: Store, ks: seq<string>, m: map<string, int64>): Store
    requires forall k :: k in ks ==> k in m
    decreases ks
  {
    if ks == [] then s
    else OverrideCounters(s.(counter := s.counter[ks[0] := m[ks[0]]]), ks[1..], m)
  }

  function OverrideGauges(s: Store, ks: seq<string>, m: map<string, Gauge>): Store
    requires forall k :: k in ks ==> k in m
    decreases ks
  {
    if ks == [] then s
    else
      var s1 := if Finite(m[ks[0]]) then s.(gauge := s.gauge[ks[0] := m[ks[0]]]) else s;
      OverrideGauges(s1, ks[1..], m)
  }

  lemma {:induction false} ReadCounterFile(
      s: Store, ks: seq<string>, m: map<string, int64>, rest: string, text: GaugeText)
    requires ValidText(text) && forall k :: k in ks ==> k in m
    ensures if CountersFit(ks, m, text)
            then ReadLines(s, CounterFile(ks, m, text) + rest, text)
                 == ReadLines(OverrideCounters(s, ks, m), rest, text)
            else ReadLines(s, CounterFile(ks, m, text) + rest, text).1 == LineTooLong
    decreases ks
  {
    hide ReadLine, EncodeLine, ToJson, Fits, ReadLines;
    if ks == [] {
      assert CounterFile(ks, m, text) + rest == rest;
    } else {
      var e := CounterMetric(ks[0], m[ks[0]]);
      var s1 := s.(counter := s.counter[ks[0] := m[ks[0]]]);
      var tail := CounterFile(ks[1..], m, text) + rest;
      assert CounterFile(ks, m, text) + rest == EncodeLine(e, text) + tail;
      ReadFileLine(s, e, tail, text);
      ReadEncodedLine(s, e, text);
      ReadCounterFile(s1, ks[1..], m, rest, text);
      assert CountersFit(ks, m, text) <==> Fits(e, text) && CountersFit(ks[1..], m, text) by {
        assert forall i :: 1 <= i < |ks| ==> ks[i] == ks[1..][i - 1];
      }
    }
  }

  lemma {:induction false} ReadGaugeFile(
      s: Store, ks: seq<string>, m: map<string, Gauge>, rest: string, text: GaugeText)
    requires ValidText(text) && forall k :: k in ks ==> k in m
    ensures if GaugesFit(ks, m, text)
            then ReadLines(s, GaugeFile(ks, m, text) + rest, text)
                 == ReadLines(OverrideGauges(s, ks, m), rest, text)
            else ReadLines(s, GaugeFile(ks, m, text) + rest, text).1 == LineTooLong
    decreases ks
  {
    hide ReadLine, ToJson, Fits, ReadLines;
    if ks == [] {
      assert GaugeFile(ks, m, text) + rest == rest;
    } else {
      var e := GaugeMetric(ks[0], m[ks[0]]);
      var s1 := if Finite(m[ks[0]]) then s.(gauge := s.gauge[ks[0] := m[ks[0]]]) else s;
      var tail := GaugeFile(ks[1..], m, text) + rest;
      assert GaugeFile(ks, m, text) + rest == EncodeLine(e, text) + tail;
      if Finite(m[ks[0]]) {
        ReadFileLine(s, e, tail, text);
        ReadEncodedLine(s, e, text);
      } else {
        assert EncodeLine(e, text) + tail == tail;
      }
      ReadGaugeFile(s1, ks[1..], m, rest, text);
      assert GaugesFit(ks, m, text) <==>
             (Finite(m[ks[0]]) ==> Fits(e, text)) && GaugesFit(ks[1..], m, text) by {
        assert forall i :: 1 <= i < |ks| ==> ks[i] == ks[1..][i - 1];
      }
    }
  }

  lemma {:induction false} OverriddenCounterAt(s: Store, ks: seq<string>, m: map<string, int64>, id: string)
    requires forall k :: k in ks ==> k in m
    ensures var r := OverrideCounters(s, ks, m);
            && r.gauge == s.gauge
            && (id in r.counter <==> id in ks || id in s.counter)
            && (id in r.counter ==> r.counter[id] == if id in ks then m[id] else s.counter[id])
    decreases ks
  {
    if ks == [] {
    } else {
      OverriddenCounterAt(s.(counter := s.counter[ks[0] := m[ks[0]]]), ks[1..], m, id);
    }
  }

  lemma {:induction false} OverriddenGaugeAt(s: Store, ks: seq<string>, m: map<string, Gauge>, id: string)
    requires forall k :: k in ks ==> k in m
    ensures var (r, saved) := (OverrideGauges(s, ks, m), id in ks && Finite(m[id]));
            && r.counter == s.counter
            && (id in r.gauge <==> saved || id in s.gauge)
            && (id in r.gauge ==> r.gauge[id] == if saved then m[id] else s.gauge[id])
    decreases ks
  {
    hide Finite;
    if ks == [] {
    } else {
      var s1 := if Finite(m[ks[0]]) then s.(gauge := s.gauge[ks[0] := m[ks[0]]]) else s;
      OverriddenGaugeAt(s1, ks[1..], m, id);
    }
  }

  function FiniteGauges(s: Store): map<string, Gauge> {
    map k | k in s.gauge && Finite(s.gauge[k]) :: s.gauge[k]
  }

  /** All ids of s have replaced those of t, except for gauges that have no JSON form. */
  function Overridden(t: Store, s: Store): Store {
    Store(t.gauge + FiniteGauges(s), t.counter + s.counter)
  }

  lemma {:induction false} CountersInAnyOrder(t: Store, s: Store, co: seq<string>)
    requires Enumerates(co, s.counter.Keys)
    ensures OverrideCounters(t, co, s.counter) == t.(counter := t.counter + s.counter)
  {
    hide OverrideCounters;
    var (r, w) := (OverrideCounters(t, co, s.counter), t.counter + s.counter);
    forall id
      ensures id in r.counter <==> id in w
      ensures id in r.counter ==> r.counter[id] == w[id]
    {
      OverriddenCounterAt(t, co, s.counter, id);
    }
    assert r.counter == w;
    OverriddenCounterAt(t, co, s.counter, "");
  }

  lemma {:induction false} GaugesInAnyOrder(t: Store, s: Store, go: seq<string>)
    requires Enumerates(go, s.gauge.Keys)
    ensures OverrideGauges(t, go, s.gauge) == t.(gauge := t.gauge + FiniteGauges(s))
  {
    hide OverrideGauges, Finite;
    var (r, w) := (OverrideGauges(t, go, s.gauge), t.gauge + FiniteGauges(s));
    forall id
      ensures id in r.gauge <==> id in w
      ensures id in r.gauge ==> r.gauge[id] == w[id]
    {
      OverriddenGaugeAt(t, go, s.gauge, id);
    }
    assert r.gauge == w;
    OverriddenGaugeAt(t, go, s.gauge, "");
  }

  /** The file for one order of visiting each map. */
  ghost function FileContent(s: Store, co: seq<string>, go: seq<string>, text: GaugeText): string
    requires Enumerates(co, s.counter.Keys) && Enumerates(go, s.gauge.Keys)
  {
    CounterFile(co, s.counter, text) + GaugeFile(go, s.gauge, text)
  }

  /** Every line that is written is short enough for the scanner. */
  ghost predicate AllLinesFit(s: Store, text: GaugeText) {
    && (forall k :: k in s.counter ==> Fits(CounterMetric(k, s.counter[k]), text))
    && (forall k :: k in s.gauge && Finite(s.gauge[k]) ==> Fits(GaugeMetric(k, s.gauge[k]), text))
  }

  lemma LinesFitInAnyOrder(s: Store, co: seq<string>, go: seq<string>, text: GaugeText)
    requires Enumerates(co, s.counter.Keys) && Enumerates(go, s.gauge.Keys)
    ensures AllLinesFit(s, text) <==> CountersFit(co, s.counter, text) && GaugesFit(go, s.gauge, text)
  {
    hide Fits;
    if CountersFit(co, s.counter, text) && GaugesFit(go, s.gauge, text) {
      forall k | k in s.counter ensures Fits(CounterMetric(k, s.counter[k]), text) {
        assert k in co;
      }
      forall k | k in s.gauge && Finite(s.gauge[k]) ensures Fits(GaugeMetric(k, s.gauge[k]), text) {
        assert k in go;
      }
    }
  }

  /** Saving s and reading the file into t: the ids that were saved, and only those, are overridden. */
  lemma SaveThenRead(t: Store, s: Store, co: seq<string>, go: seq<string>, text: GaugeText)
    requires ValidText(text)
    requires Enumerates(co, s.counter.Keys) && Enumerates(go, s.gauge.Keys)
    ensures var r := ReadLines(t, FileContent(s, co, go, text), text);
            if AllLinesFit(s, text) then r == (Overridden(t, s), Done) else r.1 == LineTooLong
  {
    hide ReadLines, CounterFile, GaugeFile, OverrideCounters, OverrideGauges, Fits, ValidText, FiniteGauges,
      AllLinesFit, CountersFit, GaugesFit;
    var (cf, gf) := (CounterFile(co, s.counter, text), GaugeFile(go, s.gauge, text));
    var t1 := OverrideCounters(t, co, s.counter);
    LinesFitInAnyOrder(s, co, go, text);
    ReadCounterFile(t, co, s.counter, gf, text);
    ReadGaugeFile(t1, go, s.gauge, "", text);
    assert gf + "" == gf;
    ReadNothing(OverrideGauges(t1, go, s.gauge), text);
    CountersInAnyOrder(t, s, co);
    GaugesInAnyOrder(t1, s, go);
    assert t1.(gauge := t1.gauge + FiniteGauges(s)) == Overridden(t, s);
  }

  lemma ReadNothing(s: Store, text: GaugeText)
    ensures ReadLines(s, "", text) == (s, Done)
  {}

  /** The bit pattern of +Inf. */
  const INFINITY: Gauge := 0x7FF0_0000_0000_0000

  /** No gauge is an infinity or a NaN. */
  predicate AllFinite(s: Store) {
    forall k :: k in s.gauge ==> Finite(s.gauge[k])
  }

  lemma OverriddenEmptyIff(s: Store)
    ensures Overridden(EMPTY_STORE, s) == s <==> AllFinite(s)
  {
    hide Finite;
    var w := Overridden(EMPTY_STORE, s);
    assert w.counter == s.counter;
    assert w.gauge == FiniteGauges(s);
    if AllFinite(s) {
      assert FiniteGauges(s) == s.gauge;
    } else {
      var k :| k in s.gauge && !Finite(s.gauge[k]);
      assert k !in FiniteGauges(s);
    }
  }

  /** A snapshot read into an empty store is exact if and only if every gauge is finite and no line is too long. */
  lemma SnapshotExactIff(s: Store, co: seq<string>, go: seq<string>, text: GaugeText)
    requires ValidText(text)
    requires Enumerates(co, s.counter.Keys) && Enumerates(go, s.gauge.Keys)
    ensures ReadLines(EMPTY_STORE, FileContent(s, co, go, text), text) == (s, Done)
            <==> AllFinite(s) && AllLinesFit(s, text)
  {
    hide ReadLines, FileContent, AllLinesFit, AllFinite, ValidText, Overridden;
    SaveThenRead(EMPTY_STORE, s, co, go, text);
    OverriddenEmptyIff(s);
  }

  /** An infinite gauge is left out of the file without a word. */
  lemma InfinityIsDropped(id: string, text: GaugeText)
    ensures var s := EMPTY_STORE.(gauge := map[id := INFINITY]);
            && Enumerates([], s.counter.Keys) && Enumerates([id], s.gauge.Keys)
            && ReadLines(EMPTY_STORE, FileContent(s, [], [id], text), text) == (EMPTY_STORE, Done)
  {
    var s := EMPTY_STORE.(gauge := map[id := INFINITY]);
    assert multiset(s.gauge.Keys) == multiset{id} == multiset([id]);
    assert multiset(s.counter.Keys) == multiset{};
    assert [id][1..] == [];
    assert GaugeFile([id], s.gauge, text) == EncodeLine(GaugeMetric(id, INFINITY), text) + "" == "";
    assert FileContent(s, [], [id], text) == "";
  }
}
