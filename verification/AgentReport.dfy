/** What one report of the agent contains: parseRtm, parseKernMetrics, addJSONModel, encodeJSON. */
module AgentReport {
  import opened Wrappers
  import opened Int64
  import opened Strconv
  import opened Models
  import opened Stores
  import opened MetricJson

  const POLL_COUNT: string := "PollCount"

  function GaugeEntry(id: string, g: Gauge): Metric { Metric(None, Some(g), id, GAUGE_TYPE) }

  /** One entry per runtime sensor whose printed value parses as a float. */
  function RuntimeEntries(sensors: seq<string>, reading: string -> Option<Gauge>): seq<Metric> {
    if sensors == [] then []
    else
      (match reading(sensors[0]) case None => [] case Some(g) => [GaugeEntry(sensors[0], g)])
      + RuntimeEntries(sensors[1..], reading)
  }

  function CpuName(i: nat): string { "CPUutilization" + FormatInt(i) }

  function CpuEntries(cpu: seq<Gauge>, from: nat): seq<Metric> {
    if cpu == [] then [] else [GaugeEntry(CpuName(from), cpu[0])] + CpuEntries(cpu[1..], from + 1)
  }

  /** The counters and gauges the pollers keep up to date. */
  class Sensors {
    var pollCount: int64
    var randomValue: Gauge
    var totalMemory: Gauge
    var freeMemory: Gauge
    var cpuUtilization: seq<Gauge>

    constructor (cpus: nat)
      ensures pollCount == 0 && |cpuUtilization| == cpus
    {
      pollCount, randomValue, totalMemory, freeMemory := 0, 0, 0, 0;
      cpuUtilization := seq(cpus, _ => 0);
    }

    method UpdateMetrics(random: Gauge)
      modifies this`pollCount, this`randomValue
      ensures pollCount == Wrap(old(pollCount) + 1) && randomValue == random
    {
      pollCount := Wrap(pollCount + 1);
      randomValue := random;
    }

    /**
     * The system may report fewer processors than were counted at the start; the others keep their old value. With more
     * of them the index runs out of range and the agent panics.
     */
    method UpdateSysKernMetrics(total: Gauge, free: Gauge, percent: seq<Gauge>) returns (panicked: bool)
      modifies this`totalMemory, this`freeMemory, this`cpuUtilization
      ensures totalMemory == total && freeMemory == free
      ensures panicked <==> |percent| > |old(cpuUtilization)|
      ensures cpuUtilization ==
              if panicked then percent[..|old(cpuUtilization)|] else percent + old(cpuUtilization)[|percent|..]
    {
      totalMemory, freeMemory := total, free;
      ghost var was := cpuUtilization;
      var i := 0;
      while i < |percent|
        invariant 0 <= i <= |percent| && i <= |was| && totalMemory == total && freeMemory == free
        invariant |cpuUtilization| == |was|
        invariant forall k :: 0 <= k < |was| ==> cpuUtilization[k] == if k < i then percent[k] else was[k]
      {
        if i >= |cpuUtilization| {
          return true;
        }
        cpuUtilization := cpuUtilization[i := percent[i]];
        i := i + 1;
      }
      return false;
    }

    /** The pollers run; a panic ends it. */
    method Run(ticks: seq<Tick>) returns (panicked: bool)
      modifies this
      ensures panicked <==> exists i :: 0 <= i < |ticks| && Overflows(ticks[i], |old(cpuUtilization)|)
      ensures !panicked ==> pollCount == Wrap(old(pollCount) + RuntimeTicks(ticks))
    {
      hide Wrap;
      ghost var cpus := |cpuUtilization|;
      var i := 0;
      assert ticks[..0] == [];
      while i < |ticks|
        invariant 0 <= i <= |ticks| && |cpuUtilization| == cpus
        invariant forall k :: 0 <= k < i ==> !Overflows(ticks[k], cpus)
        invariant pollCount == Wrap(old(pollCount) + RuntimeTicks(ticks[..i]))
      {
        assert ticks[..i + 1][..i] == ticks[..i];
        match ticks[i] {
          case RuntimeTick(random) =>
            WrapAdd(old(pollCount) + RuntimeTicks(ticks[..i]), 1);
            UpdateMetrics(random);
          case KernelTick(total, free, percent) =>
            panicked := UpdateSysKernMetrics(total, free, percent);
            if panicked {
              assert Overflows(ticks[i], cpus);
              return;
            }
        }
        i := i + 1;
      }
      assert ticks[..i] == ticks;
      return false;
    }
  }

  /** One reading of one of the two pollers. */
  datatype Tick = RuntimeTick(random: Gauge) | KernelTick(total: Gauge, free: Gauge, percent: seq<Gauge>)

  predicate Overflows(t: Tick, cpus: nat) { t.KernelTick? && |t.percent| > cpus }

  function RuntimeTicks(ticks: seq<Tick>): nat {
    if ticks == [] then 0
    else RuntimeTicks(ticks[..|ticks| - 1]) + if ticks[|ticks| - 1].RuntimeTick? then 1 else 0
  }

  /** The batch of one report, in the order in which it is put together. */
  function Report(
      sensors: seq<string>, reading: string -> Option<Gauge>, polls: int64, random: Gauge,
      total: Gauge, free: Gauge, cpu: seq<Gauge>): seq<Metric>
  {
    RuntimeEntries(sensors, reading)
    + ([Metric(Some(polls), None, POLL_COUNT, COUNTER_TYPE), GaugeEntry("RandomValue", random)]
       + ([GaugeEntry("TotalMemory", total), GaugeEntry("FreeMemory", free)] + CpuEntries(cpu, 0)))
  }

  /** metrictypes.JSONModelsMetrics: the slice the parsers append to and the report loop empties. */
  class ReportSlice {
    var metrics: seq<Metric>

    constructor ()
      ensures metrics == []
    {
      metrics := [];
    }

    method AddJSONModel(id: string, mtype: string, delta: Option<int64>, value: Option<Gauge>)
      modifies this
      ensures metrics == old(metrics) + [Metric(delta, value, id, mtype)]
    {
      metrics := metrics + [Metric(delta, value, id, mtype)];
    }

    method ParseRtm(sensors: seq<string>, reading: string -> Option<Gauge>, s: Sensors)
      modifies this
      ensures metrics == old(metrics) + RuntimeEntries(sensors, reading)
        + [Metric(Some(s.pollCount), None, POLL_COUNT, COUNTER_TYPE), GaugeEntry("RandomValue", s.randomValue)]
    {
      var i := 0;
      while i < |sensors|
        invariant 0 <= i <= |sensors|
        invariant metrics + RuntimeEntries(sensors[i..], reading) == old(metrics) + RuntimeEntries(sensors, reading)
      {
        ghost var (before, rest) := (metrics, RuntimeEntries(sensors[i + 1..], reading));
        assert sensors[i..][0] == sensors[i] && sensors[i..][1..] == sensors[i + 1..];
        var fl64 := reading(sensors[i]);
        i := i + 1;
        if fl64 == None {
          assert RuntimeEntries(sensors[i - 1..], reading) == rest;
          continue;
        }
        AddJSONModel(sensors[i - 1], GAUGE_TYPE, None, fl64);
        assert before + ([GaugeEntry(sensors[i - 1], fl64.value)] + rest) == metrics + rest;
      }
      AddJSONModel(POLL_COUNT, COUNTER_TYPE, Some(s.pollCount), None);
      AddJSONModel("RandomValue", GAUGE_TYPE, None, Some(s.randomValue));
    }

    method ParseKernMetrics(s: Sensors)
      modifies this
      ensures metrics == old(metrics)
        + ([GaugeEntry("TotalMemory", s.totalMemory), GaugeEntry("FreeMemory", s.freeMemory)]
           + CpuEntries(s.cpuUtilization, 0))
    {
      hide CpuName;
      AddJSONModel("TotalMemory", GAUGE_TYPE, None, Some(s.totalMemory));
      AddJSONModel("FreeMemory", GAUGE_TYPE, None, Some(s.freeMemory));
      ghost var start := metrics;
      var cpu := s.cpuUtilization;
      var i := 0;
      while i < |cpu|
        invariant 0 <= i <= |cpu|
        invariant metrics + CpuEntries(cpu[i..], i) == start + CpuEntries(cpu, 0)
      {
        ghost var (before, rest) := (metrics, CpuEntries(cpu[i + 1..], i + 1));
        assert cpu[i..][0] == cpu[i] && cpu[i..][1..] == cpu[i + 1..];
        AddJSONModel(CpuName(i), GAUGE_TYPE, None, Some(cpu[i]));
        assert before + ([GaugeEntry(CpuName(i), cpu[i])] + rest) == metrics + rest;
        i := i + 1;
      }
      assert metrics == start + CpuEntries(cpu, 0) by {
        assert CpuEntries(cpu[i..], i) == [];
      }
    }

    /**
     * One pass of the report loop up to the payload, with whatever the pollers do between the two parses: the report
     * has the polls from before, though the counter has moved on. The slice is emptied whether encoding succeeds or
     * not.
     */
    method TakePayload(
        sensors: seq<string>, reading: string -> Option<Gauge>, s: Sensors, between: seq<Tick>, text: GaugeText)
      returns (payload: Option<string>, panicked: bool)
      requires metrics == []
      modifies this, s
      ensures panicked <==> exists i :: 0 <= i < |between| && Overflows(between[i], |old(s.cpuUtilization)|)
      ensures !panicked ==>
                && metrics == []
                && s.pollCount == Wrap(old(s.pollCount) + RuntimeTicks(between))
                && payload == EncodeBatch(
                     Report(sensors, reading, old(s.pollCount), old(s.randomValue), s.totalMemory, s.freeMemory,
                            s.cpuUtilization), text)
    {
      hide EncodeBatch, RuntimeEntries, CpuEntries, Wrap, RuntimeTicks;
      ghost var (polls, random) := (s.pollCount, s.randomValue);
      payload := None;
      ParseRtm(sensors, reading, s);
      panicked := s.Run(between);
      if panicked {
        return;
      }
      ParseKernMetrics(s);
      assert metrics == Report(sensors, reading, polls, random, s.totalMemory, s.freeMemory, s.cpuUtilization);
      payload := EncodeBatch(metrics, text);
      metrics := [];
    }
  }

  predicate AllGauges(ms: seq<Metric>) {
    forall i :: 0 <= i < |ms| ==> ms[i].mtype == GAUGE_TYPE
  }

  lemma {:induction false} RuntimeEntriesAreGauges(sensors: seq<string>, reading: string -> Option<Gauge>)
    ensures AllGauges(RuntimeEntries(sensors, reading))
  {
    if sensors != [] {
      RuntimeEntriesAreGauges(sensors[1..], reading);
    }
  }

  lemma {:induction false} CpuEntriesAreGauges(cpu: seq<Gauge>, from: nat)
    ensures AllGauges(CpuEntries(cpu, from))
  {
    if cpu != [] {
      CpuEntriesAreGauges(cpu[1..], from + 1);
    }
  }

  lemma {:induction false} GaugesAddNothing(ms: seq<Metric>, id: string)
    requires AllGauges(ms)
    ensures DeltaSum(BatchUpdates(ms), id) == 0
  {
    if ms != [] {
      var (u, rest) := (EntryUpdates(ms[0]), BatchUpdates(ms[1..]));
      GaugesAddNothing(ms[1..], id);
      DeltaSumConcat(u, rest, id);
      assert DeltaSum(u, id) == 0 by {
        if u != [] {
          assert u == [u[0]] && u[0].SetGauge?;
        }
      }
    }
  }

  /** Storing a report moves exactly one counter, PollCount, and by exactly the polls it was parsed with. */
  lemma ReportMovesPollCount(
      s: Store, sensors: seq<string>, reading: string -> Option<Gauge>, polls: int64, random: Gauge,
      total: Gauge, free: Gauge, cpu: seq<Gauge>, id: string)
    ensures var t := Apply(s, BatchUpdates(Report(sensors, reading, polls, random, total, free, cpu)));
            CounterAt(t, id) == if id == "PollCount" then Wrap(CounterAt(s, id) + polls) else CounterAt(s, id)
  {
    hide Wrap, BatchUpdates, RuntimeEntries, CpuEntries, Apply, AllGauges;
    var runtime := RuntimeEntries(sensors, reading);
    var poll := Metric(Some(polls), None, POLL_COUNT, COUNTER_TYPE);
    var tail := Tail(random, total, free, cpu);
    var all := Report(sensors, reading, polls, random, total, free, cpu);
    assert all == runtime + ([poll] + tail);
    RuntimeEntriesAreGauges(sensors, reading);
    TailIsGauges(random, total, free, cpu);
    GaugesAddNothing(runtime, id);
    GaugesAddNothing(tail, id);
    BatchUpdatesConcat(runtime, [poll] + tail);
    BatchUpdatesConcat([poll], tail);
    var (ur, up, ut) := (BatchUpdates(runtime), BatchUpdates([poll]), BatchUpdates(tail));
    DeltaSumConcat(ur, up + ut, id);
    DeltaSumConcat(up, ut, id);
    PollEntryAdds(polls, id);
    CounterOutcome(s, BatchUpdates(all), id);
  }

  lemma PollEntryAdds(polls: int64, id: string)
    ensures DeltaSum(BatchUpdates([Metric(Some(polls), None, POLL_COUNT, COUNTER_TYPE)]), id)
            == if id == POLL_COUNT then polls else 0
  {
    var m := Metric(Some(polls), None, POLL_COUNT, COUNTER_TYPE);
    assert [m][1..] == [];
    assert BatchUpdates([m]) == [AddCounter(POLL_COUNT, polls)] + [] == [AddCounter(POLL_COUNT, polls)];
  }

  lemma TailIsGauges(random: Gauge, total: Gauge, free: Gauge, cpu: seq<Gauge>)
    ensures AllGauges(Tail(random, total, free, cpu))
  {
    CpuEntriesAreGauges(cpu, 0);
  }

  // Which gauges a report sets.

  lemma {:induction false} DigitsApart(m: nat, n: nat)
    requires m != n
    ensures FormatInt(m) != FormatInt(n)
  {
    hide Digits, DigitsValue;
    DigitsRoundTrip(m);
    DigitsRoundTrip(n);
  }

  /** One entry per processor, named by its number in decimal; no two have one name. */
  lemma {:induction false} CpuEntryAt(cpu: seq<Gauge>, from: nat, i: nat)
    requires i < |cpu|
    ensures |CpuEntries(cpu, from)| == |cpu|
    ensures CpuEntries(cpu, from)[i] == Metric(None, Some(cpu[i]), "CPUutilization" + FormatInt(from + i), "gauge")
  {
    hide FormatInt;
    if i > 0 {
      CpuEntryAt(cpu[1..], from + 1, i - 1);
    } else if |cpu| > 1 {
      CpuEntryAt(cpu[1..], from + 1, 0);
    }
  }

  lemma CpuNamesDistinct(i: nat, j: nat)
    requires i != j
    ensures CpuName(i) != CpuName(j)
  {
    hide FormatInt;
    DigitsApart(i, j);
    assert CpuName(i)[|"CPUutilization"|..] == FormatInt(i) && CpuName(j)[|"CPUutilization"|..] == FormatInt(j);
  }

  /** The runtime entries are the sensors that can be read, each with its reading. */
  lemma {:induction false} RuntimeEntryIff(sensors: seq<string>, reading: string -> Option<Gauge>, m: Metric)
    ensures m in RuntimeEntries(sensors, reading) <==>
            m.id in sensors && reading(m.id).Some? && m == Metric(None, reading(m.id), m.id, "gauge")
  {
    if sensors != [] {
      RuntimeEntryIff(sensors[1..], reading, m);
      assert sensors == [sensors[0]] + sensors[1..];
    }
  }

  predicate NotNamed(ms: seq<Metric>, id: string) {
    forall i :: 0 <= i < |ms| ==> ms[i].id != id
  }

  lemma {:induction false} NotNamedNotSet(ms: seq<Metric>, id: string)
    requires NotNamed(ms, id)
    ensures GaugesFor(BatchUpdates(ms), id) == []
  {
    if ms != [] {
      NotNamedNotSet(ms[1..], id);
      GaugesForConcat(EntryUpdates(ms[0]), BatchUpdates(ms[1..]), id);
    }
  }

  /** The last entry of a name decides. */
  lemma LastEntryDecides(s: Store, before: seq<Metric>, id: string, g: Gauge, after: seq<Metric>)
    requires id != "" && NotNamed(after, id)
    ensures var t := Apply(s, BatchUpdates(before + ([GaugeEntry(id, g)] + after))); id in t.gauge && t.gauge[id] == g
  {
    hide NotNamed, Apply;
    var m := GaugeEntry(id, g);
    var (us, vs) := (BatchUpdates(before), BatchUpdates(after));
    BatchUpdatesConcat(before, [m] + after);
    assert ([m] + after)[1..] == after;
    assert EntryUpdates(m) == [SetGauge(id, g)];
    var all := us + ([SetGauge(id, g)] + vs);
    assert BatchUpdates(before + ([m] + after)) == all;
    NotNamedNotSet(after, id);
    GaugesForConcat(us, [SetGauge(id, g)] + vs, id);
    assert ([SetGauge(id, g)] + vs)[1..] == vs;
    assert GaugesFor(all, id) == GaugesFor(us, id) + ([g] + []);
    GaugeOutcome(s, all, id);
  }

  lemma CpuNotNamed(cpu: seq<Gauge>, from: nat, id: string)
    requires id != "" && id[0] != 'C'
    ensures NotNamed(CpuEntries(cpu, from), id)
  {
    hide CpuEntries, FormatInt;
    forall i | 0 <= i < |CpuEntries(cpu, from)| ensures CpuEntries(cpu, from)[i].id != id {
      CpuEntriesLength(cpu, from);
      CpuEntryAt(cpu, from, i);
      assert CpuEntries(cpu, from)[i].id[0] == 'C';
    }
  }

  lemma CpuEntriesLength(cpu: seq<Gauge>, from: nat)
    ensures |CpuEntries(cpu, from)| == |cpu|
  {
    if cpu != [] {
      CpuEntryAt(cpu, from, 0);
    }
  }

  /** A stored report leaves the random value, the memory and the processors as they were read. */
  lemma ReportSetsGauges(
      s: Store, sensors: seq<string>, reading: string -> Option<Gauge>, polls: int64, random: Gauge,
      total: Gauge, free: Gauge, cpu: seq<Gauge>)
    ensures var t := Apply(s, BatchUpdates(Report(sensors, reading, polls, random, total, free, cpu))).gauge;
            && "RandomValue" in t && t["RandomValue"] == random
            && "TotalMemory" in t && t["TotalMemory"] == total
            && "FreeMemory" in t && t["FreeMemory"] == free
            && forall i :: 0 <= i < |cpu| ==> CpuName(i) in t && t[CpuName(i)] == cpu[i]
  {
    hide BatchUpdates, CpuEntries, Apply, CpuName, Report;
    var runtime := RuntimeEntries(sensors, reading);
    var poll := Metric(Some(polls), None, POLL_COUNT, COUNTER_TYPE);
    assert Report(sensors, reading, polls, random, total, free, cpu) ==
           (runtime + [poll]) + Tail(random, total, free, cpu) by {
      ReportIs(sensors, reading, polls, random, total, free, cpu);
    }
    MemoryIsSet(s, runtime + [poll], random, total, free, cpu);
    forall i | 0 <= i < |cpu|
      ensures var t := Apply(s, BatchUpdates((runtime + [poll]) + Tail(random, total, free, cpu))).gauge;
              CpuName(i) in t && t[CpuName(i)] == cpu[i]
    {
      ProcessorIsSet(s, runtime + [poll], random, total, free, cpu, i);
    }
  }

  /** What a report holds behind the poll counter. */
  function Tail(random: Gauge, total: Gauge, free: Gauge, cpu: seq<Gauge>): seq<Metric> {
    [GaugeEntry("RandomValue", random)]
    + ([GaugeEntry("TotalMemory", total), GaugeEntry("FreeMemory", free)] + CpuEntries(cpu, 0))
  }

  lemma ReportIs(
      sensors: seq<string>, reading: string -> Option<Gauge>, polls: int64, random: Gauge,
      total: Gauge, free: Gauge, cpu: seq<Gauge>)
    ensures Report(sensors, reading, polls, random, total, free, cpu) ==
            (RuntimeEntries(sensors, reading) + [Metric(Some(polls), None, POLL_COUNT, COUNTER_TYPE)])
            + Tail(random, total, free, cpu)
  {
    hide RuntimeEntries, CpuEntries;
  }

  lemma MemoryIsSet(s: Store, before: seq<Metric>, random: Gauge, total: Gauge, free: Gauge, cpu: seq<Gauge>)
    ensures var t := Apply(s, BatchUpdates(before + Tail(random, total, free, cpu))).gauge;
            && "RandomValue" in t && t["RandomValue"] == random
            && "TotalMemory" in t && t["TotalMemory"] == total
            && "FreeMemory" in t && t["FreeMemory"] == free
  {
    hide BatchUpdates, CpuEntries, Apply, NotNamed;
    var r := GaugeEntry("RandomValue", random);
    var (m, f) := (GaugeEntry("TotalMemory", total), GaugeEntry("FreeMemory", free));
    var cs := CpuEntries(cpu, 0);
    CpuNotNamed(cpu, 0, "RandomValue");
    CpuNotNamed(cpu, 0, "TotalMemory");
    CpuNotNamed(cpu, 0, "FreeMemory");
    MemoryNames(total, free, cs);
    var all := before + Tail(random, total, free, cpu);
    LastEntryDecides(s, before, "RandomValue", random, [m, f] + cs);
    assert all == (before + [r]) + ([m] + ([f] + cs));
    LastEntryDecides(s, before + [r], "TotalMemory", total, [f] + cs);
    assert all == (before + [r, m]) + ([f] + cs);
    LastEntryDecides(s, before + [r, m], "FreeMemory", free, cs);
  }

  lemma ProcessorIsSet(
      s: Store, before: seq<Metric>, random: Gauge, total: Gauge, free: Gauge, cpu: seq<Gauge>, i: nat)
    requires i < |cpu|
    ensures var t := Apply(s, BatchUpdates(before + Tail(random, total, free, cpu))).gauge;
            CpuName(i) in t && t[CpuName(i)] == cpu[i]
  {
    hide BatchUpdates, CpuEntries, Apply, NotNamed, CpuName;
    var first := [GaugeEntry("RandomValue", random), GaugeEntry("TotalMemory", total), GaugeEntry("FreeMemory", free)];
    var cs := CpuEntries(cpu, 0);
    CpuEntriesLength(cpu, 0);
    OthersNotNamed(cpu, i);
    assert cs == cs[..i] + ([cs[i]] + cs[i + 1..]);
    assert Tail(random, total, free, cpu) == first + cs;
    assert before + Tail(random, total, free, cpu) == (before + first + cs[..i]) + ([cs[i]] + cs[i + 1..]);
    LastEntryDecides(s, before + first + cs[..i], CpuName(i), cpu[i], cs[i + 1..]);
  }

  lemma MemoryNames(total: Gauge, free: Gauge, cs: seq<Metric>)
    requires NotNamed(cs, "RandomValue") && NotNamed(cs, "TotalMemory")
    ensures NotNamed([GaugeEntry("TotalMemory", total), GaugeEntry("FreeMemory", free)] + cs, "RandomValue")
    ensures NotNamed([GaugeEntry("FreeMemory", free)] + cs, "TotalMemory")
  {}

  lemma OthersNotNamed(cpu: seq<Gauge>, i: nat)
    requires i < |cpu| == |CpuEntries(cpu, 0)|
    ensures NotNamed(CpuEntries(cpu, 0)[i + 1..], CpuName(i)) && CpuName(i) != ""
    ensures CpuEntries(cpu, 0)[i] == GaugeEntry(CpuName(i), cpu[i])
  {
    hide CpuEntries, FormatInt;
    CpuEntryAt(cpu, 0, i);
    forall j | i < j < |cpu| ensures CpuEntries(cpu, 0)[j].id != CpuName(i) {
      CpuEntryAt(cpu, 0, j);
      CpuNamesDistinct(i, j);
    }
  }
}
