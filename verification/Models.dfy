/** The metric record shared by agent and server, and the two kinds of value. */
module Models {
  import opened Wrappers
  import opened Int64

  const GAUGE_TYPE: string := "gauge"
  const COUNTER_TYPE: string := "counter"

  /** A float64, identified by its 64-bit pattern; the store only copies and prints it. */
  type Gauge = bits: int | 0 <= bits < TWO_TO_THE_64

  /** Neither an infinity nor a NaN: the eleven exponent bits are not all ones. */
  predicate Finite(g: Gauge) {
    (g / 0x10_0000_0000_0000) % 0x800 != 0x7FF
  }

  /** models.Metrics: the two pointers may be nil, the two strings are always there. */
  datatype Metric = Metric(delta: Option<int64>, value: Option<Gauge>, id: string, mtype: string)

  /** What an `interface{}` argument or result holds. */
  datatype Value = GaugeValue(g: Gauge) | CounterValue(c: int64) | OtherValue

  datatype Error =
    | NoVal
    | BadMetricType
    | WrongMetricType
    | WrongMetricValueType
    | DbFailure

  /** The text forms of a float64. Formatting is Go's, so its laws are a hypothesis, `Valid`. */
  datatype GaugeText = GaugeText(
    plain: Gauge -> string,           // fmt's %v
    json: Gauge -> string,            // encoding/json
    parse: string -> Option<Gauge>)   // strconv.ParseFloat

  /** One change to a store: what a valid entry of a batch, or a single write, asks for. */
  datatype Update = SetGauge(id: string, g: Gauge) | AddCounter(id: string, d: int64)

  /** The update a batch entry stands for; entries that are skipped stand for none. */
  function EntryUpdates(m: Metric): seq<Update> {
    if m.mtype == GAUGE_TYPE && m.value.Some? && m.id != "" then
      [SetGauge(m.id, m.value.value)]
    else if m.mtype == COUNTER_TYPE && m.delta.Some? && m.id != "" then
      [AddCounter(m.id, m.delta.value)]
    else
      []
  }

  function BatchUpdates(ms: seq<Metric>): seq<Update> {
    if ms == [] then [] else EntryUpdates(ms[0]) + BatchUpdates(ms[1..])
  }

  /** A batch can be cut anywhere: the updates of the parts follow one another. */
  lemma {:induction false} BatchUpdatesConcat(a: seq<Metric>, b: seq<Metric>)
    ensures BatchUpdates(a + b) == BatchUpdates(a) + BatchUpdates(b)
  {
    if a == [] {
      assert a + b == b;
    } else {
      assert (a + b)[1..] == a[1..] + b;
      BatchUpdatesConcat(a[1..], b);
    }
  }

  /** The update a single write stands for, or the error it is refused with. */
  function WriteUpdate(mtype: string, name: string, val: Value): Result<Update, Error> {
    if mtype == GAUGE_TYPE then
      if val.GaugeValue? then Ok(SetGauge(name, val.g)) else Err(WrongMetricValueType)
    else if mtype == COUNTER_TYPE then
      if val.CounterValue? then Ok(AddCounter(name, val.c)) else Err(WrongMetricValueType)
    else
      Err(WrongMetricType)
  }

  /** The finite floats are those below +Inf, and those below -Inf among the negative ones. */
  lemma FiniteIff(g: Gauge)
    ensures Finite(g) <==> g < 0x7FF0_0000_0000_0000 || 0x8000_0000_0000_0000 <= g < 0xFFF0_0000_0000_0000
  {}

  /** What a batch entry asks for, field by field. */
  lemma EntryUpdatesIff(m: Metric, u: Update)
    ensures u in EntryUpdates(m) <==>
            && m.id != "" && u.id == m.id
            && (if u.SetGauge? then m.mtype == "gauge" && m.value == Some(u.g)
                else m.mtype == "counter" && m.delta == Some(u.d))
    ensures |EntryUpdates(m)| <= 1
  {}

  /** What a single write asks for, or the error it meets. */
  lemma WriteUpdateIs(name: string, val: Value, mtype: string)
    ensures WriteUpdate("gauge", name, val) ==
            if val.GaugeValue? then Ok(SetGauge(name, val.g)) else Err(WrongMetricValueType)
    ensures WriteUpdate("counter", name, val) ==
            if val.CounterValue? then Ok(AddCounter(name, val.c)) else Err(WrongMetricValueType)
    ensures mtype != "gauge" && mtype != "counter" ==> WriteUpdate(mtype, name, val) == Err(WrongMetricType)
  {}
}
