/** The contents of a metric store, what a list of updates does to it, and when two lists do the same. */
module Stores {
  import opened Wrappers
  import opened Int64
  import opened Models

  datatype Store = Store(gauge: map<string, Gauge>, counter: map<string, int64>)

  const EMPTY_STORE := Store(map[], map[])

  /** A missing counter reads as Go's zero value. */
  function CounterAt(s: Store, id: string): int64 {
    if id in s.counter then s.counter[id] else 0
  }

  function ApplyUpdate(s: Store, u: Update): Store {
    match u
    case SetGauge(id, g) => s.(gauge := s.gauge[id := g])
    case AddCounter(id, d) => s.(counter := s.counter[id := Wrap(CounterAt(s, id) + d)])
  }

  function Apply(s: Store, us: seq<Update>): Store
    decreases us
  {
    if us == [] then s else Apply(ApplyUpdate(s, us[0]), us[1..])
  }

  /** GetMetric: an unknown type and a missing name are different errors. */
  function Lookup(s: Store, mtype: string, name: string): Result<Value, Error> {
    if mtype == GAUGE_TYPE then
      if name in s.gauge then Ok(GaugeValue(s.gauge[name])) else Err(NoVal)
    else if mtype == COUNTER_TYPE then
      if name in s.counter then Ok(CounterValue(s.counter[name])) else Err(NoVal)
    else
      Err(BadMetricType)
  }

  // What a list of updates asks for one id.

  predicate Adds(u: Update, id: string) { u.AddCounter? && u.id == id }

  predicate Counts(us: seq<Update>, id: string) {
    exists i :: 0 <= i < |us| && Adds(us[i], id)
  }

  /** The deltas for id, added up without any wrapping. */
  function DeltaSum(us: seq<Update>, id: string): int {
    if us == [] then 0 else (if Adds(us[0], id) then us[0].d else 0) + DeltaSum(us[1..], id)
  }

  /** The gauge values for id, in the order in which they are written. */
  function GaugesFor(us: seq<Update>, id: string): seq<Gauge> {
    if us == [] then []
    else (if us[0].SetGauge? && us[0].id == id then [us[0].g] else []) + GaugesFor(us[1..], id)
  }

  /** t is s with every counter moved by its whole delta sum and every gauge at its last write. */
  ghost predicate IsOutcome(s: Store, us: seq<Update>, t: Store) {
    forall id :: IsOutcomeAt(s, us, t, id)
  }

  ghost predicate IsOutcomeAt(s: Store, us: seq<Update>, t: Store, id: string) {
    && (id in t.counter <==> id in s.counter || Counts(us, id))
    && (id in t.counter ==> t.counter[id] == Wrap(CounterAt(s, id) + DeltaSum(us, id)))
    && var gs := GaugesFor(us, id);
    && (id in t.gauge <==> id in s.gauge || gs != [])
    && (id in t.gauge ==> t.gauge[id] == if gs == [] then s.gauge[id] else gs[|gs| - 1])
  }

  lemma CountsCons(us: seq<Update>, id: string)
    requires us != []
    ensures Counts(us, id) <==> Adds(us[0], id) || Counts(us[1..], id)
  {
    if Counts(us[1..], id) {
      var i :| 0 <= i < |us[1..]| && Adds(us[1..][i], id);
      assert Adds(us[i + 1], id);
    }
    if Counts(us, id) && !Adds(us[0], id) {
      var i :| 0 <= i < |us| && Adds(us[i], id);
      assert Adds(us[1..][i - 1], id);
    }
  }

  lemma {:induction false} CounterOutcome(s: Store, us: seq<Update>, id: string)
    ensures var t := Apply(s, us);
            && (id in t.counter <==> id in s.counter || Counts(us, id))
            && CounterAt(t, id) == Wrap(CounterAt(s, id) + DeltaSum(us, id))
    decreases us
  {
    hide Wrap;
    if us == [] {
    } else {
      CountsCons(us, id);
      CounterOutcome(ApplyUpdate(s, us[0]), us[1..], id);
      if Adds(us[0], id) {
        WrapAdd(CounterAt(s, id) + us[0].d, DeltaSum(us[1..], id));
      }
    }
  }

  lemma {:induction false} GaugeOutcome(s: Store, us: seq<Update>, id: string)
    ensures var (t, gs) := (Apply(s, us), GaugesFor(us, id));
            if gs == [] then (id in t.gauge <==> id in s.gauge) && (id in t.gauge ==> t.gauge[id] == s.gauge[id])
            else id in t.gauge && t.gauge[id] == gs[|gs| - 1]
    decreases us
  {
    if us == [] {
    } else {
      GaugeOutcome(ApplyUpdate(s, us[0]), us[1..], id);
    }
  }

  /** Closed form: one int64 wrap of the unbounded sum per counter, last write per gauge. */
  lemma ApplyOutcome(s: Store, us: seq<Update>)
    ensures IsOutcome(s, us, Apply(s, us))
  {
    forall id ensures IsOutcomeAt(s, us, Apply(s, us), id) {
      CounterOutcome(s, us, id);
      GaugeOutcome(s, us, id);
    }
  }

  /** The closed form leaves no freedom. */
  lemma OutcomeUnique(s: Store, us: seq<Update>, t: Store)
    requires IsOutcome(s, us, t)
    ensures t == Apply(s, us)
  {
    ApplyOutcome(s, us);
    var r := Apply(s, us);
    forall id
      ensures id in t.counter <==> id in r.counter
      ensures id in t.counter ==> t.counter[id] == r.counter[id]
      ensures id in t.gauge <==> id in r.gauge
      ensures id in t.gauge ==> t.gauge[id] == r.gauge[id]
    {
      assert IsOutcomeAt(s, us, t, id) && IsOutcomeAt(s, us, r, id);
    }
    assert t.counter == r.counter && t.gauge == r.gauge;
  }

  lemma {:induction false} ApplyConcat(s: Store, a: seq<Update>, b: seq<Update>)
    ensures Apply(s, a + b) == Apply(Apply(s, a), b)
    decreases a
  {
    if a == [] {
      assert a + b == b;
    } else {
      assert (a + b)[1..] == a[1..] + b;
      ApplyConcat(ApplyUpdate(s, a[0]), a[1..], b);
    }
  }

  lemma {:induction false} DeltaSumConcat(a: seq<Update>, b: seq<Update>, id: string)
    ensures DeltaSum(a + b, id) == DeltaSum(a, id) + DeltaSum(b, id)
  {
    if a == [] {
      assert a + b == b;
    } else {
      assert (a + b)[1..] == a[1..] + b;
      DeltaSumConcat(a[1..], b, id);
    }
  }

  lemma {:induction false} GaugesForConcat(a: seq<Update>, b: seq<Update>, id: string)
    ensures GaugesFor(a + b, id) == GaugesFor(a, id) + GaugesFor(b, id)
  {
    if a == [] {
      assert a + b == b;
    } else {
      assert (a + b)[1..] == a[1..] + b;
      GaugesForConcat(a[1..], b, id);
    }
  }

  // When two lists of updates are interchangeable.

  /** Same counters touched, sums equal modulo 2^64, same last write of every gauge. */
  ghost predicate SameEffect(a: seq<Update>, b: seq<Update>) {
    forall id :: SameEffectAt(a, b, id)
  }

  ghost predicate SameEffectAt(a: seq<Update>, b: seq<Update>, id: string) {
    && (Counts(a, id) <==> Counts(b, id))
    && Congruent(DeltaSum(a, id), DeltaSum(b, id))
    && var (ga, gb) := (GaugesFor(a, id), GaugesFor(b, id));
    && (ga == [] <==> gb == [])
    && (ga != [] ==> ga[|ga| - 1] == gb[|gb| - 1])
  }

  /** A counter nobody adds to has delta sum zero. */
  lemma {:induction false} NoCountNoSum(us: seq<Update>, id: string)
    requires !Counts(us, id)
    ensures DeltaSum(us, id) == 0
  {
    if us == [] {
    } else {
      assert !Adds(us[0], id);
      assert forall i :: 0 <= i < |us| - 1 ==> us[1..][i] == us[i + 1];
      NoCountNoSum(us[1..], id);
    }
  }

  lemma SameEffectOnCounter(s: Store, a: seq<Update>, b: seq<Update>, id: string)
    requires SameEffectAt(a, b, id)
    ensures id in Apply(s, a).counter <==> id in Apply(s, b).counter
    ensures CounterAt(Apply(s, a), id) == CounterAt(Apply(s, b), id)
  {
    CounterOutcome(s, a, id);
    CounterOutcome(s, b, id);
    WrapEqualIffCongruent(CounterAt(s, id) + DeltaSum(a, id), CounterAt(s, id) + DeltaSum(b, id));
  }

  lemma SameEffectSuffices(s: Store, a: seq<Update>, b: seq<Update>)
    requires SameEffect(a, b)
    ensures Apply(s, a) == Apply(s, b)
  {
    var (ta, tb) := (Apply(s, a), Apply(s, b));
    forall id
      ensures id in ta.counter <==> id in tb.counter
      ensures id in ta.counter ==> ta.counter[id] == tb.counter[id]
      ensures id in ta.gauge <==> id in tb.gauge
      ensures id in ta.gauge ==> ta.gauge[id] == tb.gauge[id]
    {
      assert SameEffectAt(a, b, id);
      SameEffectOnCounter(s, a, b, id);
      GaugeOutcome(s, a, id);
      GaugeOutcome(s, b, id);
    }
    assert ta.counter == tb.counter && ta.gauge == tb.gauge;
  }

  /** Nobody can tell the two lists apart by the store they leave. */
  ghost predicate Interchangeable(a: seq<Update>, b: seq<Update>) {
    forall s :: Apply(s, a) == Apply(s, b)
  }

  /** Exact condition: two lists act alike on every store if and only if they have the same effect. */
  lemma InterchangeableIff(a: seq<Update>, b: seq<Update>)
    ensures Interchangeable(a, b) <==> SameEffect(a, b)
  {
    if SameEffect(a, b) {
      forall s ensures Apply(s, a) == Apply(s, b) {
        SameEffectSuffices(s, a, b);
      }
    }
    if Interchangeable(a, b) {
      var t := Apply(EMPTY_STORE, a);
      assert t == Apply(EMPTY_STORE, b);
      forall id ensures SameEffectAt(a, b, id) {
        CounterOutcome(EMPTY_STORE, a, id);
        CounterOutcome(EMPTY_STORE, b, id);
        GaugeOutcome(EMPTY_STORE, a, id);
        GaugeOutcome(EMPTY_STORE, b, id);
        if Counts(a, id) {
          WrapEqualIffCongruent(DeltaSum(a, id), DeltaSum(b, id));
        } else {
          NoCountNoSum(a, id);
          NoCountNoSum(b, id);
        }
      }
    }
  }
}
