/** Laws of batches: splitting, folding single writes, reordering. */
module BatchLaws {
  import opened Int64
  import opened Models
  import opened Stores

  /** Cutting a batch in two and storing the parts in order changes nothing. */
  lemma SplitBatch(s: Store, ms: seq<Metric>, k: nat)
    requires k <= |ms|
    ensures Apply(s, BatchUpdates(ms)) == Apply(Apply(s, BatchUpdates(ms[..k])), BatchUpdates(ms[k..]))
  {
    assert ms == ms[..k] + ms[k..];
    BatchUpdatesConcat(ms[..k], ms[k..]);
    ApplyConcat(s, BatchUpdates(ms[..k]), BatchUpdates(ms[k..]));
  }

  // A batch against single writes.

  /** The entry has a known type, a value of that type and a non-empty id. */
  predicate ValidEntry(m: Metric) {
    && m.id != ""
    && ((m.mtype == GAUGE_TYPE && m.value.Some?) || (m.mtype == COUNTER_TYPE && m.delta.Some?))
  }

  function EntryValue(m: Metric): Value
    requires ValidEntry(m)
  {
    if m.mtype == GAUGE_TYPE then GaugeValue(m.value.value) else CounterValue(m.delta.value)
  }

  /** Store s after one single write; a refused write changes nothing. */
  function SingleWrite(s: Store, mtype: string, name: string, val: Value): Store {
    match WriteUpdate(mtype, name, val)
    case Ok(u) => ApplyUpdate(s, u)
    case Err(_) => s
  }

  function FoldWrites(s: Store, ms: seq<Metric>): Store
    decreases ms
  {
    if ms == [] then s
    else
      var m := ms[0];
      FoldWrites(if ValidEntry(m) then SingleWrite(s, m.mtype, m.id, EntryValue(m)) else s, ms[1..])
  }

  /** A batch is the same as writing its valid entries one by one. */
  lemma {:induction false} BatchIsFoldOfWrites(s: Store, ms: seq<Metric>)
    ensures Apply(s, BatchUpdates(ms)) == FoldWrites(s, ms)
    decreases ms
  {
    if ms == [] {
    } else {
      var m := ms[0];
      ApplyConcat(s, EntryUpdates(m), BatchUpdates(ms[1..]));
      var s1 := if ValidEntry(m) then SingleWrite(s, m.mtype, m.id, EntryValue(m)) else s;
      assert Apply(s, EntryUpdates(m)) == s1 by {
        if ValidEntry(m) {
          var u := EntryUpdates(m)[0];
          assert Apply(s, [u]) == Apply(ApplyUpdate(s, u), []);
        }
      }
      BatchIsFoldOfWrites(s1, ms[1..]);
    }
  }

  // Reordering.

  lemma CountsConcat(a: seq<Update>, b: seq<Update>, id: string)
    ensures Counts(a + b, id) <==> Counts(a, id) || Counts(b, id)
  {
    if Counts(a, id) {
      var i :| 0 <= i < |a| && Adds(a[i], id);
      assert Adds((a + b)[i], id);
    }
    if Counts(b, id) {
      var i :| 0 <= i < |b| && Adds(b[i], id);
      assert Adds((a + b)[|a| + i], id);
    }
  }

  /** Moving one entry to the front of a batch leaves every counter's share alone. */
  lemma EntryToFront(a: seq<Metric>, m: Metric, b: seq<Metric>, id: string)
    ensures SameCounter([m] + (a + b), a + [m] + b, id)
  {
    var (ua, um, ub) := (BatchUpdates(a), BatchUpdates([m]), BatchUpdates(b));
    BatchUpdatesConcat(a, b);
    BatchUpdatesConcat([m], a + b);
    BatchUpdatesConcat(a, [m]);
    BatchUpdatesConcat(a + [m], b);
    DeltaSumConcat(ua, ub, id);
    DeltaSumConcat(um, ua + ub, id);
    DeltaSumConcat(ua, um, id);
    DeltaSumConcat(ua + um, ub, id);
    CountsConcat(ua, ub, id);
    CountsConcat(um, ua + ub, id);
    CountsConcat(ua, um, id);
    CountsConcat(ua + um, ub, id);
  }

  predicate SameCounter(a: seq<Metric>, b: seq<Metric>, id: string) {
    var (x, y) := (BatchUpdates(a), BatchUpdates(b));
    DeltaSum(x, id) == DeltaSum(y, id) && (Counts(x, id) <==> Counts(y, id))
  }

  lemma SameFront(m: Metric, a: seq<Metric>, b: seq<Metric>, id: string)
    requires SameCounter(a, b, id)
    ensures SameCounter([m] + a, [m] + b, id)
  {
    var (um, ua, ub) := (BatchUpdates([m]), BatchUpdates(a), BatchUpdates(b));
    BatchUpdatesConcat([m], a);
    BatchUpdatesConcat([m], b);
    DeltaSumConcat(um, ua, id);
    DeltaSumConcat(um, ub, id);
    CountsConcat(um, ua, id);
    CountsConcat(um, ub, id);
  }

  /** Where the first entry of a is in b, and what the rest of both have in common. */
  lemma FindFirst(a: seq<Metric>, b: seq<Metric>) returns (i: nat)
    requires multiset(a) == multiset(b) && a != []
    ensures i < |b| && b[i] == a[0] && multiset(a[1..]) == multiset(b[..i] + b[i + 1..])
  {
    assert a[0] in multiset(a);
    i := IndexOf(b, a[0]);
    WithoutFirst(a);
    WithoutOne(b, i);
  }

  lemma IndexOf(ms: seq<Metric>, m: Metric) returns (i: nat)
    requires m in multiset(ms)
    ensures i < |ms| && ms[i] == m
  {
    i :| 0 <= i < |ms| && ms[i] == m;
  }

  lemma WithoutFirst(ms: seq<Metric>)
    requires ms != []
    ensures multiset(ms[1..]) == multiset(ms) - multiset{ms[0]}
  {
    assert ms == [ms[0]] + ms[1..];
    assert multiset(ms) == multiset{ms[0]} + multiset(ms[1..]);
  }

  lemma WithoutOne(ms: seq<Metric>, i: nat)
    requires i < |ms|
    ensures multiset(ms[..i] + ms[i + 1..]) == multiset(ms) - multiset{ms[i]}
  {
    assert ms == ms[..i] + ([ms[i]] + ms[i + 1..]);
    assert multiset(ms) == multiset(ms[..i]) + (multiset{ms[i]} + multiset(ms[i + 1..]));
  }

  lemma {:induction false} PermutationKeepsCounters(a: seq<Metric>, b: seq<Metric>, id: string)
    requires multiset(a) == multiset(b)
    ensures SameCounter(a, b, id)
  {
    hide SameCounter;
    if a == [] {
      assert |multiset(b)| == 0;
      SameCounterReflexive(a, id);
    } else {
      var i := FindFirst(a, b);
      var (m, b0, b1) := (a[0], b[..i], b[i + 1..]);
      PermutationKeepsCounters(a[1..], b0 + b1, id);
      SameFront(m, a[1..], b0 + b1, id);
      EntryToFront(b0, m, b1, id);
      assert a == [m] + a[1..] && b == b0 + [m] + b1;
      SameCounterTransitive(a, [m] + (b0 + b1), b, id);
    }
  }

  lemma SameCounterReflexive(a: seq<Metric>, id: string)
    ensures SameCounter(a, a, id)
  {}

  lemma SameCounterTransitive(a: seq<Metric>, b: seq<Metric>, c: seq<Metric>, id: string)
    requires SameCounter(a, b, id) && SameCounter(b, c, id)
    ensures SameCounter(a, c, id)
  {}

  /** b has the entries of a, and writes the same gauge values to each id in the same order. */
  ghost predicate GaugeOrderKept(a: seq<Metric>, b: seq<Metric>) {
    && multiset(a) == multiset(b)
    && forall id :: GaugesFor(BatchUpdates(a), id) == GaugesFor(BatchUpdates(b), id)
  }

  /** Counters may be reordered at will, gauges as long as no two of one id swap. */
  lemma {:induction false} ReorderedBatch(s: Store, a: seq<Metric>, b: seq<Metric>)
    requires GaugeOrderKept(a, b)
    ensures Apply(s, BatchUpdates(a)) == Apply(s, BatchUpdates(b))
  {
    forall id ensures SameEffectAt(BatchUpdates(a), BatchUpdates(b), id) {
      PermutationKeepsCounters(a, b, id);
    }
    SameEffectSuffices(s, BatchUpdates(a), BatchUpdates(b));
  }

  // Repetition: a client that never saw the answer sends the batch again.

  /** Storing the updates a second time changes nothing, wherever one starts. */
  ghost predicate RepeatHarmless(us: seq<Update>) {
    Interchangeable(us + us, us)
  }

  lemma SameEffectTwiceIff(us: seq<Update>, id: string)
    ensures SameEffectAt(us + us, us, id) <==> Congruent(DeltaSum(us, id), 0)
  {
    DeltaSumConcat(us, us, id);
    CountsConcat(us, us, id);
    GaugesForConcat(us, us, id);
  }

  ghost predicate DeltasCancel(us: seq<Update>) {
    forall id :: Congruent(DeltaSum(us, id), 0)
  }

  /** A repeated batch is harmless if and only if its deltas for every single counter cancel modulo 2^64. */
  lemma RepeatHarmlessIff(us: seq<Update>)
    ensures RepeatHarmless(us) <==> DeltasCancel(us)
  {
    hide SameEffectAt, Congruent;
    InterchangeableIff(us + us, us);
    forall id ensures SameEffectAt(us + us, us, id) <==> Congruent(DeltaSum(us, id), 0) {
      SameEffectTwiceIff(us, id);
    }
  }

  /** Gauge writes are idempotent. */
  lemma GaugesRepeatHarmlessly(us: seq<Update>)
    requires forall i :: 0 <= i < |us| ==> us[i].SetGauge?
    ensures RepeatHarmless(us)
  {
    forall id ensures Congruent(DeltaSum(us, id), 0) {
      NoCountNoSum(us, id);
    }
    RepeatHarmlessIff(us);
  }
}

/** Any number of clients whose locked calls interleave in any order. */
module Clients {
  import opened Int64
  import opened Models
  import opened Stores

  /** A call that takes the store's lock for its whole duration. */
  datatype Call =
    | WriteCall(mtype: string, name: string, val: Value)
    | BatchCall(metrics: seq<Metric>)

  function CallUpdates(c: Call): seq<Update> {
    match c
    case WriteCall(mtype, name, val) =>
      (match WriteUpdate(mtype, name, val) case Ok(u) => [u] case Err(_) => [])
    case BatchCall(metrics) => BatchUpdates(metrics)
  }

  function ProgramUpdates(p: seq<Call>): seq<Update> {
    if p == [] then [] else CallUpdates(p[0]) + ProgramUpdates(p[1..])
  }

  /** Client c has made its next call. */
  function Advance(clients: seq<seq<Call>>, c: nat): (rest: seq<seq<Call>>)
    requires c < |clients| && clients[c] != []
    ensures |rest| == |clients|
  {
    clients[c := clients[c][1..]]
  }

  /** At every step the scheduled client makes its next call; in the end nobody has calls left. */
  predicate CompleteSchedule(clients: seq<seq<Call>>, schedule: seq<nat>)
    decreases schedule
  {
    if schedule == [] then
      forall c :: 0 <= c < |clients| ==> clients[c] == []
    else
      var c := schedule[0];
      && c < |clients| && clients[c] != []
      && CompleteSchedule(Advance(clients, c), schedule[1..])
  }

  function Run(s: Store, clients: seq<seq<Call>>, schedule: seq<nat>): Store
    requires CompleteSchedule(clients, schedule)
    decreases schedule
  {
    if schedule == [] then s
    else
      var c := schedule[0];
      Run(Apply(s, CallUpdates(clients[c][0])), Advance(clients, c), schedule[1..])
  }

  /** All the deltas for id in all the programs, without wrapping. */
  function TotalDelta(clients: seq<seq<Call>>, id: string): int {
    if clients == [] then 0
    else DeltaSum(ProgramUpdates(clients[0]), id) + TotalDelta(clients[1..], id)
  }

  lemma {:induction false} TotalDeltaStep(clients: seq<seq<Call>>, c: nat, id: string)
    requires c < |clients| && clients[c] != []
    ensures TotalDelta(clients, id) ==
            DeltaSum(CallUpdates(clients[c][0]), id) + TotalDelta(Advance(clients, c), id)
    decreases c
  {
    var rest := Advance(clients, c);
    if c == 0 {
      DeltaSumConcat(CallUpdates(clients[0][0]), ProgramUpdates(clients[0][1..]), id);
      assert rest[1..] == clients[1..];
    } else {
      TotalDeltaStep(clients[1..], c - 1, id);
      assert rest[1..] == clients[1..][c - 1 := clients[c][1..]];
    }
  }

  lemma {:induction false} TotalDeltaDone(clients: seq<seq<Call>>, id: string)
    requires forall c :: 0 <= c < |clients| ==> clients[c] == []
    ensures TotalDelta(clients, id) == 0
  {
    if clients == [] {
    } else {
      assert clients[0] == [];
      TotalDeltaDone(clients[1..], id);
    }
  }

  /** Counter conservation: the final counter is the wrapped sum of everything anybody added. */
  lemma {:induction false} CountersConserved(s: Store, clients: seq<seq<Call>>, schedule: seq<nat>, id: string)
    requires CompleteSchedule(clients, schedule)
    ensures CounterAt(Run(s, clients, schedule), id) == Wrap(CounterAt(s, id) + TotalDelta(clients, id))
    decreases schedule
  {
    hide Wrap, TotalDelta, CallUpdates, Apply, DeltaSum;
    if schedule == [] {
      TotalDeltaDone(clients, id);
    } else {
      var c := schedule[0];
      var us := CallUpdates(clients[c][0]);
      var (s1, rest) := (Apply(s, us), Advance(clients, c));
      CounterOutcome(s, us, id);
      CountersConserved(s1, rest, schedule[1..], id);
      TotalDeltaStep(clients, c, id);
      WrapAdd(CounterAt(s, id) + DeltaSum(us, id), TotalDelta(rest, id));
    }
  }

  /** No schedule is better or worse for the counters than another. */
  lemma CountersIgnoreSchedule(s: Store, clients: seq<seq<Call>>, sch1: seq<nat>, sch2: seq<nat>, id: string)
    requires CompleteSchedule(clients, sch1) && CompleteSchedule(clients, sch2)
    ensures CounterAt(Run(s, clients, sch1), id) == CounterAt(Run(s, clients, sch2), id)
  {
    CountersConserved(s, clients, sch1, id);
    CountersConserved(s, clients, sch2, id);
  }

  // Gauges do depend on the schedule, but only on who comes last.

  function ClientGauges(clients: seq<seq<Call>>, c: nat, id: string): seq<Gauge>
    requires c < |clients|
  {
    GaugesFor(ProgramUpdates(clients[c]), id)
  }

  /** What is left of a client's writes after a call is the end of what it had before. */
  lemma AdvanceGauges(clients: seq<seq<Call>>, c: nat, e: nat, id: string)
    requires c < |clients| && clients[c] != [] && e < |clients|
    ensures ClientGauges(clients, e, id) ==
            (if e == c then GaugesFor(CallUpdates(clients[c][0]), id) else [])
            + ClientGauges(Advance(clients, c), e, id)
  {
    GaugesForConcat(CallUpdates(clients[c][0]), ProgramUpdates(clients[c][1..]), id);
  }

  ghost predicate SomebodyWrites(clients: seq<seq<Call>>, id: string) {
    exists c :: 0 <= c < |clients| && ClientGauges(clients, c, id) != []
  }

  /** t holds for id the last value that client c writes to it. */
  ghost predicate HasLastOf(t: Store, clients: seq<seq<Call>>, c: nat, id: string) {
    && c < |clients|
    && var gs := ClientGauges(clients, c, id);
    && gs != [] && id in t.gauge && t.gauge[id] == gs[|gs| - 1]
  }

  ghost predicate SameGauge(t: Store, s: Store, id: string) {
    (id in t.gauge <==> id in s.gauge) && (id in t.gauge ==> t.gauge[id] == s.gauge[id])
  }

  /** What holds of the calls after the next one holds of all of them. */
  lemma LastSurvives(t: Store, clients: seq<seq<Call>>, c: nat, w: nat, id: string)
    requires c < |clients| && clients[c] != []
    requires HasLastOf(t, Advance(clients, c), w, id)
    ensures HasLastOf(t, clients, w, id)
  {
    AdvanceGauges(clients, c, w, id);
  }

  /** If nobody writes any more, the call just made decides. */
  lemma LastIsNow(t: Store, s: Store, clients: seq<seq<Call>>, c: nat, id: string)
    requires c < |clients| && clients[c] != []
    requires !SomebodyWrites(Advance(clients, c), id)
    requires SameGauge(t, Apply(s, CallUpdates(clients[c][0])), id)
    ensures if SomebodyWrites(clients, id) then HasLastOf(t, clients, c, id) else SameGauge(t, s, id)
  {
    hide Apply, CallUpdates, ProgramUpdates, GaugesFor, ClientGauges, Advance;
    GaugeOutcome(s, CallUpdates(clients[c][0]), id);
    forall e | 0 <= e < |clients|
      ensures ClientGauges(clients, e, id) == if e == c then GaugesFor(CallUpdates(clients[c][0]), id) else []
    {
      assert ClientGauges(Advance(clients, c), e, id) == [];
      AdvanceGauges(clients, c, e, id);
    }
    if GaugesFor(CallUpdates(clients[c][0]), id) != [] {
      assert ClientGauges(clients, c, id) != [];
    }
  }

  /** The final gauge is the last value written by some client, or the initial one if nobody wrote. */
  lemma {:induction false} GaugeIsSomebodysLast(s: Store, clients: seq<seq<Call>>, schedule: seq<nat>, id: string)
    returns (winner: nat)
    requires CompleteSchedule(clients, schedule)
    ensures var t := Run(s, clients, schedule);
            if SomebodyWrites(clients, id) then HasLastOf(t, clients, winner, id) else SameGauge(t, s, id)
    decreases schedule
  {
    winner := 0;
    if schedule == [] {
    } else {
      var c := schedule[0];
      var s1 := Apply(s, CallUpdates(clients[c][0]));
      winner := GaugeIsSomebodysLast(s1, Advance(clients, c), schedule[1..], id);
      var t := Run(s1, Advance(clients, c), schedule[1..]);
      if SomebodyWrites(Advance(clients, c), id) {
        LastSurvives(t, clients, c, winner, id);
        assert SomebodyWrites(clients, id);
      } else {
        LastIsNow(t, s, clients, c, id);
        winner := c;
      }
    }
  }
}
