/**
 * The two stores over whole runs, in closed form: when they behave alike, and which values read alike after any
 * run.
 */
module RunLaws {
  import opened Wrappers
  import opened Int64
  import opened Models
  import opened Stores
  import opened Clients
  import opened Postgres
  import opened TableLaws
  import opened Refinement

  // When a run is compatible.

  /** The kind of the id's row is, or is going to be, counter. */
  predicate CounterKind(t: Table, us: seq<Update>, id: string) {
    if id in t then IsCounter(t[id]) else FirstIsCounter(us, id)
  }

  predicate KindsAgree(t: Table, us: seq<Update>) {
    forall i :: 0 <= i < |us| ==> (us[i].AddCounter? <==> CounterKind(t, us, us[i].id))
  }

  /** No id is asked for under both kinds, nor against the kind of its row. */
  ghost predicate OneKind(t: Table, us: seq<Update>) {
    && (forall i, j :: 0 <= i < j < |us| && us[i].id == us[j].id ==> (us[i].AddCounter? <==> us[j].AddCounter?))
    && (forall i :: 0 <= i < |us| && us[i].id in t ==> (us[i].AddCounter? <==> IsCounter(t[us[i].id])))
  }

  /** The update that decides FirstIsCounter. */
  lemma {:induction false} FirstOf(us: seq<Update>, i: nat) returns (f: nat)
    requires i < |us|
    ensures f <= i && us[f].id == us[i].id && (FirstIsCounter(us, us[i].id) <==> us[f].AddCounter?)
  {
    if us[0].id == us[i].id {
      f := 0;
    } else {
      var g := FirstOf(us[1..], i - 1);
      f := g + 1;
    }
  }

  lemma OneKindIff(t: Table, us: seq<Update>)
    ensures KindsAgree(t, us) <==> OneKind(t, us)
  {
    hide FirstIsCounter, IsCounter;
    if OneKind(t, us) {
      forall i | 0 <= i < |us| ensures us[i].AddCounter? <==> CounterKind(t, us, us[i].id) {
        var f := FirstOf(us, i);
        assert f < i ==> (us[f].AddCounter? <==> us[i].AddCounter?);
      }
    }
  }

  /** An update that goes through settles the kind of its id, and of no other. */
  lemma KindStep(t: Table, us: seq<Update>, id: string)
    requires us != [] && Upsert(t, us[0]).Some?
    ensures CounterKind(Upsert(t, us[0]).value, us[1..], id) <==> CounterKind(t, us, id)
  {}

  lemma KindsStep(t: Table, us: seq<Update>)
    requires us != [] && Upsert(t, us[0]).Some?
    ensures KindsAgree(t, us) <==>
            (us[0].AddCounter? <==> CounterKind(t, us, us[0].id)) && KindsAgree(Upsert(t, us[0]).value, us[1..])
  {
    hide CounterKind, Upsert;
    var t1 := Upsert(t, us[0]).value;
    forall i | 0 <= i < |us[1..]|
      ensures us[1..][i] == us[i + 1]
      ensures CounterKind(t1, us[1..], us[1..][i].id) <==> CounterKind(t, us, us[i + 1].id)
    {
      KindStep(t, us, us[i + 1].id);
    }
    if KindsAgree(t, us) {
      forall i | 0 <= i < |us[1..]| ensures us[1..][i].AddCounter? <==> CounterKind(t1, us[1..], us[1..][i].id) {
        assert us[i + 1].AddCounter? <==> CounterKind(t, us, us[i + 1].id);
      }
    }
    if (us[0].AddCounter? <==> CounterKind(t, us, us[0].id)) && KindsAgree(t1, us[1..]) {
      forall i | 0 <= i < |us| ensures us[i].AddCounter? <==> CounterKind(t, us, us[i].id) {
        assert i > 0 ==> (us[1..][i - 1].AddCounter? <==> CounterKind(t1, us[1..], us[1..][i - 1].id));
      }
    }
  }

  /** The first update alone. */
  lemma CompatibleIff(t: Table, us: seq<Update>)
    requires WellFormed(t) && us != [] && Upsert(t, us[0]).Some?
    ensures Compatible(t, us[0]) <==> (us[0].AddCounter? <==> CounterKind(t, us, us[0].id))
  {}

  /** Updates are compatible one after the other if and only if ids fit, kinds agree and every sum on the way fits. */
  lemma {:induction false} CompatibleAllIff(t: Table, us: seq<Update>)
    requires WellFormed(t)
    ensures CompatibleAll(t, us) <==> IdsFit(us) && KindsAgree(t, us) && CountersFit(t, us)
    decreases us
  {
    hide WellFormed, Compatible, Upsert, CountersFit, KindsAgree, CounterKind, IdsFit;
    GoesThroughIff(t, us);
    if us == [] {
      NoKinds(t);
    } else if Upsert(t, us[0]).Some? {
      var t1 := Upsert(t, us[0]).value;
      UpsertKeepsWellFormed(t, us[0]);
      CompatibleIff(t, us);
      KindsStep(t, us);
      GoesThroughIff(t1, us[1..]);
      CompatibleAllIff(t1, us[1..]);
    }
  }

  lemma NoKinds(t: Table)
    ensures KindsAgree(t, [])
  {}

  lemma {:induction false} CompatibleConcat(t: Table, a: seq<Update>, b: seq<Update>)
    requires WellFormed(t)
    ensures CompatibleAll(t, a + b) <==>
            CompatibleAll(t, a) && UpsertAll(t, a).Some? && CompatibleAll(UpsertAll(t, a).value, b)
    decreases a
  {
    hide WellFormed, Compatible, Upsert;
    if a == [] {
      assert a + b == b;
    } else {
      assert (a + b)[0] == a[0] && (a + b)[1..] == a[1..] + b;
      if Upsert(t, a[0]).Some? {
        UpsertKeepsWellFormed(t, a[0]);
        CompatibleConcat(Upsert(t, a[0]).value, a[1..], b);
      }
    }
  }

  /** A run is compatible if and only if all its updates together are. */
  lemma {:induction false} CompatibleRunIff(t: Table, calls: seq<Call>)
    requires WellFormed(t)
    ensures CompatibleRun(t, calls) <==> CompatibleAll(t, ProgramUpdates(calls))
    decreases calls
  {
    hide WellFormed, CompatibleAll, UpsertAll, Abs;
    if calls == [] {
      NothingIsCompatible(t);
    } else {
      var us := CallUpdates(calls[0]);
      CompatibleConcat(t, us, ProgramUpdates(calls[1..]));
      CompatibleBatch(t, us);
      if CompatibleAll(t, us) {
        CompatibleCall(t, calls[0]);
        CompatibleRunIff(PgCall(t, calls[0]).0, calls[1..]);
      }
    }
  }

  /** A compatible call leaves what its updates leave. */
  lemma CompatibleCall(t: Table, c: Call)
    requires WellFormed(t) && CompatibleAll(t, CallUpdates(c))
    ensures UpsertAll(t, CallUpdates(c)) == Some(PgCall(t, c).0) && WellFormed(PgCall(t, c).0)
  {
    hide WellFormed, CompatibleAll, Abs;
    CompatibleBatch(t, CallUpdates(c));
  }

  /**
   * PgDB behaves like MemStorage over a whole run, answers and final contents, if and only if over all its updates in a
   * row every id fits, no id is asked for under both kinds or against its row's kind, and every sum on the way fits.
   */
  lemma RunRefinesExactly(t: Table, calls: seq<Call>)
    requires WellFormed(t)
    ensures WellFormed(PgRun(t, calls).0)
    ensures var us := ProgramUpdates(calls);
            (PgRun(t, calls).1 == MemRun(Abs(t), calls).1 && Abs(PgRun(t, calls).0) == MemRun(Abs(t), calls).0)
            <==> IdsFit(us) && OneKind(t, us) && CountersFit(t, us)
  {
    hide WellFormed, CompatibleRun, CompatibleAll, PgRun, MemRun, Abs, IdsFit, OneKind, CountersFit, KindsAgree;
    RunRefinesIff(t, calls);
    CompatibleRunIff(t, calls);
    CompatibleAllIff(t, ProgramUpdates(calls));
    OneKindIff(t, ProgramUpdates(calls));
  }

  // Which values read alike after a run of accepted writes, compatible or not.

  /** The statements never put a delta into a gauge's row. */
  predicate GaugeRowsBare(t: Table) {
    forall id :: id in t && IsGauge(t[id]) ==> t[id].delta.None?
  }

  lemma {:induction false} GaugeRowsStayBare(t: Table, us: seq<Update>)
    requires GaugeRowsBare(t) && UpsertAll(t, us).Some?
    ensures GaugeRowsBare(UpsertAll(t, us).value)
    decreases us
  {
    if us != [] {
      GaugeRowsStayBare(Upsert(t, us[0]).value, us[1..]);
    }
  }

  /** The row has the kind asked for, or it is a counter's row that a gauge was written into during the run. */
  predicate ReadsAlike(t1: Table, us: seq<Update>, mtype: string, name: string) {
    || (mtype != GAUGE_TYPE && mtype != COUNTER_TYPE)
    || name !in t1
    || t1[name].mtype == mtype
    || (mtype == GAUGE_TYPE && GaugesFor(us, name) != [])
  }

  lemma {:induction false} FirstGaugeWrites(us: seq<Update>, id: string)
    requires Touched(us, id) && !FirstIsCounter(us, id)
    ensures GaugesFor(us, id) != []
  {
    if us[0].id != id {
      FirstGaugeWrites(us[1..], id);
    }
  }

  lemma {:induction false} FirstCounterCounts(us: seq<Update>, id: string)
    requires FirstIsCounter(us, id)
    ensures Counts(us, id)
  {
    CountsCons(us, id);
    if us[0].id != id {
      FirstCounterCounts(us[1..], id);
    }
  }

  lemma {:induction false} UntouchedAsksNothing(us: seq<Update>, id: string)
    requires !Touched(us, id)
    ensures GaugesFor(us, id) == [] && !Counts(us, id)
  {
    if us != [] {
      CountsCons(us, id);
      UntouchedAsksNothing(us[1..], id);
    }
  }

  lemma GaugeReadsIff(t: Table, us: seq<Update>, name: string)
    requires WellFormed(t) && UpsertAll(t, us).Some?
    ensures var t1 := UpsertAll(t, us).value;
            TableLookup(t1, GAUGE_TYPE, name) == Lookup(Apply(Abs(t), us), GAUGE_TYPE, name)
            <==> ReadsAlike(t1, us, GAUGE_TYPE, name)
  {
    hide UpsertAll, Apply, GaugesFor, FirstIsCounter, Touched;
    RowAfter(t, us, name);
    GaugeOutcome(Abs(t), us, name);
    if name !in UpsertAll(t, us).value {
      UntouchedAsksNothing(us, name);
    } else if name !in t && !FirstIsCounter(us, name) {
      FirstGaugeWrites(us, name);
    }
  }

  lemma CounterReadsIff(t: Table, us: seq<Update>, name: string)
    requires WellFormed(t) && GaugeRowsBare(t) && UpsertAll(t, us).Some?
    ensures var t1 := UpsertAll(t, us).value;
            TableLookup(t1, COUNTER_TYPE, name) == Lookup(Apply(Abs(t), us), COUNTER_TYPE, name)
            <==> ReadsAlike(t1, us, COUNTER_TYPE, name)
  {
    hide UpsertAll, Apply, GaugesFor, FirstIsCounter, Touched, Counts, Wrap;
    RowAfter(t, us, name);
    CounterOutcome(Abs(t), us, name);
    if name !in UpsertAll(t, us).value {
      UntouchedAsksNothing(us, name);
    } else if name !in t && FirstIsCounter(us, name) {
      FirstCounterCounts(us, name);
    }
  }

  /** After any updates the database accepted, a value reads the same from both stores exactly in these cases. */
  lemma ReadsAlikeIff(t: Table, us: seq<Update>, mtype: string, name: string)
    requires WellFormed(t) && GaugeRowsBare(t) && UpsertAll(t, us).Some?
    ensures var t1 := UpsertAll(t, us).value;
            TableLookup(t1, mtype, name) == Lookup(Apply(Abs(t), us), mtype, name) <==> ReadsAlike(t1, us, mtype, name)
  {
    hide UpsertAll, Apply, GaugesFor, WellFormed, GaugeRowsBare, Abs;
    if mtype == GAUGE_TYPE {
      GaugeReadsIff(t, us, name);
    } else if mtype == COUNTER_TYPE {
      CounterReadsIff(t, us, name);
    }
  }

  /** The database accepts every call, or refuses it for its arguments as the other store does. */
  predicate Accepted(t: Table, calls: seq<Call>)
    decreases calls
  {
    calls == [] || (PgCall(t, calls[0]).1 != Some(DbFailure) && Accepted(PgCall(t, calls[0]).0, calls[1..]))
  }

  lemma AcceptedCall(t: Table, c: Call)
    requires PgCall(t, c).1 != Some(DbFailure)
    ensures UpsertAll(t, CallUpdates(c)) == Some(PgCall(t, c).0)
  {}

  lemma MemCallIs(s: Store, c: Call)
    ensures MemCall(s, c).0 == Apply(s, CallUpdates(c))
  {}

  lemma {:induction false} UpsertAllConcat(t: Table, a: seq<Update>, b: seq<Update>)
    requires UpsertAll(t, a).Some?
    ensures UpsertAll(t, a + b) == UpsertAll(UpsertAll(t, a).value, b)
    decreases a
  {
    hide Upsert;
    if a == [] {
      assert a + b == b;
    } else {
      assert (a + b)[0] == a[0] && (a + b)[1..] == a[1..] + b;
      UpsertAllConcat(Upsert(t, a[0]).value, a[1..], b);
    }
  }

  /** An accepted run does to the table, and any run to the maps, what its updates do in a row. */
  lemma {:induction false} RunIsBatch(t: Table, s: Store, calls: seq<Call>)
    requires Accepted(t, calls)
    ensures UpsertAll(t, ProgramUpdates(calls)) == Some(PgRun(t, calls).0)
    ensures MemRun(s, calls).0 == Apply(s, ProgramUpdates(calls))
    decreases calls
  {
    hide UpsertAll, Apply, PgCall, MemCall, CallUpdates;
    if calls == [] {
      NothingDone(t, s);
    } else {
      var (us, rest) := (CallUpdates(calls[0]), ProgramUpdates(calls[1..]));
      AcceptedCall(t, calls[0]);
      MemCallIs(s, calls[0]);
      UpsertAllConcat(t, us, rest);
      ApplyConcat(s, us, rest);
      RunIsBatch(PgCall(t, calls[0]).0, MemCall(s, calls[0]).0, calls[1..]);
    }
  }

  lemma NothingDone(t: Table, s: Store)
    ensures UpsertAll(t, []) == Some(t) && Apply(s, []) == s
  {}

  /**
   * After any run of accepted writes GetMetric agrees if and only if nothing is stored under the name, its row has the
   * kind asked for, or it is a counter's row and a gauge was written to it.
   */
  lemma RunReadsIff(t: Table, calls: seq<Call>, mtype: string, name: string)
    requires WellFormed(t) && GaugeRowsBare(t) && Accepted(t, calls)
    ensures var (t1, s1) := (PgRun(t, calls).0, MemRun(Abs(t), calls).0);
            TableLookup(t1, mtype, name) == Lookup(s1, mtype, name)
            <==> ReadsAlike(t1, ProgramUpdates(calls), mtype, name)
  {
    hide WellFormed, GaugeRowsBare, Accepted, PgRun, MemRun, UpsertAll, Apply, ReadsAlike, Abs, ProgramUpdates,
      TableLookup, Lookup;
    RunIsBatch(t, Abs(t), calls);
    ReadsAlikeIff(t, ProgramUpdates(calls), mtype, name);
  }
}
