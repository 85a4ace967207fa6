/**
 * Closed forms of a transaction on the table: when it goes through, what it leaves, and when repeating it is harmless.
 */
module TableLaws {
  import opened Wrappers
  import opened Int64
  import opened Models
  import opened Stores
  import opened Postgres

  /** The first update of the id, if there is one, adds to a counter. */
  predicate FirstIsCounter(us: seq<Update>, id: string) {
    us != [] && if us[0].id == id then us[0].AddCounter? else FirstIsCounter(us[1..], id)
  }

  predicate Touched(us: seq<Update>, id: string) {
    us != [] && (us[0].id == id || Touched(us[1..], id))
  }

  /** What the additions to an id start from; None where delta is NULL and swallows them. */
  function Base(t: Table, us: seq<Update>, id: string): Option<int64> {
    if id in t then t[id].delta else if FirstIsCounter(us, id) then Some(0) else None
  }

  /** Starting from v, every sum on the way fits into a bigint. */
  ghost predicate SumsFit(us: seq<Update>, id: string, v: int) {
    forall n :: 0 <= n < |us| && Adds(us[n], id) ==> MIN <= v + DeltaSum(us[..n + 1], id) <= MAX
  }

  lemma {:induction false} SumsFitStep(us: seq<Update>, id: string, v: int)
    requires us != []
    ensures var d := if Adds(us[0], id) then us[0].d else 0;
            SumsFit(us, id, v) <==> (Adds(us[0], id) ==> MIN <= v + d <= MAX) && SumsFit(us[1..], id, v + d)
  {
    var d := if Adds(us[0], id) then us[0].d else 0;
    assert us[..1] == [us[0]] && us[..1][1..] == [] && DeltaSum(us[..1], id) == d;
    forall n | 0 <= n < |us| - 1
      ensures us[1..][n] == us[n + 1] && DeltaSum(us[..n + 2], id) == d + DeltaSum(us[1..][..n + 1], id)
    {
      assert us[..n + 2][1..] == us[1..][..n + 1];
    }
    if SumsFit(us, id, v) {
      forall n | 0 <= n < |us[1..]| && Adds(us[1..][n], id)
        ensures MIN <= v + d + DeltaSum(us[1..][..n + 1], id) <= MAX
      {
        assert Adds(us[n + 1], id);
      }
    }
    if (Adds(us[0], id) ==> MIN <= v + d <= MAX) && SumsFit(us[1..], id, v + d) {
      forall n | 0 <= n < |us| && Adds(us[n], id)
        ensures MIN <= v + DeltaSum(us[..n + 1], id) <= MAX
      {
        if n > 0 {
          assert Adds(us[1..][n - 1], id);
        }
      }
    }
  }

  predicate IdsFit(us: seq<Update>) {
    forall i :: 0 <= i < |us| ==> |us[i].id| <= 64
  }

  ghost predicate CountersFit(t: Table, us: seq<Update>) {
    forall id :: Base(t, us, id).Some? ==> SumsFit(us, id, Base(t, us, id).value)
  }

  /** How the first update moves what the additions start from. */
  lemma BaseStep(t: Table, us: seq<Update>, id: string)
    requires us != [] && Upsert(t, us[0]).Some?
    ensures var (v, t1) := (Base(t, us, id), Upsert(t, us[0]).value);
            Base(t1, us[1..], id) == if Adds(us[0], id) && v.Some? then Some(v.value + us[0].d) else v
  {}

  lemma CountersFitStep(t: Table, us: seq<Update>)
    requires us != [] && Upsert(t, us[0]).Some?
    ensures CountersFit(t, us) <==> CountersFit(Upsert(t, us[0]).value, us[1..])
  {
    hide SumsFit, Base;
    var t1 := Upsert(t, us[0]).value;
    forall id
      ensures (Base(t, us, id).Some? ==> SumsFit(us, id, Base(t, us, id).value))
              <==> (Base(t1, us[1..], id).Some? ==> SumsFit(us[1..], id, Base(t1, us[1..], id).value))
    {
      BaseStep(t, us, id);
      if Base(t, us, id).Some? {
        SumsFitStep(us, id, Base(t, us, id).value);
        if Adds(us[0], id) {
          FirstFits(t, us);
        }
      }
    }
  }

  /** An update that goes through leaves a sum that fits. */
  lemma FirstFits(t: Table, us: seq<Update>)
    requires us != [] && Upsert(t, us[0]).Some? && us[0].AddCounter?
    ensures Base(t, us, us[0].id).Some? ==> MIN <= Base(t, us, us[0].id).value + us[0].d <= MAX
  {}

  /** The first update alone fails exactly for an id too long or a sum that does not fit. */
  lemma FirstUpdateIff(t: Table, us: seq<Update>)
    requires us != []
    ensures Upsert(t, us[0]).Some? <==>
            && |us[0].id| <= 64
            && (us[0].AddCounter? && Base(t, us, us[0].id).Some? ==>
                  MIN <= Base(t, us, us[0].id).value + us[0].d <= MAX)
  {}

  /** A transaction goes through if and only if every id fits and so does every sum on the way, wherever it starts. */
  lemma {:induction false} GoesThroughIff(t: Table, us: seq<Update>)
    ensures UpsertAll(t, us).Some? <==> IdsFit(us) && CountersFit(t, us)
    decreases us
  {
    hide Upsert, SumsFit, Base, CountersFit;
    if us == [] {
      NothingToFit(t);
    } else {
      FirstUpdateIff(t, us);
      assert IdsFit(us) <==> |us[0].id| <= 64 && IdsFit(us[1..]) by {
        assert forall i :: 1 <= i < |us| ==> us[i] == us[1..][i - 1];
      }
      if Upsert(t, us[0]).Some? {
        CountersFitStep(t, us);
        GoesThroughIff(Upsert(t, us[0]).value, us[1..]);
      } else if |us[0].id| <= 64 {
        FirstDoesNotFit(t, us);
      }
    }
  }

  lemma NothingToFit(t: Table)
    ensures CountersFit(t, [])
  {}

  lemma FirstDoesNotFit(t: Table, us: seq<Update>)
    requires us != [] && us[0].AddCounter? && Base(t, us, us[0].id).Some?
    requires !(MIN <= Base(t, us, us[0].id).value + us[0].d <= MAX)
    ensures !CountersFit(t, us)
  {
    hide Base, SumsFit;
    SumsFitStep(us, us[0].id, Base(t, us, us[0].id).value);
  }

  /** The row a transaction leaves at an id, in terms of the table before it. */
  ghost predicate IsRowAfter(t: Table, us: seq<Update>, id: string, row: Row) {
    var gs := GaugesFor(us, id);
    && row.mtype == (if id in t then t[id].mtype else if FirstIsCounter(us, id) then COUNTER_TYPE else GAUGE_TYPE)
    && (match Base(t, us, id)
        case None => row.delta == None
        case Some(v) => row.delta.Some? && row.delta.value == v + DeltaSum(us, id))
    && row.value == if gs != [] then Some(gs[|gs| - 1]) else if id in t then t[id].value else None
  }

  /** What one update leaves at an id. */
  lemma RowStep(t: Table, us: seq<Update>, id: string)
    requires us != [] && Upsert(t, us[0]).Some?
    ensures var (u, t1) := (us[0], Upsert(t, us[0]).value);
            && (id in t1 <==> id in t || u.id == id)
            && (id in t1 ==>
                  && t1[id].mtype ==
                     (if id in t then t[id].mtype else if FirstIsCounter(us, id) then COUNTER_TYPE else GAUGE_TYPE)
                  && t1[id].value ==
                     if u.SetGauge? && u.id == id then Some(u.g)
                     else if id in t then t[id].value else None)
  {}

  lemma {:induction false} RowAfter(t: Table, us: seq<Update>, id: string)
    requires UpsertAll(t, us).Some?
    ensures var t1 := UpsertAll(t, us).value;
            (id in t1 <==> id in t || Touched(us, id)) && (id in t1 ==> IsRowAfter(t, us, id, t1[id]))
    decreases us
  {
    hide Upsert, IsRowAfter;
    if us == [] {
      if id in t {
        RowOfNothing(t, id);
      }
    } else {
      RowStep(t, us, id);
      RowAfter(Upsert(t, us[0]).value, us[1..], id);
      if id in UpsertAll(t, us).value {
        RowBefore(t, us, id, UpsertAll(t, us).value[id]);
      }
    }
  }

  /** A row in terms of the table after the first update is one in terms of the table before it. */
  lemma RowBefore(t: Table, us: seq<Update>, id: string, row: Row)
    requires us != [] && Upsert(t, us[0]).Some? && IsRowAfter(Upsert(t, us[0]).value, us[1..], id, row)
    ensures IsRowAfter(t, us, id, row)
  {
    hide Upsert, Base;
    BaseStep(t, us, id);
    RowStep(t, us, id);
  }

  lemma RowOfNothing(t: Table, id: string)
    requires id in t
    ensures IsRowAfter(t, [], id, t[id])
  {}

  /** The transaction leaves every sum it moves where it was. */
  ghost predicate SumsCancel(t: Table, us: seq<Update>) {
    forall id :: id in t && t[id].delta.Some? ==> DeltaSum(us, id) == 0
  }

  lemma {:induction false} UntouchedAddsNothing(us: seq<Update>, id: string)
    requires !Touched(us, id)
    ensures DeltaSum(us, id) == 0 && !FirstIsCounter(us, id)
  {
    if us != [] {
      UntouchedAddsNothing(us[1..], id);
    }
  }

  /** After a transaction whose sums cancel, the additions start where they started before it. */
  lemma BaseAgain(t: Table, us: seq<Update>, id: string)
    requires UpsertAll(t, us).Some? && SumsCancel(UpsertAll(t, us).value, us)
    ensures Base(UpsertAll(t, us).value, us, id) == Base(t, us, id)
  {
    hide UpsertAll;
    RowAfter(t, us, id);
    if id !in UpsertAll(t, us).value {
      UntouchedAddsNothing(us, id);
    }
  }

  /**
   * A committed batch stored once more changes nothing if and only if the deltas of every counter it holds cancel.
   */
  lemma RepeatOnTableIff(t: Table, us: seq<Update>)
    requires UpsertAll(t, us).Some?
    ensures var t1 := UpsertAll(t, us).value;
            UpsertAll(t1, us) == Some(t1) <==> SumsCancel(t1, us)
  {
    hide UpsertAll, Base, SumsFit, FirstIsCounter, Touched, GaugesFor;
    var t1 := UpsertAll(t, us).value;
    GoesThroughIff(t, us);
    GoesThroughIff(t1, us);
    if SumsCancel(t1, us) {
      forall id ensures Base(t1, us, id) == Base(t, us, id) {
        BaseAgain(t, us, id);
      }
      var t2 := UpsertAll(t1, us).value;
      forall id
        ensures id in t1 <==> id in t2
        ensures id in t1 ==> t2[id] == t1[id]
      {
        SameRowAgain(t, us, id);
      }
      assert t1 == t2;
    }
    if UpsertAll(t1, us) == Some(t1) {
      forall id | id in t1 && t1[id].delta.Some? ensures DeltaSum(us, id) == 0 {
        RowAfter(t1, us, id);
        BaseInTable(t1, us, id);
      }
    }
  }

  lemma BaseInTable(t: Table, us: seq<Update>, id: string)
    requires id in t
    ensures Base(t, us, id) == t[id].delta
  {}

  lemma SameRowAgain(t: Table, us: seq<Update>, id: string)
    requires UpsertAll(t, us).Some? && SumsCancel(UpsertAll(t, us).value, us)
    requires UpsertAll(UpsertAll(t, us).value, us).Some?
    ensures var (t1, t2) := (UpsertAll(t, us).value, UpsertAll(UpsertAll(t, us).value, us).value);
            (id in t1 <==> id in t2) && (id in t1 ==> t2[id] == t1[id])
  {
    hide UpsertAll, FirstIsCounter, Touched, GaugesFor;
    var t1 := UpsertAll(t, us).value;
    RowAfter(t, us, id);
    RowAfter(t1, us, id);
  }
}
