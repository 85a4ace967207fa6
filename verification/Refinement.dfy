/** The table against the two maps: exactly when PgDB and MemStorage cannot be told apart. */
module Refinement {
  import opened Wrappers
  import opened Int64
  import opened Models
  import opened Stores
  import opened Listing
  import opened Clients
  import opened Postgres

  predicate IsGauge(r: Row) { r.mtype == GAUGE_TYPE }

  predicate IsCounter(r: Row) { r.mtype == COUNTER_TYPE }

  /** What the statements keep: a row has at least the column of its own type. */
  predicate WellFormed(t: Table) {
    forall id :: id in t ==>
      (IsGauge(t[id]) && t[id].value.Some?) || (IsCounter(t[id]) && t[id].delta.Some?)
  }

  /** The two maps a table stands for. */
  function Abs(t: Table): Store
    requires WellFormed(t)
  {
    Store(
      map id | id in t && IsGauge(t[id]) :: t[id].value.value,
      map id | id in t && IsCounter(t[id]) :: t[id].delta.value)
  }

  /** The id fits, is not stored under the other type, and its counter does not overflow. */
  predicate Compatible(t: Table, u: Update) {
    && |u.id| <= ID_WIDTH
    && (u.id in t ==>
          && (if u.SetGauge? then IsGauge(t[u.id]) else IsCounter(t[u.id]))
          && (u.AddCounter? && t[u.id].delta.Some? ==> MIN <= u.d + t[u.id].delta.value <= MAX))
  }

  /** The table has the id under one type, the maps have it under the other. */
  ghost predicate Clash(t: Table, s: Store) {
    exists id :: ClashAt(t, s, id)
  }

  predicate ClashAt(t: Table, s: Store, id: string) {
    && id in t
    && if IsCounter(t[id]) then id in s.gauge else id in s.counter
  }

  lemma UpsertKeepsWellFormed(t: Table, u: Update)
    requires WellFormed(t)
    ensures Upsert(t, u).Some? ==> WellFormed(Upsert(t, u).value)
  {}

  lemma PutGaugeRow(t: Table, id: string, r: Row)
    requires WellFormed(t) && (id in t ==> IsGauge(t[id]) && !IsCounter(t[id]))
    requires IsGauge(r) && !IsCounter(r) && r.value.Some?
    ensures WellFormed(t[id := r])
    ensures Abs(t[id := r]) == Abs(t).(gauge := Abs(t).gauge[id := r.value.value])
  {
    hide IsGauge, IsCounter;
    assert Abs(t[id := r]).gauge == Abs(t).gauge[id := r.value.value];
    assert Abs(t[id := r]).counter == Abs(t).counter;
  }

  lemma PutCounterRow(t: Table, id: string, r: Row)
    requires WellFormed(t) && (id in t ==> IsCounter(t[id]) && !IsGauge(t[id]))
    requires IsCounter(r) && !IsGauge(r) && r.delta.Some?
    ensures WellFormed(t[id := r])
    ensures Abs(t[id := r]) == Abs(t).(counter := Abs(t).counter[id := r.delta.value])
  {
    hide IsGauge, IsCounter;
    assert Abs(t[id := r]).counter == Abs(t).counter[id := r.delta.value];
    assert Abs(t[id := r]).gauge == Abs(t).gauge;
  }

  lemma CounterReads(t: Table, id: string)
    requires WellFormed(t) && (id in t ==> IsCounter(t[id]))
    ensures id in t ==> t[id].delta.Some?
    ensures CounterAt(Abs(t), id) == if id in t then t[id].delta.value else 0
  {}

  /** A compatible update does to the table what it does to the maps. */
  lemma {:induction false} CompatibleStep(t: Table, u: Update)
    requires WellFormed(t) && Compatible(t, u)
    ensures Upsert(t, u).Some? && WellFormed(Upsert(t, u).value)
    ensures Abs(Upsert(t, u).value) == ApplyUpdate(Abs(t), u)
  {
    hide Abs, WellFormed;
    match u
    case SetGauge(id, g) =>
      PutGaugeRow(t, id, Upsert(t, u).value[id]);
    case AddCounter(id, d) =>
      CounterReads(t, id);
      PutCounterRow(t, id, Upsert(t, u).value[id]);
  }

  /** An incompatible one fails, or leaves the table and the maps disagreeing on a type. */
  lemma IncompatibleStep(t: Table, u: Update)
    requires WellFormed(t) && !Compatible(t, u)
    ensures Upsert(t, u).Some? ==> Clash(Upsert(t, u).value, ApplyUpdate(Abs(t), u))
  {
    if Upsert(t, u).Some? {
      assert ClashAt(Upsert(t, u).value, ApplyUpdate(Abs(t), u), u.id);
    }
  }

  /** Such a disagreement never heals. */
  lemma ClashStays(t: Table, s: Store, u: Update)
    requires Clash(t, s) && Upsert(t, u).Some?
    ensures Clash(Upsert(t, u).value, ApplyUpdate(s, u))
  {
    var id :| ClashAt(t, s, id);
    assert ClashAt(Upsert(t, u).value, ApplyUpdate(s, u), id);
  }

  lemma ClashDiffers(t: Table, s: Store)
    requires WellFormed(t) && Clash(t, s)
    ensures Abs(t) != s
  {
    var id :| ClashAt(t, s, id);
    assert id in Abs(t).counter <==> IsCounter(t[id]);
  }

  /** Every update meets a table it is compatible with. */
  predicate CompatibleAll(t: Table, us: seq<Update>)
    decreases us
  {
    us == [] || (Compatible(t, us[0]) && Upsert(t, us[0]).Some? && CompatibleAll(Upsert(t, us[0]).value, us[1..]))
  }

  lemma {:induction false} UpsertAllKeepsWellFormed(t: Table, us: seq<Update>)
    requires WellFormed(t)
    ensures UpsertAll(t, us).Some? ==> WellFormed(UpsertAll(t, us).value)
    decreases us
  {
    if us != [] {
      UpsertKeepsWellFormed(t, us[0]);
      if Upsert(t, us[0]).Some? {
        UpsertAllKeepsWellFormed(Upsert(t, us[0]).value, us[1..]);
      }
    }
  }

  lemma {:induction false} ClashStaysAll(t: Table, s: Store, us: seq<Update>)
    requires Clash(t, s)
    ensures UpsertAll(t, us).Some? ==> Clash(UpsertAll(t, us).value, Apply(s, us))
    decreases us
  {
    if us != [] && Upsert(t, us[0]).Some? {
      ClashStays(t, s, us[0]);
      ClashStaysAll(Upsert(t, us[0]).value, ApplyUpdate(s, us[0]), us[1..]);
    }
  }

  lemma {:induction false} CompatibleBatch(t: Table, us: seq<Update>)
    requires WellFormed(t)
    ensures if CompatibleAll(t, us)
            then UpsertAll(t, us).Some? && WellFormed(UpsertAll(t, us).value)
                 && Abs(UpsertAll(t, us).value) == Apply(Abs(t), us)
            else UpsertAll(t, us).Some? ==> Clash(UpsertAll(t, us).value, Apply(Abs(t), us))
    decreases us
  {
    hide Compatible, Abs, WellFormed, Upsert, ApplyUpdate, Clash;
    if us == [] {
    } else {
      var u := us[0];
      if Compatible(t, u) {
        CompatibleStep(t, u);
        CompatibleBatch(Upsert(t, u).value, us[1..]);
      } else {
        IncompatibleStep(t, u);
        if Upsert(t, u).Some? {
          ClashStaysAll(Upsert(t, u).value, ApplyUpdate(Abs(t), u), us[1..]);
        }
      }
    }
  }

  /** A transaction commits to the same contents as the maps if and only if each of its updates is compatible. */
  lemma BatchRefinesIff(t: Table, us: seq<Update>)
    requires WellFormed(t)
    ensures UpsertAll(t, us).Some? ==> WellFormed(UpsertAll(t, us).value)
    ensures (UpsertAll(t, us).Some? && Abs(UpsertAll(t, us).value) == Apply(Abs(t), us)) <==> CompatibleAll(t, us)
  {
    CompatibleBatch(t, us);
    UpsertAllKeepsWellFormed(t, us);
    if UpsertAll(t, us).Some? && !CompatibleAll(t, us) {
      ClashDiffers(UpsertAll(t, us).value, Apply(Abs(t), us));
    }
  }

  // Whole runs.

  /** The error a call returns, and what is stored after it. */
  function MemCall(s: Store, c: Call): (Store, Option<Error>) {
    var s1 := Apply(s, CallUpdates(c));
    match c
    case WriteCall(mtype, name, val) =>
      (match WriteUpdate(mtype, name, val) case Ok(_) => (s1, None) case Err(e) => (s, Some(e)))
    case BatchCall(_) => (s1, None)
  }

  function PgCall(t: Table, c: Call): (Table, Option<Error>) {
    if c.WriteCall? && WriteUpdate(c.mtype, c.name, c.val).Err? then
      (t, Some(WriteUpdate(c.mtype, c.name, c.val).error))
    else
      match UpsertAll(t, CallUpdates(c))
      case None => (t, Some(DbFailure))
      case Some(t1) => (t1, None)
  }

  function MemRun(s: Store, calls: seq<Call>): (Store, seq<Option<Error>>)
    decreases calls
  {
    if calls == [] then (s, [])
    else
      var (s1, e) := MemCall(s, calls[0]);
      var (s2, es) := MemRun(s1, calls[1..]);
      (s2, [e] + es)
  }

  function PgRun(t: Table, calls: seq<Call>): (Table, seq<Option<Error>>)
    decreases calls
  {
    if calls == [] then (t, [])
    else
      var (t1, e) := PgCall(t, calls[0]);
      var (t2, es) := PgRun(t1, calls[1..]);
      (t2, [e] + es)
  }

  predicate CompatibleRun(t: Table, calls: seq<Call>)
    decreases calls
  {
    calls == [] || (CompatibleAll(t, CallUpdates(calls[0])) && CompatibleRun(PgCall(t, calls[0]).0, calls[1..]))
  }

  lemma CallStep(t: Table, c: Call)
    requires WellFormed(t)
    ensures var (t1, e1) := PgCall(t, c);
            var (s1, e2) := MemCall(Abs(t), c);
            && WellFormed(t1)
            && if CompatibleAll(t, CallUpdates(c)) then e1 == e2 && Abs(t1) == s1
               else e1 != e2 || Clash(t1, s1)
  {
    hide CompatibleAll, Abs, WellFormed, UpsertAll, Clash, Apply;
    CompatibleBatch(t, CallUpdates(c));
    UpsertAllKeepsWellFormed(t, CallUpdates(c));
    if c.WriteCall? && WriteUpdate(c.mtype, c.name, c.val).Err? {
      NothingIsCompatible(t);
    }
  }

  lemma NothingIsCompatible(t: Table)
    ensures CompatibleAll(t, [])
  {}

  lemma ClashStaysInCall(t: Table, s: Store, c: Call)
    requires Clash(t, s)
    ensures var (t1, e1) := PgCall(t, c);
            var (s1, e2) := MemCall(s, c);
            e1 == e2 ==> Clash(t1, s1)
  {
    hide UpsertAll, Clash, Apply;
    ClashStaysAll(t, s, CallUpdates(c));
  }

  lemma {:induction false} ClashStaysInRun(t: Table, s: Store, calls: seq<Call>)
    requires Clash(t, s)
    ensures PgRun(t, calls).1 == MemRun(s, calls).1 ==> Clash(PgRun(t, calls).0, MemRun(s, calls).0)
    decreases calls
  {
    hide PgCall, MemCall, Clash;
    if calls != [] {
      var (t1, e1) := PgCall(t, calls[0]);
      var (s1, e2) := MemCall(s, calls[0]);
      ClashStaysInCall(t, s, calls[0]);
      assert PgRun(t, calls).1 == MemRun(s, calls).1 ==>
             e1 == e2 && PgRun(t1, calls[1..]).1 == MemRun(s1, calls[1..]).1 by {
        assert PgRun(t, calls).1[1..] == PgRun(t1, calls[1..]).1;
        assert MemRun(s, calls).1[1..] == MemRun(s1, calls[1..]).1;
      }
      if e1 == e2 {
        ClashStaysInRun(t1, s1, calls[1..]);
      }
    }
  }

  /**
   * PgDB behaves like MemStorage over a whole run, answers and final contents, if and only if the run is
   * compatible.
   */
  lemma {:induction false} RunRefinesIff(t: Table, calls: seq<Call>)
    requires WellFormed(t)
    ensures WellFormed(PgRun(t, calls).0)
    ensures (PgRun(t, calls).1 == MemRun(Abs(t), calls).1 && Abs(PgRun(t, calls).0) == MemRun(Abs(t), calls).0)
            <==> CompatibleRun(t, calls)
    decreases calls
  {
    hide PgCall, MemCall, Clash, WellFormed, Abs, CompatibleAll;
    if calls == [] {
    } else {
      var c := calls[0];
      var (t1, e1) := PgCall(t, c);
      var (s1, e2) := MemCall(Abs(t), c);
      CallStep(t, c);
      RunRefinesIff(t1, calls[1..]);
      assert PgRun(t, calls).1[1..] == PgRun(t1, calls[1..]).1;
      assert MemRun(Abs(t), calls).1[1..] == MemRun(s1, calls[1..]).1;
      assert PgRun(t, calls).1[0] == e1 && MemRun(Abs(t), calls).1[0] == e2;
      if !CompatibleAll(t, CallUpdates(c)) && e1 == e2 {
        ClashStaysInRun(t1, s1, calls[1..]);
        if PgRun(t1, calls[1..]).1 == MemRun(s1, calls[1..]).1 {
          ClashDiffers(PgRun(t1, calls[1..]).0, MemRun(s1, calls[1..]).0);
        }
      }
    }
  }

  // Reading.

  predicate UnderOtherType(t: Table, mtype: string, name: string) {
    (mtype == GAUGE_TYPE || mtype == COUNTER_TYPE) && name in t && t[name].mtype != mtype
  }

  /** A table reads like the maps it stands for, except exactly where the id is stored under the other type. */
  lemma LookupAgreesIff(t: Table, mtype: string, name: string)
    requires WellFormed(t)
    ensures TableLookup(t, mtype, name) == Lookup(Abs(t), mtype, name) <==> !UnderOtherType(t, mtype, name)
  {}

  lemma {:induction false} CounterRowsAreLines(t: Table, ids: seq<string>)
    requires WellFormed(t) && forall id :: id in ids ==> id in t && t[id].mtype == COUNTER_TYPE
    ensures CounterRows(ids, t) == Some(CounterLines(ids, Abs(t).counter))
  {
    if ids != [] {
      assert ids[0] in ids;
      CounterRowsAreLines(t, ids[1..]);
    }
  }

  lemma {:induction false} GaugeRowsAreLines(t: Table, ids: seq<string>, text: GaugeText)
    requires WellFormed(t) && forall id :: id in ids ==> id in t && t[id].mtype == GAUGE_TYPE
    ensures GaugeRows(ids, t, text) == Some(GaugeLines(ids, Abs(t).gauge, text))
  {
    if ids != [] {
      assert ids[0] in ids;
      GaugeRowsAreLines(t, ids[1..], text);
    }
  }

  /** A table is listed like the maps it stands for. */
  lemma ListingAgrees(t: Table, text: GaugeText)
    requires WellFormed(t)
    ensures TableListing(t, text) == Ok(ListingText(Abs(t), text))
  {
    assert IdsOf(t, COUNTER_TYPE) == Abs(t).counter.Keys;
    assert IdsOf(t, GAUGE_TYPE) == Abs(t).gauge.Keys;
    CounterRowsAreLines(t, SortedKeys(Abs(t).counter.Keys));
    GaugeRowsAreLines(t, SortedKeys(Abs(t).gauge.Keys), text);
  }

  /**
   * After any compatible run the two stores are listed alike, and a value reads alike exactly if its id is not stored
   * under the other type.
   */
  lemma RunReadsAlike(t: Table, calls: seq<Call>, text: GaugeText)
    requires WellFormed(t) && CompatibleRun(t, calls)
    ensures var (t1, s1) := (PgRun(t, calls).0, MemRun(Abs(t), calls).0);
            && TableListing(t1, text) == Ok(ListingText(s1, text))
            && forall mtype, name ::
                 TableLookup(t1, mtype, name) == Lookup(s1, mtype, name) <==> !UnderOtherType(t1, mtype, name)
  {
    hide PgRun, MemRun, CompatibleRun, WellFormed, Abs, TableLookup, Lookup, UnderOtherType, TableListing, ListingText;
    RunRefinesIff(t, calls);
    var t1 := PgRun(t, calls).0;
    ListingAgrees(t1, text);
    forall mtype, name
      ensures TableLookup(t1, mtype, name) == Lookup(Abs(t1), mtype, name) <==> !UnderOtherType(t1, mtype, name)
    {
      LookupAgreesIff(t1, mtype, name);
    }
  }

  /** A counter more makes another listing. */
  lemma ListedCounter(s: Store, id: string, d: int64, text: GaugeText)
    requires s.counter == map[]
    ensures ListingText(s, text) != ListingText(s.(counter := map[id := d]), text)
  {
    hide GaugeLines;
    var s1 := s.(counter := map[id := d]);
    var ks := SortedKeys(s1.counter.Keys);
    assert id in s1.counter.Keys && id in ks;
    assert SortedKeys(s.counter.Keys) == [];
    assert |CounterLines(ks, s1.counter)| >= |CounterLine(ks[0], s1.counter[ks[0]])| > 0;
    assert s1.gauge == s.gauge;
  }

  /** The calls that store a gauge and then a counter under one id. */
  function BothKinds(id: string, g: Gauge, d: int64): seq<Call> {
    [WriteCall(GAUGE_TYPE, id, GaugeValue(g)), WriteCall(COUNTER_TYPE, id, CounterValue(d))]
  }

  lemma TwoCalls(t: Table, s: Store, c1: Call, c2: Call)
    ensures var ((t1, e1), (s1, d1)) := (PgCall(t, c1), MemCall(s, c1));
            var ((t2, e2), (s2, d2)) := (PgCall(t1, c2), MemCall(s1, c2));
            PgRun(t, [c1, c2]) == (t2, [e1, e2]) && MemRun(s, [c1, c2]) == (s2, [d1, d2])
  {
    hide PgCall, MemCall;
    var ((t1, e1), (s1, d1)) := (PgCall(t, c1), MemCall(s, c1));
    var ((t2, e2), (s2, d2)) := (PgCall(t1, c2), MemCall(s1, c2));
    assert [c1, c2][1..] == [c2] && [c2][1..] == [];
    assert PgRun(t2, []) == (t2, []) && MemRun(s2, []) == (s2, []);
    assert [e2] + [] == [e2] && [d2] + [] == [d2];
    assert PgRun(t1, [c2]) == (t2, [e2]) && MemRun(s1, [c2]) == (s2, [d2]);
    assert [e1] + [e2] == [e1, e2] && [d1] + [d2] == [d1, d2];
  }

  lemma BothKindsLeave(id: string, g: Gauge, d: int64)
    requires |id| <= 64
    ensures PgRun(map[], BothKinds(id, g, d)) == (map[id := Row(GAUGE_TYPE, None, Some(g))], [None, None])
    ensures MemRun(EMPTY_STORE, BothKinds(id, g, d)) == (Store(map[id := g], map[id := d]), [None, None])
  {
    hide PgRun, MemRun;
    var (c1, c2) := (WriteCall(GAUGE_TYPE, id, GaugeValue(g)), WriteCall(COUNTER_TYPE, id, CounterValue(d)));
    var t1 := map[id := Row(GAUGE_TYPE, None, Some(g))];
    var s1 := EMPTY_STORE.(gauge := map[id := g]);
    OneWrite(map[], EMPTY_STORE, SetGauge(id, g));
    OneWrite(t1, s1, AddCounter(id, d));
    TwoCalls(map[], EMPTY_STORE, c1, c2);
    assert PgCall(map[], c1) == (t1, None) && PgCall(t1, c2) == (t1, None);
    assert MemCall(EMPTY_STORE, c1) == (s1, None);
  }

  /**
   * A counter after a gauge: both are reported as stored, but the database can neither read the counter nor list
   * it.
   */
  lemma SecondKindIsLost(id: string, g: Gauge, d: int64, text: GaugeText)
    requires |id| <= 64
    ensures var (pg, mem) := (PgRun(map[], BothKinds(id, g, d)), MemRun(EMPTY_STORE, BothKinds(id, g, d)));
            && pg.1 == [None, None] == mem.1
            && TableLookup(pg.0, COUNTER_TYPE, id) == Err(DbFailure)
            && Lookup(mem.0, COUNTER_TYPE, id) == Ok(CounterValue(d))
            && TableListing(pg.0, text) != Ok(ListingText(mem.0, text))
  {
    hide PgRun, MemRun, BothKinds, TableListing, ListingText;
    BothKindsLeave(id, g, d);
    var t1 := map[id := Row(GAUGE_TYPE, None, Some(g))];
    var s1 := EMPTY_STORE.(gauge := map[id := g]);
    assert Abs(t1) == s1;
    ListingAgrees(t1, text);
    ListedCounter(s1, id, d, text);
  }

  /** The same two calls, the counter first. */
  function CounterFirst(id: string, g: Gauge, d: int64): seq<Call> {
    [WriteCall(COUNTER_TYPE, id, CounterValue(d)), WriteCall(GAUGE_TYPE, id, GaugeValue(g))]
  }

  lemma CounterFirstLeaves(id: string, g: Gauge, d: int64)
    requires |id| <= 64
    ensures PgRun(map[], CounterFirst(id, g, d)) == (map[id := Row(COUNTER_TYPE, Some(d), Some(g))], [None, None])
    ensures MemRun(EMPTY_STORE, CounterFirst(id, g, d)) == (Store(map[id := g], map[id := d]), [None, None])
  {
    hide PgRun, MemRun;
    var (c1, c2) := (WriteCall(COUNTER_TYPE, id, CounterValue(d)), WriteCall(GAUGE_TYPE, id, GaugeValue(g)));
    var t1 := map[id := Row(COUNTER_TYPE, Some(d), None)];
    var s1 := EMPTY_STORE.(counter := map[id := d]);
    OneWrite(map[], EMPTY_STORE, AddCounter(id, d));
    OneWrite(t1, s1, SetGauge(id, g));
    TwoCalls(map[], EMPTY_STORE, c1, c2);
    assert PgCall(map[], c1) == (t1, None);
    assert t1[id := Row(COUNTER_TYPE, Some(d), Some(g))] == map[id := Row(COUNTER_TYPE, Some(d), Some(g))];
    assert PgCall(t1, c2) == (map[id := Row(COUNTER_TYPE, Some(d), Some(g))], None);
    assert MemCall(EMPTY_STORE, c1) == (s1, None);
  }

  /** A gauge more makes another listing. */
  lemma ListedGauge(s: Store, id: string, g: Gauge, text: GaugeText)
    requires s.gauge == map[]
    ensures ListingText(s, text) != ListingText(s.(gauge := map[id := g]), text)
  {
    hide CounterLines;
    var s1 := s.(gauge := map[id := g]);
    var ks := SortedKeys(s1.gauge.Keys);
    assert id in s1.gauge.Keys && id in ks;
    assert SortedKeys(s.gauge.Keys) == [];
    assert |GaugeLines(ks, s1.gauge, text)| >= |GaugeLine(ks[0], s1.gauge[ks[0]], text)| > 0;
    assert s1.counter == s.counter;
  }

  /** A gauge after a counter: both can be read from either store, but the database does not list the gauge. */
  lemma SecondKindIsUnlisted(id: string, g: Gauge, d: int64, text: GaugeText)
    requires |id| <= 64
    ensures var (pg, mem) := (PgRun(map[], CounterFirst(id, g, d)), MemRun(EMPTY_STORE, CounterFirst(id, g, d)));
            && pg.1 == [None, None] == mem.1
            && TableLookup(pg.0, COUNTER_TYPE, id) == Lookup(mem.0, COUNTER_TYPE, id) == Ok(CounterValue(d))
            && TableLookup(pg.0, GAUGE_TYPE, id) == Lookup(mem.0, GAUGE_TYPE, id) == Ok(GaugeValue(g))
            && TableListing(pg.0, text) != Ok(ListingText(mem.0, text))
  {
    hide PgRun, MemRun, CounterFirst, TableListing, ListingText;
    CounterFirstLeaves(id, g, d);
    var t2 := map[id := Row(COUNTER_TYPE, Some(d), Some(g))];
    var s1 := EMPTY_STORE.(counter := map[id := d]);
    assert Abs(t2) == s1;
    ListingAgrees(t2, text);
    ListedGauge(s1, id, g, text);
  }

  lemma OneWrite(t: Table, s: Store, u: Update)
    ensures UpsertAll(t, [u]) == Upsert(t, u) && Apply(s, [u]) == ApplyUpdate(s, u)
  {
    OneUpdate(t, u);
    assert [u][1..] == [];
  }
}
