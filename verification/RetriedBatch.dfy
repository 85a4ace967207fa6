/** Writes and reads of the database under the retrier: how often a batch is applied, and when a call succeeds. */
module RetriedBatch {
  import opened Wrappers
  import opened Int64
  import opened Models
  import opened Stores
  import opened Postgres
  import opened TableLaws
  import opened Retrier

  /** What the outside does to a retried call: engine failures and cancellation, attempt by attempt. */
  datatype World = World(fault: nat -> Fault, doneBefore: nat -> bool, doneAfter: nat -> bool)

  /** The table when the first n attempts have been made. */
  function TableAt(t: Table, us: seq<Update>, w: World, n: nat): Table {
    if n == 0 then t else Attempt(TableAt(t, us, w, n - 1), us, w.fault(n - 1)).0
  }

  /** Attempt i is reported as a success. */
  predicate Succeeds(t: Table, us: seq<Update>, w: World, i: nat) {
    Attempt(TableAt(t, us, w, i), us, w.fault(i)).1
  }

  /** The rounds retry.Do sees when it starts at table t. */
  function Rounds(t: Table, us: seq<Update>, w: World): nat -> Round {
    (i: nat) => Round(
      w.doneBefore(i),
      if Succeeds(t, us, w, i) then None else Some(Bare(DbFailure)),
      w.doneAfter(i))
  }

  lemma DbFailureIsRetried()
    ensures !Skipped(Bare(DbFailure))
  {
    SkippedIff(Bare(DbFailure));
  }

  /** The attempts retry.Do decides to make, each on the table the one before it left. */
  method UseRetrierWMB(db: PgDB, metrics: seq<Metric>, max: nat, base: int64, w: World)
    returns (outcome: Outcome, attempts: nat)
    modifies db
    ensures var (t, us) := (old(db.table), BatchUpdates(metrics));
            var d := Do(NewBackoff(max, base), Rounds(t, us, w), 0);
            outcome == d.outcome && attempts == d.attempts && db.table == TableAt(t, us, w, attempts)
  {
    hide Skipped, Wrap, Attempt;
    DbFailureIsRetried();
    var bf := NewBackoff(max, base);
    attempts := 0;
    ghost var (t, us) := (db.table, BatchUpdates(metrics));
    ghost var env := Rounds(t, us, w);
    while true
      invariant db.table == TableAt(t, us, w, attempts)
      invariant var (all, rest) := (Do(NewBackoff(max, base), env, 0), Do(bf, env, attempts));
                all.outcome == rest.outcome && all.attempts == attempts + rest.attempts
      decreases bf.max - bf.attempt
    {
      if w.doneBefore(attempts) {
        return Cancelled, attempts;
      }
      var err := db.WriteBatchMetrics(metrics, w.fault(attempts));
      attempts := attempts + 1;
      if err == None {
        return Success, attempts;
      }
      var (b1, wait) := Next(bf);
      if wait == None {
        return Failed(Bare(DbFailure)), attempts;
      }
      bf := b1;
      if w.doneAfter(attempts - 1) {
        return Cancelled, attempts;
      }
    }
  }

  /** A single write; one the store refuses outright ends at the first attempt. */
  method UseRetrierWM(db: PgDB, mtype: string, name: string, val: Value, max: nat, base: int64, w: World)
    returns (outcome: Outcome, attempts: nat)
    modifies db
    ensures match WriteUpdate(mtype, name, val)
            case Ok(u) =>
              var d := Do(NewBackoff(max, base), Rounds(old(db.table), [u], w), 0);
              && outcome == d.outcome && attempts == d.attempts
              && db.table == TableAt(old(db.table), [u], w, attempts)
            case Err(e) =>
              && db.table == old(db.table)
              && (outcome, attempts) == if w.doneBefore(0) then (Cancelled, 0) else (Failed(Bare(e)), 1)
  {
    hide Wrap, Attempt, Skipped, UpsertAll, Upsert, Do;
    DbFailureIsRetried();
    var bf := NewBackoff(max, base);
    attempts := 0;
    ghost var t := db.table;
    ghost var u := WriteUpdate(mtype, name, val);
    ghost var us := if u.Ok? then [u.value] else [];
    ghost var env := Rounds(t, us, w);
    while true
      invariant u.Err? ==> attempts == 0
      invariant db.table == TableAt(t, us, w, attempts)
      invariant var (all, rest) := (Do(NewBackoff(max, base), env, 0), Do(bf, env, attempts));
                all.outcome == rest.outcome && all.attempts == attempts + rest.attempts
      decreases bf.max - bf.attempt
    {
      DoRound(bf, env, attempts);
      if w.doneBefore(attempts) {
        return Cancelled, attempts;
      }
      var err := db.WriteMetric(mtype, name, val, w.fault(attempts));
      attempts := attempts + 1;
      if err == None {
        return Success, attempts;
      }
      SkippedIff(Bare(err.value));
      if Skipped(Bare(err.value)) {
        return Failed(Bare(err.value)), attempts;
      }
      var (b1, wait) := Next(bf);
      if wait == None {
        return Failed(Bare(DbFailure)), attempts;
      }
      bf := b1;
      if w.doneAfter(attempts - 1) {
        return Cancelled, attempts;
      }
    }
  }

  /** The rounds of a retried read. */
  function ReadRounds(t: Table, mtype: string, name: string, w: World): nat -> Round {
    (i: nat) => Round(
      w.doneBefore(i),
      match ReadOnce(t, mtype, name, w.fault(i).Broken?) case Ok(_) => None case Err(e) => Some(Bare(e)),
      w.doneAfter(i))
  }

  /** A retried read; a successful one has the value in the table. */
  method UseRetrierGetMetric(db: PgDB, mtype: string, name: string, max: nat, base: int64, w: World)
    returns (outcome: Outcome, value: Value)
    ensures outcome == Do(NewBackoff(max, base), ReadRounds(db.table, mtype, name, w), 0).outcome
    ensures outcome == Success ==> TableLookup(db.table, mtype, name) == Ok(value)
  {
    hide Wrap, Is, TableLookup;
    value := OtherValue;
    var bf := NewBackoff(max, base);
    var attempts := 0;
    ghost var env := ReadRounds(db.table, mtype, name, w);
    while true
      invariant Do(NewBackoff(max, base), env, 0).outcome == Do(bf, env, attempts).outcome
      decreases bf.max - bf.attempt
    {
      if w.doneBefore(attempts) {
        return Cancelled, value;
      }
      var r := db.GetMetric(mtype, name, w.fault(attempts).Broken?);
      attempts := attempts + 1;
      if r.Ok? {
        return Success, r.value;
      }
      if Skipped(Bare(r.error)) {
        return Failed(Bare(r.error)), value;
      }
      var (b1, wait) := Next(bf);
      if wait == None {
        return Failed(Bare(r.error)), value;
      }
      bf := b1;
      if w.doneAfter(attempts - 1) {
        return Cancelled, value;
      }
    }
  }

  // How often the batch is applied.

  /** The batch applied j times in a row, as far as it goes through. */
  function Times(t: Table, us: seq<Update>, j: nat): Table {
    if j == 0 then t
    else
      var t1 := Times(t, us, j - 1);
      match UpsertAll(t1, us) case None => t1 case Some(t2) => t2
  }

  /** Attempt i commits. */
  predicate Commits(t: Table, us: seq<Update>, w: World, i: nat) {
    TakesEffect(TableAt(t, us, w, i), us, w.fault(i))
  }

  /** How many of the first n attempts commit. */
  function Committed(t: Table, us: seq<Update>, w: World, n: nat): nat {
    if n == 0 then 0 else Committed(t, us, w, n - 1) + if Commits(t, us, w, n - 1) then 1 else 0
  }

  /** How many of the first n attempts commit and are reported as failed. */
  function Unseen(t: Table, us: seq<Update>, w: World, n: nat): nat {
    if n == 0 then 0
    else Unseen(t, us, w, n - 1) + if Commits(t, us, w, n - 1) && w.fault(n - 1) == CommitUnseen then 1 else 0
  }

  lemma {:induction false} TableIsTimes(t: Table, us: seq<Update>, w: World, n: nat)
    ensures TableAt(t, us, w, n) == Times(t, us, Committed(t, us, w, n))
  {
    hide UpsertAll;
    if n > 0 {
      TableIsTimes(t, us, w, n - 1);
    }
  }

  lemma {:induction false} FailuresCommitUnseen(t: Table, us: seq<Update>, w: World, n: nat)
    requires forall j: nat :: j < n ==> !Succeeds(t, us, w, j)
    ensures Committed(t, us, w, n) == Unseen(t, us, w, n)
  {
    hide UpsertAll, TableAt;
    if n > 0 {
      assert !Succeeds(t, us, w, n - 1);
      FailuresCommitUnseen(t, us, w, n - 1);
    }
  }

  /**
   * A retried batch makes at most max + 1 attempts and is applied once if it succeeds, not at all otherwise, and once
   * more for every commit whose success the engine could not report.
   */
  lemma AppliedExactly(t: Table, us: seq<Update>, w: World, max: nat, base: int64)
    ensures var d := Do(NewBackoff(max, base), Rounds(t, us, w), 0);
            var unseen := Unseen(t, us, w, d.attempts);
            && d.attempts <= max + 1
            && TableAt(t, us, w, d.attempts) == Times(t, us, unseen + if d.outcome == Success then 1 else 0)
  {
    hide Do, Attempt, TableAt, Times, Skipped;
    var env := Rounds(t, us, w);
    var d := Do(NewBackoff(max, base), env, 0);
    var last := OutcomeMeaning(NewBackoff(max, base), env, 0);
    CallSpends(NewBackoff(max, base), env, 0);
    TableIsTimes(t, us, w, d.attempts);
    if d.attempts > 0 {
      forall j: nat | j < last ensures !Succeeds(t, us, w, j) {
        assert Retryable(env(j));
      }
      FailuresCommitUnseen(t, us, w, last);
      LastAttempt(t, us, w, last);
    }
  }

  lemma LastAttempt(t: Table, us: seq<Update>, w: World, i: nat)
    ensures Commits(t, us, w, i)
            <==> Succeeds(t, us, w, i) || (Commits(t, us, w, i) && w.fault(i) == CommitUnseen)
    ensures Succeeds(t, us, w, i) ==> w.fault(i) != CommitUnseen
  {
    hide UpsertAll;
  }

  lemma {:induction false} NoneUnseen(t: Table, us: seq<Update>, w: World, n: nat)
    requires forall i: nat :: i < n ==> w.fault(i) != CommitUnseen
    ensures Unseen(t, us, w, n) == 0
  {
    if n > 0 {
      NoneUnseen(t, us, w, n - 1);
    }
  }

  /** Where every failed attempt leaves the table alone, success means exactly once and anything else not at all. */
  lemma AllOrNothing(t: Table, us: seq<Update>, w: World, max: nat, base: int64)
    requires forall i: nat :: w.fault(i) != CommitUnseen
    ensures var d := Do(NewBackoff(max, base), Rounds(t, us, w), 0);
            if d.outcome == Success then Some(TableAt(t, us, w, d.attempts)) == UpsertAll(t, us)
            else TableAt(t, us, w, d.attempts) == t
  {
    hide Do, UpsertAll, Skipped, Rounds;
    var d := Do(NewBackoff(max, base), Rounds(t, us, w), 0);
    AppliedExactly(t, us, w, max, base);
    NoneUnseen(t, us, w, d.attempts);
    if d.outcome == Success {
      SuccessGoesThrough(t, us, w, max, base);
      assert Times(t, us, 1) == UpsertAll(Times(t, us, 0), us).value;
    }
  }

  /** A batch the engine refuses changes nothing, however often it is tried. */
  lemma {:induction false} RefusedChangesNothing(t: Table, us: seq<Update>, w: World, n: nat)
    requires UpsertAll(t, us).None?
    ensures TableAt(t, us, w, n) == t && !Succeeds(t, us, w, n)
  {
    hide UpsertAll;
    if n > 0 {
      RefusedChangesNothing(t, us, w, n - 1);
    }
  }

  lemma SuccessGoesThrough(t: Table, us: seq<Update>, w: World, max: nat, base: int64)
    requires Do(NewBackoff(max, base), Rounds(t, us, w), 0).outcome == Success
    ensures UpsertAll(t, us).Some?
  {
    hide Do, UpsertAll, Skipped;
    var last := OutcomeMeaning(NewBackoff(max, base), Rounds(t, us, w), 0);
    if UpsertAll(t, us).None? {
      RefusedChangesNothing(t, us, w, last);
    }
  }

  // When it succeeds.

  predicate GoodAttempt(t: Table, us: seq<Update>, w: World, k: nat) {
    !w.doneBefore(k) && Succeeds(t, us, w, k)
  }

  predicate NotCancelledAt(w: World, j: nat) {
    !w.doneBefore(j) && !w.doneAfter(j)
  }

  /** From attempt i, within some retries and before any cancellation, an attempt succeeds. */
  ghost predicate Reaches(t: Table, us: seq<Update>, w: World, i: nat, retries: nat) {
    exists k: nat :: ReachesAt(t, us, w, i, k, retries)
  }

  ghost predicate ReachesAt(t: Table, us: seq<Update>, w: World, i: nat, k: nat, retries: nat) {
    && i <= k <= i + retries && GoodAttempt(t, us, w, k)
    && forall j: nat :: i <= j < k ==> NotCancelledAt(w, j)
  }

  lemma ReachesNext(t: Table, us: seq<Update>, w: World, i: nat, retries: nat)
    requires !GoodAttempt(t, us, w, i)
    ensures Reaches(t, us, w, i, retries)
            <==> NotCancelledAt(w, i) && retries > 0 && Reaches(t, us, w, i + 1, retries - 1)
  {
    hide GoodAttempt, NotCancelledAt;
    if Reaches(t, us, w, i, retries) {
      var k: nat :| ReachesAt(t, us, w, i, k, retries);
      assert NotCancelledAt(w, i);
      assert ReachesAt(t, us, w, i + 1, k, retries - 1);
    }
    if NotCancelledAt(w, i) && retries > 0 && Reaches(t, us, w, i + 1, retries - 1) {
      var k: nat :| ReachesAt(t, us, w, i + 1, k, retries - 1);
      assert ReachesAt(t, us, w, i, k, retries);
    }
  }

  lemma ReachesNow(t: Table, us: seq<Update>, w: World, i: nat, retries: nat)
    requires GoodAttempt(t, us, w, i)
    ensures Reaches(t, us, w, i, retries)
  {
    assert ReachesAt(t, us, w, i, i, retries);
  }

  /** A retried batch succeeds if and only if one of its max + 1 attempts does, before any cancellation. */
  lemma {:induction false} SucceedsIff(b: Backoff, t: Table, us: seq<Update>, w: World, i: nat)
    requires b.attempt <= b.max
    ensures Do(b, Rounds(t, us, w), i).outcome == Success <==> Reaches(t, us, w, i, b.max - b.attempt)
    decreases b.max - b.attempt
  {
    hide Wrap, Succeeds, Reaches, Skipped;
    DbFailureIsRetried();
    if GoodAttempt(t, us, w, i) {
      assert Reaches(t, us, w, i, b.max - b.attempt) by { ReachesNow(t, us, w, i, b.max - b.attempt); }
    } else {
      ReachesNext(t, us, w, i, b.max - b.attempt);
      if NotCancelledAt(w, i) && b.attempt < b.max {
        SucceedsIff(Next(b).0, t, us, w, i + 1);
      }
    }
  }

  /** The connection breaks before the transaction of n updates is committed. */
  predicate Breaks(fault: Fault, n: nat) {
    fault.Broken? && fault.at <= n + 1
  }

  /** Attempt k comes through, and nothing is cancelled up to it. */
  predicate ComesThrough(w: World, n: nat, k: nat) {
    !w.doneBefore(k) && !Breaks(w.fault(k), n) && forall j: nat :: j < k ==> NotCancelledAt(w, j)
  }

  lemma {:induction false} BrokenChangesNothing(t: Table, us: seq<Update>, w: World, n: nat)
    requires forall j: nat :: j < n ==> Breaks(w.fault(j), |us|)
    ensures TableAt(t, us, w, n) == t
  {
    hide UpsertAll;
    if n > 0 {
      BrokenChangesNothing(t, us, w, n - 1);
    }
  }

  lemma {:induction false} FirstThrough(w: World, n: nat, k: nat) returns (f: nat)
    requires ComesThrough(w, n, k)
    ensures f <= k && ComesThrough(w, n, f) && forall j: nat :: j < f ==> Breaks(w.fault(j), n)
  {
    if j: nat :| j < k && !Breaks(w.fault(j), n) {
      assert NotCancelledAt(w, j);
      f := FirstThrough(w, n, j);
    } else {
      f := k;
    }
  }

  /**
   * Without unseen commits a batch is stored if and only if its ids and sums fit and one of the max + 1 attempts comes
   * through before any cancellation.
   */
  lemma StoredIff(t: Table, us: seq<Update>, w: World, max: nat, base: int64)
    requires forall i: nat :: w.fault(i) != CommitUnseen
    ensures Do(NewBackoff(max, base), Rounds(t, us, w), 0).outcome == Success
            <==> IdsFit(us) && CountersFit(t, us) && exists k: nat :: k <= max && ComesThrough(w, |us|, k)
  {
    hide Do, UpsertAll, Rounds, IdsFit, CountersFit, TableAt;
    GoesThroughIff(t, us);
    SucceedsIff(NewBackoff(max, base), t, us, w, 0);
    if Do(NewBackoff(max, base), Rounds(t, us, w), 0).outcome == Success {
      SuccessGoesThrough(t, us, w, max, base);
      var k: nat :| ReachesAt(t, us, w, 0, k, max);
      assert ComesThrough(w, |us|, k);
    }
    if UpsertAll(t, us).Some? && exists k: nat :: k <= max && ComesThrough(w, |us|, k) {
      var k: nat :| k <= max && ComesThrough(w, |us|, k);
      var f := FirstThrough(w, |us|, k);
      BrokenChangesNothing(t, us, w, f);
      assert ReachesAt(t, us, w, 0, f, max);
    }
  }

  /** Nothing goes wrong. */
  function Calm(): World {
    World((_: nat) => NoFault, (_: nat) => false, (_: nat) => false)
  }

  /**
   * A batch can be stored at all, in one world or another, if and only if its ids fit and so does every sum on the way.
   */
  lemma CanSucceedIff(t: Table, us: seq<Update>, max: nat, base: int64)
    ensures (exists w :: Do(NewBackoff(max, base), Rounds(t, us, w), 0).outcome == Success)
            <==> IdsFit(us) && CountersFit(t, us)
  {
    hide Do, UpsertAll, Rounds, IdsFit, CountersFit;
    GoesThroughIff(t, us);
    if w :| Do(NewBackoff(max, base), Rounds(t, us, w), 0).outcome == Success {
      SuccessGoesThrough(t, us, w, max, base);
    }
    if UpsertAll(t, us).Some? {
      SucceedsIff(NewBackoff(max, base), t, us, Calm(), 0);
      ReachesNow(t, us, Calm(), 0, max);
    }
  }

  // A failed attempt that did take effect, retried.

  predicate OnlyGauges(us: seq<Update>) {
    forall i :: 0 <= i < |us| ==> us[i].SetGauge?
  }

  /** Gauge writes are idempotent on the table too: a second round succeeds and changes nothing. */
  lemma GaugesIdempotent(t: Table, us: seq<Update>)
    requires OnlyGauges(us) && UpsertAll(t, us).Some?
    ensures UpsertAll(UpsertAll(t, us).value, us) == UpsertAll(t, us)
  {
    hide UpsertAll;
    forall id ensures DeltaSum(us, id) == 0 {
      NoCountNoSum(us, id);
    }
    RepeatOnTableIff(t, us);
  }

  /** Where repeating changes nothing, any number of times is as good as once. */
  lemma {:induction false} TimesIsOnce(t: Table, us: seq<Update>, j: nat)
    requires UpsertAll(t, us).Some? && SumsCancel(UpsertAll(t, us).value, us) && j > 0
    ensures Some(Times(t, us, j)) == UpsertAll(t, us)
  {
    hide UpsertAll, SumsCancel;
    if j == 1 {
      assert Times(t, us, 0) == t;
    } else {
      TimesIsOnce(t, us, j - 1);
      RepeatOnTableIff(t, us);
    }
  }

  /** A retried batch whose deltas cancel, gauges in particular, is exact however many commits went unseen. */
  lemma UnseenDoNoHarm(t: Table, us: seq<Update>, w: World, max: nat, base: int64)
    requires UpsertAll(t, us).Some? && SumsCancel(UpsertAll(t, us).value, us)
    ensures var d := Do(NewBackoff(max, base), Rounds(t, us, w), 0);
            d.outcome == Success ==> Some(TableAt(t, us, w, d.attempts)) == UpsertAll(t, us)
  {
    hide Do, UpsertAll, Rounds, SumsCancel, TableAt;
    var d := Do(NewBackoff(max, base), Rounds(t, us, w), 0);
    AppliedExactly(t, us, w, max, base);
    if d.outcome == Success {
      TimesIsOnce(t, us, Unseen(t, us, w, d.attempts) + 1);
    }
  }

  // Reads.

  /** Attempt k reaches the table, and none before it was cancelled or reached it. */
  ghost predicate ReadsAt(w: World, k: nat, max: nat) {
    && k <= max && !w.doneBefore(k) && !w.fault(k).Broken?
    && forall j: nat :: j < k ==> !w.doneBefore(j) && w.fault(j).Broken? && !w.doneAfter(j)
  }

  /** The first attempt that reaches the table decides, a NULL column apart. */
  lemma ReadEnds(t: Table, mtype: string, name: string, max: nat, base: int64, w: World, k: nat)
    requires mtype == "gauge" || mtype == "counter"
    requires ReadsAt(w, k, max) && TableLookup(t, mtype, name) != Err(DbFailure)
    ensures Do(NewBackoff(max, base), ReadRounds(t, mtype, name, w), 0).outcome ==
            match TableLookup(t, mtype, name) case Ok(_) => Success case Err(e) => Failed(Bare(e))
  {
    hide Do, Skipped, TableLookup;
    DbFailureIsRetried();
    SkippedIff(Bare(NoVal));
    var (b, env) := (NewBackoff(max, base), ReadRounds(t, mtype, name, w));
    LookupErrors(t, mtype, name);
    assert EndsAt(b, env, 0, k);
    OutcomeAt(b, env, 0, k);
  }

  lemma LookupErrors(t: Table, mtype: string, name: string)
    requires mtype == "gauge" || mtype == "counter"
    ensures TableLookup(t, mtype, name).Err? ==>
            TableLookup(t, mtype, name).error == NoVal || TableLookup(t, mtype, name).error == DbFailure
  {}

  /**
   * A retried read succeeds if and only if there is a value and one of the max + 1 attempts comes through, those before
   * it broken and not cancelled.
   */
  lemma ReadSucceedsIff(t: Table, mtype: string, name: string, max: nat, base: int64, w: World)
    requires mtype == "gauge" || mtype == "counter"
    ensures Do(NewBackoff(max, base), ReadRounds(t, mtype, name, w), 0).outcome == Success
            <==> TableLookup(t, mtype, name).Ok? && exists k: nat :: ReadsAt(w, k, max)
  {
    hide Do, Skipped, TableLookup;
    DbFailureIsRetried();
    var (b, env) := (NewBackoff(max, base), ReadRounds(t, mtype, name, w));
    var k := SomewhereItEnds(b, env, 0);
    OutcomeAt(b, env, 0, k);
    if Do(b, env, 0).outcome == Success {
      assert ReadOnce(t, mtype, name, w.fault(k).Broken?).Ok?;
      forall j: nat | j < k ensures !w.doneBefore(j) && w.fault(j).Broken? && !w.doneAfter(j) {
        assert GoesOn(env(j));
      }
      assert ReadsAt(w, k, max);
    }
    if TableLookup(t, mtype, name).Ok? && exists k: nat :: ReadsAt(w, k, max) {
      var k: nat :| ReadsAt(w, k, max);
      ReadEnds(t, mtype, name, max, base, w, k);
    }
  }

  // Reads after a transaction.

  /** From the empty table a gauge reads as its last write; the row of a counter has no value to read. */
  lemma GaugeReads(us: seq<Update>, id: string)
    requires UpsertAll(map[], us).Some?
    ensures var (t, gs) := (UpsertAll(map[], us).value, GaugesFor(us, id));
            TableLookup(t, "gauge", id) ==
            if gs != [] then Ok(GaugeValue(gs[|gs| - 1])) else if Counts(us, id) then Err(DbFailure) else Err(NoVal)
  {
    hide UpsertAll, Counts, GaugesFor;
    RowAfter(map[], us, id);
    TouchedIff(us, id);
  }

  /** A counter reads as the sum of its deltas, unless its id was a gauge first. */
  lemma CounterReads(us: seq<Update>, id: string)
    requires UpsertAll(map[], us).Some?
    ensures var t := UpsertAll(map[], us).value;
            TableLookup(t, "counter", id) ==
            if FirstIsCounter(us, id) then Ok(CounterValue(Wrap(DeltaSum(us, id))))
            else if Counts(us, id) || GaugesFor(us, id) != [] then Err(DbFailure)
            else Err(NoVal)
  {
    hide UpsertAll, Counts, GaugesFor, FirstIsCounter;
    RowAfter(map[], us, id);
    TouchedIff(us, id);
  }

  lemma {:induction false} TouchedIff(us: seq<Update>, id: string)
    ensures Touched(us, id) <==> Counts(us, id) || GaugesFor(us, id) != []
    ensures FirstIsCounter(us, id) ==> Touched(us, id)
  {
    hide Counts;
    if us == [] {
      assert !Counts(us, id) by { NothingCounts(id); }
    } else {
      CountsCons(us, id);
      TouchedIff(us[1..], id);
    }
  }

  lemma NothingCounts(id: string)
    ensures !Counts([], id)
  {}
}
