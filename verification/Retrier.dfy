/** retrier.Retrier over go-retry: one backoff per wrapper, shared by all the calls made through it. */
module Retrier {
  import opened Wrappers
  import opened Int64
  import opened Models

  // Errors. Two wrapped or joined errors are one value only if they were made at the same place: `id` tells them apart.

  /** An error of the program's own, one that wraps another, or the result of errors.Join. */
  datatype GoError =
    | Bare(e: Error)
    | Wrapped(id: nat, cause: GoError)
    | Joined(id: nat, errs: seq<GoError>)

  /** errors.Is: err is the target, or something err unwraps to is. */
  predicate Is(err: GoError, target: GoError) {
    err == target ||
    match err
    case Bare(_) => false
    case Wrapped(_, cause) => Is(cause, target)
    case Joined(_, errs) => exists i :: 0 <= i < |errs| && Is(errs[i], target)
  }

  /** Unwrapping err along the path, by the position in every joined error, comes to the target. */
  predicate LeadsTo(err: GoError, path: seq<nat>, target: GoError)
    decreases path
  {
    if path == [] then err == target
    else
      match err
      case Bare(_) => false
      case Wrapped(_, cause) => LeadsTo(cause, path[1..], target)
      case Joined(_, errs) => path[0] < |errs| && LeadsTo(errs[path[0]], path[1..], target)
  }

  ghost predicate Carries(err: GoError, target: GoError) {
    exists path :: LeadsTo(err, path, target)
  }

  lemma {:induction false} LeadsToIs(err: GoError, path: seq<nat>, target: GoError)
    requires LeadsTo(err, path, target)
    ensures Is(err, target)
    decreases path
  {
    if path != [] {
      match err
      case Wrapped(_, cause) => LeadsToIs(cause, path[1..], target);
      case Joined(_, errs) => LeadsToIs(errs[path[0]], path[1..], target);
    }
  }

  lemma {:induction false} IsLeadsTo(err: GoError, target: GoError) returns (path: seq<nat>)
    requires Is(err, target)
    ensures LeadsTo(err, path, target)
    decreases err
  {
    path := [];
    if err != target {
      if err.Wrapped? {
        var rest := IsLeadsTo(err.cause, target);
        path := [0] + rest;
      } else {
        var i: nat :| i < |err.errs| && Is(err.errs[i], target);
        var rest := IsLeadsTo(err.errs[i], target);
        path := [i] + rest;
      }
    }
  }

  /** errors.Is finds exactly what some way of unwrapping comes to. */
  lemma IsIff(err: GoError, target: GoError)
    ensures Is(err, target) <==> Carries(err, target)
  {
    if Is(err, target) {
      var path := IsLeadsTo(err, target);
    }
    if Carries(err, target) {
      var path :| LeadsTo(err, path, target);
      LeadsToIs(err, path, target);
    }
  }

  predicate Sentinel(e: Error) {
    e == WrongMetricValueType || e == WrongMetricType || e == BadMetricType || e == NoVal
  }

  /** NewRetrier's errors.Join. */
  const SKIPPED: GoError :=
    Joined(0, [Bare(WrongMetricValueType), Bare(WrongMetricType), Bare(BadMetricType), Bare(NoVal)])

  /** The wrappers' test: errors.Is with the joined errors first. */
  predicate Skipped(err: GoError) {
    Is(SKIPPED, err)
  }

  /** The usual test: the error is, wraps or joins one of the four. */
  predicate MatchesSentinel(err: GoError) {
    Is(err, Bare(WrongMetricValueType)) || Is(err, Bare(WrongMetricType))
    || Is(err, Bare(BadMetricType)) || Is(err, Bare(NoVal))
  }

  /** With the joined errors first, exactly the four bare errors and the joined error itself are skipped. */
  lemma SkippedIff(err: GoError)
    ensures Skipped(err) <==> err == SKIPPED || (err.Bare? && Sentinel(err.e))
  {
    var four := SKIPPED.errs;
    assert Is(SKIPPED, err) <==> err == SKIPPED || exists i :: 0 <= i < |four| && Is(four[i], err);
    assert forall i :: 0 <= i < |four| ==> (Is(four[i], err) <==> four[i] == err);
    assert four[0] == Bare(WrongMetricValueType) && four[1] == Bare(WrongMetricType);
    assert four[2] == Bare(BadMetricType) && four[3] == Bare(NoVal);
  }

  /**
   * Nothing else would do with a joined error: the other way round it is found only where an error carries all of
   * it.
   */
  lemma SwappedIff(err: GoError)
    ensures Is(err, SKIPPED) <==> Carries(err, SKIPPED)
    ensures err.Bare? ==> !Is(err, SKIPPED)
  {
    IsIff(err, SKIPPED);
  }

  /**
   * Asked for each of the four, errors.Is finds every error that carries one, and the wrappers skip only some of
   * these.
   */
  lemma MatchesSentinelIff(err: GoError)
    ensures MatchesSentinel(err) <==> exists e :: Sentinel(e) && Carries(err, Bare(e))
    ensures Skipped(err) ==> MatchesSentinel(err)
    ensures MatchesSentinel(err) && !Skipped(err) <==> MatchesSentinel(err) && !err.Bare? && err != SKIPPED
  {
    IsIff(err, Bare(WrongMetricValueType));
    IsIff(err, Bare(WrongMetricType));
    IsIff(err, Bare(BadMetricType));
    IsIff(err, Bare(NoVal));
    SkippedIff(err);
    assert Is(SKIPPED.errs[0], Bare(WrongMetricValueType));
    assert err.Bare? && MatchesSentinel(err) ==> Sentinel(err.e);
    if MatchesSentinel(err) {
      var e :| Sentinel(e) && Is(err, Bare(e));
      assert Sentinel(e) && Carries(err, Bare(e));
    }
  }

  // The backoff.

  /** WithMaxRetries over NewFibonacci: retries granted so far, and the last two waits. */
  datatype Backoff = Backoff(max: nat, attempt: nat, prev: int64, cur: int64)

  function NewBackoff(max: nat, base: int64): Backoff {
    Backoff(max, 0, 0, base)
  }

  /** The next wait, or None to stop. A sum that overflows gives the longest wait and keeps the state. */
  function Next(b: Backoff): (Backoff, Option<int64>) {
    if b.attempt >= b.max then (b, None)
    else
      var next := Wrap(b.prev + b.cur);
      if next <= 0 then (b.(attempt := b.attempt + 1), Some(MAX))
      else (b.(attempt := b.attempt + 1, prev := b.cur, cur := next), Some(next))
  }

  // retry.Do.

  /** What one round of the loop meets: cancellation before the attempt, its error, cancellation before the next. */
  datatype Round = Round(doneBefore: bool, err: Option<GoError>, doneAfter: bool)

  datatype Outcome = Success | Failed(err: GoError) | Cancelled

  /** The outcome of a call, the attempts it made, the waits it was granted, and the backoff it leaves. */
  datatype Done = Done(outcome: Outcome, attempts: nat, waits: seq<int64>, backoff: Backoff)

  function Do(b: Backoff, env: nat -> Round, i: nat): Done
    decreases b.max - b.attempt
  {
    var round := env(i);
    if round.doneBefore then Done(Cancelled, 0, [], b)
    else
      match round.err
      case None => Done(Success, 1, [], b)
      case Some(err) =>
        if Skipped(err) then Done(Failed(err), 1, [], b)
        else
          match Next(b)
          case (b1, None) => Done(Failed(err), 1, [], b1)
          case (b1, Some(wait)) =>
            if round.doneAfter then Done(Cancelled, 1, [wait], b1)
            else
              var rest := Do(b1, env, i + 1);
              rest.(attempts := 1 + rest.attempts, waits := [wait] + rest.waits)
  }

  /** One round of a call. */
  lemma DoRound(b: Backoff, env: nat -> Round, i: nat)
    ensures var (d, r, (b1, wait)) := (Do(b, env, i), env(i), Next(b));
            if r.doneBefore then d.outcome == Cancelled && d.attempts == 0
            else if r.err == None then d.outcome == Success && d.attempts == 1
            else if Skipped(r.err.value) || wait == None then d.outcome == Failed(r.err.value) && d.attempts == 1
            else if r.doneAfter then d.outcome == Cancelled && d.attempts == 1
            else d.outcome == Do(b1, env, i + 1).outcome && d.attempts == 1 + Do(b1, env, i + 1).attempts
  {
    hide Skipped, Wrap;
  }

  lemma WaitsGrow(before: seq<int64>, wait: int64, rest: seq<int64>)
    ensures before + ([wait] + rest) == before + [wait] + rest
    ensures before + [] == before
  {}

  /** A wrapper made by UseRetrierWM and the others: every call goes through the same backoff. */
  class Wrapper {
    var bf: Backoff

    constructor (max: nat, base: int64)
      ensures bf == NewBackoff(max, base)
    {
      bf := NewBackoff(max, base);
    }

    method Call(env: nat -> Round) returns (outcome: Outcome, attempts: nat, waits: seq<int64>)
      modifies this
      ensures Done(outcome, attempts, waits, bf) == Do(old(bf), env, 0)
    {
      hide Wrap, Skipped;
      attempts, waits := 0, [];
      ghost var all := Do(bf, env, 0);
      while true
        invariant var rest := Do(bf, env, attempts);
                  && all.outcome == rest.outcome && all.backoff == rest.backoff
                  && all.attempts == attempts + rest.attempts && all.waits == waits + rest.waits
        decreases bf.max - bf.attempt
      {
        var round := env(attempts);
        if round.doneBefore {
          return Cancelled, attempts, waits;
        }
        attempts := attempts + 1;
        if round.err == None {
          return Success, attempts, waits;
        }
        var err := round.err.value;
        if Skipped(err) {
          return Failed(err), attempts, waits;
        }
        var (b1, wait) := Next(bf);
        bf := b1;
        if wait == None {
          return Failed(err), attempts, waits;
        }
        ghost var w0 := waits;
        waits := waits + [wait.value];
        WaitsGrow(w0, wait.value, Do(b1, env, attempts).waits);
        if round.doneAfter {
          return Cancelled, attempts, waits;
        }
      }
    }
  }

  /** The attempt failed with an error that is worth another attempt. */
  predicate Retryable(r: Round) {
    r.err.Some? && !Skipped(r.err.value)
  }

  /** The rounds before the last attempt's all failed with errors worth retrying. */
  ghost predicate EarlierFailed(env: nat -> Round, from: nat, to: nat) {
    forall j: nat :: from <= j < to ==> Retryable(env(j))
  }

  /** What the outcome of a call says about its attempts, the last of which is in round `last`. */
  lemma {:induction false} OutcomeMeaning(b: Backoff, env: nat -> Round, i: nat) returns (last: nat)
    ensures var d := Do(b, env, i);
            && (d.attempts == 0 <==> env(i).doneBefore) && (d.attempts == 0 ==> d.outcome == Cancelled)
            && (d.attempts > 0 ==>
                  && last == i + d.attempts - 1
                  && EarlierFailed(env, i, last)
                  && (d.outcome == Success <==> env(last).err == None)
                  && (d.outcome.Failed? ==> env(last).err == Some(d.outcome.err))
                  && (d.outcome.Failed? && Retryable(env(last)) ==> d.backoff.attempt >= b.max)
                  && (env(last).err.Some? && !Retryable(env(last)) ==> d.outcome.Failed?))
    decreases b.max - b.attempt
  {
    last := i;
    var round := env(i);
    if !round.doneBefore && Retryable(round) {
      var (b1, wait) := Next(b);
      if wait.Some? && !round.doneAfter {
        var l := OutcomeMeaning(b1, env, i + 1);
        if Do(b1, env, i + 1).attempts > 0 {
          last := l;
        }
      }
    }
  }

  /** After this round there is another, if the budget allows one. */
  predicate GoesOn(r: Round) {
    !r.doneBefore && Retryable(r) && !r.doneAfter
  }

  /** Of the rounds from i on, k is the first that does not go on, or the last the budget allows. */
  ghost predicate EndsAt(b: Backoff, env: nat -> Round, i: nat, k: nat) {
    && b.attempt <= b.max && i <= k <= i + b.max - b.attempt
    && (forall j: nat :: i <= j < k ==> GoesOn(env(j)))
    && (GoesOn(env(k)) ==> k == i + b.max - b.attempt)
  }

  lemma {:induction false} SomewhereItEnds(b: Backoff, env: nat -> Round, i: nat) returns (k: nat)
    requires b.attempt <= b.max
    ensures EndsAt(b, env, i, k)
    decreases b.max - b.attempt
  {
    hide GoesOn;
    k := i;
    if GoesOn(env(i)) && b.attempt < b.max {
      k := SomewhereItEnds(Next(b).0, env, i + 1);
    }
  }

  /** What a call comes to is read off the round it ends at. */
  lemma {:induction false} OutcomeAt(b: Backoff, env: nat -> Round, i: nat, k: nat)
    requires EndsAt(b, env, i, k)
    ensures var (d, r) := (Do(b, env, i), env(k));
            && d.outcome == (if r.doneBefore then Cancelled
                             else if r.err == None then Success
                             else if Skipped(r.err.value) || k == i + b.max - b.attempt then Failed(r.err.value)
                             else Cancelled)
            && d.attempts == k - i + if r.doneBefore then 0 else 1
    decreases b.max - b.attempt
  {
    hide Skipped, Wrap;
    if k > i {
      assert GoesOn(env(i));
      OutcomeAt(Next(b).0, env, i + 1, k);
    }
  }

  /** A bare sentinel ends the call: it can only be the error of the last attempt, and it is returned. */
  lemma SentinelEndsCall(b: Backoff, env: nat -> Round, k: nat)
    requires k < Do(b, env, 0).attempts && env(k).err.Some? && Skipped(env(k).err.value)
    ensures k == Do(b, env, 0).attempts - 1 && Do(b, env, 0).outcome == Failed(env(k).err.value)
  {
    var last := OutcomeMeaning(b, env, 0);
    assert !Retryable(env(k));
  }

  /** Wrapped, the same error does not end the call: there is a second attempt. */
  lemma WrappedSentinelRetried(b: Backoff, env: nat -> Round, id: nat, cause: GoError)
    requires b.attempt < b.max && MatchesSentinel(cause)
    requires env(0) == Round(false, Some(Wrapped(id, cause)), false) && !env(1).doneBefore
    ensures MatchesSentinel(env(0).err.value) && Do(b, env, 0).attempts >= 2
  {
    var err := Wrapped(id, cause);
    SkippedIff(err);
    assert Do(Next(b).0, env, 1).attempts >= 1 by {
      var last := OutcomeMeaning(Next(b).0, env, 1);
    }
  }

  // The budget over all calls.

  /** Many calls through one wrapper: all attempts, all waits in order, and the backoff they leave. */
  function Calls(b: Backoff, envs: seq<nat -> Round>): (nat, seq<int64>, Backoff)
    decreases envs
  {
    if envs == [] then (0, [], b)
    else
      var d := Do(b, envs[0], 0);
      var (n, ws, b1) := Calls(d.backoff, envs[1..]);
      (d.attempts + n, d.waits + ws, b1)
  }

  /** The backoff after n retries. */
  function After(b: Backoff, n: nat): Backoff
    decreases n
  {
    if n == 0 then b else After(Next(b).0, n - 1)
  }

  /** The waits of n retries in a row. */
  function Waits(b: Backoff, n: nat): seq<int64>
    decreases n
  {
    if n == 0 then []
    else
      match Next(b)
      case (_, None) => []
      case (b1, Some(w)) => [w] + Waits(b1, n - 1)
  }

  lemma {:induction false} WaitsSplit(b: Backoff, m: nat, n: nat)
    requires b.attempt + m <= b.max
    ensures After(b, m).max == b.max && After(b, m).attempt == b.attempt + m
    ensures Waits(b, m + n) == Waits(b, m) + Waits(After(b, m), n)
    ensures |Waits(b, m)| == m
    decreases m
  {
    hide Wrap;
    if m == 0 {
    } else {
      var (b1, w) := Next(b);
      WaitsSplit(b1, m - 1, n);
      assert Waits(b, m + n) == [w.value] + Waits(b1, m - 1 + n);
    }
  }

  lemma {:induction false} CallSpends(b: Backoff, env: nat -> Round, i: nat)
    requires b.attempt <= b.max
    ensures var d := Do(b, env, i);
            && b.attempt + |d.waits| <= b.max
            && d.backoff == After(b, |d.waits|) && d.waits == Waits(b, |d.waits|)
            && d.attempts <= 1 + |d.waits|
    decreases b.max - b.attempt
  {
    hide Wrap;
    var round := env(i);
    if !round.doneBefore && round.err.Some? && !Skipped(round.err.value) {
      var (b1, wait) := Next(b);
      if wait.Some? {
        assert After(b, 1) == After(b1, 0);
        assert Waits(b, 1) == [wait.value] + Waits(b1, 0);
        if !round.doneAfter {
          CallSpends(b1, env, i + 1);
        }
      }
    }
  }

  /** All the calls through one wrapper share one budget of max retries, and consume one sequence of waits. */
  lemma {:induction false} BudgetIsShared(b: Backoff, envs: seq<nat -> Round>)
    requires b.attempt <= b.max
    ensures var (attempts, waits, b1) := Calls(b, envs);
            && b.attempt + |waits| <= b.max
            && attempts <= |envs| + |waits|
            && waits == Waits(b, |waits|) && b1 == After(b, |waits|)
    decreases envs
  {
    if envs == [] {
    } else {
      hide Do, Waits, After;
      hide Do, Waits, After;
      var d := Do(b, envs[0], 0);
      var (n, ws, b1) := Calls(d.backoff, envs[1..]);
      CallSpends(b, envs[0], 0);
      WaitsSplit(b, |d.waits|, |ws|);
      BudgetIsShared(d.backoff, envs[1..]);
      AfterSplit(b, |d.waits|, |ws|);
    }
  }

  lemma {:induction false} AfterSplit(b: Backoff, m: nat, n: nat)
    ensures After(b, m + n) == After(After(b, m), n)
    decreases m
  {
    if m == 0 {
    } else {
      AfterSplit(Next(b).0, m - 1, n);
    }
  }

  // How long the waits are.

  function Fib(n: nat): nat {
    if n < 2 then n else Fib(n - 1) + Fib(n - 2)
  }

  function Sum(ws: seq<int64>): int {
    if ws == [] then 0 else ws[0] + Sum(ws[1..])
  }

  /** The n-th Fibonacci multiple of a wait. */
  function Multiple(base: int, n: nat): int { base * Fib(n) }

  lemma MultipleStep(base: int, n: nat)
    ensures Multiple(base, n + 2) == Multiple(base, n) + Multiple(base, n + 1)
  {
    assert Fib(n + 2) == Fib(n + 1) + Fib(n);
  }

  lemma {:induction false} FibGrows(m: nat, n: nat)
    requires m <= n
    ensures Fib(m) <= Fib(n) && (m > 0 ==> Fib(m) >= 1)
    decreases n
  {
    if m < n && n >= 2 {
      FibGrows(m, n - 1);
    } else if m >= 2 {
      FibGrows(1, m - 1);
    }
  }

  lemma MultiplyBoth(base: int, x: int, y: int)
    requires base > 0 && x <= y
    ensures base * x <= base * y
  {}

  lemma MultipleGrows(base: int, m: nat, n: nat)
    requires base > 0 && m <= n
    ensures Multiple(base, m) <= Multiple(base, n)
    ensures m > 0 ==> Multiple(base, m) >= base
  {
    hide Fib;
    FibGrows(m, n);
    MultiplyBoth(base, Fib(m), Fib(n));
    if m > 0 {
      MultiplyBoth(base, 1, Fib(m));
    }
  }

  /** The state after i retries holds two neighbouring Fibonacci multiples of the base. */
  predicate AtRetry(b: Backoff, base: int, i: nat) {
    b.attempt == i && b.prev == Multiple(base, i) && b.cur == Multiple(base, i + 1)
  }

  lemma {:induction false} WaitsFrom(b: Backoff, base: int, i: nat, n: nat)
    requires base > 0 && AtRetry(b, base, i) && i + n <= b.max
    requires n > 0 ==> Multiple(base, i + n + 1) <= MAX
    ensures |Waits(b, n)| == n
    ensures Sum(Waits(b, n)) == Multiple(base, i + n + 3) - Multiple(base, i + 3)
    decreases n
  {
    hide Multiple, Fib, Wrap;
    if n == 0 {
    } else {
      MultipleGrows(base, i + 2, i + n + 1);
      MultipleStep(base, i);
      var (b1, w) := Next(b);
      assert w == Some(Multiple(base, i + 2)) && AtRetry(b1, base, i + 1);
      WaitsFrom(b1, base, i + 1, n - 1);
      assert Waits(b, n)[1..] == Waits(b1, n - 1);
      MultipleStep(base, i + 2);
    }
  }

  /** n retries wait exactly base times F(n+3)-2 in total, as long as the last wait fits into an int64. */
  lemma TotalWait(max: nat, base: int64, n: nat)
    requires base > 0 && n <= max && (n > 0 ==> base * Fib(n + 1) <= MAX)
    ensures |Waits(NewBackoff(max, base), n)| == n
    ensures Sum(Waits(NewBackoff(max, base), n)) == base * (Fib(n + 3) - 2)
  {
    FirstFibonacci();
    assert Fib(0) == 0 && Fib(1) == 1;
    hide Fib, Waits, Sum, Wrap;
    WaitsFrom(NewBackoff(max, base), base, 0, n);
    TakeTwo(base, Fib(n + 3));
  }

  lemma TakeTwo(base: int, f: int)
    ensures base * f - base * 2 == base * (f - 2)
  {}

  const SECOND: int64 := 1_000_000_000
  const SERVER_TIMEOUT: int64 := 30 * SECOND

  lemma FirstFibonacci()
    ensures Fib(2) == 1 && Fib(3) == 2 && Fib(4) == 3 && Fib(5) == 5 && Fib(6) == 8
  {}

  lemma ServerWait(n: nat)
    requires n <= 3
    ensures Sum(Waits(NewBackoff(3, SECOND), n)) == SECOND * (Fib(n + 3) - 2) <= 6 * SECOND
  {
    hide Fib, Waits, Sum;
    FirstFibonacci();
    assert n == 0 || n == 1 || n == 2 || n == 3;
    TotalWait(3, SECOND, n);
  }

  /** The server's wrappers never spend more than 6 of their 30 seconds waiting, over all calls together. */
  lemma ServerWaitsSixSeconds(envs: seq<nat -> Round>)
    ensures var (attempts, waits, _) := Calls(NewBackoff(3, 1_000_000_000), envs);
            && |waits| <= 3 && attempts <= |envs| + 3
            && Sum(waits) == 1_000_000_000 * (Fib(|waits| + 3) - 2)
            && Sum(waits) <= 6_000_000_000 < 30_000_000_000 == SERVER_TIMEOUT
  {
    hide Fib, Waits, Sum, Calls;
    BudgetIsShared(NewBackoff(3, SECOND), envs);
    ServerWait(|Calls(NewBackoff(3, SECOND), envs).1|);
  }

  /** A wait is the sum of the two before it; one that does not fit is the longest there is, each time anew. */
  lemma NextWait(b: Backoff)
    requires b.attempt < b.max && b.prev >= 0 && b.cur > 0
    ensures var (b1, wait) := Next(b);
            && b1.attempt == b.attempt + 1 && b1.max == b.max
            && (b.prev + b.cur <= 0x7FFF_FFFF_FFFF_FFFF ==>
                wait == Some(b.prev + b.cur) && b1.prev == b.cur && b1.cur == b.prev + b.cur)
            && (b.prev + b.cur > 0x7FFF_FFFF_FFFF_FFFF ==>
                wait == Some(0x7FFF_FFFF_FFFF_FFFF) && b1.prev == b.prev && b1.cur == b.cur)
  {
    if b.prev + b.cur > MAX {
      WrapEqualIffCongruent(b.prev + b.cur, b.prev + b.cur - TWO_TO_THE_64);
    }
  }

  /** The server waits one, two and three seconds, and then no more. */
  lemma OneTwoThree()
    ensures Waits(NewBackoff(3, 1_000_000_000), 3) == [1_000_000_000, 2_000_000_000, 3_000_000_000]
    ensures var b := NewBackoff(3, 1_000_000_000); Next(Next(Next(Next(b).0).0).0).1 == None
  {
    var b := NewBackoff(3, 1_000_000_000);
    var b1 := Next(b).0;
    var b2 := Next(b1).0;
    assert Next(b).1 == Some(1_000_000_000) && Next(b1).1 == Some(2_000_000_000) && Next(b2).1 == Some(3_000_000_000);
    assert Waits(Next(b2).0, 0) == [];
    assert Waits(b2, 1) == [3_000_000_000];
    assert Waits(b1, 2) == [2_000_000_000, 3_000_000_000];
  }
}
