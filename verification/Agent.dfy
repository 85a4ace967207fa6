/**
 * The agent's protocol: poller, report loop, worker pool, two bounded channels, cancellation, and the server's
 * counter.
 */
module AgentProtocol {
  import opened Wrappers
  import opened Int64

  const WORKERS: nat := 3

  /** The rate limit is the capacity of both channels; a send makes at most `attempts` tries. */
  datatype Config = Config(capacity: nat, attempts: nat, grpc: bool, transactional: bool, initial: int64)

  /** Where the report loop is. Resetting remembers whether a worker's success was received. */
  datatype Place = Top | Parsed | Queueing | Awaiting | Resetting(acked: bool) | Checking | Stopped

  datatype Worker = Idle | Sending(tries: nat) | Sent(ok: bool) | Posting(ok: bool) | Exited(ok: bool)

  /** What agent, network and server hold. */
  datatype Program = Program(
    cancelled: bool,            // ctx.Done() is closed
    place: Place,
    polled: bool,               // startCoordChan1 is closed
    kernelPolled: bool,         // startCoordChan2 is closed
    pollCount: int64,
    slice: int64,               // the PollCount entry of the parsed slice
    payload: Option<int64>,     // the PollCount entry of the encoded text, none if encoding failed
    queued: nat,                // jobs in jobsQueue
    workers: seq<Worker>,
    results: seq<bool>,         // jobsErr, true for a nil error
    counter: int64,             // the server's PollCount
    limbo: seq<int64>)          // deltas of failed attempts that the server may still store

  /** Accounting in polls, without any wrapping. Nothing in Program depends on it. */
  datatype Ledger = Ledger(
    polls: nat,                 // polls taken
    sinceReset: nat,            // polls since the last reset
    overtaken: nat,             // polls since the last parse, while its report is under way
    sent: nat,                  // polls since the last reset, at the last parse
    acked: nat,                 // polls acknowledged to the report loop
    lost: nat,                  // overtaken polls of the acknowledged reports
    discarded: nat,             // polls reset without an acknowledgement
    answered: nat,              // polls in requests the server answered OK
    stored: nat,                // polls stored by the server
    unstored: nat,              // polls in requests answered OK and not stored
    strays: nat,                // polls stored by failed attempts
    repeats: nat,               // polls in commits the server itself took for failures
    failed: nat,                // polls in failed attempts
    limbo: seq<nat>)            // polls in the requests of Program.limbo

  datatype State = State(now: Program, book: Ledger)

  function Init(c: Config): State {
    State(
      Program(false, Top, false, false, 0, 0, None, 0, [Idle, Idle, Idle], [], c.initial, []),
      Ledger(0, 0, 0, 0, 0, 0, 0, 0, 0, 0, 0, 0, 0, []))
  }

  /** The steps of one worker and its request, with the report loop where a channel has no room of its own. */
  datatype Action =
    | TakeJob | HandOver
    | CommitUnseen | Answered | AnsweredUnstored | Failed | GiveUp
    | CheckDone | Post | PostDirect

  datatype Step =
    | Poll | KernelPoll | Cancel
    | Parse | EncodeOk | EncodeFail
    | Enqueue | SkipQueue
    | Work(w: nat, act: Action)
    | Receive | SkipResult | Reset(acked: bool) | Check
    | LateStore(i: nat)

  /** What poller, context and server do by themselves. */
  predicate External(a: Step) {
    a.Poll? || a.KernelPoll? || a.Cancel? || a.LateStore? || (a.Work? && a.act.CommitUnseen?)
  }

  /** An attempt is under way; the server can only store a payload that was encoded. */
  predicate Attempting(c: Config, k: Worker) {
    k.Sending? && k.tries < c.attempts
  }

  predicate CanWork(c: Config, p: Program, k: Worker, act: Action) {
    match act
    case TakeJob => k.Idle? && p.queued > 0
    case HandOver => k.Idle? && p.place == Queueing && c.capacity == 0
    case CommitUnseen => Attempting(c, k) && p.payload.Some? && c.transactional
    case Answered => Attempting(c, k) && p.payload.Some?
    case AnsweredUnstored => Attempting(c, k) && c.grpc
    case Failed => Attempting(c, k)
    case GiveUp => k.Sending?
    case CheckDone => k.Sent?
    case Post => k.Posting? && |p.results| < c.capacity
    case PostDirect => k.Posting? && p.place == Awaiting && c.capacity == 0
  }

  predicate Enabled(c: Config, p: Program, a: Step) {
    match a
    case Poll => true
    case KernelPoll => true
    case Cancel => !p.cancelled
    case Parse => p.place == Top && p.polled
    case EncodeOk => p.place == Parsed && p.kernelPolled
    case EncodeFail => p.place == Parsed && p.kernelPolled && !c.grpc
    case Enqueue => p.place == Queueing && p.queued < c.capacity
    case SkipQueue => p.place == Queueing && p.cancelled
    case Work(w, act) => w < |p.workers| && CanWork(c, p, p.workers[w], act)
    case Receive => p.place == Awaiting && p.results != []
    case SkipResult => p.place == Awaiting && p.cancelled
    case Reset(acked) => p.place == Resetting(acked)
    case Check => p.place == Checking
    case LateStore(i) => i < |p.limbo|
  }

  /** The report loop goes on to the reset after a success, and back to the top after an error. */
  function AfterResult(ok: bool): Place {
    if ok then Resetting(true) else Top
  }

  /** The worker's own next state. */
  function Next(c: Config, p: Program, k: Worker, act: Action): Worker
    requires CanWork(c, p, k, act)
  {
    match act
    case TakeJob => Sending(0)
    case HandOver => Sending(0)
    case CommitUnseen => k
    case Answered => Sent(true)
    case AnsweredUnstored => Sent(true)
    case Failed => Sending(k.tries + 1)
    case GiveUp => Sent(false)
    case CheckDone => if p.cancelled then Exited(k.ok) else Posting(k.ok)
    case Post => Idle
    case PostDirect => Idle
  }

  /** The server adds a delta to its counter. */
  function ServerStores(p: Program, delta: int64): Program {
    p.(counter := Wrap(p.counter + delta))
  }

  /** What a worker's step does to everything else. */
  function Effect(c: Config, p: Program, k: Worker, act: Action): Program
    requires CanWork(c, p, k, act)
  {
    match act
    case TakeJob => p.(queued := p.queued - 1)
    case HandOver => p.(place := Awaiting)
    case CommitUnseen => ServerStores(p, p.payload.value)
    case Answered => ServerStores(p, p.payload.value)
    case AnsweredUnstored => p
    case Failed => if p.payload.Some? then p.(limbo := p.limbo + [p.payload.value]) else p
    case GiveUp => p
    case CheckDone => p
    case Post => p.(results := p.results + [k.ok])
    case PostDirect => p.(place := AfterResult(k.ok))
  }

  function Move(c: Config, p: Program, a: Step): Program
    requires Enabled(c, p, a)
  {
    match a
    case Poll => p.(polled := true, pollCount := Wrap(p.pollCount + 1))
    case KernelPoll => p.(kernelPolled := true)
    case Cancel => p.(cancelled := true)
    case Parse => p.(place := Parsed, slice := p.pollCount)
    case EncodeOk => p.(place := Queueing, payload := Some(p.slice))
    case EncodeFail => p.(place := Top, payload := None)
    case Enqueue => p.(place := Awaiting, queued := p.queued + 1)
    case SkipQueue => p.(place := Awaiting)
    case Work(w, act) =>
      var k := p.workers[w];
      Effect(c, p, k, act).(workers := p.workers[w := Next(c, p, k, act)])
    case Receive => p.(place := AfterResult(p.results[0]), results := p.results[1..])
    case SkipResult => p.(place := Resetting(false))
    case Reset(_) => p.(place := Checking, pollCount := 0)
    case Check => p.(place := if p.cancelled then Stopped else Top)
    case LateStore(i) => ServerStores(p, p.limbo[i]).(limbo := p.limbo[..i] + p.limbo[i + 1..])
  }

  // The accounting.

  /** A report has been parsed and not yet reset or given up. */
  predicate UnderWay(place: Place) {
    place == Parsed || place == Queueing || place == Awaiting || place.Resetting?
  }

  function RecordWork(p: Program, b: Ledger, act: Action): Ledger {
    match act
    case CommitUnseen => b.(stored := b.stored + b.sent, repeats := b.repeats + b.sent)
    case Answered => b.(stored := b.stored + b.sent, answered := b.answered + b.sent)
    case AnsweredUnstored => b.(unstored := b.unstored + b.sent, answered := b.answered + b.sent)
    case Failed => if p.payload.Some? then b.(limbo := b.limbo + [b.sent], failed := b.failed + b.sent) else b
    case _ => b
  }

  function Record(p: Program, b: Ledger, a: Step): Ledger {
    match a
    case Poll =>
      b.(polls := b.polls + 1, sinceReset := b.sinceReset + 1,
         overtaken := if UnderWay(p.place) then b.overtaken + 1 else b.overtaken)
    case Parse => b.(sent := b.sinceReset, overtaken := 0)
    case Work(_, act) => RecordWork(p, b, act)
    case Reset(acked) =>
      var t := b.(sinceReset := 0);
      if acked then t.(acked := b.acked + b.sent, lost := b.lost + b.overtaken)
      else t.(discarded := b.discarded + b.sinceReset)
    case LateStore(i) =>
      if i < |b.limbo| then
        b.(limbo := b.limbo[..i] + b.limbo[i + 1..], stored := b.stored + b.limbo[i], strays := b.strays + b.limbo[i])
      else b
    case _ => b
  }

  function Do(c: Config, s: State, a: Step): State
    requires Enabled(c, s.now, a)
  {
    State(Move(c, s.now, a), Record(s.now, s.book, a))
  }

  /** An interleaving: any sequence of steps, each possible when it is taken. */
  predicate Run(c: Config, s: State, steps: seq<Step>)
    decreases steps
  {
    steps == [] || (Enabled(c, s.now, steps[0]) && Run(c, Do(c, s, steps[0]), steps[1..]))
  }

  function After(c: Config, s: State, steps: seq<Step>): State
    requires Run(c, s, steps)
    decreases steps
  {
    if steps == [] then s else After(c, Do(c, s, steps[0]), steps[1..])
  }

  // Jobs.

  function Busy(k: Worker): nat { if k.Idle? then 0 else 1 }

  function Held(ws: seq<Worker>): nat
    requires |ws| == WORKERS
  {
    Busy(ws[0]) + Busy(ws[1]) + Busy(ws[2])
  }

  /** Jobs in the queue, in the hands of workers, and results not yet read. */
  function Jobs(p: Program): nat
    requires |p.workers| == WORKERS
  {
    p.queued + Held(p.workers) + |p.results|
  }

  predicate WorkerOk(c: Config, p: Program, k: Worker) {
    (k.Sending? ==> k.tries <= c.attempts) && (k.Exited? ==> p.cancelled)
  }

  predicate WorkersOk(c: Config, p: Program)
    requires |p.workers| == WORKERS
  {
    WorkerOk(c, p, p.workers[0]) && WorkerOk(c, p, p.workers[1]) && WorkerOk(c, p, p.workers[2])
  }

  predicate JobInv(c: Config, p: Program) {
    && |p.workers| == WORKERS
    && p.queued <= c.capacity && |p.results| <= c.capacity
    && WorkersOk(c, p)
    && (match p.place
        case Top => Jobs(p) == 0
        case Parsed => Jobs(p) == 0
        case Queueing => Jobs(p) == 0
        case Awaiting => Jobs(p) <= 1 && (Jobs(p) == 0 ==> p.cancelled)
        case Resetting(acked) => if acked then Jobs(p) == 0 else Jobs(p) <= 1 && p.cancelled
        case Checking => Jobs(p) <= 1 && (Jobs(p) == 1 ==> p.cancelled)
        case Stopped => Jobs(p) <= 1 && p.cancelled)
  }

  // Polls.

  predicate PollInv(s: State) {
    var (p, b) := (s.now, s.book);
    && b.polls == b.acked + b.lost + b.discarded + b.sinceReset
    && p.pollCount == Wrap(b.sinceReset)
    && (p.polled <==> b.polls > 0)
    && (b.discarded > 0 ==> p.cancelled && (p.place == Checking || p.place == Stopped))
    && (UnderWay(p.place) ==> b.sinceReset == b.sent + b.overtaken)
  }

  predicate PayloadInv(s: State)
    requires |s.now.workers| == WORKERS
  {
    var p := s.now;
    && (p.place == Parsed ==> p.slice == Wrap(s.book.sent))
    && (p.place == Queueing || Jobs(p) > 0 ==> p.payload == Some(Wrap(s.book.sent)))
  }

  // The server.

  predicate Success(k: Worker) {
    (k.Sent? || k.Posting? || k.Exited?) && k.ok
  }

  /** The server has answered OK and the report loop has not counted it. */
  predicate Pending(p: Program)
    requires |p.workers| == WORKERS
  {
    || p.place == Resetting(true)
    || Success(p.workers[0]) || Success(p.workers[1]) || Success(p.workers[2])
    || (p.results != [] && p.results[0])
  }

  function Sum(ns: seq<nat>): nat {
    if ns == [] then 0 else ns[0] + Sum(ns[1..])
  }

  /** The requests in limbo carry the polls they are booked with. */
  predicate LimboInv(deltas: seq<int64>, polls: seq<nat>) {
    |deltas| == |polls| && forall i :: 0 <= i < |deltas| ==> deltas[i] == Wrap(polls[i])
  }

  predicate ServerInv(c: Config, s: State) {
    var (p, b) := (s.now, s.book);
    && p.counter == Wrap(c.initial + b.stored)
    && LimboInv(p.limbo, b.limbo)
    && b.strays + Sum(b.limbo) == b.failed
    && (!c.grpc ==> b.unstored == 0)
    && (!c.transactional ==> b.repeats == 0)
    && b.stored + b.unstored == b.answered + b.strays + b.repeats
  }

  predicate AnswerInv(s: State)
    requires |s.now.workers| == WORKERS
  {
    s.book.answered == s.book.acked + if Pending(s.now) then s.book.sent else 0
  }

  predicate Inv(c: Config, s: State) {
    JobInv(c, s.now) && PollInv(s) && PayloadInv(s) && ServerInv(c, s) && AnswerInv(s)
  }

  lemma InitInv(c: Config)
    ensures Inv(c, Init(c))
  {}

  lemma JobWorkStep(c: Config, p: Program, w: nat, act: Action)
    requires JobInv(c, p) && Enabled(c, p, Work(w, act))
    ensures JobInv(c, Move(c, p, Work(w, act)))
  {
    hide Wrap;
  }

  lemma {:induction false} JobStep(c: Config, p: Program, a: Step)
    requires JobInv(c, p) && Enabled(c, p, a)
    ensures JobInv(c, Move(c, p, a))
  {
    hide Wrap;
    if a.Work? {
      JobWorkStep(c, p, a.w, a.act);
    }
  }

  lemma PollWorkStep(c: Config, s: State, w: nat, act: Action)
    requires JobInv(c, s.now) && PollInv(s) && Enabled(c, s.now, Work(w, act))
    ensures PollInv(Do(c, s, Work(w, act)))
  {
    hide Wrap;
  }

  lemma {:induction false} PollStep(c: Config, s: State, a: Step)
    requires JobInv(c, s.now) && PollInv(s) && Enabled(c, s.now, a)
    ensures PollInv(Do(c, s, a))
  {
    hide Wrap;
    match a
    case Work(w, act) => PollWorkStep(c, s, w, act);
    case Poll => WrapAdd(s.book.sinceReset, 1);
    case _ =>
  }

  lemma PayloadWorkStep(c: Config, s: State, w: nat, act: Action)
    requires JobInv(c, s.now) && PayloadInv(s) && Enabled(c, s.now, Work(w, act))
    ensures JobInv(c, Do(c, s, Work(w, act)).now) && PayloadInv(Do(c, s, Work(w, act)))
  {
    hide Wrap;
  }

  lemma {:induction false} PayloadStep(c: Config, s: State, a: Step)
    requires JobInv(c, s.now) && PollInv(s) && PayloadInv(s) && Enabled(c, s.now, a)
    ensures JobInv(c, Do(c, s, a).now) && PayloadInv(Do(c, s, a))
  {
    hide Wrap;
    JobStep(c, s.now, a);
    if a.Work? {
      PayloadWorkStep(c, s, a.w, a.act);
    }
  }

  lemma {:induction false} SumAppend(ns: seq<nat>, n: nat)
    ensures Sum(ns + [n]) == Sum(ns) + n
  {
    if ns != [] {
      assert (ns + [n])[1..] == ns[1..] + [n];
      SumAppend(ns[1..], n);
    }
  }

  lemma {:induction false} SumRemove(ns: seq<nat>, i: nat)
    requires i < |ns|
    ensures Sum(ns[..i] + ns[i + 1..]) == Sum(ns) - ns[i]
  {
    if i == 0 {
      assert ns[..0] + ns[1..] == ns[1..];
    } else {
      assert (ns[..i] + ns[i + 1..])[1..] == ns[1..][..i - 1] + ns[1..][i..];
      SumRemove(ns[1..], i - 1);
    }
  }

  /** Adding a wrapped delta to a wrapped total is adding the delta itself. */
  lemma WrappedDelta(total: int, n: nat)
    ensures Wrap(Wrap(total) + Wrap(n)) == Wrap(total + n)
  {
    WrapAdd(n, Wrap(total));
    WrapAdd(total, n);
  }

  /** A request is out whenever a worker sends, so what the server reads is what was booked. */
  lemma PayloadRead(c: Config, s: State, w: nat)
    requires JobInv(c, s.now) && PayloadInv(s) && w < WORKERS && s.now.workers[w].Sending?
    ensures s.now.payload == Some(Wrap(s.book.sent))
  {
    hide Wrap;
    assert w == 0 || w == 1 || w == 2;
  }

  /** A failed attempt puts its request into limbo. */
  lemma ServerFailedStep(c: Config, s: State, w: nat)
    requires JobInv(c, s.now) && PayloadInv(s) && ServerInv(c, s) && Enabled(c, s.now, Work(w, Failed))
    ensures ServerInv(c, Do(c, s, Work(w, Failed)))
  {
    PayloadRead(c, s, w);
    hide Wrap, Sum, JobInv, PayloadInv;
    SumAppend(s.book.limbo, s.book.sent);
  }

  /** An answered or unseen commit adds what the payload carries, and that is what the ledger books. */
  lemma ServerStoredStep(c: Config, s: State, w: nat, act: Action)
    requires JobInv(c, s.now) && PayloadInv(s) && ServerInv(c, s) && Enabled(c, s.now, Work(w, act))
    requires act == Answered || act == CommitUnseen
    ensures ServerInv(c, Do(c, s, Work(w, act)))
  {
    PayloadRead(c, s, w);
    hide Wrap, Sum, LimboInv, JobInv, PayloadInv;
    WrappedDelta(c.initial + s.book.stored, s.book.sent);
  }

  lemma ServerOtherStep(c: Config, s: State, w: nat, act: Action)
    requires ServerInv(c, s) && Enabled(c, s.now, Work(w, act))
    requires act != Answered && act != CommitUnseen && act != Failed
    ensures ServerInv(c, Do(c, s, Work(w, act)))
  {
    hide Wrap, Sum, LimboInv;
  }

  lemma ServerStep(c: Config, s: State, a: Step)
    requires JobInv(c, s.now) && PayloadInv(s) && ServerInv(c, s) && Enabled(c, s.now, a)
    ensures ServerInv(c, Do(c, s, a))
  {
    hide Wrap, Sum, JobInv, PayloadInv;
    match a
    case Work(w, act) =>
      if act == Failed {
        ServerFailedStep(c, s, w);
      } else if act == Answered || act == CommitUnseen {
        ServerStoredStep(c, s, w, act);
      } else {
        ServerOtherStep(c, s, w, act);
      }
    case LateStore(i) =>
      WrappedDelta(c.initial + s.book.stored, s.book.limbo[i]);
      SumRemove(s.book.limbo, i);
    case _ =>
  }

  lemma AnswerWorkStep(c: Config, s: State, w: nat, act: Action)
    requires JobInv(c, s.now) && AnswerInv(s) && Enabled(c, s.now, Work(w, act))
    ensures AnswerInv(Do(c, s, Work(w, act)))
  {
    hide Wrap;
  }

  lemma {:induction false} AnswerStep(c: Config, s: State, a: Step)
    requires JobInv(c, s.now) && AnswerInv(s) && Enabled(c, s.now, a)
    ensures AnswerInv(Do(c, s, a))
  {
    hide Wrap;
    if a.Work? {
      AnswerWorkStep(c, s, a.w, a.act);
    }
  }

  lemma {:induction false} InvHolds(c: Config, s: State, steps: seq<Step>)
    requires Inv(c, s) && Run(c, s, steps)
    ensures Inv(c, After(c, s, steps))
    decreases steps
  {
    hide JobInv, PollInv, PayloadInv, ServerInv, AnswerInv, Enabled, Do;
    if steps != [] {
      PollStep(c, s, steps[0]);
      PayloadStep(c, s, steps[0]);
      ServerStep(c, s, steps[0]);
      AnswerStep(c, s, steps[0]);
      InvHolds(c, Do(c, s, steps[0]), steps[1..]);
    }
  }

  // What every run keeps.

  /**
   * No poll is miscounted: each is acknowledged, still in the counter, overtaken by an acknowledged reset, or dropped
   * at shutdown.
   */
  lemma PollsConserved(c: Config, steps: seq<Step>)
    requires Run(c, Init(c), steps)
    ensures var (p, b) := (After(c, Init(c), steps).now, After(c, Init(c), steps).book);
            && b.polls == b.acked + b.lost + b.discarded + b.sinceReset
            && p.pollCount == Wrap(b.sinceReset)
            && (p.place == Top || !p.cancelled ==> b.discarded == 0)
  {
    InitInv(c);
    InvHolds(c, Init(c), steps);
  }

  /**
   * At the top of an iteration the server has what was acknowledged, less what it answered without storing, plus what
   * failed attempts and unseen commits left.
   */
  lemma ServerTotal(c: Config, steps: seq<Step>)
    requires Run(c, Init(c), steps) && After(c, Init(c), steps).now.place == Top
    ensures var (p, b) := (After(c, Init(c), steps).now, After(c, Init(c), steps).book);
            && p.counter == Wrap(c.initial + b.acked - b.unstored + b.strays + b.repeats)
            && b.strays <= b.failed && b.unstored <= b.acked + b.strays + b.repeats
            && (!c.grpc ==> b.unstored == 0) && (!c.transactional ==> b.repeats == 0)
  {
    hide Enabled, Do, Wrap;
    InitInv(c);
    InvHolds(c, Init(c), steps);
  }

  /**
   * Absent overflow the server is behind the acknowledged polls exactly when more went unstored than was stored beside
   * the answers; over HTTP never.
   */
  lemma ServerHasAcknowledged(c: Config, steps: seq<Step>)
    requires Run(c, Init(c), steps) && After(c, Init(c), steps).now.place == Top
    requires var b := After(c, Init(c), steps).book; c.initial + b.acked + b.strays + b.repeats <= MAX
    ensures var (p, b) := (After(c, Init(c), steps).now, After(c, Init(c), steps).book);
            var beside := b.strays + b.repeats;
            && (p.counter >= c.initial + b.acked <==> beside >= b.unstored)
            && (p.counter == c.initial + b.acked <==> beside == b.unstored)
            && (!c.grpc ==>
                  p.counter >= c.initial + b.acked && (p.counter == c.initial + b.acked <==> beside == 0))
  {
    hide Enabled, Do, Wrap, Run, After;
    ServerTotal(c, steps);
  }

  /**
   * Server and agent together hold every poll taken but the overtaken and the unstored ones, and what was stored beside
   * the answers once more.
   */
  lemma EveryPollCounted(c: Config, steps: seq<Step>)
    requires Run(c, Init(c), steps) && After(c, Init(c), steps).now.place == Top
    ensures var (p, b) := (After(c, Init(c), steps).now, After(c, Init(c), steps).book);
            Wrap(p.counter + p.pollCount)
            == Wrap(c.initial + (b.polls - b.lost - b.unstored) + b.strays + b.repeats)
  {
    hide Wrap, Enabled, Do;
    ServerTotal(c, steps);
    PollsConserved(c, steps);
    var b := After(c, Init(c), steps).book;
    var total := c.initial + b.acked - b.unstored + b.strays + b.repeats;
    WrappedDelta(total, b.sinceReset);
    assert total + b.sinceReset == c.initial + (b.polls - b.lost - b.unstored) + b.strays + b.repeats;
  }

  // Which polls are lost, read off the steps alone.

  /** Polls after the last parse. */
  function SinceParse(steps: seq<Step>): nat {
    if steps == [] || steps[|steps| - 1] == Parse then 0
    else SinceParse(steps[..|steps| - 1]) + if steps[|steps| - 1] == Poll then 1 else 0
  }

  /** At every acknowledged reset, the polls after the parse it belongs to. */
  function LostIn(steps: seq<Step>): nat {
    if steps == [] then 0
    else
      var before := steps[..|steps| - 1];
      LostIn(before) + if steps[|steps| - 1] == Reset(true) then SinceParse(before) else 0
  }

  /** The last step of a run is taken from where the steps before it lead. */
  lemma {:induction false} LastStep(c: Config, s: State, steps: seq<Step>)
    requires Run(c, s, steps) && steps != []
    ensures var (before, a) := (steps[..|steps| - 1], steps[|steps| - 1]);
            Run(c, s, before) && Enabled(c, After(c, s, before).now, a)
            && After(c, s, steps) == Do(c, After(c, s, before), a)
    decreases steps
  {
    hide Enabled, Do;
    if |steps| == 1 {
      assert steps[1..] == [] && steps[..0] == [];
    } else {
      LastStep(c, Do(c, s, steps[0]), steps[1..]);
      assert steps[..|steps| - 1][1..] == steps[1..][..|steps| - 2];
    }
  }

  /** The ledger's lost and overtaken polls are those of the step sequence. */
  lemma {:induction false} LostIsCounted(c: Config, steps: seq<Step>)
    requires Run(c, Init(c), steps)
    ensures var s := After(c, Init(c), steps);
            && s.book.lost == LostIn(steps)
            && (UnderWay(s.now.place) ==> Parse in steps && s.book.overtaken == SinceParse(steps))
  {
    hide Wrap, Run, After;
    if steps == [] {
      assert After(c, Init(c), []) == Init(c) by { EmptyRun(c); }
    } else {
      var (before, a) := (steps[..|steps| - 1], steps[|steps| - 1]);
      LastStep(c, Init(c), steps);
      LostIsCounted(c, before);
      assert steps == before + [a];
      LostStep(c, After(c, Init(c), before), a);
    }
  }

  lemma EmptyRun(c: Config)
    ensures Run(c, Init(c), []) && After(c, Init(c), []) == Init(c)
  {}

  /** How one step moves the two entries. */
  lemma LostStep(c: Config, s: State, a: Step)
    requires Enabled(c, s.now, a)
    ensures var t := Do(c, s, a);
            && t.book.lost == s.book.lost + (if a == Reset(true) then s.book.overtaken else 0)
            && (a == Reset(true) ==> UnderWay(s.now.place))
            && (UnderWay(t.now.place) ==>
                  if a == Parse then t.book.overtaken == 0
                  else UnderWay(s.now.place)
                       && t.book.overtaken == s.book.overtaken + if a == Poll then 1 else 0)
  {
    hide Wrap;
  }

  /** Step i parses, step j polls, and step k is the reset of that report, acknowledged. */
  predicate Overtakes(steps: seq<Step>, i: nat, j: nat, k: nat) {
    && i < j < k < |steps|
    && steps[i] == Parse && steps[j] == Poll && steps[k] == Reset(true)
    && forall m :: i < m < k ==> steps[m] != Parse
  }

  ghost predicate SomeOvertaken(steps: seq<Step>) {
    exists i: nat, j: nat, k: nat :: Overtakes(steps, i, j, k)
  }

  /** A poll after the last parse, if SinceParse counts one. */
  lemma {:induction false} FindPoll(steps: seq<Step>) returns (i: nat, j: nat)
    requires Parse in steps && SinceParse(steps) > 0
    ensures i < j < |steps| && steps[i] == Parse && steps[j] == Poll
    ensures forall m :: i < m < |steps| ==> steps[m] != Parse
  {
    var before := steps[..|steps| - 1];
    if SinceParse(before) > 0 {
      i, j := FindPoll(before);
    } else {
      j := |steps| - 1;
      i := j - 1;
      while steps[i] != Parse
        invariant i < j && Parse in steps[..i + 1] && forall m :: i < m < |steps| ==> steps[m] != Parse
        decreases i
      {
        i := i - 1;
      }
    }
  }

  lemma {:induction false} PollIsCounted(steps: seq<Step>, j: nat)
    requires j < |steps| && steps[j] == Poll && forall m :: j < m < |steps| ==> steps[m] != Parse
    ensures SinceParse(steps) > 0
  {
    if j < |steps| - 1 {
      PollIsCounted(steps[..|steps| - 1], j);
    }
  }

  lemma {:induction false} LostInIff(c: Config, steps: seq<Step>)
    requires Run(c, Init(c), steps)
    ensures LostIn(steps) == 0 <==> !SomeOvertaken(steps)
  {
    hide Run, After, Enabled, Do;
    if steps != [] {
      var (before, a) := (steps[..|steps| - 1], steps[|steps| - 1]);
      LastStep(c, Init(c), steps);
      LostInIff(c, before);
      if SomeOvertaken(before) {
        var i: nat, j: nat, k: nat :| Overtakes(before, i, j, k);
        assert Overtakes(steps, i, j, k);
      }
      if a == Reset(true) && SinceParse(before) > 0 {
        ResetParsed(c, before);
        var i, j := FindPoll(before);
        assert Overtakes(steps, i, j, |before|);
      }
      if SomeOvertaken(steps) {
        var i: nat, j: nat, k: nat :| Overtakes(steps, i, j, k);
        if k < |before| {
          assert Overtakes(before, i, j, k);
        } else {
          PollIsCounted(before, j);
        }
      }
    }
  }

  /** A reset comes after a parse. */
  lemma ResetParsed(c: Config, steps: seq<Step>)
    requires Run(c, Init(c), steps) && Enabled(c, After(c, Init(c), steps).now, Reset(true))
    ensures Parse in steps
  {
    LostIsCounted(c, steps);
  }

  /** A run loses no poll if and only if no poll stands between a parse and the reset of its acknowledged report. */
  lemma NothingLostIff(c: Config, steps: seq<Step>)
    requires Run(c, Init(c), steps)
    ensures After(c, Init(c), steps).book.lost == 0 <==> !SomeOvertaken(steps)
  {
    LostIsCounted(c, steps);
    LostInIff(c, steps);
  }

  // Ownership.

  /** Queued jobs, jobs in workers' hands and unread results are at most one together, and none at the top. */
  lemma SingleJob(c: Config, steps: seq<Step>)
    requires Run(c, Init(c), steps)
    ensures var p := After(c, Init(c), steps).now;
            |p.workers| == WORKERS && Jobs(p) <= 1 && (p.place == Top ==> Jobs(p) == 0)
  {
    InitInv(c);
    InvHolds(c, Init(c), steps);
  }

  lemma PayloadKept(c: Config, p: Program, a: Step)
    requires JobInv(c, p) && Enabled(c, p, a)
    ensures Jobs(p) > 0 ==> Move(c, p, a).payload == p.payload
  {
    hide Wrap, Held, WorkersOk;
    if a.Work? {
      WorkKeepsPayload(c, p, a.w, a.act);
    }
  }

  lemma WorkKeepsPayload(c: Config, p: Program, w: nat, act: Action)
    requires Enabled(c, p, Work(w, act))
    ensures Move(c, p, Work(w, act)).payload == p.payload
  {
    hide Wrap;
  }

  /**
   * While a job is out no step rewrites the shared payload, and it carries the polls of the report it was made
   * for.
   */
  lemma PayloadNotRewritten(c: Config, steps: seq<Step>, a: Step)
    requires Run(c, Init(c), steps) && Enabled(c, After(c, Init(c), steps).now, a)
    ensures var s := After(c, Init(c), steps);
            && |s.now.workers| == WORKERS
            && (Jobs(s.now) > 0 ==> s.now.payload == Some(Wrap(s.book.sent)))
            && (Jobs(s.now) > 0 ==> Move(c, s.now, a).payload == s.now.payload)
            && (s.now.payload != Move(c, s.now, a).payload ==> s.now.workers == [Idle, Idle, Idle])
  {
    hide Enabled, Move;
    InitInv(c);
    InvHolds(c, Init(c), steps);
    PayloadKept(c, After(c, Init(c), steps).now, a);
  }

  // Cancellation.

  /** A worker's step cancels nothing, takes no poll, and does not touch a stopped report loop. */
  lemma EffectKeeps(c: Config, p: Program, k: Worker, act: Action)
    requires CanWork(c, p, k, act)
    ensures var q := Effect(c, p, k, act);
            && q.cancelled == p.cancelled && q.polled == p.polled && q.kernelPolled == p.kernelPolled
            && (p.place == Stopped ==> q.place == Stopped)
  {
    hide Wrap;
  }

  lemma FlagsStep(c: Config, s: State, a: Step)
    requires Enabled(c, s.now, a)
    ensures var (p, q) := (s.now, Do(c, s, a).now);
            && (q.cancelled <==> p.cancelled || a == Cancel)
            && (q.polled <==> p.polled || a == Poll)
            && (q.kernelPolled <==> p.kernelPolled || a == KernelPoll)
            && (p.place == Stopped ==> q.place == Stopped)
  {
    hide Wrap, Effect, Next, Record;
    if a.Work? {
      EffectKeeps(c, s.now, s.now.workers[a.w], a.act);
    }
  }

  lemma {:induction false} FlagsFrom(c: Config, s: State, steps: seq<Step>)
    requires Run(c, s, steps)
    ensures var (p, q) := (s.now, After(c, s, steps).now);
            && (q.cancelled <==> p.cancelled || Cancel in steps)
            && (q.polled <==> p.polled || Poll in steps)
            && (q.kernelPolled <==> p.kernelPolled || KernelPoll in steps)
            && (p.place == Stopped ==> q.place == Stopped)
    decreases steps
  {
    hide Enabled, Do;
    if steps != [] {
      FlagsStep(c, s, steps[0]);
      FlagsFrom(c, Do(c, s, steps[0]), steps[1..]);
    }
  }

  /** The context is done from the step that cancels it on, and not before. */
  lemma CancelledIff(c: Config, steps: seq<Step>)
    requires Run(c, Init(c), steps)
    ensures After(c, Init(c), steps).now.cancelled <==> Cancel in steps
  {
    FlagsFrom(c, Init(c), steps);
  }

  /** The check behind the reset ends the loop after a cancellation, and before it goes back to the top. */
  lemma CheckStopsIff(c: Config, steps: seq<Step>)
    requires Run(c, Init(c), steps) && Enabled(c, After(c, Init(c), steps).now, Check)
    ensures Run(c, Init(c), steps + [Check])
    ensures After(c, Init(c), steps + [Check]).now.place == if Cancel in steps then Stopped else Top
  {
    hide Run, After;
    CancelledIff(c, steps);
    Extend(c, Init(c), steps, Check);
  }

  /** A worker that comes back from a send exits after a cancellation, and before it reports its result. */
  lemma WorkerExitsIff(c: Config, steps: seq<Step>, w: nat)
    requires Run(c, Init(c), steps) && Enabled(c, After(c, Init(c), steps).now, Work(w, CheckDone))
    ensures Run(c, Init(c), steps + [Work(w, CheckDone)])
    ensures var (p, q) := (After(c, Init(c), steps).now, After(c, Init(c), steps + [Work(w, CheckDone)]).now);
            && w < |p.workers| && p.workers[w].Sent? && |q.workers| == |p.workers|
            && q.workers[w] == if Cancel in steps then Exited(p.workers[w].ok) else Posting(p.workers[w].ok)
  {
    hide Run, After;
    CancelledIff(c, steps);
    Extend(c, Init(c), steps, Work(w, CheckDone));
  }

  /** Both selects of the report loop give way to a cancellation, and to nothing but it. */
  lemma SelectsGiveWayIff(c: Config, steps: seq<Step>)
    requires Run(c, Init(c), steps)
    ensures var p := After(c, Init(c), steps).now;
            && (p.place == Queueing ==> (Enabled(c, p, SkipQueue) <==> Cancel in steps))
            && (p.place == Awaiting ==> (Enabled(c, p, SkipResult) <==> Cancel in steps))
  {
    CancelledIff(c, steps);
  }

  /** No report is parsed before the first poll, nor sent before the first kernel poll. */
  lemma ReportsAwaitPolls(c: Config, steps: seq<Step>)
    requires Run(c, Init(c), steps)
    ensures var p := After(c, Init(c), steps).now;
            && (Enabled(c, p, Parse) <==> p.place == Top && Poll in steps)
            && (Enabled(c, p, EncodeOk) <==> p.place == Parsed && KernelPoll in steps)
            && (Enabled(c, p, EncodeFail) <==> p.place == Parsed && KernelPoll in steps && !c.grpc)
  {
    FlagsFrom(c, Init(c), steps);
  }

  /** A stopped agent stays stopped. */
  lemma StoppedForGood(c: Config, s: State, steps: seq<Step>)
    requires Run(c, s, steps) && s.now.place == Stopped
    ensures After(c, s, steps).now.place == Stopped
  {
    FlagsFrom(c, s, steps);
  }

  // Progress.

  /** After the first polls and until it stops, some step of the agent itself is always possible. */
  lemma NeverStuck(c: Config, steps: seq<Step>) returns (a: Step)
    requires Run(c, Init(c), steps)
    requires var p := After(c, Init(c), steps).now; p.place != Stopped && p.polled && p.kernelPolled
    ensures !External(a) && Enabled(c, After(c, Init(c), steps).now, a)
  {
    InitInv(c);
    InvHolds(c, Init(c), steps);
    var p := After(c, Init(c), steps).now;
    match p.place
    case Top => a := Parse;
    case Parsed => a := EncodeOk;
    case Queueing => a := if c.capacity == 0 then Work(0, HandOver) else Enqueue;
    case Awaiting => a := WhileAwaiting(c, p);
    case Resetting(acked) => a := Reset(acked);
    case Checking => a := Check;
  }

  /** A worker that holds a job can go on with it. */
  function Onward(c: Config, k: Worker): Action {
    match k
    case Idle => TakeJob
    case Sending(tries) => GiveUp
    case Sent(ok) => CheckDone
    case Posting(ok) => if c.capacity == 0 then PostDirect else Post
    case Exited(ok) => Post
  }

  lemma WhileAwaiting(c: Config, p: Program) returns (a: Step)
    requires JobInv(c, p) && p.place == Awaiting
    ensures !External(a) && Enabled(c, p, a)
  {
    if p.cancelled {
      a := SkipResult;
    } else if p.results != [] {
      a := Receive;
    } else {
      var w := if !p.workers[1].Idle? then 1 else if !p.workers[2].Idle? then 2 else 0;
      a := Work(w, Onward(c, p.workers[w]));
    }
  }

  /** Steps a worker's job still needs. */
  function JobLeft(c: Config, k: Worker): int {
    match k
    case Idle => 0
    case Sending(tries) => c.attempts - tries + 3
    case Sent(ok) => 2
    case Posting(ok) => 1
    case Exited(ok) => 0
  }

  /** Steps of the agent left before it parses again or has nothing to do. */
  function Left(c: Config, p: Program): int
    requires |p.workers| == WORKERS
  {
    (match p.place
     case Top => 0
     case Stopped => 0
     case Checking => 1
     case Resetting(acked) => 2
     case Awaiting => 3
     case Queueing => c.attempts + 8
     case Parsed => c.attempts + 9)
    + (if p.queued > 0 then c.attempts + 4 else 0)
    + JobLeft(c, p.workers[0]) + JobLeft(c, p.workers[1]) + JobLeft(c, p.workers[2])
  }

  predicate OwnStep(a: Step) { !External(a) && a != Parse }

  function OwnSteps(steps: seq<Step>): nat {
    if steps == [] then 0 else (if OwnStep(steps[0]) then 1 else 0) + OwnSteps(steps[1..])
  }

  lemma LeftBounds(c: Config, p: Program)
    requires JobInv(c, p)
    ensures 0 <= Left(c, p) <= c.attempts + 9
  {}

  lemma LeftWorkStep(c: Config, p: Program, w: nat, act: Action)
    requires JobInv(c, p) && Enabled(c, p, Work(w, act))
    ensures Left(c, Move(c, p, Work(w, act))) <= Left(c, p) - if act == CommitUnseen then 0 else 1
  {
    hide Wrap;
  }

  lemma {:induction false} LeftStep(c: Config, p: Program, a: Step)
    requires JobInv(c, p) && Enabled(c, p, a) && a != Parse
    ensures JobInv(c, Move(c, p, a))
    ensures Left(c, Move(c, p, a)) <= Left(c, p) - if OwnStep(a) then 1 else 0
  {
    hide Wrap;
    JobStep(c, p, a);
    if a.Work? {
      LeftWorkStep(c, p, a.w, a.act);
    }
  }

  lemma {:induction false} LeftDecreases(c: Config, s: State, steps: seq<Step>)
    requires JobInv(c, s.now) && Run(c, s, steps) && Parse !in steps
    ensures OwnSteps(steps) <= Left(c, s.now)
    decreases steps
  {
    hide JobInv, Enabled, Move, Record, Left;
    if steps == [] {
      LeftBounds(c, s.now);
    } else {
      LeftStep(c, s.now, steps[0]);
      LeftDecreases(c, Do(c, s, steps[0]), steps[1..]);
    }
  }

  /** A report cannot drag on: between two parses the agent takes at most attempts + 9 steps. */
  lemma ReportsEnd(c: Config, before: seq<Step>, steps: seq<Step>)
    requires Run(c, Init(c), before) && Run(c, After(c, Init(c), before), steps) && Parse !in steps
    ensures OwnSteps(steps) <= c.attempts + 9
  {
    InitInv(c);
    InvHolds(c, Init(c), before);
    LeftBounds(c, After(c, Init(c), before).now);
    LeftDecreases(c, After(c, Init(c), before), steps);
  }

  // Two short runs.

  lemma {:induction false} Extend(c: Config, s: State, steps: seq<Step>, a: Step)
    requires Run(c, s, steps) && Enabled(c, After(c, s, steps).now, a)
    ensures Run(c, s, steps + [a]) && After(c, s, steps + [a]) == Do(c, After(c, s, steps), a)
    decreases steps
  {
    hide Enabled, Do;
    if steps == [] {
      assert [a][1..] == [];
    } else {
      assert (steps + [a])[1..] == steps[1..] + [a];
      Extend(c, Do(c, s, steps[0]), steps[1..], a);
    }
  }

  /** One poll, and perhaps a second one after the parse; then the report is answered, stored or not. */
  lemma OneReport(c: Config, late: bool, answer: Action) returns (steps: seq<Step>)
    requires c.attempts > 0 && (answer == Answered || (c.grpc && answer == AnsweredUnstored))
    ensures Run(c, Init(c), steps)
    ensures var (p, b) := (After(c, Init(c), steps).now, After(c, Init(c), steps).book);
            && p.place == Top && b.acked == 1 && p.pollCount == 0 && b.polls == (if late then 2 else 1)
            && p.counter == if answer == Answered then Wrap(c.initial + 1) else c.initial
  {
    hide Run, After, Enabled, Move, Record, Wrap;
    steps := ReportParsed(c, late);
    steps := ReportAnswered(c, steps, answer);
    steps := ReportReceived(c, steps);
    steps := ReportCounted(c, steps);
  }

  lemma ReportParsed(c: Config, late: bool) returns (steps: seq<Step>)
    ensures Run(c, Init(c), steps)
    ensures var (p, b, n) := (Init(c).now, Init(c).book, if late then 2 else 1);
            After(c, Init(c), steps) == State(
              p.(place := Parsed, polled := true, kernelPolled := true, slice := 1, pollCount := n),
              b.(sent := 1, polls := n, sinceReset := n, overtaken := n - 1))
  {
    steps := [];
    Extend(c, Init(c), steps, Poll);
    steps := steps + [Poll];
    Extend(c, Init(c), steps, KernelPoll);
    steps := steps + [KernelPoll];
    Extend(c, Init(c), steps, Parse);
    steps := steps + [Parse];
    if late {
      Extend(c, Init(c), steps, Poll);
      steps := steps + [Poll];
    }
  }

  lemma ReportAnswered(c: Config, start: seq<Step>, answer: Action) returns (steps: seq<Step>)
    requires c.attempts > 0 && (answer == Answered || (c.grpc && answer == AnsweredUnstored))
    requires Run(c, Init(c), start)
    requires var p := After(c, Init(c), start).now;
             p.place == Parsed && p.kernelPolled && p.queued == 0 && p.workers == [Idle, Idle, Idle]
    ensures Run(c, Init(c), steps)
    ensures var (p, b) := (After(c, Init(c), start).now, After(c, Init(c), start).book);
            var q := p.(place := Awaiting, payload := Some(p.slice), workers := [Sent(true), Idle, Idle]);
            && After(c, Init(c), steps).now ==
               (if answer == Answered then q.(counter := Wrap(p.counter + p.slice)) else q)
            && After(c, Init(c), steps).book == RecordWork(q, b, answer)
  {
    hide Run, After, Wrap;
    steps := start;
    Extend(c, Init(c), steps, EncodeOk);
    steps := steps + [EncodeOk];
    if c.capacity == 0 {
      Extend(c, Init(c), steps, Work(0, HandOver));
      steps := steps + [Work(0, HandOver)];
    } else {
      Extend(c, Init(c), steps, Enqueue);
      steps := steps + [Enqueue];
      Extend(c, Init(c), steps, Work(0, TakeJob));
      steps := steps + [Work(0, TakeJob)];
    }
    Extend(c, Init(c), steps, Work(0, answer));
    steps := steps + [Work(0, answer)];
  }

  lemma ReportReceived(c: Config, start: seq<Step>) returns (steps: seq<Step>)
    requires Run(c, Init(c), start)
    requires var p := After(c, Init(c), start).now;
             !p.cancelled && p.place == Awaiting && p.workers == [Sent(true), Idle, Idle] && p.results == []
    ensures Run(c, Init(c), steps)
    ensures var s := After(c, Init(c), start);
            After(c, Init(c), steps) ==
            s.(now := s.now.(place := Resetting(true), workers := [Idle, Idle, Idle]))
  {
    hide Run, After, Wrap;
    steps := start;
    Extend(c, Init(c), steps, Work(0, CheckDone));
    steps := steps + [Work(0, CheckDone)];
    if c.capacity == 0 {
      Extend(c, Init(c), steps, Work(0, PostDirect));
      steps := steps + [Work(0, PostDirect)];
    } else {
      Extend(c, Init(c), steps, Work(0, Post));
      steps := steps + [Work(0, Post)];
      Extend(c, Init(c), steps, Receive);
      steps := steps + [Receive];
    }
  }

  lemma ReportCounted(c: Config, start: seq<Step>) returns (steps: seq<Step>)
    requires Run(c, Init(c), start)
    requires var p := After(c, Init(c), start).now; !p.cancelled && p.place == Resetting(true)
    ensures Run(c, Init(c), steps)
    ensures var (p, b) := (After(c, Init(c), start).now, After(c, Init(c), start).book);
            && After(c, Init(c), steps).now == p.(place := Top, pollCount := 0)
            && After(c, Init(c), steps).book ==
               b.(sinceReset := 0, acked := b.acked + b.sent, lost := b.lost + b.overtaken)
  {
    hide Run, After, Wrap;
    steps := start;
    Extend(c, Init(c), steps, Reset(true));
    steps := steps + [Reset(true)];
    Extend(c, Init(c), steps, Check);
    steps := steps + [Check];
  }

  /** Over gRPC a report can be acknowledged and its polls reset although the server stored nothing. */
  lemma GrpcLosesAcknowledged(c: Config) returns (steps: seq<Step>)
    requires c.grpc && c.attempts > 0
    ensures Run(c, Init(c), steps)
    ensures var (p, b) := (After(c, Init(c), steps).now, After(c, Init(c), steps).book);
            p.place == Top && b.acked == 1 && b.polls == 1 && p.pollCount == 0 && p.counter == c.initial
  {
    steps := OneReport(c, false, AnsweredUnstored);
  }

  /** A poll between parse and reset is in neither counter, with no failure anywhere. */
  lemma PollOvertaken(c: Config) returns (steps: seq<Step>)
    requires c.attempts > 0
    ensures Run(c, Init(c), steps)
    ensures var (p, b) := (After(c, Init(c), steps).now, After(c, Init(c), steps).book);
            p.place == Top && b.polls == 2 && p.pollCount == 0 && p.counter == Wrap(c.initial + 1)
  {
    steps := OneReport(c, true, Answered);
  }

  /** Cancelled while its report waits for an answer: the agent stops, and its poll is neither acknowledged nor kept. */
  lemma StopsWithoutAnswer(c: Config) returns (steps: seq<Step>)
    requires c.capacity > 0
    ensures Run(c, Init(c), steps) && Cancel in steps
    ensures var (p, b) := (After(c, Init(c), steps).now, After(c, Init(c), steps).book);
            p.place == Stopped && b.polls == 1 && b.discarded == 1 && b.acked == 0 && p.pollCount == 0
  {
    hide Run, After, Enabled, Do, Wrap;
    steps := ReportParsed(c, false);
    steps := CancelledReport(c, steps);
    steps := StoppedReport(c, steps);
  }

  lemma CancelledReport(c: Config, start: seq<Step>) returns (steps: seq<Step>)
    requires c.capacity > 0 && Run(c, Init(c), start)
    requires var p := After(c, Init(c), start).now;
             p.place == Parsed && p.kernelPolled && p.queued == 0 && !p.cancelled
    ensures Run(c, Init(c), steps) && Cancel in steps
    ensures var s := After(c, Init(c), start);
            After(c, Init(c), steps) ==
            s.(now := s.now.(place := Awaiting, payload := Some(s.now.slice), queued := 1, cancelled := true))
  {
    hide Run, After, Wrap;
    steps := start;
    Extend(c, Init(c), steps, EncodeOk);
    steps := steps + [EncodeOk];
    Extend(c, Init(c), steps, Enqueue);
    steps := steps + [Enqueue];
    Extend(c, Init(c), steps, Cancel);
    steps := steps + [Cancel];
  }

  lemma StoppedReport(c: Config, start: seq<Step>) returns (steps: seq<Step>)
    requires Run(c, Init(c), start) && Cancel in start
    requires var p := After(c, Init(c), start).now; p.place == Awaiting && p.cancelled
    ensures Run(c, Init(c), steps) && Cancel in steps
    ensures var (p, b) := (After(c, Init(c), start).now, After(c, Init(c), start).book);
            && After(c, Init(c), steps).now == p.(place := Stopped, pollCount := 0)
            && After(c, Init(c), steps).book == b.(sinceReset := 0, discarded := b.discarded + b.sinceReset)
  {
    hide Run, After, Wrap;
    steps := start;
    Extend(c, Init(c), steps, SkipResult);
    steps := steps + [SkipResult];
    Extend(c, Init(c), steps, Reset(false));
    steps := steps + [Reset(false)];
    Extend(c, Init(c), steps, Check);
    steps := steps + [Check];
  }

  /** One poll has been taken and sent, and nothing has come of it yet. */
  predicate AwaitsOneReport(p: Program, b: Ledger) {
    && p.place == Awaiting && !p.cancelled && p.results == [] && p.pollCount == 1
    && b.polls == 1 && b.acked == 0 && b.discarded == 0 && b.lost == 0
  }

  /** Every attempt up to the limit can fail, and then no more can be made. */
  lemma {:induction false} AllAttemptsFail(c: Config, n: nat) returns (steps: seq<Step>)
    requires c.capacity > 0 && n <= c.attempts
    ensures Run(c, Init(c), steps)
    ensures var (p, b) := (After(c, Init(c), steps).now, After(c, Init(c), steps).book);
            && p.workers == [Sending(n), Idle, Idle] && p.payload == Some(1) && b.sent == 1 && b.failed == n
            && p.limbo == seq(n, _ => 1) && AwaitsOneReport(p, b)
            && (Enabled(c, p, Work(0, Failed)) <==> n < c.attempts)
  {
    if n == 0 {
      steps := FirstSend(c);
    } else {
      steps := AllAttemptsFail(c, n - 1);
      hide Run, After, Wrap;
      Extend(c, Init(c), steps, Work(0, Failed));
      steps := steps + [Work(0, Failed)];
    }
  }

  lemma FirstSend(c: Config) returns (steps: seq<Step>)
    requires c.capacity > 0
    ensures Run(c, Init(c), steps)
    ensures var (p, b) := (After(c, Init(c), steps).now, After(c, Init(c), steps).book);
            && p.workers == [Sending(0), Idle, Idle] && p.payload == Some(1) && p.limbo == []
            && b.sent == 1 && b.failed == 0 && AwaitsOneReport(p, b)
  {
    hide Run, After, Wrap;
    steps := ReportParsed(c, false);
    Extend(c, Init(c), steps, EncodeOk);
    steps := steps + [EncodeOk];
    Extend(c, Init(c), steps, Enqueue);
    steps := steps + [Enqueue];
    Extend(c, Init(c), steps, Work(0, TakeJob));
    steps := steps + [Work(0, TakeJob)];
  }

  /** A report no attempt gets through goes back to the top with its poll still counted, to be sent anew. */
  lemma FailedReportIsKept(c: Config) returns (steps: seq<Step>)
    requires c.capacity > 0
    ensures Run(c, Init(c), steps)
    ensures var (p, b) := (After(c, Init(c), steps).now, After(c, Init(c), steps).book);
            && p.place == Top && p.pollCount == 1 && b.polls == 1 && b.acked == 0 && b.lost == 0
            && p.workers == [Idle, Idle, Idle] && p.limbo == seq(c.attempts, _ => 1)
  {
    hide Run, After, Wrap;
    steps := AllAttemptsFail(c, c.attempts);
    steps := ReportGivenUp(c, steps);
  }

  lemma ReportGivenUp(c: Config, start: seq<Step>) returns (steps: seq<Step>)
    requires c.capacity > 0 && Run(c, Init(c), start)
    requires var p := After(c, Init(c), start).now;
             p.place == Awaiting && !p.cancelled && p.results == [] && p.workers == [Sending(c.attempts), Idle, Idle]
    ensures Run(c, Init(c), steps)
    ensures var (p, b) := (After(c, Init(c), start).now, After(c, Init(c), start).book);
            After(c, Init(c), steps) == State(p.(place := Top, workers := [Idle, Idle, Idle]), b)
  {
    hide Run, After, Wrap;
    steps := start;
    Extend(c, Init(c), steps, Work(0, GiveUp));
    steps := steps + [Work(0, GiveUp)];
    Extend(c, Init(c), steps, Work(0, CheckDone));
    steps := steps + [Work(0, CheckDone)];
    Extend(c, Init(c), steps, Work(0, Post));
    steps := steps + [Work(0, Post)];
    Extend(c, Init(c), steps, Receive);
    steps := steps + [Receive];
  }

  /** A report that cannot be encoded is dropped, over HTTP, and its poll stays counted. */
  lemma UnencodedReportIsKept(c: Config) returns (steps: seq<Step>)
    requires !c.grpc
    ensures Run(c, Init(c), steps)
    ensures var (p, b) := (After(c, Init(c), steps).now, After(c, Init(c), steps).book);
            p.place == Top && p.pollCount == 1 && p.payload == None && b.polls == 1 && b.acked == 0 && b.sent == 1
  {
    hide Run, After, Wrap;
    steps := ReportParsed(c, false);
    Extend(c, Init(c), steps, EncodeFail);
    steps := steps + [EncodeFail];
  }
}
