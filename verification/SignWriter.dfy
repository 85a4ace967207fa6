/** signResponseWriter: a handler, one helper goroutine per WriteHeader, and two channels of capacity one. */
module SignWriter {
  import opened Encoding

  /** What a handler does with its ResponseWriter. */
  datatype Call = WriteHeader(code: int) | Write(b: seq<byte>)

  /** What the inner ResponseWriter sees: the signature header set, WriteHeader, Write. */
  datatype Event = SetSignature(sig: string) | Header(code: int) | Body(b: seq<byte>)

  /**
   * Where the handler is inside a Write: before sending its token, waiting for the answer, about to write through.
   */
  datatype Place = Ready | Sending | Awaiting | Writing

  /** The handler's calls, the keyed hash, and what it had taken before the first Write. */
  datatype Setup = Setup(trace: seq<Call>, mac: seq<byte> -> seq<byte>, verified: seq<byte>)

  datatype State = State(
    calls: nat,                 // calls the handler has finished
    place: Place,
    setDone: nat,               // tokens in headersSetDone
    sendDone: nat,              // tokens in headersSendDone
    waiting: multiset<int>,     // helpers that wait for a token, by status code
    holding: multiset<int>,     // helpers that have taken one
    reporting: multiset<int>,   // helpers that have written the header and report it
    hashed: seq<byte>,          // everything the hash has taken
    codes: seq<int>,            // codes the inner WriteHeader was called with
    log: seq<Event>)

  function Init(c: Setup): State {
    State(0, Ready, 0, 0, multiset{}, multiset{}, multiset{}, c.verified, [], [])
  }

  /** The atomic steps of the handler (the first five) and of a helper for a given code. */
  datatype Step =
    | IssueHeader | BeginWrite | PutToken | TakeAnswer | EndWrite
    | TakeToken(code: int) | SendHeader(code: int) | PutAnswer(code: int)

  predicate Enabled(c: Setup, s: State, a: Step) {
    match a
    case IssueHeader => s.place == Ready && s.calls < |c.trace| && c.trace[s.calls].WriteHeader?
    case BeginWrite => s.place == Ready && s.calls < |c.trace| && c.trace[s.calls].Write?
    case PutToken => s.place == Sending && s.setDone < 1
    case TakeAnswer => s.place == Awaiting && s.sendDone > 0
    case EndWrite => s.place == Writing && s.calls < |c.trace| && c.trace[s.calls].Write?
    case TakeToken(code) => code in s.waiting && s.setDone > 0
    case SendHeader(code) => code in s.holding
    case PutAnswer(code) => code in s.reporting && s.sendDone < 1
  }

  function Do(c: Setup, s: State, a: Step): State
    requires Enabled(c, s, a)
  {
    match a
    case IssueHeader => s.(calls := s.calls + 1, waiting := s.waiting + multiset{c.trace[s.calls].code})
    case BeginWrite =>
      var hashed := s.hashed + c.trace[s.calls].b;
      s.(place := Sending, hashed := hashed, log := s.log + [SetSignature(HexEncode(c.mac(hashed)))])
    case PutToken => s.(place := Awaiting, setDone := s.setDone + 1)
    case TakeAnswer => s.(place := Writing, sendDone := s.sendDone - 1)
    case EndWrite => s.(place := Ready, calls := s.calls + 1, log := s.log + [Body(c.trace[s.calls].b)])
    case TakeToken(code) =>
      s.(setDone := s.setDone - 1, waiting := s.waiting - multiset{code}, holding := s.holding + multiset{code})
    case SendHeader(code) =>
      s.(holding := s.holding - multiset{code}, reporting := s.reporting + multiset{code},
         codes := s.codes + [code], log := s.log + [Header(code)])
    case PutAnswer(code) => s.(reporting := s.reporting - multiset{code}, sendDone := s.sendDone + 1)
  }

  /** An interleaving: any sequence of steps, each possible when it is taken. */
  predicate Run(c: Setup, s: State, steps: seq<Step>)
    decreases steps
  {
    steps == [] || (Enabled(c, s, steps[0]) && Run(c, Do(c, s, steps[0]), steps[1..]))
  }

  function After(c: Setup, s: State, steps: seq<Step>): State
    requires Run(c, s, steps)
    decreases steps
  {
    if steps == [] then s else After(c, Do(c, s, steps[0]), steps[1..])
  }

  predicate Finished(c: Setup, s: State) {
    s.calls == |c.trace| && s.place == Ready
  }

  // Counting calls.

  function Headers(t: seq<Call>): nat {
    if t == [] then 0 else Headers(t[..|t| - 1]) + (if t[|t| - 1].WriteHeader? then 1 else 0)
  }

  function Writes(t: seq<Call>): nat {
    if t == [] then 0 else Writes(t[..|t| - 1]) + (if t[|t| - 1].Write? then 1 else 0)
  }

  /** Every prefix has at least as many WriteHeader as Write calls. */
  predicate Balanced(t: seq<Call>) {
    forall k :: 0 <= k <= |t| ==> Writes(t[..k]) <= Headers(t[..k])
  }

  // What the log must be.

  function Bodies(t: seq<Call>): (bs: seq<seq<byte>>)
    ensures |bs| == Writes(t)
  {
    if t == [] then []
    else Bodies(t[..|t| - 1]) + (if t[|t| - 1].Write? then [t[|t| - 1].b] else [])
  }

  function Codes(t: seq<Call>): (cs: multiset<int>)
    ensures |cs| == Headers(t)
  {
    if t == [] then multiset{}
    else Codes(t[..|t| - 1]) + (if t[|t| - 1].WriteHeader? then multiset{t[|t| - 1].code} else multiset{})
  }

  function Concat(bs: seq<seq<byte>>): seq<byte> {
    if bs == [] then [] else Concat(bs[..|bs| - 1]) + bs[|bs| - 1]
  }

  function Signature(c: Setup, bs: seq<seq<byte>>): Event {
    SetSignature(HexEncode(c.mac(c.verified + Concat(bs))))
  }

  /** One triple per write: the signature of everything so far, a header, the write. */
  function Triples(c: Setup, bs: seq<seq<byte>>, codes: seq<int>): seq<Event>
    requires |bs| == |codes|
  {
    if bs == [] then []
    else
      var n := |bs| - 1;
      Triples(c, bs[..n], codes[..n]) + [Signature(c, bs), Header(codes[n]), Body(bs[n])]
  }

  // The invariant.

  /** Tokens in the channels or in the hands of a helper. */
  function Live(s: State): nat {
    s.setDone + |s.holding| + |s.reporting| + s.sendDone
  }

  /** The current write has had its header written. */
  predicate HeaderOut(s: State) {
    s.place == Writing || (s.place == Awaiting && (s.sendDone > 0 || |s.reporting| > 0))
  }

  predicate TokenInv(c: Setup, s: State) {
    && s.calls <= |c.trace|
    && (s.place != Ready ==> s.calls < |c.trace| && c.trace[s.calls].Write?)
    && Live(s) == (if s.place == Awaiting then 1 else 0)
  }

  predicate CountInv(c: Setup, s: State) {
    && s.calls <= |c.trace|
    && var t := c.trace[..s.calls];
    && Balanced(t)
    && |s.codes| == Writes(t) + (if HeaderOut(s) then 1 else 0)
    && multiset(s.codes) + s.waiting + s.holding == Codes(t)
  }

  predicate LogInv(c: Setup, s: State) {
    && s.calls <= |c.trace|
    && var bs := Bodies(c.trace[..s.calls]);
    && |s.codes| >= |bs|
    && var triples := Triples(c, bs, s.codes[..|bs|]);
    && if s.place == Ready then
         s.hashed == c.verified + Concat(bs) && s.log == triples
       else
         && s.calls < |c.trace| && c.trace[s.calls].Write?
         && var now := bs + [c.trace[s.calls].b];
         && s.hashed == c.verified + Concat(now)
         && (HeaderOut(s) ==> |s.codes| > |bs|)
         && s.log == triples + [Signature(c, now)] + if HeaderOut(s) then [Header(s.codes[|bs|])] else []
  }

  predicate Inv(c: Setup, s: State) {
    TokenInv(c, s) && CountInv(c, s) && LogInv(c, s)
  }

  lemma SingletonCard(m: multiset<int>, x: int)
    requires |m| == 1 && x in m
    ensures m == multiset{x}
  {
    assert |m - multiset{x}| == 0;
    assert m == multiset{x} + (m - multiset{x});
  }

  lemma PrefixGrows(t: seq<Call>, k: nat)
    requires k < |t|
    ensures t[..k + 1][..k] == t[..k] && |t[..k + 1]| == k + 1 && t[..k + 1][k] == t[k]
  {}

  lemma InitInv(c: Setup)
    ensures Inv(c, Init(c))
  {
    assert c.trace[..0] == [];
    assert c.verified + [] == c.verified;
  }

  lemma TokenStep(c: Setup, s: State, a: Step)
    requires TokenInv(c, s) && Enabled(c, s, a)
    ensures TokenInv(c, Do(c, s, a))
  {
    match a
    case TakeToken(code) =>
      assert |s.holding + multiset{code}| == |s.holding| + 1;
    case SendHeader(code) =>
      assert |s.holding - multiset{code}| == |s.holding| - 1;
      assert |s.reporting + multiset{code}| == |s.reporting| + 1;
    case PutAnswer(code) =>
      assert |s.reporting - multiset{code}| == |s.reporting| - 1;
    case _ =>
  }

  lemma BalancedGrows(t: seq<Call>, k: nat)
    requires k < |t| && Balanced(t[..k]) && (t[k].WriteHeader? || Writes(t[..k]) < Headers(t[..k]))
    ensures Balanced(t[..k + 1])
  {
    var u := t[..k + 1];
    PrefixGrows(t, k);
    forall j | 0 <= j <= |u| ensures Writes(u[..j]) <= Headers(u[..j]) {
      if j <= k {
        assert u[..j] == t[..k][..j];
      } else {
        assert u[..j] == u;
        assert t[..k][..k] == t[..k];
      }
    }
  }

  lemma CountHeaderIssued(c: Setup, s: State)
    requires TokenInv(c, s) && CountInv(c, s) && Enabled(c, s, IssueHeader)
    ensures CountInv(c, Do(c, s, IssueHeader))
  {
    hide Balanced;
    PrefixGrows(c.trace, s.calls);
    BalancedGrows(c.trace, s.calls);
    var m := multiset{c.trace[s.calls].code};
    assert multiset(s.codes) + (s.waiting + m) + s.holding == (multiset(s.codes) + s.waiting + s.holding) + m;
  }

  lemma CountWriteEnded(c: Setup, s: State)
    requires TokenInv(c, s) && CountInv(c, s) && Enabled(c, s, EndWrite)
    ensures CountInv(c, Do(c, s, EndWrite))
  {
    hide Balanced;
    PrefixGrows(c.trace, s.calls);
    assert |multiset(s.codes)| == |s.codes|;
    assert |s.codes| <= |Codes(c.trace[..s.calls])|;
    BalancedGrows(c.trace, s.calls);
  }

  lemma CountHeaderSent(c: Setup, s: State, code: int)
    requires TokenInv(c, s) && CountInv(c, s) && Enabled(c, s, SendHeader(code))
    ensures CountInv(c, Do(c, s, SendHeader(code)))
  {
    hide Balanced, Codes, Writes;
    SingletonCard(s.holding, code);
    var s1 := Do(c, s, SendHeader(code));
    assert multiset(s1.codes) == multiset(s.codes) + multiset{code};
    assert multiset(s1.codes) + s1.waiting + s1.holding == multiset(s.codes) + s.waiting + s.holding;
  }

  lemma CountTokenTaken(c: Setup, s: State, code: int)
    requires TokenInv(c, s) && CountInv(c, s) && Enabled(c, s, TakeToken(code))
    ensures CountInv(c, Do(c, s, TakeToken(code)))
  {
    hide Balanced, Codes, Writes;
    var s1 := Do(c, s, TakeToken(code));
    assert s1.waiting + s1.holding == s.waiting + s.holding;
    assert multiset(s1.codes) + s1.waiting + s1.holding == multiset(s.codes) + s.waiting + s.holding;
  }

  lemma {:induction false} CountStep(c: Setup, s: State, a: Step)
    requires TokenInv(c, s) && CountInv(c, s) && Enabled(c, s, a)
    ensures CountInv(c, Do(c, s, a))
  {
    hide Balanced, Codes, Writes;
    match a
    case IssueHeader => CountHeaderIssued(c, s);
    case EndWrite => CountWriteEnded(c, s);
    case SendHeader(code) => CountHeaderSent(c, s, code);
    case TakeToken(code) => CountTokenTaken(c, s, code);
    case _ =>
  }

  lemma LogHeaderIssued(c: Setup, s: State)
    requires TokenInv(c, s) && LogInv(c, s) && Enabled(c, s, IssueHeader)
    ensures LogInv(c, Do(c, s, IssueHeader))
  {
    hide Triples, Concat;
    PrefixGrows(c.trace, s.calls);
    assert Bodies(c.trace[..s.calls + 1]) == Bodies(c.trace[..s.calls]);
  }

  lemma LogWriteBegun(c: Setup, s: State)
    requires TokenInv(c, s) && LogInv(c, s) && Enabled(c, s, BeginWrite)
    ensures LogInv(c, Do(c, s, BeginWrite))
  {
    hide Triples, Bodies;
    var (bs, b) := (Bodies(c.trace[..s.calls]), c.trace[s.calls].b);
    assert (bs + [b])[..|bs|] == bs;
    assert c.verified + Concat(bs) + b == c.verified + Concat(bs + [b]);
  }

  lemma LogWriteEnded(c: Setup, s: State)
    requires TokenInv(c, s) && LogInv(c, s) && Enabled(c, s, EndWrite)
    requires CountInv(c, s)
    ensures LogInv(c, Do(c, s, EndWrite))
  {
    hide Concat, Balanced, Codes;
    PrefixGrows(c.trace, s.calls);
    var bs := Bodies(c.trace[..s.calls]);
    var now := bs + [c.trace[s.calls].b];
    assert Bodies(c.trace[..s.calls + 1]) == now;
    assert now[..|bs|] == bs;
    var codes := s.codes[..|now|];
    assert codes[..|bs|] == s.codes[..|bs|];
    assert Triples(c, now, codes) ==
           Triples(c, bs, s.codes[..|bs|]) + [Signature(c, now), Header(s.codes[|bs|]), Body(now[|bs|])];
  }

  lemma {:induction false} LogHeaderSent(c: Setup, s: State, code: int)
    requires TokenInv(c, s) && LogInv(c, s) && CountInv(c, s) && Enabled(c, s, SendHeader(code))
    ensures LogInv(c, Do(c, s, SendHeader(code)))
  {
    hide Triples, Concat, Balanced, Codes;
    SingletonCard(s.holding, code);
    var bs := Bodies(c.trace[..s.calls]);
    var s1 := Do(c, s, SendHeader(code));
    assert s1.codes[..|bs|] == s.codes[..|bs|];
  }

  lemma LogStep(c: Setup, s: State, a: Step)
    requires TokenInv(c, s) && CountInv(c, s) && LogInv(c, s) && Enabled(c, s, a)
    ensures LogInv(c, Do(c, s, a))
  {
    hide Balanced, Codes, Triples, Concat, Bodies, Writes;
    match a
    case IssueHeader => LogHeaderIssued(c, s);
    case BeginWrite => LogWriteBegun(c, s);
    case EndWrite => LogWriteEnded(c, s);
    case SendHeader(code) => LogHeaderSent(c, s, code);
    case _ =>
  }

  lemma {:induction false} InvHolds(c: Setup, s: State, steps: seq<Step>)
    requires Inv(c, s) && Run(c, s, steps)
    ensures Inv(c, After(c, s, steps))
    decreases steps
  {
    hide TokenInv, CountInv, LogInv, Enabled, Do;
    if steps != [] {
      TokenStep(c, s, steps[0]);
      CountStep(c, s, steps[0]);
      LogStep(c, s, steps[0]);
      InvHolds(c, Do(c, s, steps[0]), steps[1..]);
    }
  }

  // Safety.

  /** At most one token exists at any time, and only while a Write waits for its answer. */
  lemma AtMostOneToken(c: Setup, steps: seq<Step>)
    requires Run(c, Init(c), steps)
    ensures var s := After(c, Init(c), steps);
            Live(s) <= 1 && s.setDone + s.sendDone <= 1 && (Live(s) == 1 <==> s.place == Awaiting)
  {
    InitInv(c);
    InvHolds(c, Init(c), steps);
  }

  /**
   * Between Writes the inner writer has seen exactly one triple per Write, signed over everything up to it, with
   * codes the handler issued.
   */
  lemma InnerWriterSeesTriples(c: Setup, steps: seq<Step>)
    requires Run(c, Init(c), steps) && After(c, Init(c), steps).place == Ready
    ensures After(c, Init(c), steps).calls <= |c.trace|
    ensures var s := After(c, Init(c), steps);
            var bs := Bodies(c.trace[..s.calls]);
            && |s.codes| == |bs| && s.log == Triples(c, bs, s.codes)
            && multiset(s.codes) <= Codes(c.trace[..s.calls])
  {
    InitInv(c);
    InvHolds(c, Init(c), steps);
    var s := After(c, Init(c), steps);
    assert s.codes[..|s.codes|] == s.codes;
  }

  // Liveness.

  function Cost(t: seq<Call>): nat {
    if t == [] then 0 else (if t[0].Write? then 7 else 1) + Cost(t[1..])
  }

  /** Steps the current Write still needs. */
  function Pending(s: State): nat {
    match s.place
    case Ready => 0
    case Sending => 6
    case Awaiting => if s.setDone > 0 then 5 else if |s.holding| > 0 then 4 else if |s.reporting| > 0 then 3 else 2
    case Writing => 1
  }

  /** Steps left until the handler is done. */
  function Remaining(c: Setup, s: State): nat
    requires TokenInv(c, s)
  {
    if s.place == Ready then Cost(c.trace[s.calls..]) else Pending(s) + Cost(c.trace[s.calls + 1..])
  }

  lemma StepCounts(c: Setup, s: State, a: Step)
    requires TokenInv(c, s) && Enabled(c, s, a)
    ensures TokenInv(c, Do(c, s, a)) && Remaining(c, s) == 1 + Remaining(c, Do(c, s, a))
  {
    if s.place == Ready && s.calls < |c.trace| {
      assert c.trace[s.calls..][0] == c.trace[s.calls];
      assert c.trace[s.calls..][1..] == c.trace[s.calls + 1..];
    }
  }

  /** Every interleaving is finite: n steps bring the end exactly n steps nearer. */
  lemma {:induction false} RunsAreFinite(c: Setup, s: State, steps: seq<Step>)
    requires TokenInv(c, s) && Run(c, s, steps)
    ensures TokenInv(c, After(c, s, steps))
    ensures |steps| + Remaining(c, After(c, s, steps)) == Remaining(c, s)
    decreases steps
  {
    hide Enabled, Do, TokenInv, Remaining;
    if steps != [] {
      StepCounts(c, s, steps[0]);
      RunsAreFinite(c, Do(c, s, steps[0]), steps[1..]);
    }
  }

  ghost predicate Stuck(c: Setup, s: State) {
    forall a :: !Enabled(c, s, a)
  }

  lemma EmptyIfNoElement(m: multiset<int>)
    ensures (forall x :: x !in m) ==> m == multiset{}
  {
    if forall x :: x !in m {
      assert m == multiset{};
    }
  }

  lemma Pick(m: multiset<int>) returns (x: int)
    requires |m| > 0
    ensures x in m
  {
    EmptyIfNoElement(m);
    x :| x in m;
  }

  /** The token in headersSetDone has a helper to take it. */
  lemma HelperWaits(c: Setup, s: State)
    requires TokenInv(c, s) && CountInv(c, s) && Balanced(c.trace) && s.place == Awaiting && s.setDone > 0
    ensures |s.waiting| > 0
  {
    PrefixGrows(c.trace, s.calls);
    assert |multiset(s.codes)| == |s.codes|;
    assert Writes(c.trace[..s.calls + 1]) <= Headers(c.trace[..s.calls + 1]);
  }

  /** With a helper left for every Write, something can always happen until the handler is done. */
  lemma Progress(c: Setup, s: State) returns (a: Step)
    requires Inv(c, s) && Balanced(c.trace) && !Finished(c, s)
    ensures Enabled(c, s, a)
  {
    hide LogInv, Codes, Headers, Writes;
    a := IssueHeader;
    if s.place == Ready {
      a := if c.trace[s.calls].WriteHeader? then IssueHeader else BeginWrite;
    } else if s.place == Sending {
      a := PutToken;
    } else if s.place == Writing {
      a := EndWrite;
    } else if s.sendDone > 0 {
      a := TakeAnswer;
    } else if |s.holding| > 0 {
      var code := Pick(s.holding);
      a := SendHeader(code);
    } else if |s.reporting| > 0 {
      var code := Pick(s.reporting);
      a := PutAnswer(code);
    } else {
      HelperWaits(c, s);
      var code := Pick(s.waiting);
      a := TakeToken(code);
    }
  }

  /** Every interleaving can be carried on until nothing is possible any more. */
  lemma {:induction false} RunToTheEnd(c: Setup, s: State) returns (steps: seq<Step>)
    requires TokenInv(c, s)
    ensures Run(c, s, steps) && Stuck(c, After(c, s, steps))
    decreases Remaining(c, s)
  {
    steps := [];
    if !Stuck(c, s) {
      var a :| Enabled(c, s, a);
      StepCounts(c, s, a);
      var rest := RunToTheEnd(c, Do(c, s, a));
      steps := [a] + rest;
      assert steps[1..] == rest;
    }
  }

  /** Every interleaving that has come to its end has finished the handler. */
  ghost predicate AlwaysFinishes(c: Setup) {
    forall steps :: Run(c, Init(c), steps) && Stuck(c, After(c, Init(c), steps)) ==>
      Finished(c, After(c, Init(c), steps))
  }

  /** If some prefix has too few WriteHeader calls, no interleaving ever finishes the handler. */
  lemma UnbalancedNeverFinishes(c: Setup, steps: seq<Step>)
    requires Run(c, Init(c), steps) && !Balanced(c.trace)
    ensures !Finished(c, After(c, Init(c), steps))
  {
    InitInv(c);
    InvHolds(c, Init(c), steps);
    var s := After(c, Init(c), steps);
    assert c.trace[..|c.trace|] == c.trace;
  }

  /**
   * Exact liveness: all interleavings finish the handler if and only if every prefix has enough WriteHeader calls.
   */
  lemma FinishesIffBalanced(c: Setup)
    ensures AlwaysFinishes(c) <==> Balanced(c.trace)
  {
    hide Inv, Enabled, Do, TokenInv, Balanced, Finished;
    InitInv(c);
    if Balanced(c.trace) {
      forall steps | Run(c, Init(c), steps) && Stuck(c, After(c, Init(c), steps))
        ensures Finished(c, After(c, Init(c), steps))
      {
        var s := After(c, Init(c), steps);
        InvHolds(c, Init(c), steps);
        if !Finished(c, s) {
          var a := Progress(c, s);
        }
      }
    } else {
      InitTokens(c);
      var steps := RunToTheEnd(c, Init(c));
      UnbalancedNeverFinishes(c, steps);
    }
  }

  lemma InitTokens(c: Setup)
    ensures TokenInv(c, Init(c))
  {}

  /** A finished handler leaves one blocked helper behind for every WriteHeader beyond the Writes. */
  lemma LeftoverHelpers(c: Setup, steps: seq<Step>)
    requires Run(c, Init(c), steps) && Finished(c, After(c, Init(c), steps))
    ensures var s := After(c, Init(c), steps);
            |s.waiting| == Headers(c.trace) - Writes(c.trace) && Stuck(c, s)
  {
    InitInv(c);
    InvHolds(c, Init(c), steps);
    var s := After(c, Init(c), steps);
    assert c.trace[..s.calls] == c.trace;
    assert |multiset(s.codes)| == |s.codes|;
  }

  /**
   * The server's handlers: one header and one write, http.Error after a header, and a Write with no header at all.
   */
  lemma ServerTraces(code: int, other: int, b: seq<byte>)
    ensures Balanced([WriteHeader(code), Write(b)])
    ensures Balanced([WriteHeader(code), WriteHeader(other), Write(b)])
    ensures !Balanced([Write(b)])
  {
    var (x, y, z) := ([WriteHeader(code), Write(b)], [WriteHeader(code), WriteHeader(other), Write(b)], [Write(b)]);
    assert x[..0] == [] && x[..1] == [WriteHeader(code)] && x[..2] == x;
    assert y[..0] == [] && y[..1] == [WriteHeader(code)] && y[..2] == [WriteHeader(code), WriteHeader(other)];
    assert y[..3] == y && y[..2][..1] == y[..1];
    assert z[..1] == z && z[..0] == [];
    assert Writes(z[..1]) == 1 && Headers(z[..1]) == 0;
  }
}
