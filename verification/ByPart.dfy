/** encryptOAEPbyPart and decryptOAEPbyPart: two loops with different strides. */
module ByPart {
  import opened Wrappers
  import opened Encoding
  import opened Oaep

  function Min(a: int, b: int): int { if a < b then a else b }

  /** The joined blocks, an error from one of them, or slice bounds out of range. */
  datatype Parts = Joined(bytes: seq<byte>) | Failed | Panicked

  /** a in front of the blocks still to come. */
  function Prefixed(a: seq<byte>, r: Parts): Parts {
    match r case Joined(rest) => Joined(a + rest) case _ => r
  }

  lemma PrefixedTwice(a: seq<byte>, b: seq<byte>, r: Parts)
    ensures Prefixed(a, Prefixed(b, r)) == Prefixed(a + b, r)
    ensures Prefixed([], r) == r
  {
    if r.Joined? {
      assert a + (b + r.bytes) == a + b + r.bytes;
      assert [] + r.bytes == r.bytes;
    }
  }

  lemma LastPrefix(a: seq<byte>)
    ensures Prefixed(a, Joined([])) == Joined(a) && Prefixed(a, Failed) == Failed && Prefixed(a, Panicked) == Panicked
  {
    assert a + [] == a;
  }

  /**
   * One seed for each block is read from the random stream, which may run dry. With a negative stride the first slice
   * is out of range; with stride zero every block is empty, and the random stream is all that can end it.
   */
  function EncryptParts(s: Suite, key: Key, random: seq<byte>, msg: seq<byte>, lbl: seq<byte>): Parts
    requires ValidSuite(s) && ValidKey(key)
    decreases |random|
  {
    var step := MaxMessage(s, key.k);
    if msg == [] then Joined([])
    else if step < 0 then Panicked
    else if |random| < s.hLen then Failed
    else
      var n := Min(step, |msg|);
      match EncryptBlock(s, key, random[..s.hLen], msg[..n], lbl)
      case None => Failed
      case Some(c) => Prefixed(c, EncryptParts(s, key, random[s.hLen..], msg[n..], lbl))
  }

  function DecryptParts(s: Suite, key: Key, c: seq<byte>, lbl: seq<byte>): Parts
    requires ValidSuite(s) && ValidKey(key)
    decreases |c|
  {
    if c == [] then Joined([])
    else
      var n := Min(key.k, |c|);
      match DecryptBlock(s, key, c[..n], lbl)
      case None => Failed
      case Some(m) => Prefixed(m, DecryptParts(s, key, c[n..], lbl))
  }

  /** One round of the encrypting loop, on what is left of the message. */
  lemma {:induction false} EncryptRound(
      s: Suite, key: Key, random: seq<byte>, msg: seq<byte>, start: nat, finish: nat, lbl: seq<byte>)
    requires ValidSuite(s) && ValidKey(key) && MaxMessage(s, key.k) >= 0
    requires start < |msg| && finish == Min(start + MaxMessage(s, key.k), |msg|)
    ensures EncryptParts(s, key, random, msg[start..], lbl) ==
            if |random| < s.hLen then Failed
            else match EncryptBlock(s, key, random[..s.hLen], msg[start..finish], lbl)
                 case None => Failed
                 case Some(c) => Prefixed(c, EncryptParts(s, key, random[s.hLen..], msg[finish..], lbl))
  {
    hide EncryptBlock, Prefixed, ValidSuite, ValidKey;
    var rest := msg[start..];
    assert rest[..finish - start] == msg[start..finish] && rest[finish - start..] == msg[finish..];
  }

  lemma DecryptRound(s: Suite, key: Key, c: seq<byte>, start: nat, finish: nat, lbl: seq<byte>)
    requires ValidSuite(s) && ValidKey(key)
    requires start < |c| && finish == Min(start + key.k, |c|)
    ensures DecryptParts(s, key, c[start..], lbl) ==
            match DecryptBlock(s, key, c[start..finish], lbl)
            case None => Failed
            case Some(m) => Prefixed(m, DecryptParts(s, key, c[finish..], lbl))
  {
    hide DecryptBlock, Prefixed, ValidSuite;
    var rest := c[start..];
    assert rest[..finish - start] == c[start..finish] && rest[finish - start..] == c[finish..];
  }

  lemma NothingLeft(s: Suite, key: Key, random: seq<byte>, lbl: seq<byte>)
    requires ValidSuite(s) && ValidKey(key)
    ensures EncryptParts(s, key, random, [], lbl) == Joined([])
    ensures DecryptParts(s, key, [], lbl) == Joined([])
  {}

  method EncryptOAEPbyPart(s: Suite, key: Key, random: seq<byte>, msg: seq<byte>, lbl: seq<byte>)
    returns (r: Parts)
    requires ValidSuite(s) && ValidKey(key)
    ensures r == EncryptParts(s, key, random, msg, lbl)
  {
    var msgLen := |msg|;
    var step := MaxMessage(s, key.k);
    if step < 0 && msgLen > 0 {
      return Panicked;  // the slice of the first round ends before it starts
    }
    assert key.k > 0 && s.hLen > 0;
    hide ValidSuite, ValidKey, EncryptBlock, DecryptBlock, Prefixed, EncryptParts, DecryptParts,
      MaxMessage;
    var encryptedBytes: seq<byte>, stream := [], random;
    var start := 0;
    ghost var done: nat, all := 0, EncryptParts(s, key, random, msg, lbl);
    assert msg[done..] == msg;
    PrefixedTwice([], [], all);
    while start < msgLen
      invariant 0 <= start && done == Min(start, msgLen)
      invariant all == Prefixed(encryptedBytes, EncryptParts(s, key, stream, msg[done..], lbl))
      decreases |stream|
    {
      var finish := start + step;
      if finish > msgLen {
        finish := msgLen;
      }
      EncryptRound(s, key, stream, msg, start, finish, lbl);
      LastPrefix(encryptedBytes);
      if |stream| < s.hLen {
        return Failed;
      }
      var block := EncryptBlock(s, key, stream[..s.hLen], msg[start..finish], lbl);
      if block == None {
        return Failed;
      }
      stream := stream[s.hLen..];
      PrefixedTwice(encryptedBytes, block.value, EncryptParts(s, key, stream, msg[finish..], lbl));
      encryptedBytes := encryptedBytes + block.value;
      start, done := start + step, finish;
    }
    assert msg[done..] == [];
    NothingLeft(s, key, stream, lbl);
    LastPrefix(encryptedBytes);
    return Joined(encryptedBytes);
  }

  method DecryptOAEPbyPart(s: Suite, key: Key, msg: seq<byte>, lbl: seq<byte>) returns (r: Parts)
    requires ValidSuite(s) && ValidKey(key)
    ensures r == DecryptParts(s, key, msg, lbl)
  {
    assert key.k > 0;
    hide ValidSuite, ValidKey, EncryptBlock, DecryptBlock, Prefixed, EncryptParts, DecryptParts,
      MaxMessage;
    var msgLen := |msg|;
    var step := key.k;
    var decryptedBytes: seq<byte> := [];
    var start := 0;
    ghost var done: nat, all := 0, DecryptParts(s, key, msg, lbl);
    assert msg[done..] == msg;
    PrefixedTwice([], [], all);
    while start < msgLen
      invariant 0 <= start && done == Min(start, msgLen)
      invariant all == Prefixed(decryptedBytes, DecryptParts(s, key, msg[done..], lbl))
      decreases msgLen - start
    {
      var finish := start + step;
      if finish > msgLen {
        finish := msgLen;
      }
      DecryptRound(s, key, msg, start, finish, lbl);
      LastPrefix(decryptedBytes);
      var block := DecryptBlock(s, key, msg[start..finish], lbl);
      if block == None {
        return Failed;
      }
      PrefixedTwice(decryptedBytes, block.value, DecryptParts(s, key, msg[finish..], lbl));
      decryptedBytes := decryptedBytes + block.value;
      start, done := start + step, finish;
    }
    assert msg[done..] == [];
    NothingLeft(s, key, [], lbl);
    LastPrefix(decryptedBytes);
    return Joined(decryptedBytes);
  }

  /** Rounds of a loop that cuts n octets into parts of the given size. */
  function Blocks(n: nat, step: int): nat
    requires step > 0
  {
    if n == 0 then 0 else 1 + Blocks(if n > step then n - step else 0, step)
  }

  lemma {:induction false} BlocksIsCeiling(n: nat, step: int)
    requires step > 0
    ensures (Blocks(n, step) - 1) * step < n <= Blocks(n, step) * step || n == Blocks(n, step) == 0
    decreases n
  {
    if n > 0 {
      BlocksIsCeiling(if n > step then n - step else 0, step);
    }
  }

  /**
   * With a positive stride encryption fails only for want of random octets; its result has k octets for every started
   * part of the message.
   */
  lemma {:induction false} CiphertextLength(s: Suite, key: Key, random: seq<byte>, msg: seq<byte>, lbl: seq<byte>)
    requires ValidSuite(s) && ValidKey(key) && MaxMessage(s, key.k) > 0
    ensures var (r, blocks) := (EncryptParts(s, key, random, msg, lbl), Blocks(|msg|, MaxMessage(s, key.k)));
            && (r.Joined? <==> |random| >= s.hLen * blocks)
            && (r.Joined? ==> |r.bytes| == key.k * blocks)
    decreases |msg|
  {
    hide ValidSuite, ValidKey, EncryptBlock;
    if msg == [] {
    } else {
      var step := MaxMessage(s, key.k);
      var n := Min(step, |msg|);
      var blocks := Blocks(|msg| - n, step);
      assert Blocks(|msg|, step) == 1 + blocks;
      assert s.hLen * (1 + blocks) == s.hLen + s.hLen * blocks;
      assert key.k * (1 + blocks) == key.k + key.k * blocks;
      if |random| >= s.hLen {
        CiphertextLength(s, key, random[s.hLen..], msg[n..], lbl);
      }
    }
  }

  /** A key without room for a message octet never encrypts anything. */
  lemma {:induction false} NoRoom(s: Suite, key: Key, random: seq<byte>, msg: seq<byte>, lbl: seq<byte>)
    requires ValidSuite(s) && ValidKey(key) && MaxMessage(s, key.k) <= 0 && msg != []
    ensures EncryptParts(s, key, random, msg, lbl) == if MaxMessage(s, key.k) < 0 then Panicked else Failed
    decreases |random|
  {
    hide ValidKey, EncryptBlock;
    if MaxMessage(s, key.k) == 0 && |random| >= s.hLen {
      assert msg[0..] == msg;
      NoRoom(s, key, random[s.hLen..], msg, lbl);
    }
  }

  /** Exactly when a message can be encrypted. */
  lemma EncryptsIff(s: Suite, key: Key, random: seq<byte>, msg: seq<byte>, lbl: seq<byte>)
    requires ValidSuite(s) && ValidKey(key)
    ensures var step := MaxMessage(s, key.k);
            EncryptParts(s, key, random, msg, lbl).Joined?
            <==> msg == [] || (step > 0 && |random| >= s.hLen * Blocks(|msg|, step))
  {
    hide ValidSuite, ValidKey, EncryptParts, MaxMessage, Blocks;
    if msg == [] {
      NothingLeft(s, key, random, lbl);
    } else if MaxMessage(s, key.k) > 0 {
      CiphertextLength(s, key, random, msg, lbl);
    } else {
      NoRoom(s, key, random, msg, lbl);
    }
  }

  /** Decryption by part undoes encryption by part, for every message, key length and random stream. */
  lemma {:induction false} PartsInverse(s: Suite, key: Key, random: seq<byte>, msg: seq<byte>, lbl: seq<byte>)
    requires ValidSuite(s) && ValidKey(key)
    requires EncryptParts(s, key, random, msg, lbl).Joined?
    ensures DecryptParts(s, key, EncryptParts(s, key, random, msg, lbl).bytes, lbl) == Joined(msg)
    decreases |msg|
  {
    EncryptsIff(s, key, random, msg, lbl);
    assert key.k > 0;
    hide ValidSuite, ValidKey, EncryptBlock, DecryptBlock, Blocks, EncryptParts, DecryptParts, Prefixed, MaxMessage;
    if msg == [] {
      NothingLeft(s, key, random, lbl);
    } else {
      var n := Min(MaxMessage(s, key.k), |msg|);
      assert msg[0..] == msg;
      EncryptRound(s, key, random, msg, 0, n, lbl);
      var c := EncryptBlock(s, key, random[..s.hLen], msg[..n], lbl).value;
      var more := EncryptParts(s, key, random[s.hLen..], msg[n..], lbl);
      JoinedPrefix(c, more);
      BlockInverse(s, key, random[..s.hLen], msg[..n], lbl);
      PartsInverse(s, key, random[s.hLen..], msg[n..], lbl);
      DecryptsFirst(s, key, c, more.bytes, lbl);
      CutTogether(msg, n);
    }
  }

  lemma CutTogether(msg: seq<byte>, n: nat)
    requires n <= |msg|
    ensures Prefixed(msg[..n], Joined(msg[n..])) == Joined(msg)
  {
    assert msg == msg[..n] + msg[n..];
  }

  /** A whole block at the front is decrypted first. */
  lemma DecryptsFirst(s: Suite, key: Key, c: seq<byte>, rest: seq<byte>, lbl: seq<byte>)
    requires ValidSuite(s) && ValidKey(key) && |c| == key.k
    ensures DecryptParts(s, key, c + rest, lbl) ==
            match DecryptBlock(s, key, c, lbl)
            case None => Failed
            case Some(m) => Prefixed(m, DecryptParts(s, key, rest, lbl))
  {
    assert key.k > 0;
    hide ValidSuite, ValidKey, DecryptBlock, DecryptParts, Prefixed;
    var all := c + rest;
    assert all[0..] == all && all[0..key.k] == c && all[key.k..] == rest;
    DecryptRound(s, key, all, 0, key.k, lbl);
  }

  lemma JoinedPrefix(a: seq<byte>, r: Parts)
    ensures Prefixed(a, r).Joined? <==> r.Joined?
    ensures r.Joined? ==> Prefixed(a, r).bytes == a + r.bytes
  {}

  // The encrypting loop round by round: whether it ever comes to its end.

  /** What the loop carries from one round to the next. */
  datatype Loop = Loop(start: int, encrypted: seq<byte>, stream: seq<byte>)

  datatype Turn = Again(next: Loop) | Ended(r: Parts)

  function TurnOf(s: Suite, key: Key, msg: seq<byte>, lbl: seq<byte>, st: Loop): Turn
    requires ValidSuite(s) && ValidKey(key)
  {
    if st.start >= |msg| then Ended(Joined(st.encrypted))
    else
      var finish := Min(st.start + MaxMessage(s, key.k), |msg|);
      if !(0 <= st.start <= finish) then Ended(Panicked)
      else if |st.stream| < s.hLen then Ended(Failed)
      else
        match EncryptBlock(s, key, st.stream[..s.hLen], msg[st.start..finish], lbl)
        case None => Ended(Failed)
        case Some(c) => Again(Loop(st.start + MaxMessage(s, key.k), st.encrypted + c, st.stream[s.hLen..]))
  }

  /** After n rounds, or earlier if the loop has ended. */
  function Turns(s: Suite, key: Key, msg: seq<byte>, lbl: seq<byte>, st: Loop, n: nat): Turn
    requires ValidSuite(s) && ValidKey(key)
    decreases n
  {
    if n == 0 then Again(st)
    else match TurnOf(s, key, msg, lbl, st)
         case Ended(r) => Ended(r)
         case Again(next) => Turns(s, key, msg, lbl, next, n - 1)
  }

  /** What the loop still has to come to. */
  function Result(s: Suite, key: Key, msg: seq<byte>, lbl: seq<byte>, st: Loop): Parts
    requires ValidSuite(s) && ValidKey(key) && st.start >= 0
  {
    Prefixed(st.encrypted, EncryptParts(s, key, st.stream, msg[Min(st.start, |msg|)..], lbl))
  }

  predicate Keeps(s: Suite, key: Key, msg: seq<byte>, lbl: seq<byte>, st: Loop, t: Turn)
    requires ValidSuite(s) && ValidKey(key) && st.start >= 0
  {
    match t
    case Ended(r) => r == Result(s, key, msg, lbl, st)
    case Again(next) =>
      && next.start >= 0 && |next.stream| < |st.stream|
      && Result(s, key, msg, lbl, next) == Result(s, key, msg, lbl, st)
  }

  /** Where the message goes on after a round. */
  function Finish(s: Suite, key: Key, msg: seq<byte>, st: Loop): int {
    Min(st.start + MaxMessage(s, key.k), |msg|)
  }

  /** The block of a round, given its seed. */
  function Block(s: Suite, key: Key, msg: seq<byte>, lbl: seq<byte>, st: Loop): seq<byte>
    requires ValidSuite(s) && ValidKey(key) && 0 <= st.start < |msg| && MaxMessage(s, key.k) >= 0
    requires |st.stream| >= s.hLen
  {
    EncryptBlock(s, key, st.stream[..s.hLen], msg[st.start..Finish(s, key, msg, st)], lbl).value
  }

  /** A round with a seed adds its block and goes on; without one it fails. */
  lemma RoundIs(s: Suite, key: Key, msg: seq<byte>, lbl: seq<byte>, st: Loop)
    requires ValidSuite(s) && ValidKey(key) && 0 <= st.start < |msg| && MaxMessage(s, key.k) >= 0
    ensures TurnOf(s, key, msg, lbl, st) ==
            if |st.stream| < s.hLen then Ended(Failed)
            else Again(Loop(st.start + MaxMessage(s, key.k), st.encrypted + Block(s, key, msg, lbl, st),
                            st.stream[s.hLen..]))
  {
    hide ValidSuite, ValidKey, EncryptBlock;
  }

  lemma RestIs(s: Suite, key: Key, msg: seq<byte>, lbl: seq<byte>, st: Loop)
    requires ValidSuite(s) && ValidKey(key) && 0 <= st.start < |msg| && MaxMessage(s, key.k) >= 0
    ensures EncryptParts(s, key, st.stream, msg[st.start..], lbl) ==
            if |st.stream| < s.hLen then Failed
            else Prefixed(Block(s, key, msg, lbl, st),
                          EncryptParts(s, key, st.stream[s.hLen..], msg[Finish(s, key, msg, st)..], lbl))
  {
    hide ValidSuite, ValidKey, EncryptBlock, EncryptParts, Prefixed;
    EncryptRound(s, key, st.stream, msg, st.start, Finish(s, key, msg, st), lbl);
  }

  /** A round on what is left of the message, the stride not being negative. */
  lemma RoundKeepsResult(s: Suite, key: Key, msg: seq<byte>, lbl: seq<byte>, st: Loop)
    requires ValidSuite(s) && ValidKey(key) && 0 <= st.start < |msg| && MaxMessage(s, key.k) >= 0
    ensures Keeps(s, key, msg, lbl, st, TurnOf(s, key, msg, lbl, st))
  {
    assert s.hLen > 0;
    hide ValidSuite, ValidKey, EncryptParts, Prefixed, MaxMessage, Result, TurnOf, Block;
    LastPrefix(st.encrypted);
    ResultAt(s, key, msg, lbl, st, st.start);
    RoundIs(s, key, msg, lbl, st);
    RestIs(s, key, msg, lbl, st);
    if |st.stream| >= s.hLen {
      var (c, at) := (Block(s, key, msg, lbl, st), Finish(s, key, msg, st));
      var next := Loop(st.start + MaxMessage(s, key.k), st.encrypted + c, st.stream[s.hLen..]);
      ResultAt(s, key, msg, lbl, next, at);
      PrefixedTwice(st.encrypted, c, EncryptParts(s, key, next.stream, msg[at..], lbl));
    }
  }

  lemma ResultAt(s: Suite, key: Key, msg: seq<byte>, lbl: seq<byte>, st: Loop, at: nat)
    requires ValidSuite(s) && ValidKey(key) && st.start >= 0 && at == Min(st.start, |msg|)
    ensures Result(s, key, msg, lbl, st) == Prefixed(st.encrypted, EncryptParts(s, key, st.stream, msg[at..], lbl))
  {}

  lemma TurnKeepsResult(s: Suite, key: Key, msg: seq<byte>, lbl: seq<byte>, st: Loop)
    requires ValidSuite(s) && ValidKey(key) && st.start >= 0
    ensures Keeps(s, key, msg, lbl, st, TurnOf(s, key, msg, lbl, st))
  {
    hide ValidSuite, ValidKey, EncryptBlock, Prefixed;
    LastPrefix(st.encrypted);
    if st.start >= |msg| {
      assert msg[|msg|..] == [];
      NothingLeft(s, key, st.stream, lbl);
    } else if MaxMessage(s, key.k) < 0 {
      NoRoom(s, key, st.stream, msg[st.start..], lbl);
    } else {
      RoundKeepsResult(s, key, msg, lbl, st);
    }
  }

  /** However many rounds it takes, the loop ends with the function's result and no other. */
  lemma {:induction false} TurnsEndAt(s: Suite, key: Key, msg: seq<byte>, lbl: seq<byte>, st: Loop, n: nat)
    requires ValidSuite(s) && ValidKey(key) && st.start >= 0
    ensures var t := Turns(s, key, msg, lbl, st, n);
            (t.Ended? ==> t.r == Result(s, key, msg, lbl, st)) && (n > |st.stream| ==> t.Ended?)
    decreases n
  {
    hide ValidSuite, ValidKey, TurnOf, Result;
    if n > 0 {
      TurnKeepsResult(s, key, msg, lbl, st);
      match TurnOf(s, key, msg, lbl, st)
      case Ended(_) =>
      case Again(next) => TurnsEndAt(s, key, msg, lbl, next, n - 1);
    }
  }

  ghost predicate Completes(s: Suite, key: Key, msg: seq<byte>, lbl: seq<byte>, random: seq<byte>, n: nat)
    requires ValidSuite(s) && ValidKey(key)
  {
    var t := Turns(s, key, msg, lbl, Loop(0, [], random), n);
    t.Ended? && t.r.Joined?
  }

  /**
   * The loop can come to its end, with some random stream and after some rounds, if and only if the stride is
   * positive or there is nothing to encrypt.
   */
  lemma LoopEndsIff(s: Suite, key: Key, msg: seq<byte>, lbl: seq<byte>)
    requires ValidSuite(s) && ValidKey(key)
    ensures (exists random, n :: Completes(s, key, msg, lbl, random, n)) <==> MaxMessage(s, key.k) > 0 || msg == []
  {
    hide Turns, EncryptParts, MaxMessage, Blocks;
    var step := MaxMessage(s, key.k);
    if random, n :| Completes(s, key, msg, lbl, random, n) {
      FirstResult(s, key, msg, lbl, random);
      TurnsEndAt(s, key, msg, lbl, Loop(0, [], random), n);
      EncryptsIff(s, key, random, msg, lbl);
    }
    if step > 0 || msg == [] {
      var random := Zeros(if step > 0 then s.hLen * Blocks(|msg|, step) else 0);
      FirstResult(s, key, msg, lbl, random);
      EncryptsIff(s, key, random, msg, lbl);
      TurnsEndAt(s, key, msg, lbl, Loop(0, [], random), |random| + 1);
      assert Completes(s, key, msg, lbl, random, |random| + 1);
    }
  }

  lemma FirstResult(s: Suite, key: Key, msg: seq<byte>, lbl: seq<byte>, random: seq<byte>)
    requires ValidSuite(s) && ValidKey(key)
    ensures Result(s, key, msg, lbl, Loop(0, [], random)) == EncryptParts(s, key, random, msg, lbl)
  {
    assert msg[0..] == msg;
    PrefixedTwice([], [], EncryptParts(s, key, random, msg, lbl));
  }

  /**
   * With stride zero the loop stands still for as long as the random source delivers: n rounds bring k octets each
   * and no progress.
   */
  lemma {:induction false} StandsStill(s: Suite, key: Key, msg: seq<byte>, lbl: seq<byte>, st: Loop, n: nat)
    requires ValidSuite(s) && ValidKey(key) && MaxMessage(s, key.k) == 0 && msg != []
    requires st.start == 0 && |st.stream| >= n * s.hLen
    ensures var t := Turns(s, key, msg, lbl, st, n);
            t.Again? && t.next.start == 0 && |t.next.encrypted| == |st.encrypted| + n * key.k
    decreases n
  {
    hide ValidSuite, ValidKey, EncryptBlock;
    if n > 0 {
      assert n * s.hLen == s.hLen + (n - 1) * s.hLen && n * key.k == key.k + (n - 1) * key.k;
      assert (n - 1) * s.hLen >= 0;
      var next := TurnOf(s, key, msg, lbl, st).next;
      StandsStill(s, key, msg, lbl, next, n - 1);
    }
  }

  // What is accepted.

  /** Block i of k octets, the last one perhaps shorter. */
  function Cut(c: seq<byte>, k: nat, i: nat): seq<byte>
    requires i * k <= |c|
  {
    var rest := c[i * k..];
    rest[..Min(k, |rest|)]
  }

  /** Block i, if there is one, decrypts. */
  predicate BlockDecrypts(s: Suite, key: Key, c: seq<byte>, lbl: seq<byte>, i: nat)
    requires ValidSuite(s) && ValidKey(key)
  {
    i * key.k < |c| ==> DecryptBlock(s, key, Cut(c, key.k, i), lbl).Some?
  }

  lemma NextBlock(s: Suite, key: Key, c: seq<byte>, lbl: seq<byte>, i: nat)
    requires ValidSuite(s) && ValidKey(key) && key.k <= |c|
    ensures BlockDecrypts(s, key, c, lbl, i + 1) <==> BlockDecrypts(s, key, c[key.k..], lbl, i)
  {
    hide ValidSuite, ValidKey, DecryptBlock;
    assert (i + 1) * key.k == i * key.k + key.k;
    if i * key.k < |c[key.k..]| {
      assert c[(i + 1) * key.k..] == c[key.k..][i * key.k..];
    }
  }

  /** Decryption succeeds if and only if every block does. */
  lemma {:induction false} DecryptsIff(s: Suite, key: Key, c: seq<byte>, lbl: seq<byte>)
    requires ValidSuite(s) && ValidKey(key)
    ensures DecryptParts(s, key, c, lbl).Joined? <==> forall i: nat :: BlockDecrypts(s, key, c, lbl, i)
    decreases |c|
  {
    assert key.k > 0;
    hide ValidSuite, ValidKey, DecryptBlock, BlockDecrypts;
    if c == [] {
      forall i: nat ensures BlockDecrypts(s, key, c, lbl, i) {
        NoBlock(s, key, c, lbl, i);
      }
    } else {
      FirstBlock(s, key, c, lbl);
      if |c| < key.k {
        forall i: nat | i > 0 ensures BlockDecrypts(s, key, c, lbl, i) {
          assert i * key.k >= key.k;
          NoBlock(s, key, c, lbl, i);
        }
        assert c[|c|..] == [];
      } else {
        DecryptsIff(s, key, c[key.k..], lbl);
        AllBlocks(s, key, c, lbl);
      }
    }
  }

  lemma AllBlocks(s: Suite, key: Key, c: seq<byte>, lbl: seq<byte>)
    requires ValidSuite(s) && ValidKey(key) && key.k <= |c|
    ensures (forall i: nat :: BlockDecrypts(s, key, c, lbl, i))
            <==> BlockDecrypts(s, key, c, lbl, 0) && forall i: nat :: BlockDecrypts(s, key, c[key.k..], lbl, i)
  {
    hide ValidSuite, ValidKey, BlockDecrypts;
    if forall i: nat :: BlockDecrypts(s, key, c, lbl, i) {
      forall i: nat ensures BlockDecrypts(s, key, c[key.k..], lbl, i) {
        NextBlock(s, key, c, lbl, i);
      }
    }
    if BlockDecrypts(s, key, c, lbl, 0) && forall i: nat :: BlockDecrypts(s, key, c[key.k..], lbl, i) {
      forall i: nat ensures BlockDecrypts(s, key, c, lbl, i) {
        if i > 0 {
          NextBlock(s, key, c, lbl, i - 1);
        }
      }
    }
  }

  lemma NoBlock(s: Suite, key: Key, c: seq<byte>, lbl: seq<byte>, i: nat)
    requires ValidSuite(s) && ValidKey(key) && i * key.k >= |c|
    ensures BlockDecrypts(s, key, c, lbl, i)
  {}

  lemma FirstBlock(s: Suite, key: Key, c: seq<byte>, lbl: seq<byte>)
    requires ValidSuite(s) && ValidKey(key) && c != []
    ensures BlockDecrypts(s, key, c, lbl, 0) <==> DecryptBlock(s, key, c[..Min(key.k, |c|)], lbl).Some?
  {
    hide ValidSuite, ValidKey, DecryptBlock;
    assert c[0..] == c;
  }
}
