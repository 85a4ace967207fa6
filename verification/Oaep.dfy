/**
 * RSAES-OAEP of section 7.1 of RFC 8017 for one block; the hash, the mask generation and the RSA permutation are
 * parameters.
 */
module Oaep {
  import opened Wrappers
  import opened Encoding

  /** The hash with its output length, and the mask generation function. */
  datatype Suite = Suite(hLen: nat, hash: seq<byte> -> seq<byte>, mgf: (seq<byte>, nat) -> seq<byte>)

  ghost predicate ValidSuite(s: Suite) {
    && s.hLen > 0
    && (forall x :: |s.hash(x)| == s.hLen)
    && (forall x, n :: |s.mgf(x, n)| == n)
  }

  /** A key pair: the modulus, its length in octets, and the two directions of the permutation. */
  datatype Key = Key(n: nat, k: nat, public: nat -> nat, private: nat -> nat)

  function Pow256(k: nat): (p: nat)
    ensures p > 0
  {
    if k == 0 then 1 else 256 * Pow256(k - 1)
  }

  ghost predicate ValidKey(key: Key) {
    && key.k > 0 && Pow256(key.k - 1) <= key.n < Pow256(key.k)
    && (forall m :: 0 <= m < key.n ==> key.public(m) < key.n && key.private(key.public(m)) == m)
    && (forall c :: 0 <= c < key.n ==> key.private(c) < key.n)
  }

  // Section 4: integers and octet strings.

  function OS2IP(x: seq<byte>): nat {
    if x == [] then 0 else 256 * OS2IP(x[..|x| - 1]) + x[|x| - 1]
  }

  function I2OSP(v: nat, k: nat): (x: seq<byte>)
    requires v < Pow256(k)
    ensures |x| == k
  {
    if k == 0 then [] else I2OSP(v / 256, k - 1) + [v % 256]
  }

  lemma {:induction false} OS2IPInverse(v: nat, k: nat)
    requires v < Pow256(k)
    ensures OS2IP(I2OSP(v, k)) == v
  {
    if k > 0 {
      OS2IPInverse(v / 256, k - 1);
      assert I2OSP(v, k)[..k - 1] == I2OSP(v / 256, k - 1);
    }
  }

  lemma {:induction false} OS2IPBound(x: seq<byte>)
    ensures OS2IP(x) < Pow256(|x|)
  {
    if x != [] {
      OS2IPBound(x[..|x| - 1]);
    }
  }

  lemma {:induction false} I2OSPInverse(x: seq<byte>)
    ensures OS2IP(x) < Pow256(|x|) && I2OSP(OS2IP(x), |x|) == x
  {
    OS2IPBound(x);
    if x != [] {
      var v := OS2IP(x);
      assert v / 256 == OS2IP(x[..|x| - 1]) && v % 256 == x[|x| - 1];
      I2OSPInverse(x[..|x| - 1]);
      assert x == x[..|x| - 1] + [x[|x| - 1]];
    }
  }

  /** A leading zero octet makes the integer smaller than any modulus of that length. */
  lemma {:induction false} LeadingZero(x: seq<byte>)
    requires x != [] && x[0] == 0
    ensures OS2IP(x) < Pow256(|x| - 1)
  {
    if |x| > 1 {
      LeadingZero(x[..|x| - 1]);
    } else {
      assert x[..0] == [];
    }
  }

  // Masks.

  function Pow2(n: nat): (p: nat)
    ensures p > 0
  {
    if n == 0 then 1 else 2 * Pow2(n - 1)
  }

  /** Exclusive or of the low n bits. */
  function BitXor(a: nat, b: nat, n: nat): (r: nat)
    ensures r < Pow2(n)
  {
    if n == 0 then 0 else 2 * BitXor(a / 2, b / 2, n - 1) + (if a % 2 == b % 2 then 0 else 1)
  }

  lemma {:induction false} BitXorTwice(a: nat, b: nat, n: nat)
    requires a < Pow2(n)
    ensures BitXor(BitXor(a, b, n), b, n) == a
  {
    if n > 0 {
      var r := BitXor(a, b, n);
      BitXorTwice(a / 2, b / 2, n - 1);
      assert r / 2 == BitXor(a / 2, b / 2, n - 1);
      assert r % 2 == if a % 2 == b % 2 then 0 else 1;
    }
  }

  lemma EightBits()
    ensures Pow2(8) == 256
  {
    assert Pow2(4) == 16;
  }

  function XorByte(a: byte, b: byte): byte {
    EightBits();
    BitXor(a, b, 8)
  }

  function Xor(a: seq<byte>, b: seq<byte>): (r: seq<byte>)
    requires |a| == |b|
    ensures |r| == |a|
  {
    seq(|a|, i requires 0 <= i < |a| => XorByte(a[i], b[i]))
  }

  lemma XorTwice(a: seq<byte>, m: seq<byte>)
    requires |a| == |m|
    ensures Xor(Xor(a, m), m) == a
  {
    forall i | 0 <= i < |a| ensures Xor(Xor(a, m), m)[i] == a[i] {
      EightBits();
      BitXorTwice(a[i], m[i], 8);
    }
  }

  // Section 7.1.1.

  /** The longest message one block takes; negative when the key is too short for any. */
  function MaxMessage(s: Suite, k: nat): int { k - 2 * s.hLen - 2 }

  function Zeros(n: nat): (r: seq<byte>)
    ensures |r| == n
  {
    seq(n, _ => 0)
  }

  /** DB: the label's hash, zero padding, a one, the message. */
  function DataBlock(s: Suite, k: nat, msg: seq<byte>, lbl: seq<byte>): seq<byte>
    requires |msg| <= MaxMessage(s, k)
  {
    s.hash(lbl) + Zeros(MaxMessage(s, k) - |msg|) + [1] + msg
  }

  /** EM of step 2. */
  function EncodeMessage(s: Suite, k: nat, seed: seq<byte>, msg: seq<byte>, lbl: seq<byte>): (em: seq<byte>)
    requires ValidSuite(s) && |seed| == s.hLen && |msg| <= MaxMessage(s, k)
    ensures |em| == k && em[0] == 0
  {
    var db := DataBlock(s, k, msg, lbl);
    var maskedDb := Xor(db, s.mgf(seed, k - s.hLen - 1));
    [0] + Xor(seed, s.mgf(maskedDb, s.hLen)) + maskedDb
  }

  /** rsa.EncryptOAEP with the seed already read; None is "message too long". */
  function EncryptBlock(s: Suite, key: Key, seed: seq<byte>, msg: seq<byte>, lbl: seq<byte>)
    : (r: Option<seq<byte>>)
    requires ValidSuite(s) && ValidKey(key) && |seed| == s.hLen
    ensures r.Some? <==> |msg| <= MaxMessage(s, key.k)
    ensures r.Some? ==> |r.value| == key.k
  {
    if |msg| > MaxMessage(s, key.k) then None
    else
      var em := EncodeMessage(s, key.k, seed, msg, lbl);
      LeadingZero(em);
      Some(I2OSP(key.public(OS2IP(em)), key.k))
  }

  // Section 7.1.2.

  /** The octets after the first non-zero one, if that is a one. */
  function AfterSeparator(rest: seq<byte>): Option<seq<byte>> {
    if rest == [] then None
    else if rest[0] == 0 then AfterSeparator(rest[1..])
    else if rest[0] == 1 then Some(rest[1..])
    else None
  }

  /** Step 3: unmask, compare the label's hash, find the separator. */
  function DecodeMessage(s: Suite, em: seq<byte>, lbl: seq<byte>): Option<seq<byte>>
    requires ValidSuite(s) && |em| >= 2 * s.hLen + 2
  {
    var (maskedSeed, maskedDb) := (em[1..1 + s.hLen], em[1 + s.hLen..]);
    var seed := Xor(maskedSeed, s.mgf(maskedDb, s.hLen));
    var db := Xor(maskedDb, s.mgf(seed, |em| - s.hLen - 1));
    if em[0] == 0 && db[..s.hLen] == s.hash(lbl) then AfterSeparator(db[s.hLen..]) else None
  }

  /** rsa.DecryptOAEP; every failure is the one decryption error. */
  function DecryptBlock(s: Suite, key: Key, c: seq<byte>, lbl: seq<byte>): Option<seq<byte>>
    requires ValidSuite(s) && ValidKey(key)
  {
    if |c| > key.k || key.k < 2 * s.hLen + 2 || OS2IP(c) >= key.n then None
    else DecodeMessage(s, I2OSP(key.private(OS2IP(c)), key.k), lbl)
  }

  lemma {:induction false} SeparatorFound(n: nat, msg: seq<byte>)
    ensures AfterSeparator(Zeros(n) + [1] + msg) == Some(msg)
  {
    var rest := Zeros(n) + [1] + msg;
    if n == 0 {
      assert rest[1..] == msg;
    } else {
      assert rest[1..] == Zeros(n - 1) + [1] + msg;
      SeparatorFound(n - 1, msg);
    }
  }

  lemma MessageInverse(s: Suite, k: nat, seed: seq<byte>, msg: seq<byte>, lbl: seq<byte>)
    requires ValidSuite(s) && |seed| == s.hLen && |msg| <= MaxMessage(s, k)
    ensures DecodeMessage(s, EncodeMessage(s, k, seed, msg, lbl), lbl) == Some(msg)
  {
    hide Xor, AfterSeparator, Zeros;
    var db := DataBlock(s, k, msg, lbl);
    var dbMask := s.mgf(seed, k - s.hLen - 1);
    var maskedDb := Xor(db, dbMask);
    var seedMask := s.mgf(maskedDb, s.hLen);
    var maskedSeed := Xor(seed, seedMask);
    var em := EncodeMessage(s, k, seed, msg, lbl);
    assert em[1..1 + s.hLen] == maskedSeed && em[1 + s.hLen..] == maskedDb;
    XorTwice(seed, seedMask);
    XorTwice(db, dbMask);
    assert db[..s.hLen] == s.hash(lbl);
    var n := MaxMessage(s, k) - |msg|;
    assert db[s.hLen..] == Zeros(n) + [1] + msg;
    SeparatorFound(n, msg);
  }

  lemma {:induction false} SeparatorIs(rest: seq<byte>) returns (n: nat)
    requires AfterSeparator(rest).Some?
    ensures rest == Zeros(n) + [1] + AfterSeparator(rest).value
  {
    n := 0;
    if rest[0] == 0 {
      var n' := SeparatorIs(rest[1..]);
      n := n' + 1;
      assert rest == [0] + rest[1..];
    }
  }

  /** em is the encoding of msg under some seed. */
  ghost predicate IsEncoding(s: Suite, em: seq<byte>, msg: seq<byte>, lbl: seq<byte>)
    requires ValidSuite(s)
  {
    |msg| <= MaxMessage(s, |em|) && exists seed :: |seed| == s.hLen && em == EncodeMessage(s, |em|, seed, msg, lbl)
  }

  /** Decoding accepts exactly the encodings: nothing else has a message. */
  lemma DecodesIff(s: Suite, em: seq<byte>, msg: seq<byte>, lbl: seq<byte>)
    requires ValidSuite(s) && |em| >= 2 * s.hLen + 2
    ensures DecodeMessage(s, em, lbl) == Some(msg) <==> IsEncoding(s, em, msg, lbl)
  {
    if DecodeMessage(s, em, lbl) == Some(msg) {
      var seed := SeedOf(s, em, msg, lbl);
    }
    if IsEncoding(s, em, msg, lbl) {
      var seed :| |seed| == s.hLen && em == EncodeMessage(s, |em|, seed, msg, lbl);
      MessageInverse(s, |em|, seed, msg, lbl);
    }
  }

  lemma SeedOf(s: Suite, em: seq<byte>, msg: seq<byte>, lbl: seq<byte>) returns (seed: seq<byte>)
    requires ValidSuite(s) && |em| >= 2 * s.hLen + 2 && DecodeMessage(s, em, lbl) == Some(msg)
    ensures |seed| == s.hLen && |msg| <= MaxMessage(s, |em|) && em == EncodeMessage(s, |em|, seed, msg, lbl)
  {
    hide Xor, AfterSeparator, Zeros;
    var (maskedSeed, maskedDb) := (em[1..1 + s.hLen], em[1 + s.hLen..]);
    var seedMask := s.mgf(maskedDb, s.hLen);
    seed := Xor(maskedSeed, seedMask);
    var dbMask := s.mgf(seed, |em| - s.hLen - 1);
    var db := Xor(maskedDb, dbMask);
    XorTwice(maskedSeed, seedMask);
    XorTwice(maskedDb, dbMask);
    var n := SeparatorIs(db[s.hLen..]);
    assert db == db[..s.hLen] + db[s.hLen..];
    assert db == DataBlock(s, |em|, msg, lbl);
    assert em == [0] + maskedSeed + maskedDb;
  }

  /** Which octets decrypt, and to what: those below the modulus whose private power is an encoding. */
  lemma DecryptsBlockIff(s: Suite, key: Key, c: seq<byte>, msg: seq<byte>, lbl: seq<byte>)
    requires ValidSuite(s) && ValidKey(key)
    ensures DecryptBlock(s, key, c, lbl) == Some(msg) <==>
            && |c| <= key.k && OS2IP(c) < key.n && key.k >= 2 * s.hLen + 2
            && IsEncoding(s, I2OSP(key.private(OS2IP(c)), key.k), msg, lbl)
  {
    hide OS2IP, I2OSP, DecodeMessage, IsEncoding;
    if |c| <= key.k && OS2IP(c) < key.n && key.k >= 2 * s.hLen + 2 {
      DecodesIff(s, I2OSP(key.private(OS2IP(c)), key.k), msg, lbl);
    }
  }

  /** One block: decryption undoes encryption, whatever the seed. */
  lemma BlockInverse(s: Suite, key: Key, seed: seq<byte>, msg: seq<byte>, lbl: seq<byte>)
    requires ValidSuite(s) && ValidKey(key) && |seed| == s.hLen && |msg| <= MaxMessage(s, key.k)
    ensures DecryptBlock(s, key, EncryptBlock(s, key, seed, msg, lbl).value, lbl) == Some(msg)
  {
    hide EncodeMessage, DecodeMessage, OS2IP, I2OSP;
    var em := EncodeMessage(s, key.k, seed, msg, lbl);
    LeadingZero(em);
    var m := OS2IP(em);
    OS2IPInverse(key.public(m), key.k);
    I2OSPInverse(em);
    MessageInverse(s, key.k, seed, msg, lbl);
  }

  /** The hypotheses on hash, mask and permutation can be met for every hash length and every modulus of k octets. */
  lemma ValidSuiteAndKeyExist(hLen: nat, n: nat, k: nat) returns (s: Suite, key: Key)
    requires hLen > 0 && k > 0 && Pow256(k - 1) <= n < Pow256(k)
    ensures ValidSuite(s) && ValidKey(key) && s.hLen == hLen && key.n == n && key.k == k
  {
    s := Suite(hLen, (x: seq<byte>) => Zeros(hLen), (x: seq<byte>, m: nat) => Zeros(m));
    key := Key(n, k, (m: nat) => m, (c: nat) => c);
  }

  /** Step 2 of section 7.1.1, read off the result: a zero octet, and behind the masks the seed and the data block. */
  lemma EncodingUnmasks(s: Suite, k: nat, seed: seq<byte>, msg: seq<byte>, lbl: seq<byte>)
    requires ValidSuite(s) && |seed| == s.hLen && |msg| <= MaxMessage(s, k)
    ensures var em := EncodeMessage(s, k, seed, msg, lbl);
            var (maskedSeed, maskedDb) := (em[1..1 + s.hLen], em[1 + s.hLen..]);
            && |em| == k && em[0] == 0
            && Xor(maskedSeed, s.mgf(maskedDb, s.hLen)) == seed
            && var db := Xor(maskedDb, s.mgf(seed, k - s.hLen - 1));
               && db[..s.hLen] == s.hash(lbl) && db[k - s.hLen - 1 - |msg|..] == msg
               && db[k - s.hLen - 2 - |msg|] == 1
               && forall i :: s.hLen <= i < k - s.hLen - 2 - |msg| ==> db[i] == 0
  {
    var db := DataBlock(s, k, msg, lbl);
    var dbMask := s.mgf(seed, k - s.hLen - 1);
    var maskedDb := Xor(db, dbMask);
    var seedMask := s.mgf(maskedDb, s.hLen);
    var em := EncodeMessage(s, k, seed, msg, lbl);
    assert em[1..1 + s.hLen] == Xor(seed, seedMask) && em[1 + s.hLen..] == maskedDb;
    XorTwice(seed, seedMask);
    XorTwice(db, dbMask);
  }

  /** Octet strings are read with the most significant octet first, and octets combine bit by bit. */
  lemma OctetExamples()
    ensures OS2IP([1, 0]) == 256 && OS2IP([0, 1]) == 1
    ensures XorByte(0x0F, 0x55) == 0x5A && XorByte(0xFF, 0x00) == 0xFF
  {
    assert [1 as byte, 0][..1] == [1] && [0 as byte, 1][..1] == [0];
    assert [1 as byte][..0] == [] && [0 as byte][..0] == [];
    assert OS2IP([1]) == 1 && OS2IP([0]) == 0;
    LowBits();
  }

  lemma LowBits()
    ensures BitXor(0x0F, 0x55, 8) == 0x5A && BitXor(0xFF, 0x00, 8) == 0xFF
  {
    assert BitXor(0x0, 0x5, 4) == 0x5 && BitXor(0xF, 0x0, 4) == 0xF;
  }
}
