/** Decimal text of integers, as strconv.FormatInt and strconv.ParseInt(s, 10, 64) have it. */
module Strconv {
  import opened Wrappers
  import opened Int64

  predicate IsDigit(c: char) { '0' <= c <= '9' }

  function DigitChar(d: nat): (c: char)
    requires d < 10
    ensures IsDigit(c)
  {
    (d + '0' as int) as char
  }

  function DigitValue(c: char): nat
    requires IsDigit(c)
  {
    c as int - '0' as int
  }

  predicate AllDigits(s: string) {
    forall i :: 0 <= i < |s| ==> IsDigit(s[i])
  }

  /** Decimal digits without leading zeros. */
  function Digits(n: nat): (s: string)
    ensures s != [] && AllDigits(s)
    ensures s[0] == '0' ==> n == 0 && |s| == 1
  {
    if n < 10 then [DigitChar(n)] else Digits(n / 10) + [DigitChar(n % 10)]
  }

  function DigitsValue(s: string): nat
    requires AllDigits(s)
  {
    if s == [] then 0 else 10 * DigitsValue(s[..|s| - 1]) + DigitValue(s[|s| - 1])
  }

  lemma {:induction false} DigitsRoundTrip(n: nat)
    ensures DigitsValue(Digits(n)) == n
  {
    var s := Digits(n);
    if n < 10 {
      assert s[..0] == [];
    } else {
      DigitsRoundTrip(n / 10);
      assert s[..|s| - 1] == Digits(n / 10);
    }
  }

  function FormatInt(x: int): string {
    if x < 0 then "-" + Digits(-x) else Digits(x)
  }

  /** An optional sign and at least one digit, of a value that fits; None is a syntax or range error. */
  function ParseInt(s: string): (r: Option<int64>) {
    var signed := s != [] && (s[0] == '-' || s[0] == '+');
    var body := if signed then s[1..] else s;
    if body == [] || !AllDigits(body) then None
    else
      var x: int := if signed && s[0] == '-' then 0 - DigitsValue(body) else DigitsValue(body);
      if MIN <= x <= MAX then Some(x) else None
  }

  /** Printing an int64 and parsing it again is the identity. */
  lemma ParseFormat(x: int)
    requires MIN <= x <= MAX
    ensures ParseInt(FormatInt(x)) == Some(x)
  {
    hide Digits, DigitsValue;
    if x < 0 {
      DigitsRoundTrip(-x);
      assert FormatInt(x)[1..] == Digits(-x);
    } else {
      DigitsRoundTrip(x);
    }
  }

  // Hexadecimal digits, lower case when printed, either case when read.

  function HexDigit(d: nat): char
    requires d < 16
  {
    if d < 10 then DigitChar(d) else (d - 10 + 'a' as int) as char
  }

  function HexValue(c: char): Option<nat> {
    if IsDigit(c) then Some(DigitValue(c))
    else if 'a' <= c <= 'f' then Some(c as int - 'a' as int + 10)
    else if 'A' <= c <= 'F' then Some(c as int - 'A' as int + 10)
    else None
  }

  lemma HexRoundTrip(d: nat)
    requires d < 16
    ensures HexValue(HexDigit(d)) == Some(d)
  {}

  /** Some decimal texts, written and read. */
  lemma DecimalExamples()
    ensures FormatInt(0) == "0" && FormatInt(5) == "5" && FormatInt(-12) == "-12" && FormatInt(407) == "407"
  {
    assert Digits(12) == ['1'] + ['2'] && Digits(40) == ['4'] + ['0'] && Digits(407) == ['4', '0'] + ['7'];
  }

  lemma ParseExamples()
    ensures ParseInt("5") == Some(5) && ParseInt("+5") == Some(5) && ParseInt("-12") == Some(-12)
    ensures ParseInt("007") == Some(7)
    ensures ParseInt("") == None && ParseInt("-") == None && ParseInt("5 ") == None && ParseInt("1.0") == None
  {
    hide Digits;
    assert "+5"[1..] == "5" && "5"[..0] == "" && "-12"[1..] == "12" && "12"[..1] == "1" && "1"[..0] == "";
    assert "007"[..2] == "00" && "00"[..1] == "0" && "0"[..0] == "";
    assert !IsDigit("5 "[1]) && !IsDigit("1.0"[1]);
  }

  predicate AtMost(limit: nat, k: nat) {
    if k == 0 then limit == 1 else limit % 10 == 0 && AtMost(limit / 10, k - 1)
  }

  /** A number below a power of ten has no more digits than the power. */
  lemma {:induction false} DigitsAtMost(n: nat, limit: nat, k: nat)
    requires k > 0 && n < limit && AtMost(limit, k)
    ensures |Digits(n)| <= k
  {
    if n >= 10 {
      assert k > 1;
      DigitsAtMost(n / 10, limit / 10, k - 1);
    }
  }

  /** An int64 takes at most twenty characters. */
  lemma FormatIntAtMost(x: int64)
    ensures |FormatInt(x)| <= 20
  {
    hide Digits;
    var n: int := x;
    var size := if n < 0 then 0 - n else n;
    assert AtMost(1_000_000_000, 9);
    assert AtMost(1_000_000_000_000_000_000, 18) by {
      assert AtMost(10_000_000_000_000, 13);
    }
    assert AtMost(10_000_000_000_000_000_000, 19);
    DigitsAtMost(size, 10_000_000_000_000_000_000, 19);
  }
}
