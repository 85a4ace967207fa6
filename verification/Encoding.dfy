/** Octet strings and their text forms: hex and base64 of RFC 4648, UTF-8 of RFC 3629. */
module Encoding {
  import opened Wrappers
  import opened Strconv

  type byte = b: int | 0 <= b < 256

  // Hex, section 8 of RFC 4648.

  function HexEncode(bs: seq<byte>): string {
    if bs == [] then [] else [HexDigit(bs[0] / 16), HexDigit(bs[0] % 16)] + HexEncode(bs[1..])
  }

  function HexDecode(s: string): Option<seq<byte>> {
    if s == [] then Some([])
    else if |s| == 1 then None
    else
      match (HexValue(s[0]), HexValue(s[1]), HexDecode(s[2..]))
      case (Some(h), Some(l), Some(rest)) => Some([16 * h + l] + rest)
      case _ => None
  }

  lemma {:induction false} HexInverse(bs: seq<byte>)
    ensures HexDecode(HexEncode(bs)) == Some(bs)
    ensures |HexEncode(bs)| == 2 * |bs|
  {
    if bs == [] {
    } else {
      var s := HexEncode(bs);
      HexRoundTrip(bs[0] / 16);
      HexRoundTrip(bs[0] % 16);
      assert s[2..] == HexEncode(bs[1..]);
      HexInverse(bs[1..]);
      assert bs == [bs[0]] + bs[1..];
    }
  }

  // Base64, section 4 of RFC 4648, over the bytes of its text.

  const PAD: byte := '=' as int

  function Base64Char(v: nat): (c: byte)
    requires v < 64
    ensures c != PAD && c != '\n' as int && c != '\r' as int
  {
    if v < 26 then 'A' as int + v
    else if v < 52 then 'a' as int + v - 26
    else if v < 62 then '0' as int + v - 52
    else if v == 62 then '+' as int
    else '/' as int
  }

  function Base64Value(c: byte): (v: Option<nat>)
    ensures v.Some? ==> v.value < 64
  {
    if 'A' as int <= c <= 'Z' as int then Some(c - 'A' as int)
    else if 'a' as int <= c <= 'z' as int then Some(c - 'a' as int + 26)
    else if '0' as int <= c <= '9' as int then Some(c - '0' as int + 52)
    else if c == '+' as int then Some(62)
    else if c == '/' as int then Some(63)
    else None
  }

  lemma Base64CharInverse(v: nat)
    requires v < 64
    ensures Base64Value(Base64Char(v)) == Some(v)
  {}

  /** Three octets as four characters; missing octets are zero here and padded by the caller. */
  function Group(a: byte, b: byte, c: byte): seq<byte> {
    [Base64Char(a / 4), Base64Char(a % 4 * 16 + b / 16), Base64Char(b % 16 * 4 + c / 64), Base64Char(c % 64)]
  }

  function Base64Encode(bs: seq<byte>): seq<byte> {
    if bs == [] then []
    else if |bs| == 1 then Group(bs[0], 0, 0)[..2] + [PAD, PAD]
    else if |bs| == 2 then Group(bs[0], bs[1], 0)[..3] + [PAD]
    else Group(bs[0], bs[1], bs[2]) + Base64Encode(bs[3..])
  }

  /** Line ends are ignored wherever they stand. */
  function DropLineEnds(s: seq<byte>): seq<byte> {
    if s == [] then []
    else (if s[0] == '\n' as int || s[0] == '\r' as int then [] else [s[0]]) + DropLineEnds(s[1..])
  }

  /** The octets of one group; padding is allowed in the last one only, and bits it leaves over are not looked at. */
  function Quantum(g: seq<byte>, last: bool): Option<seq<byte>>
    requires |g| == 4
  {
    match (Base64Value(g[0]), Base64Value(g[1]))
    case (Some(w), Some(x)) =>
      var first := w * 4 + x / 16;
      if g[2] == PAD then
        if g[3] == PAD && last then Some([first]) else None
      else
        (match Base64Value(g[2])
         case None => None
         case Some(y) =>
           var second := x % 16 * 16 + y / 4;
           if g[3] == PAD then
             if last then Some([first, second]) else None
           else
             match Base64Value(g[3])
             case None => None
             case Some(z) => Some([first, second, y % 4 * 64 + z]))
    case _ => None
  }

  function DecodeGroups(s: seq<byte>): Option<seq<byte>> {
    if s == [] then Some([])
    else if |s| < 4 then None
    else
      match (Quantum(s[..4], |s| == 4), DecodeGroups(s[4..]))
      case (Some(octets), Some(rest)) => Some(octets + rest)
      case _ => None
  }

  function Base64Decode(s: seq<byte>): Option<seq<byte>> {
    DecodeGroups(DropLineEnds(s))
  }

  lemma GroupInverse(a: byte, b: byte, c: byte)
    ensures var g := Group(a, b, c);
            && Base64Value(g[0]) == Some(a / 4)
            && Base64Value(g[1]) == Some(a % 4 * 16 + b / 16)
            && Base64Value(g[2]) == Some(b % 16 * 4 + c / 64)
            && Base64Value(g[3]) == Some(c % 64)
  {
    Base64CharInverse(a / 4);
    Base64CharInverse(a % 4 * 16 + b / 16);
    Base64CharInverse(b % 16 * 4 + c / 64);
    Base64CharInverse(c % 64);
  }

  lemma SextetsGiveOctets(a: byte, b: byte, c: byte)
    ensures a / 4 * 4 + (a % 4 * 16 + b / 16) / 16 == a
    ensures (a % 4 * 16 + b / 16) % 16 * 16 + (b % 16 * 4 + c / 64) / 4 == b
    ensures (b % 16 * 4 + c / 64) % 4 * 64 + c % 64 == c
  {}

  lemma {:induction false} FullGroup(a: byte, b: byte, c: byte, last: bool)
    ensures Quantum(Group(a, b, c), last) == Some([a, b, c])
  {
    GroupInverse(a, b, c);
    SextetsGiveOctets(a, b, c);
    hide Base64Char, Base64Value;
  }

  lemma TwoOctets(a: byte, b: byte)
    ensures Quantum(Group(a, b, 0)[..3] + [PAD], true) == Some([a, b])
  {
    GroupInverse(a, b, 0);
    SextetsGiveOctets(a, b, 0);
    hide Base64Char, Base64Value;
  }

  lemma OneOctet(a: byte)
    ensures Quantum(Group(a, 0, 0)[..2] + [PAD, PAD], true) == Some([a])
  {
    GroupInverse(a, 0, 0);
    SextetsGiveOctets(a, 0, 0);
    hide Base64Char, Base64Value;
  }

  lemma {:induction false} GroupsInverse(bs: seq<byte>)
    ensures DecodeGroups(Base64Encode(bs)) == Some(bs)
    ensures NoLineEnds(Base64Encode(bs))
  {
    hide Base64Char, Base64Value, Quantum;
    var s := Base64Encode(bs);
    if bs == [] {
    } else if |bs| == 1 {
      OneOctet(bs[0]);
      assert s == Group(bs[0], 0, 0)[..2] + [PAD, PAD];
      assert s[..4] == s && s[4..] == [] && bs == [bs[0]];
      assert [bs[0]] + [] == bs;
    } else if |bs| == 2 {
      TwoOctets(bs[0], bs[1]);
      assert s == Group(bs[0], bs[1], 0)[..3] + [PAD];
      assert s[..4] == s && s[4..] == [] && bs == [bs[0], bs[1]];
      assert [bs[0], bs[1]] + [] == bs;
    } else {
      FullGroup(bs[0], bs[1], bs[2], |s| == 4);
      GroupsInverse(bs[3..]);
      assert s[..4] == Group(bs[0], bs[1], bs[2]) && s[4..] == Base64Encode(bs[3..]);
      assert bs == [bs[0], bs[1], bs[2]] + bs[3..];
    }
  }

  predicate NoLineEnds(s: seq<byte>) {
    forall i :: 0 <= i < |s| ==> s[i] != '\n' as int && s[i] != '\r' as int
  }

  lemma {:induction false} NothingToDrop(s: seq<byte>)
    requires NoLineEnds(s)
    ensures DropLineEnds(s) == s
  {
    if s != [] {
      NothingToDrop(s[1..]);
    }
  }

  lemma Base64Inverse(bs: seq<byte>)
    ensures Base64Decode(Base64Encode(bs)) == Some(bs)
  {
    GroupsInverse(bs);
    NothingToDrop(Base64Encode(bs));
  }

  // UTF-8, section 3 of RFC 3629: the bytes of a Go string.

  function Utf8Char(c: char): seq<byte> {
    var n := c as int;
    if n < 0x80 then [n]
    else if n < 0x800 then [0xC0 + n / 64, 0x80 + n % 64]
    else if n < 0x1_0000 then [0xE0 + n / 4096, 0x80 + n / 64 % 64, 0x80 + n % 64]
    else [0xF0 + n / 262144, 0x80 + n / 4096 % 64, 0x80 + n / 64 % 64, 0x80 + n % 64]
  }

  function Utf8(s: string): seq<byte> {
    if s == [] then [] else Utf8Char(s[0]) + Utf8(s[1..])
  }

  predicate Tail(b: byte) { 0x80 <= b < 0xC0 }

  /** The six bits of a continuation byte. */
  function Low6(b: byte): nat
    requires Tail(b)
  {
    b as int - 0x80
  }

  /** The code point at the head of bs and its length; None if the bytes are no UTF-8. */
  function CodePoint(bs: seq<byte>): Option<(nat, nat)>
    requires bs != []
  {
    var b := bs[0] as int;
    if b < 0x80 then Some((b, 1))
    else if 0xC0 <= b < 0xE0 && |bs| >= 2 && Tail(bs[1]) then Some((64 * (b - 0xC0) + Low6(bs[1]), 2))
    else if 0xE0 <= b < 0xF0 && |bs| >= 3 && Tail(bs[1]) && Tail(bs[2]) then
      Some((64 * (64 * (b - 0xE0) + Low6(bs[1])) + Low6(bs[2]), 3))
    else if 0xF0 <= b < 0xF8 && |bs| >= 4 && Tail(bs[1]) && Tail(bs[2]) && Tail(bs[3]) then
      Some((64 * (64 * (64 * (b - 0xF0) + Low6(bs[1])) + Low6(bs[2])) + Low6(bs[3]), 4))
    else None
  }

  predicate Scalar(n: nat) { n < 0xD800 || 0xE000 <= n < 0x11_0000 }

  /** Only the shortest form of a scalar value is accepted. */
  function Utf8Decode(bs: seq<byte>): Option<string> {
    if bs == [] then Some([])
    else
      match CodePoint(bs)
      case None => None
      case Some((n, len)) =>
        if 0 < len <= |bs| && Scalar(n) && |Utf8Char(n as char)| == len then
          match Utf8Decode(bs[len..]) case None => None case Some(s) => Some([n as char] + s)
        else None
  }

  lemma CodePointInverse(c: char, rest: seq<byte>)
    ensures CodePoint(Utf8Char(c) + rest) == Some((c as int, |Utf8Char(c)|))
  {
    var (n, bs) := (c as int, Utf8Char(c) + rest);
    assert n == 64 * (n / 64) + n % 64;
    if n >= 0x800 {
      assert n / 64 == 64 * (n / 4096) + n / 64 % 64;
    }
    if n >= 0x1_0000 {
      assert n / 4096 == 64 * (n / 262144) + n / 4096 % 64;
    }
    assert forall i :: 0 <= i < |Utf8Char(c)| ==> bs[i] == Utf8Char(c)[i];
  }

  lemma {:induction false} Utf8Inverse(s: string)
    ensures Utf8Decode(Utf8(s)) == Some(s)
  {
    hide Utf8Char, CodePoint;
    if s == [] {
    } else {
      var bs := Utf8(s);
      var len := |Utf8Char(s[0])|;
      CodePointInverse(s[0], Utf8(s[1..]));
      Utf8CharNotEmpty(s[0]);
      assert bs[len..] == Utf8(s[1..]);
      Utf8Inverse(s[1..]);
      assert s == [s[0]] + s[1..];
    }
  }

  lemma DivMod(a: nat, b: nat)
    requires b < 64
    ensures (64 * a + b) / 64 == a && (64 * a + b) % 64 == b
  {}

  lemma TwoOctetsAre(a: nat, b: nat)
    requires a < 32 && b < 64 && Scalar(64 * a + b) && |Utf8Char((64 * a + b) as char)| == 2
    ensures Utf8Char((64 * a + b) as char) == [0xC0 + a, 0x80 + b]
  {
    DivMod(a, b);
  }

  lemma ThreeOctetsAre(a: nat, b: nat, c: nat)
    requires a < 16 && b < 64 && c < 64
    requires var n := 64 * (64 * a + b) + c; Scalar(n) && |Utf8Char(n as char)| == 3
    ensures Utf8Char((64 * (64 * a + b) + c) as char) == [0xE0 + a, 0x80 + b, 0x80 + c]
  {
    var n := 64 * (64 * a + b) + c;
    DivMod(a, b);
    DivMod(64 * a + b, c);
    assert n / 4096 == n / 64 / 64;
  }

  lemma FourOctetsAre(a: nat, b: nat, c: nat, d: nat)
    requires a < 8 && b < 64 && c < 64 && d < 64
    requires var n := 64 * (64 * (64 * a + b) + c) + d; Scalar(n) && |Utf8Char(n as char)| == 4
    ensures Utf8Char((64 * (64 * (64 * a + b) + c) + d) as char) == [0xF0 + a, 0x80 + b, 0x80 + c, 0x80 + d]
  {
    var n := 64 * (64 * (64 * a + b) + c) + d;
    DivMod(a, b);
    DivMod(64 * a + b, c);
    DivMod(64 * (64 * a + b) + c, d);
    assert n / 4096 == n / 64 / 64 && n / 262144 == n / 64 / 64 / 64;
  }

  /** An accepted code point is the one its octets are the form of. */
  lemma CodePointIs(bs: seq<byte>)
    requires bs != [] && CodePoint(bs).Some?
    ensures var (n, len) := CodePoint(bs).value;
            0 < len <= |bs| && (Scalar(n) && |Utf8Char(n as char)| == len ==> bs[..len] == Utf8Char(n as char))
  {
    var (n, len) := CodePoint(bs).value;
    var b := bs[0] as int;
    if Scalar(n) && |Utf8Char(n as char)| == len > 1 {
      hide Utf8Char;
      if len == 2 {
        TwoOctetsAre(b - 0xC0, Low6(bs[1]));
      } else if len == 3 {
        ThreeOctetsAre(b - 0xE0, Low6(bs[1]), Low6(bs[2]));
      } else {
        FourOctetsAre(b - 0xF0, Low6(bs[1]), Low6(bs[2]), Low6(bs[3]));
      }
    }
  }

  /** Decoding accepts exactly what encoding gives. */
  lemma {:induction false} Utf8DecodesIff(bs: seq<byte>, s: string)
    ensures Utf8Decode(bs) == Some(s) <==> bs == Utf8(s)
    decreases |bs|
  {
    hide Utf8Char, CodePoint;
    if bs == Utf8(s) {
      Utf8Inverse(s);
    }
    if Utf8Decode(bs) == Some(s) && bs != [] {
      CodePointIs(bs);
      var (n, len) := CodePoint(bs).value;
      Utf8DecodesIff(bs[len..], s[1..]);
      assert bs == bs[..len] + bs[len..];
    }
  }

  lemma Utf8CharNotEmpty(c: char)
    ensures 1 <= |Utf8Char(c)| <= 4
  {}

  // What the codings are, beside being inverse.

  predicate IsHex(c: char) {
    '0' <= c <= '9' || 'a' <= c <= 'f' || 'A' <= c <= 'F'
  }

  /** Hex text is an even number of hexadecimal digits of either case, and nothing else. */
  lemma {:induction false} HexDecodesIff(s: string)
    ensures HexDecode(s).Some? <==> |s| % 2 == 0 && forall i :: 0 <= i < |s| ==> IsHex(s[i])
  {
    if |s| >= 2 {
      HexDecodesIff(s[2..]);
      assert forall i :: 2 <= i < |s| ==> s[i] == s[2..][i - 2];
    }
  }

  lemma HexDigitIs(d: nat)
    requires d < 16
    ensures HexDigit(d) as int == if d < 10 then 48 + d else 87 + d
  {}

  lemma HexFirst(bs: seq<byte>)
    requires bs != []
    ensures HexEncode(bs) == [HexDigit(bs[0] / 16), HexDigit(bs[0] % 16)] + HexEncode(bs[1..])
  {}

  /** Each octet is two lower-case digits, the high half first. */
  lemma {:induction false} HexEncodeAt(bs: seq<byte>, i: nat)
    requires i < |bs|
    ensures |HexEncode(bs)| == 2 * |bs|
    ensures var (high, low) := (bs[i] / 16, bs[i] % 16);
            && HexEncode(bs)[2 * i] as int == (if high < 10 then 48 + high else 87 + high)
            && HexEncode(bs)[2 * i + 1] as int == (if low < 10 then 48 + low else 87 + low)
  {
    hide HexEncode, HexDigit;
    HexInverse(bs);
    HexFirst(bs);
    if i == 0 {
      HexDigitIs(bs[0] / 16);
      HexDigitIs(bs[0] % 16);
    } else {
      HexEncodeAt(bs[1..], i - 1);
    }
  }

  predicate IsBase64(c: byte) {
    'A' as int <= c <= 'Z' as int || 'a' as int <= c <= 'z' as int || '0' as int <= c <= '9' as int
    || c == '+' as int || c == '/' as int
  }

  /** Table 1 of RFC 4648: three runs of consecutive characters, and two more. */
  lemma Base64Alphabet(v: nat)
    requires v < 64
    ensures Base64Char(0) == 'A' as int && Base64Char(25) == 'Z' as int
    ensures Base64Char(26) == 'a' as int && Base64Char(51) == 'z' as int
    ensures Base64Char(52) == '0' as int && Base64Char(61) == '9' as int
    ensures Base64Char(62) == '+' as int && Base64Char(63) == '/' as int
    ensures v < 61 && v != 25 && v != 51 ==> Base64Char(v + 1) == Base64Char(v) + 1
  {}

  /** Whole groups of four from the alphabet, of which only the last may end in one or two pads. */
  predicate WellPadded(s: seq<byte>) {
    && |s| % 4 == 0
    && (forall i :: 0 <= i < |s| - 2 ==> IsBase64(s[i]))
    && (s != [] ==>
          || (IsBase64(s[|s| - 2]) && (IsBase64(s[|s| - 1]) || s[|s| - 1] == '=' as int))
          || (s[|s| - 2] == '=' as int && s[|s| - 1] == '=' as int))
  }

  lemma QuantumIff(g: seq<byte>, last: bool)
    requires |g| == 4
    ensures Quantum(g, last).Some? <==>
            if last then WellPadded(g) else forall i :: 0 <= i < 4 ==> IsBase64(g[i])
  {}

  lemma {:induction false} GroupsDecodeIff(s: seq<byte>)
    ensures DecodeGroups(s).Some? <==> WellPadded(s)
  {
    hide Quantum, IsBase64;
    if |s| >= 4 {
      var (g, rest) := (s[..4], s[4..]);
      QuantumIff(g, |s| == 4);
      GroupsDecodeIff(rest);
      if |s| == 4 {
        assert g == s;
      } else {
        FirstGroup(s);
      }
    }
  }

  lemma FirstGroup(s: seq<byte>)
    requires |s| > 4
    ensures WellPadded(s) <==> (forall i :: 0 <= i < 4 ==> IsBase64(s[..4][i])) && WellPadded(s[4..])
  {
    hide IsBase64;
    var rest := s[4..];
    if |s| % 4 == 0 {
      assert |rest| >= 4 && rest[|rest| - 1] == s[|s| - 1] && rest[|rest| - 2] == s[|s| - 2];
      if WellPadded(s) {
        forall i | 0 <= i < |rest| - 2 ensures IsBase64(rest[i]) {
          assert rest[i] == s[i + 4];
        }
      }
      if (forall i :: 0 <= i < 4 ==> IsBase64(s[..4][i])) && WellPadded(rest) {
        forall i | 0 <= i < |s| - 2 ensures IsBase64(s[i]) {
          if i < 4 {
            assert s[i] == s[..4][i];
          } else {
            assert s[i] == rest[i - 4];
          }
        }
      }
    }
  }

  /** Base64 text is well padded once its line ends are taken out. */
  lemma Base64DecodesIff(s: seq<byte>)
    ensures Base64Decode(s).Some? <==> WellPadded(DropLineEnds(s))
  {
    GroupsDecodeIff(DropLineEnds(s));
  }

  /** "f", "fo" and "foo", test vectors of section 10 of RFC 4648: "Zg==", "Zm8=" and "Zm9v". */
  lemma Rfc4648Vectors()
    ensures Base64Encode([102]) == [90, 103, 61, 61]
    ensures Base64Encode([102, 111]) == [90, 109, 56, 61]
  {}

  lemma WholeGroupVector()
    ensures Base64Encode([102, 111, 111]) == [90, 109, 57, 118]
  {
    assert Group(102, 111, 111) + [] == Group(102, 111, 111);
    assert [102 as byte, 111, 111][3..] == [];
  }

  /** RFC 3629: one to four octets. */
  lemma Utf8Vectors()
    ensures Utf8Char('A') == [0x41] && Utf8Char(0xE9 as char) == [0xC3, 0xA9]
    ensures Utf8Char(0x20AC as char) == [0xE2, 0x82, 0xAC]
    ensures Utf8Char(0x1F600 as char) == [0xF0, 0x9F, 0x98, 0x80]
  {}
}
