/** encoding/json for the values the program exchanges: RFC 8259 text, with Go's string escaping. */
module Json {
  import opened Wrappers
  import opened Strconv

  datatype Json =
    | Null
    | Bool(b: bool)
    | Number(text: string)
    | String(s: string)
    | Array(items: seq<Json>)
    | Object(members: seq<Member>)

  datatype Member = Member(key: string, value: Json)

  // Numbers: the scanner's automaton for the grammar of section 6.

  datatype NumState = Start | Minus | Zero | Int | Dot | Frac | Exp | ExpSign | ExpInt

  function NumStep(st: NumState, c: char): Option<NumState> {
    match st
    case Start => if c == '-' then Some(Minus) else LeadDigit(c)
    case Minus => LeadDigit(c)
    case Zero => AfterInt(c)
    case Int => if IsDigit(c) then Some(Int) else AfterInt(c)
    case Dot => if IsDigit(c) then Some(Frac) else None
    case Frac => if IsDigit(c) then Some(Frac) else if c == 'e' || c == 'E' then Some(Exp) else None
    case Exp => if c == '+' || c == '-' then Some(ExpSign) else if IsDigit(c) then Some(ExpInt) else None
    case ExpSign => if IsDigit(c) then Some(ExpInt) else None
    case ExpInt => if IsDigit(c) then Some(ExpInt) else None
  }

  function LeadDigit(c: char): Option<NumState> {
    if c == '0' then Some(Zero) else if IsDigit(c) then Some(Int) else None
  }

  function AfterInt(c: char): Option<NumState> {
    if c == '.' then Some(Dot) else if c == 'e' || c == 'E' then Some(Exp) else None
  }

  predicate NumAccepting(st: NumState) { st.Zero? || st.Int? || st.Frac? || st.ExpInt? }

  /** How many characters of s the automaton takes from st, if it may stop there. */
  function NumLength(st: NumState, s: string): (r: Option<nat>)
    ensures r.Some? ==> r.value <= |s| && (r.value == 0 ==> NumAccepting(st))
    decreases |s|
  {
    if s == [] || NumStep(st, s[0]).None? then
      if NumAccepting(st) then Some(0) else None
    else
      match NumLength(NumStep(st, s[0]).value, s[1..])
      case None => None
      case Some(n) => Some(n + 1)
  }

  /** The whole of s is one number literal. */
  predicate IsNumber(s: string) {
    NumLength(Start, s) == Some(|s|)
  }

  /** What follows does not look like more of a number. */
  predicate Ends(rest: string) {
    rest == [] || (!IsDigit(rest[0]) && rest[0] != '.' && rest[0] != 'e' && rest[0] != 'E')
  }

  lemma {:induction false} NumLengthStops(st: NumState, s: string, rest: string)
    requires NumLength(st, s) == Some(|s|) && Ends(rest)
    ensures NumLength(st, s + rest) == Some(|s|)
    decreases |s|
  {
    if s == [] {
      assert s + rest == rest;
    } else {
      assert (s + rest)[1..] == s[1..] + rest;
      NumLengthStops(NumStep(st, s[0]).value, s[1..], rest);
    }
  }

  lemma {:induction false} DigitsFromInt(s: string)
    requires AllDigits(s)
    ensures NumLength(Int, s) == Some(|s|)
  {
    if s != [] {
      DigitsFromInt(s[1..]);
    }
  }

  lemma DigitsAreNumber(st: NumState, n: nat)
    requires st.Start? || st.Minus?
    ensures NumLength(st, Digits(n)) == Some(|Digits(n)|)
  {
    var s := Digits(n);
    DigitsFromInt(s[1..]);
    if s[0] == '0' {
      assert s[1..] == [];
    }
  }

  /** Every printed integer is a JSON number. */
  lemma FormatIntIsNumber(x: int)
    ensures IsNumber(FormatInt(x))
  {
    if x < 0 {
      DigitsAreNumber(Minus, -x);
      assert FormatInt(x)[1..] == Digits(-x);
    } else {
      DigitsAreNumber(Start, x);
    }
  }

  // Strings.

  /** The character is copied as it is; <, >, & and the two line separators are not. */
  predicate Plain(c: char) {
    && c as int >= 0x20 && c != '"' && c != '\\' && c != '<' && c != '>' && c != '&'
    && c as int != 0x2028 && c as int != 0x2029
  }

  function UnicodeEscape(n: nat): (r: string)
    requires n < 0x1_0000
  {
    ['\\', 'u', HexDigit(n / 16 / 16 / 16), HexDigit(n / 16 / 16 % 16), HexDigit(n / 16 % 16), HexDigit(n % 16)]
  }

  function EscapeChar(c: char): string {
    if Plain(c) then [c]
    else if c == '"' || c == '\\' then ['\\', c]
    else if c as int == 8 then "\\b"
    else if c as int == 12 then "\\f"
    else if c == '\n' then "\\n"
    else if c == '\r' then "\\r"
    else if c == '\t' then "\\t"
    else UnicodeEscape(c as int)
  }

  function Escape(s: string): string {
    if s == [] then [] else EscapeChar(s[0]) + Escape(s[1..])
  }

  function Quote(s: string): string { "\"" + Escape(s) + "\"" }

  /** Four hexadecimal digits at the head of s. */
  function Hex4(s: string): Option<nat> {
    if |s| < 4 then None
    else
      match (HexValue(s[0]), HexValue(s[1]), HexValue(s[2]), HexValue(s[3]))
      case (Some(a), Some(b), Some(c), Some(d)) => Some(16 * (16 * (16 * a + b) + c) + d)
      case _ => None
  }

  predicate Surrogate(n: nat) { 0xD800 <= n < 0xE000 }

  /** A \u escape, given the text after "\u": the character, and how much text it took. */
  function DecodeUnicode(s: string): (r: Option<(char, nat)>)
    ensures r.Some? ==> 0 < r.value.1 <= |s|
  {
    match Hex4(s)
    case None => None
    case Some(n) =>
      if n >= 0x1_0000 then None
      else if !Surrogate(n) then Some((n as char, 4))
      else
        var low := if |s| >= 6 && s[4] == '\\' && s[5] == 'u' then Hex4(s[6..]) else None;
        if low.Some? && n < 0xDC00 && 0xDC00 <= low.value < 0xE000 then
          Some(((0x1_0000 + (n - 0xD800) * 0x400 + (low.value - 0xDC00)) as char, 10))
        else
          Some((0xFFFD as char, 4))
  }

  /** One escape, given the text after the backslash. */
  function DecodeEscape(s: string): (r: Option<(char, nat)>)
    ensures r.Some? ==> 0 < r.value.1 <= |s|
  {
    if s == [] then None
    else if s[0] == '"' || s[0] == '\\' || s[0] == '/' then Some((s[0], 1))
    else if s[0] == 'b' then Some((8 as char, 1))
    else if s[0] == 'f' then Some((12 as char, 1))
    else if s[0] == 'n' then Some(('\n', 1))
    else if s[0] == 'r' then Some(('\r', 1))
    else if s[0] == 't' then Some(('\t', 1))
    else if s[0] == 'u' then
      match DecodeUnicode(s[1..])
      case None => None
      case Some((c, n)) => Some((c, n + 1))
    else None
  }

  /** A string after its opening quote: its characters, and the text after the closing quote. */
  function ParseString(s: string): (r: Option<(string, string)>)
    ensures r.Some? ==> |r.value.1| < |s|
    decreases |s|
  {
    if s == [] || s[0] as int < 0x20 then None
    else if s[0] == '"' then Some(([], s[1..]))
    else if s[0] != '\\' then Prepend(s[0], ParseString(s[1..]))
    else
      match DecodeEscape(s[1..])
      case None => None
      case Some((c, n)) => Prepend(c, ParseString(s[1 + n..]))
  }

  function Prepend(c: char, r: Option<(string, string)>): Option<(string, string)> {
    match r
    case None => None
    case Some((t, rest)) => Some(([c] + t, rest))
  }

  lemma Hex4RoundTrip(n: nat, rest: string)
    requires n < 0x1_0000
    ensures Hex4(UnicodeEscape(n)[2..] + rest) == Some(n)
  {
    var (a, b, c, d) := (n / 16 / 16 / 16, n / 16 / 16 % 16, n / 16 % 16, n % 16);
    HexRoundTrip(a);
    HexRoundTrip(b);
    HexRoundTrip(c);
    HexRoundTrip(d);
    var s := UnicodeEscape(n)[2..] + rest;
    assert s[0] == HexDigit(a) && s[1] == HexDigit(b) && s[2] == HexDigit(c) && s[3] == HexDigit(d);
  }

  /** A backslash, one letter: the escapes of two characters. */
  lemma ShortEscapeText(c: char, rest: string)
    requires |EscapeChar(c)| == 2
    ensures EscapeChar(c)[0] == '\\' && DecodeEscape(EscapeChar(c)[1..] + rest) == Some((c, 1))
  {
    hide DecodeUnicode;
  }

  lemma UnicodeEscapeText(c: char, rest: string)
    requires !Plain(c) && |EscapeChar(c)| != 2
    ensures |EscapeChar(c)| == 6 && EscapeChar(c)[0] == '\\'
    ensures DecodeEscape(EscapeChar(c)[1..] + rest) == Some((c, 5))
  {
    var (n, e) := (c as int, EscapeChar(c));
    assert n < 0x1_0000 && !Surrogate(n) && e == UnicodeEscape(n);
    var s := e[1..] + rest;
    assert s[0] == 'u' && s[1..] == e[2..] + rest;
    Hex4RoundTrip(n, rest);
  }

  /** Reading one escaped character back. */
  lemma {:induction false} ParseEscapedChar(c: char, rest: string)
    ensures ParseString(EscapeChar(c) + rest) == Prepend(c, ParseString(rest))
  {
    hide DecodeEscape, UnicodeEscape, Prepend;
    var e := EscapeChar(c);
    var s := e + rest;
    if Plain(c) {
      assert s[1..] == rest;
    } else {
      hide Plain, EscapeChar;
      if |e| == 2 {
        ShortEscapeText(c, rest);
      } else {
        UnicodeEscapeText(c, rest);
      }
      assert s[0] == '\\' && s[1..] == e[1..] + rest && s[|e|..] == rest;
    }
  }

  lemma {:induction false} StringRoundTrip(t: string, rest: string)
    ensures ParseString(Escape(t) + ("\"" + rest)) == Some((t, rest))
  {
    if t == [] {
      assert Escape(t) + ("\"" + rest) == "\"" + rest;
    } else {
      var tail := Escape(t[1..]) + ("\"" + rest);
      assert Escape(t) + ("\"" + rest) == EscapeChar(t[0]) + tail;
      ParseEscapedChar(t[0], tail);
      StringRoundTrip(t[1..], rest);
      assert t == [t[0]] + t[1..];
    }
  }

  // Values.

  function Print(v: Json): string
    decreases v, 0
  {
    match v
    case Null => "null"
    case Bool(b) => if b then "true" else "false"
    case Number(text) => text
    case String(s) => Quote(s)
    case Array(items) => "[" + PrintItems(items) + "]"
    case Object(members) => "{" + PrintMembers(members) + "}"
  }

  function PrintItems(items: seq<Json>): string
    decreases items
  {
    if items == [] then ""
    else Print(items[0]) + if |items| == 1 then "" else "," + PrintItems(items[1..])
  }

  function PrintMembers(members: seq<Member>): string
    decreases members
  {
    if members == [] then ""
    else
      Quote(members[0].key) + ":" + Print(members[0].value)
      + if |members| == 1 then "" else "," + PrintMembers(members[1..])
  }

  function SkipSpace(s: string): (r: string)
    ensures |r| <= |s|
  {
    if s != [] && (s[0] == ' ' || s[0] == '\t' || s[0] == '\r' || s[0] == '\n') then SkipSpace(s[1..]) else s
  }

  function ParseScalar(t: string): (r: Option<(Json, string)>)
    requires t != []
    ensures r.Some? ==> |r.value.1| < |t|
  {
    if "null" <= t then Some((Null, t[4..]))
    else if "true" <= t then Some((Bool(true), t[4..]))
    else if "false" <= t then Some((Bool(false), t[5..]))
    else
      match NumLength(Start, t)
      case None => None
      case Some(n) => Some((Number(t[..n]), t[n..]))
  }

  /** A value at the head of s, spaces skipped, and the text after it. */
  function ParseValue(s: string): (r: Option<(Json, string)>)
    ensures r.Some? ==> |r.value.1| < |s|
    decreases |s|, 2
  {
    var t := SkipSpace(s);
    if t == [] then None
    else if t[0] == '"' then
      match ParseString(t[1..])
      case None => None
      case Some((x, rest)) => Some((String(x), rest))
    else if t[0] == '[' then
      var u := SkipSpace(t[1..]);
      if u != [] && u[0] == ']' then Some((Array([]), u[1..]))
      else
        match ParseItems(t[1..])
        case None => None
        case Some((items, rest)) => Some((Array(items), rest))
    else if t[0] == '{' then
      var u := SkipSpace(t[1..]);
      if u != [] && u[0] == '}' then Some((Object([]), u[1..]))
      else
        match ParseMembers(t[1..])
        case None => None
        case Some((members, rest)) => Some((Object(members), rest))
    else ParseScalar(t)
  }

  /** The elements of an array and its closing bracket. */
  function ParseItems(s: string): (r: Option<(seq<Json>, string)>)
    ensures r.Some? ==> |r.value.1| < |s|
    decreases |s|, 3
  {
    match ParseValue(s)
    case None => None
    case Some((v, rest)) =>
      var t := SkipSpace(rest);
      if t != [] && t[0] == ']' then Some(([v], t[1..]))
      else if t != [] && t[0] == ',' then
        match ParseItems(t[1..])
        case None => None
        case Some((vs, rest')) => Some(([v] + vs, rest'))
      else None
  }

  /** A member's name and the colon, and the text after it. */
  function ParseKey(s: string): (r: Option<(string, string)>)
    ensures r.Some? ==> |r.value.1| < |s|
  {
    var t := SkipSpace(s);
    if t == [] || t[0] != '"' then None
    else
      match ParseString(t[1..])
      case None => None
      case Some((key, rest)) =>
        var u := SkipSpace(rest);
        if u != [] && u[0] == ':' then Some((key, u[1..])) else None
  }

  /** The members of an object and its closing brace. */
  function ParseMembers(s: string): (r: Option<(seq<Member>, string)>)
    ensures r.Some? ==> |r.value.1| < |s|
    decreases |s|, 3
  {
    match ParseKey(s)
    case None => None
    case Some((key, t)) =>
      match ParseValue(t)
      case None => None
      case Some((v, rest)) =>
        var u := SkipSpace(rest);
        if u != [] && u[0] == '}' then Some(([Member(key, v)], u[1..]))
        else if u != [] && u[0] == ',' then
          match ParseMembers(u[1..])
          case None => None
          case Some((ms, rest')) => Some(([Member(key, v)] + ms, rest'))
        else None
  }

  /** json.Unmarshal's syntax: one value, nothing but space after it. */
  function Parse(s: string): Option<Json> {
    match ParseValue(s)
    case None => None
    case Some((v, rest)) => if SkipSpace(rest) == [] then Some(v) else None
  }

  // Round trip.

  /** Every number in the value is a number literal. */
  predicate WellFormed(v: Json)
  {
    match v
    case Number(text) => IsNumber(text)
    case Array(items) => forall i :: 0 <= i < |items| ==> WellFormed(items[i])
    case Object(members) => forall i :: 0 <= i < |members| ==> WellFormed(members[i].value)
    case _ => true
  }

  lemma PrintNotSpace(v: Json)
    requires WellFormed(v)
    ensures var p := Print(v);
            p != [] && p[0] != ' ' && p[0] != '\t' && p[0] != '\r' && p[0] != '\n' && p[0] != ']' && p[0] != '}'
  {
    if v.Number? {
      assert NumStep(Start, v.text[0]).Some?;
    }
  }

  predicate NoSpace(c: char) { c != ' ' && c != '\t' && c != '\r' && c != '\n' }

  /** What ParseValue does with the text of a non-empty array. */
  lemma ParseArrayText(t: string)
    requires t != [] && NoSpace(t[0]) && t[0] != ']' && ParseItems(t).Some?
    ensures var (items, rest) := ParseItems(t).value; ParseValue("[" + t) == Some((Array(items), rest))
  {
    var s := "[" + t;
    assert s[1..] == t;
    assert SkipSpace(s) == s && SkipSpace(t) == t;
  }

  lemma ParseObjectText(t: string)
    requires t != [] && NoSpace(t[0]) && t[0] != '}' && ParseMembers(t).Some?
    ensures var (ms, rest) := ParseMembers(t).value; ParseValue("{" + t) == Some((Object(ms), rest))
  {
    var s := "{" + t;
    assert s[1..] == t;
    assert SkipSpace(s) == s && SkipSpace(t) == t;
  }

  lemma ParseStringText(t: string, rest: string)
    ensures ParseValue(Quote(t) + rest) == Some((String(t), rest))
  {
    hide ParseString, Escape, ParseItems, ParseMembers, ParseScalar;
    var s := Quote(t) + rest;
    assert s[0] == '"' && SkipSpace(s) == s && s[1..] == Escape(t) + ("\"" + rest);
    StringRoundTrip(t, rest);
  }

  lemma ParseLiteralText(v: Json, rest: string)
    requires v.Null? || v.Bool?
    ensures ParseValue(Print(v) + rest) == Some((v, rest))
  {
    var s := Print(v) + rest;
    assert SkipSpace(s) == s;
    assert s[if v.Null? || v.b then 4 else 5..] == rest;
  }

  lemma ParseNumberText(text: string, rest: string)
    requires IsNumber(text) && Ends(rest)
    ensures ParseValue(text + rest) == Some((Number(text), rest))
  {
    hide NumLength;
    var s := text + rest;
    NumLengthStops(Start, text, rest);
    NumberHead(text);
    assert s[0] == text[0] && SkipSpace(s) == s;
    assert s[..|text|] == text && s[|text|..] == rest;
  }

  lemma NumberHead(text: string)
    requires IsNumber(text)
    ensures text != [] && (text[0] == '-' || IsDigit(text[0]))
  {
    assert NumStep(Start, text[0]).Some?;
  }

  lemma ParseEmptyText(rest: string)
    ensures ParseValue("[]" + rest) == Some((Array([]), rest))
    ensures ParseValue("{}" + rest) == Some((Object([]), rest))
  {
    var (a, o) := ("[]" + rest, "{}" + rest);
    assert SkipSpace(a) == a && SkipSpace(o) == o;
    assert a[1..] == "]" + rest && o[1..] == "}" + rest;
    assert a[1..][1..] == rest && o[1..][1..] == rest;
  }

  /** The text of a non-empty array or object from its first element on. */
  function Body(v: Json): string
    requires v.Array? || v.Object?
  {
    if v.Array? then PrintItems(v.items) else PrintMembers(v.members)
  }

  lemma PrintBody(v: Json, rest: string)
    ensures v.Array? && v.items != [] ==> Print(v) + rest == "[" + (Body(v) + ("]" + rest))
    ensures v.Object? && v.members != [] ==> Print(v) + rest == "{" + (Body(v) + ("}" + rest))
    ensures v.Array? && v.items == [] ==> Print(v) == "[]"
    ensures v.Object? && v.members == [] ==> Print(v) == "{}"
    ensures v.String? ==> Print(v) == Quote(v.s)
    ensures v.Number? ==> Print(v) == v.text
  {
    if (v.Array? && v.items == []) || (v.Object? && v.members == []) {
      assert Body(v) == "";
    }
  }

  lemma FirstOfBody(items: seq<Json>, after: string)
    requires items != [] && WellFormed(items[0])
    ensures var t := PrintItems(items) + after; t != [] && NoSpace(t[0]) && t[0] != ']'
  {
    PrintNotSpace(items[0]);
  }

  lemma FirstOfMembers(members: seq<Member>, after: string)
    requires members != []
    ensures var t := PrintMembers(members) + after; t != [] && NoSpace(t[0]) && t[0] != '}'
  {}

  /** Parsing what was printed, whatever follows it, gives the value back and leaves the rest. */
  lemma {:induction false} ValueRoundTrip(v: Json, rest: string)
    requires WellFormed(v) && (v.Number? ==> Ends(rest))
    ensures ParseValue(Print(v) + rest) == Some((v, rest))
    decreases v, 0
  {
    hide Print, PrintItems, PrintMembers, ParseValue, ParseItems, ParseMembers, Quote, IsNumber, Ends, NoSpace;
    PrintBody(v, rest);
    if v.String? {
      ParseStringText(v.s, rest);
    } else if v.Array? && v.items != [] {
      FirstOfBody(v.items, "]" + rest);
      ItemsRoundTrip(v.items, rest);
      ParseArrayText(PrintItems(v.items) + ("]" + rest));
    } else if v.Object? && v.members != [] {
      FirstOfMembers(v.members, "}" + rest);
      MembersRoundTrip(v.members, rest);
      ParseObjectText(PrintMembers(v.members) + ("}" + rest));
    } else if v.Array? || v.Object? {
      ParseEmptyText(rest);
    } else if v.Number? {
      ParseNumberText(v.text, rest);
    } else {
      ParseLiteralText(v, rest);
    }
  }

  /** What ParseItems does with the text of one element and whatever follows it. */
  lemma ParseItemText(v: Json, t: string, after: string)
    requires ParseValue(t) == Some((v, after)) && after != []
    ensures after[0] == ']' ==> ParseItems(t) == Some(([v], after[1..]))
    ensures after[0] == ',' && ParseItems(after[1..]).Some? ==>
      ParseItems(t) == Some(([v] + ParseItems(after[1..]).value.0, ParseItems(after[1..]).value.1))
  {
    hide ParseValue;
  }

  /** The text of the first element, and what follows it. */
  lemma FirstItemText(items: seq<Json>, rest: string)
    requires items != []
    ensures PrintItems(items) + ("]" + rest) ==
            Print(items[0]) + if |items| == 1 then "]" + rest else "," + (PrintItems(items[1..]) + ("]" + rest))
  {
    hide Print, PrintItems;
    var (first, more, tail) := (Print(items[0]), PrintItems(items[1..]), "]" + rest);
    OneItem(items);
    if |items| > 1 {
      Regroup(first, ",", more, tail);
    }
  }

  lemma Regroup(a: string, b: string, c: string, d: string)
    ensures (a + (b + c)) + d == a + (b + (c + d))
  {}

  lemma OneItem(items: seq<Json>)
    requires items != []
    ensures PrintItems(items) ==
            if |items| == 1 then Print(items[0]) else Print(items[0]) + ("," + PrintItems(items[1..]))
  {
    hide Print;
  }

  lemma {:induction false} ItemsRoundTrip(items: seq<Json>, rest: string)
    requires items != [] && forall i :: 0 <= i < |items| ==> WellFormed(items[i])
    ensures ParseItems(PrintItems(items) + ("]" + rest)) == Some((items, rest))
    decreases items
  {
    hide ParseValue, ParseItems, Print, PrintItems, WellFormed;
    FirstItemText(items, rest);
    if |items| == 1 {
      var after := "]" + rest;
      assert after[1..] == rest && items == [items[0]];
      ItemThenText(items[0], after);
    } else {
      var tail := PrintItems(items[1..]) + ("]" + rest);
      var after := "," + tail;
      assert after[1..] == tail && items == [items[0]] + items[1..];
      assert forall i :: 0 <= i < |items[1..]| ==> items[1..][i] == items[i + 1];
      ItemsRoundTrip(items[1..], rest);
      ItemThenText(items[0], after);
    }
  }

  /** ParseItems on a printed element with a comma or a closing bracket behind it. */
  lemma {:induction false} ItemThenText(v: Json, after: string)
    requires WellFormed(v) && after != [] && (after[0] == ']' || after[0] == ',')
    ensures after[0] == ']' ==> ParseItems(Print(v) + after) == Some(([v], after[1..]))
    ensures after[0] == ',' && ParseItems(after[1..]).Some? ==>
            ParseItems(Print(v) + after)
            == Some(([v] + ParseItems(after[1..]).value.0, ParseItems(after[1..]).value.1))
    decreases v, 1
  {
    hide ParseValue, ParseItems, Print, WellFormed;
    ValueRoundTrip(v, after);
    ParseItemText(v, Print(v) + after, after);
  }

  lemma ParseKeyText(key: string, t: string)
    ensures ParseKey(Quote(key) + (":" + t)) == Some((key, t))
  {
    var colon := ":" + t;
    var s := Quote(key) + colon;
    assert s[1..] == Escape(key) + ("\"" + colon);
    StringRoundTrip(key, colon);
    assert colon[1..] == t;
  }

  lemma {:induction false} MembersRoundTrip(members: seq<Member>, rest: string)
    requires members != [] && forall i :: 0 <= i < |members| ==> WellFormed(members[i].value)
    ensures ParseMembers(PrintMembers(members) + ("}" + rest)) == Some((members, rest))
    decreases members
  {
    hide ParseKey, ParseValue, Quote, Print, WellFormed;
    var m := members[0];
    var tail := PrintMembers(members[1..]) + ("}" + rest);
    var after := if |members| == 1 then "}" + rest else "," + tail;
    var t := Print(m.value) + after;
    assert PrintMembers(members) + ("}" + rest) == Quote(m.key) + (":" + t);
    ParseKeyText(m.key, t);
    ValueRoundTrip(m.value, after);
    if |members| == 1 {
      assert after[1..] == rest;
      assert members == [m];
    } else {
      assert after[1..] == tail;
      MembersRoundTrip(members[1..], rest);
      assert members == [m] + members[1..];
    }
  }

  /** Unmarshalling a marshalled value is the identity, with or without the encoder's newline. */
  lemma {:induction false} ParsePrint(v: Json)
    requires WellFormed(v)
    ensures Parse(Print(v)) == Some(v)
    ensures Parse(Print(v) + "\n") == Some(v)
  {
    ValueRoundTrip(v, "");
    assert Print(v) + "" == Print(v);
    ValueRoundTrip(v, "\n");
  }

  // No printed text contains a raw control character, a newline in particular.

  predicate NoControls(s: string) {
    forall i :: 0 <= i < |s| ==> s[i] as int >= 0x20
  }

  lemma EscapeCharNoControls(c: char)
    ensures NoControls(EscapeChar(c))
  {}

  lemma {:induction false} EscapeNoControls(s: string)
    ensures NoControls(Escape(s))
  {
    if s != [] {
      EscapeCharNoControls(s[0]);
      EscapeNoControls(s[1..]);
    }
  }

  lemma {:induction false} NumberNoControls(st: NumState, s: string)
    requires NumLength(st, s) == Some(|s|)
    ensures NoControls(s)
    decreases |s|
  {
    if s != [] {
      NumberNoControls(NumStep(st, s[0]).value, s[1..]);
      assert s == [s[0]] + s[1..];
    }
  }

  lemma {:induction false} PrintNoControls(v: Json)
    requires WellFormed(v)
    ensures NoControls(Print(v))
    decreases v, 0
  {
    match v
    case Number(text) => NumberNoControls(Start, text);
    case String(s) => EscapeNoControls(s);
    case Array(items) => PrintItemsNoControls(items);
    case Object(members) => PrintMembersNoControls(members);
    case _ =>
  }

  lemma {:induction false} PrintItemsNoControls(items: seq<Json>)
    requires forall i :: 0 <= i < |items| ==> WellFormed(items[i])
    ensures NoControls(PrintItems(items))
    decreases items
  {
    if items != [] {
      PrintNoControls(items[0]);
      PrintItemsNoControls(items[1..]);
    }
  }

  lemma {:induction false} PrintMembersNoControls(members: seq<Member>)
    requires forall i :: 0 <= i < |members| ==> WellFormed(members[i].value)
    ensures NoControls(PrintMembers(members))
    decreases members
  {
    hide Print, Escape, WellFormed;
    if members != [] {
      EscapeNoControls(members[0].key);
      PrintNoControls(members[0].value);
      PrintMembersNoControls(members[1..]);
    }
  }

  // Texts of encoding/json, letter by letter.

  /** What encoding/json escapes, and how. */
  lemma EscapeExamples()
    ensures EscapeChar('a') == "a" && EscapeChar('/') == "/" && EscapeChar(0x7F as char) == [0x7F as char]
    ensures EscapeChar('"') == "\\\"" && EscapeChar('\\') == "\\\\"
    ensures EscapeChar('\n') == "\\n" && EscapeChar('\r') == "\\r" && EscapeChar('\t') == "\\t"
  {}

  lemma MoreEscapes()
    ensures EscapeChar(8 as char) == "\\b" && EscapeChar(12 as char) == "\\f" && EscapeChar(1 as char) == "\\u0001"
    ensures EscapeChar('<') == "\\u003c" && EscapeChar('>') == "\\u003e" && EscapeChar('&') == "\\u0026"
    ensures EscapeChar(0x2028 as char) == "\\u2028" && EscapeChar(0x2029 as char) == "\\u2029"
  {
    assert HexDigit(3) == '3' && HexDigit(12) == 'c' && HexDigit(14) == 'e' && HexDigit(2) == '2' && HexDigit(6) == '6';
    assert HexDigit(0) == '0' && HexDigit(1) == '1' && HexDigit(8) == '8' && HexDigit(9) == '9';
  }

  /** Escapes that are read though never written: a solidus, any \u of either case, and a pair of surrogates. */
  lemma UnescapeExamples()
    ensures DecodeEscape("/") == Some(('/', 1)) && DecodeEscape("x") == None && DecodeEscape("") == None
    ensures DecodeEscape("u004A") == Some(('J', 5)) && DecodeEscape("u004a") == Some(('J', 5))
    ensures DecodeEscape("ud83d\\ude00") == Some((0x1F600 as char, 11))
    ensures DecodeEscape("ud83d") == Some((0xFFFD as char, 5)) && DecodeEscape("u12") == None
  {
    assert "u004A"[1..] == "004A" && "u004a"[1..] == "004a" && "ud83d"[1..] == "d83d" && "u12"[1..] == "12";
    var pair := "ud83d\\ude00"[1..];
    assert pair == "d83d\\ude00" && pair[6..] == "de00";
    assert Hex4("de00") == Some(0xDE00) && Hex4(pair) == Some(0xD83D);
  }
}
