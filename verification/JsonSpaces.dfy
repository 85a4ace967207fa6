/** Blanks between the tokens of a JSON text, as many as one likes and anywhere, do not change what is read. */
module JsonSpaces {
  import opened Wrappers
  import opened Strconv
  import opened Json

  predicate Blank(s: string) {
    forall i :: 0 <= i < |s| ==> s[i] == ' ' || s[i] == '\t' || s[i] == '\r' || s[i] == '\n'
  }

  /** The blanks put into each gap; a gap is named by the way that leads to it. */
  type Gaps = seq<nat> -> string

  ghost predicate AllBlank(sp: Gaps) {
    forall at :: Blank(sp(at))
  }

  /** The text of a value with its blanks, those before it included. */
  function Spaced(v: Json, sp: Gaps, at: seq<nat>): string
    decreases v, 1
  {
    sp(at + [0]) + Core(v, sp, at)
  }

  function Core(v: Json, sp: Gaps, at: seq<nat>): string
    decreases v, 0
  {
    match v
    case Array(items) => "[" + if items == [] then sp(at + [1]) + "]" else SpacedItems(items, sp, at + [2])
    case Object(members) => "{" + if members == [] then sp(at + [1]) + "}" else SpacedMembers(members, sp, at + [2])
    case _ => Print(v)
  }

  function SpacedItems(items: seq<Json>, sp: Gaps, at: seq<nat>): string
    requires items != []
    decreases items
  {
    Spaced(items[0], sp, at + [0]) + sp(at + [1])
    + if |items| == 1 then "]" else "," + SpacedItems(items[1..], sp, at + [2])
  }

  function SpacedMembers(members: seq<Member>, sp: Gaps, at: seq<nat>): string
    requires members != []
    decreases members
  {
    (sp(at + [0]) + Quote(members[0].key) + sp(at + [1]) + ":" + Spaced(members[0].value, sp, at + [2]) + sp(at + [3]))
    + if |members| == 1 then "}" else "," + SpacedMembers(members[1..], sp, at + [4])
  }

  lemma {:induction false} SkipBlank(b: string, s: string)
    requires Blank(b)
    ensures SkipSpace(b + s) == SkipSpace(s)
  {
    if b == [] {
      assert b + s == s;
    } else {
      assert (b + s)[1..] == b[1..] + s;
      SkipBlank(b[1..], s);
    }
  }

  /** Exactly the four blanks are skipped. */
  lemma SkipStops(b: string, s: string)
    requires Blank(b) && s != [] && s[0] != ' ' && s[0] != '\t' && s[0] != '\r' && s[0] != '\n'
    ensures SkipSpace(b + s) == s
  {
    SkipBlank(b, s);
  }

  lemma ParseAfterBlank(b: string, s: string)
    requires Blank(b)
    ensures ParseValue(b + s) == ParseValue(s)
  {
    hide ParseString, ParseItems, ParseMembers, ParseScalar, SkipSpace, Blank;
    SkipBlank(b, s);
  }

  lemma CoreHead(v: Json, sp: Gaps, at: seq<nat>)
    requires WellFormed(v)
    ensures var c := Core(v, sp, at); c != [] && NoSpace(c[0]) && c[0] != ']' && c[0] != '}'
  {
    PrintNotSpace(v);
  }

  lemma EmptyText(b: string, rest: string)
    requires Blank(b)
    ensures ParseValue("[" + (b + "]") + rest) == Some((Array([]), rest))
    ensures ParseValue("{" + (b + "}") + rest) == Some((Object([]), rest))
  {
    hide Blank, ParseItems, ParseMembers, ParseScalar;
    var (a, o) := ("[" + (b + "]") + rest, "{" + (b + "}") + rest);
    assert SkipSpace(a) == a && SkipSpace(o) == o;
    assert a[1..] == b + ("]" + rest) && o[1..] == b + ("}" + rest);
    SkipStops(b, "]" + rest);
    SkipStops(b, "}" + rest);
    assert ("]" + rest)[1..] == rest && ("}" + rest)[1..] == rest;
  }

  lemma ArrayText(t: string)
    requires SkipSpace(t) != [] && SkipSpace(t)[0] != ']' && ParseItems(t).Some?
    ensures var (items, rest) := ParseItems(t).value; ParseValue("[" + t) == Some((Array(items), rest))
  {
    var s := "[" + t;
    assert s[1..] == t && SkipSpace(s) == s;
  }

  lemma ObjectText(t: string)
    requires SkipSpace(t) != [] && SkipSpace(t)[0] != '}' && ParseMembers(t).Some?
    ensures var (ms, rest) := ParseMembers(t).value; ParseValue("{" + t) == Some((Object(ms), rest))
  {
    var s := "{" + t;
    assert s[1..] == t && SkipSpace(s) == s;
  }

  /** Whatever blanks stand between its tokens, a value is read as itself, and what follows it is left. */
  lemma {:induction false} CoreParses(v: Json, sp: Gaps, at: seq<nat>, rest: string)
    requires WellFormed(v) && AllBlank(sp) && (v.Number? ==> Ends(rest))
    ensures ParseValue(Core(v, sp, at) + rest) == Some((v, rest))
    decreases v, 0
  {
    hide Print, SpacedItems, SpacedMembers, ParseValue, ParseItems, ParseMembers, Ends, SkipSpace, Blank;
    if v.Array? {
      if v.items == [] {
        EmptyText(sp(at + [1]), rest);
      } else {
        var t := SpacedItems(v.items, sp, at + [2]) + rest;
        ItemsParse(v.items, sp, at + [2], rest);
        ItemsHead(v.items, sp, at + [2], rest);
        ArrayText(t);
        assert Core(v, sp, at) + rest == "[" + t;
      }
    } else if v.Object? {
      if v.members == [] {
        EmptyText(sp(at + [1]), rest);
      } else {
        var t := SpacedMembers(v.members, sp, at + [2]) + rest;
        MembersParse(v.members, sp, at + [2], rest);
        MembersHead(v.members, sp, at + [2], rest);
        ObjectText(t);
        assert Core(v, sp, at) + rest == "{" + t;
      }
    } else {
      ValueRoundTrip(v, rest);
    }
  }

  lemma {:induction false} SpacedParses(v: Json, sp: Gaps, at: seq<nat>, rest: string)
    requires WellFormed(v) && AllBlank(sp) && (v.Number? ==> Ends(rest))
    ensures ParseValue(Spaced(v, sp, at) + rest) == Some((v, rest))
    decreases v, 1
  {
    hide Core, ParseValue, Ends, Blank, WellFormed;
    CoreParses(v, sp, at, rest);
    ParseAfterBlank(sp(at + [0]), Core(v, sp, at) + rest);
    assert Spaced(v, sp, at) + rest == sp(at + [0]) + (Core(v, sp, at) + rest);
  }

  lemma ItemsHead(items: seq<Json>, sp: Gaps, at: seq<nat>, rest: string)
    requires items != [] && WellFormed(items[0]) && AllBlank(sp)
    ensures var t := SkipSpace(SpacedItems(items, sp, at) + rest); t != [] && t[0] != ']'
  {
    hide Core, Blank, WellFormed, SpacedItems;
    var b := sp(at + [0] + [0]);
    var c := Core(items[0], sp, at + [0]);
    CoreHead(items[0], sp, at + [0]);
    var more := ItemsFrom(items, sp, at, rest);
    assert SpacedItems(items, sp, at) + rest == b + (c + more);
    SkipStops(b, c + more);
  }

  /** The first item of the text, and what follows it. */
  lemma ItemsFrom(items: seq<Json>, sp: Gaps, at: seq<nat>, rest: string) returns (after: string)
    requires items != []
    ensures SpacedItems(items, sp, at) + rest == Spaced(items[0], sp, at + [0]) + after
    ensures after == sp(at + [1]) + if |items| == 1 then "]" + rest
                                    else "," + (SpacedItems(items[1..], sp, at + [2]) + rest)
  {
    hide Spaced;
    if |items| == 1 {
      after := sp(at + [1]) + ("]" + rest);
      Join(Spaced(items[0], sp, at + [0]), sp(at + [1]), "]", "", rest);
    } else {
      after := sp(at + [1]) + ("," + (SpacedItems(items[1..], sp, at + [2]) + rest));
      Join(Spaced(items[0], sp, at + [0]), sp(at + [1]), ",", SpacedItems(items[1..], sp, at + [2]), rest);
    }
  }

  lemma Join(a: string, b: string, c: string, d: string, rest: string)
    ensures (a + b + (c + d)) + rest == a + (b + (c + (d + rest)))
    ensures d == "" ==> (a + b + c) + rest == a + (b + (c + rest))
  {}

  lemma GapEnds(b: string, t: string)
    requires Blank(b) && t != [] && (t[0] == ',' || t[0] == ']' || t[0] == '}')
    ensures Ends(b + t) && SkipSpace(b + t) == t
  {
    SkipStops(b, t);
  }

  lemma ItemText(v: Json, t: string, after: string, next: string)
    requires ParseValue(t) == Some((v, after)) && SkipSpace(after) == next && next != []
    ensures next[0] == ']' ==> ParseItems(t) == Some(([v], next[1..]))
    ensures next[0] == ',' && ParseItems(next[1..]).Some? ==>
            ParseItems(t) == Some(([v] + ParseItems(next[1..]).value.0, ParseItems(next[1..]).value.1))
  {
    hide ParseValue;
  }

  lemma {:induction false} ItemsParse(items: seq<Json>, sp: Gaps, at: seq<nat>, rest: string)
    requires items != [] && AllBlank(sp) && forall i :: 0 <= i < |items| ==> WellFormed(items[i])
    ensures ParseItems(SpacedItems(items, sp, at) + rest) == Some((items, rest))
    decreases items
  {
    hide ParseValue, ParseItems, Spaced, SpacedItems, WellFormed, Blank, Ends, SkipSpace;
    var after := ItemsFrom(items, sp, at, rest);
    var more := if |items| == 1 then rest else SpacedItems(items[1..], sp, at + [2]) + rest;
    var next := (if |items| == 1 then "]" else ",") + more;
    GapEnds(sp(at + [1]), next);
    SpacedParses(items[0], sp, at + [0], after);
    assert next[1..] == more;
    ItemText(items[0], Spaced(items[0], sp, at + [0]) + after, after, next);
    if |items| == 1 {
      assert items == [items[0]];
    } else {
      assert forall i :: 0 <= i < |items[1..]| ==> items[1..][i] == items[i + 1];
      ItemsParse(items[1..], sp, at + [2], rest);
      assert items == [items[0]] + items[1..];
    }
  }

  lemma KeyText(b: string, key: string, c: string, t: string)
    requires Blank(b) && Blank(c)
    ensures ParseKey(b + (Quote(key) + (c + (":" + t)))) == Some((key, t))
  {
    hide ParseString, Escape, Blank;
    var colon := ":" + t;
    var s := Quote(key) + (c + colon);
    assert s[1..] == Escape(key) + ("\"" + (c + colon));
    SkipStops(b, s);
    StringRoundTrip(key, c + colon);
    SkipStops(c, colon);
    assert colon[1..] == t;
  }

  /** The first member of the text: its name, its value, and what follows it. */
  lemma MembersFrom(members: seq<Member>, sp: Gaps, at: seq<nat>, rest: string) returns (after: string)
    requires members != []
    ensures SpacedMembers(members, sp, at) + rest ==
            sp(at + [0]) + (Quote(members[0].key)
              + (sp(at + [1]) + (":" + (Spaced(members[0].value, sp, at + [2]) + after))))
    ensures after == sp(at + [3]) + if |members| == 1 then "}" + rest
                                    else "," + (SpacedMembers(members[1..], sp, at + [4]) + rest)
  {
    hide Spaced, Quote;
    var (a, b, c, d) := (sp(at + [0]), Quote(members[0].key), sp(at + [1]), Spaced(members[0].value, sp, at + [2]));
    var e := sp(at + [3]);
    if |members| == 1 {
      after := e + ("}" + rest);
      JoinMember(a, b, c, d, e, "}", "", rest);
    } else {
      after := e + ("," + (SpacedMembers(members[1..], sp, at + [4]) + rest));
      JoinMember(a, b, c, d, e, ",", SpacedMembers(members[1..], sp, at + [4]), rest);
    }
  }

  lemma JoinMember(a: string, b: string, c: string, d: string, e: string, f: string, g: string, rest: string)
    ensures ((a + b + c + ":" + d + e) + (f + g)) + rest == a + (b + (c + (":" + (d + (e + (f + (g + rest)))))))
    ensures g == "" ==> ((a + b + c + ":" + d + e) + f) + rest == a + (b + (c + (":" + (d + (e + (f + rest))))))
  {}

  lemma MembersHead(members: seq<Member>, sp: Gaps, at: seq<nat>, rest: string)
    requires members != [] && AllBlank(sp)
    ensures var t := SkipSpace(SpacedMembers(members, sp, at) + rest); t != [] && t[0] != '}'
  {
    hide Blank, SpacedMembers, Escape;
    var after := MembersFrom(members, sp, at, rest);
    var tail := sp(at + [1]) + (":" + (Spaced(members[0].value, sp, at + [2]) + after));
    SkipStops(sp(at + [0]), Quote(members[0].key) + tail);
  }

  lemma MemberText(m: Member, s: string, t: string, after: string, next: string)
    requires ParseKey(s) == Some((m.key, t)) && ParseValue(t) == Some((m.value, after))
    requires SkipSpace(after) == next && next != []
    ensures next[0] == '}' ==> ParseMembers(s) == Some(([m], next[1..]))
    ensures next[0] == ',' && ParseMembers(next[1..]).Some? ==>
            ParseMembers(s) == Some(([m] + ParseMembers(next[1..]).value.0, ParseMembers(next[1..]).value.1))
  {
    hide ParseValue, ParseKey;
  }

  lemma {:induction false} MembersParse(members: seq<Member>, sp: Gaps, at: seq<nat>, rest: string)
    requires members != [] && AllBlank(sp) && forall i :: 0 <= i < |members| ==> WellFormed(members[i].value)
    ensures ParseMembers(SpacedMembers(members, sp, at) + rest) == Some((members, rest))
    decreases members
  {
    hide ParseValue, ParseKey, ParseMembers, Spaced, SpacedMembers, WellFormed, Blank, Ends, SkipSpace, Quote;
    var m := members[0];
    var after := MembersFrom(members, sp, at, rest);
    var more := if |members| == 1 then rest else SpacedMembers(members[1..], sp, at + [4]) + rest;
    var next := (if |members| == 1 then "}" else ",") + more;
    GapEnds(sp(at + [3]), next);
    SpacedParses(m.value, sp, at + [2], after);
    assert next[1..] == more;
    var t := Spaced(m.value, sp, at + [2]) + after;
    KeyText(sp(at + [0]), m.key, sp(at + [1]), t);
    MemberText(m, SpacedMembers(members, sp, at) + rest, t, after, next);
    if |members| == 1 {
      assert members == [m];
    } else {
      assert forall i :: 0 <= i < |members[1..]| ==> members[1..][i] == members[i + 1];
      MembersParse(members[1..], sp, at + [4], rest);
      assert members == [m] + members[1..];
    }
  }

  /** json.Unmarshal does not see blanks: before, between and after the tokens they change nothing. */
  lemma BlanksDoNotMatter(v: Json, sp: Gaps, at: seq<nat>, end: string)
    requires WellFormed(v) && AllBlank(sp) && Blank(end)
    ensures Parse(Spaced(v, sp, at) + end) == Parse(Print(v)) == Some(v)
  {
    hide ParseValue, Spaced, Print, WellFormed;
    SpacedParses(v, sp, at, end);
    SkipBlank(end, "");
    assert end + "" == end;
    ParsePrint(v);
  }
}
