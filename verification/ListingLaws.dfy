/** What a listing says: its order, its literal text, and that nothing but the text of a float is lost in it. */
module ListingLaws {
  import opened Wrappers
  import opened Int64
  import opened Strconv
  import opened Models
  import opened Stores
  import opened Listing

  // The order.

  /** The first place where two strings differ. */
  predicate DifferAt(a: string, b: string, i: nat) {
    i < |a| && i < |b| && a[..i] == b[..i] && a[i] != b[i]
  }

  lemma {:induction false} LeAtDifference(a: string, b: string, i: nat)
    requires DifferAt(a, b, i)
    ensures Le(a, b) <==> a[i] as int < b[i] as int
  {
    if i > 0 {
      assert a[0] == a[..i][0] == b[..i][0] == b[0];
      assert a[1..][..i - 1] == a[..i][1..] == b[..i][1..] == b[1..][..i - 1];
      LeAtDifference(a[1..], b[1..], i - 1);
    }
  }

  lemma {:induction false} LePrefix(a: string, b: string)
    requires a <= b
    ensures Le(a, b)
  {
    if a != [] {
      assert a[1..] <= b[1..];
      LePrefix(a[1..], b[1..]);
    }
  }

  lemma {:induction false} FirstDifference(a: string, b: string) returns (i: nat)
    requires !(a <= b) && !(b <= a)
    ensures DifferAt(a, b, i)
  {
    if a[0] != b[0] {
      i := 0;
    } else {
      assert a == [a[0]] + a[1..] && b == [b[0]] + b[1..];
      assert a[1..] <= b[1..] ==> a <= b;
      assert b[1..] <= a[1..] ==> b <= a;
      var j := FirstDifference(a[1..], b[1..]);
      i := j + 1;
      assert a[..i] == [a[0]] + a[1..][..j] && b[..i] == [b[0]] + b[1..][..j];
    }
  }

  /** Names are in dictionary order: a prefix first, otherwise the smaller character where they first differ. */
  lemma LeIff(a: string, b: string)
    ensures Le(a, b) <==> a <= b || exists i: nat :: DifferAt(a, b, i) && a[i] as int < b[i] as int
  {
    if a <= b {
      LePrefix(a, b);
    } else if b <= a {
      LePrefix(b, a);
      if Le(a, b) {
        LeAntisymmetric(a, b);
      }
    } else {
      var i := FirstDifference(a, b);
      LeAtDifference(a, b, i);
    }
    forall i: nat | DifferAt(a, b, i) ensures Le(a, b) <==> a[i] as int < b[i] as int {
      LeAtDifference(a, b, i);
    }
  }

  // The text.

  lemma OneKey(k: string)
    ensures SortedKeys({k}) == [k] && SortedKeys({}) == []
  {
    var r := SortedKeys({k});
    assert |multiset(r)| == |multiset({k})| == 1;
    assert r[0] in r;
  }

  /** A store with one counter and one gauge, letter by letter. */
  lemma ListingExample(c: string, n: int64, g: string, x: Gauge, text: GaugeText)
    ensures ListingText(Store(map[g := x], map[c := n]), text) ==
            "---Counters---\n" + c + ": " + FormatInt(n) + "\n---Gauge---\n" + g + ": " + text.plain(x) + "\n"
  {
    hide FormatInt;
    var s := Store(map[g := x], map[c := n]);
    assert s.counter.Keys == {c} && s.gauge.Keys == {g};
    OneKey(c);
    OneKey(g);
    OneCounterLine(c, n);
    OneGaugeLine(g, x, text);
    Together(c, FormatInt(n), g, text.plain(x));
  }

  lemma OneCounterLine(c: string, n: int64)
    ensures CounterLines([c], map[c := n]) == c + ": " + FormatInt(n) + "\n"
  {
    hide FormatInt;
    assert [c][1..] == [];
  }

  lemma OneGaugeLine(g: string, x: Gauge, text: GaugeText)
    ensures GaugeLines([g], map[g := x], text) == g + ": " + text.plain(x) + "\n"
  {
    assert [g][1..] == [];
  }

  lemma Together(c: string, v: string, g: string, w: string)
    ensures COUNTERS_HEAD + (c + ": " + v + "\n") + GAUGES_HEAD + (g + ": " + w + "\n")
            == "---Counters---\n" + c + ": " + v + "\n---Gauge---\n" + g + ": " + w + "\n"
  {
    assert "\n" + GAUGES_HEAD == "\n---Gauge---\n";
    var head := COUNTERS_HEAD + c + ": " + v;
    assert COUNTERS_HEAD + (c + ": " + v + "\n") + GAUGES_HEAD == head + ("\n" + GAUGES_HEAD);
    assert head == "---Counters---\n" + c + ": " + v;
    var front := head + "\n---Gauge---\n";
    assert front + (g + ": " + w + "\n") == front + g + ": " + w + "\n";
  }

  /** "a" stands before "b", whichever comes first from the map. */
  lemma SortExample()
    ensures SortStrings(["b", "a"]) == ["a", "b"] == SortStrings(["a", "b"])
  {
    assert ["b", "a"][1..] == ["a"] && ["a", "b"][1..] == ["b"] && ["a"][1..] == [] && ["b"][1..] == [];
    assert SortStrings(["a"]) == ["a"] && SortStrings(["b"]) == ["b"];
    LeIff("a", "b");
    assert DifferAt("a", "b", 0);
    assert Le("a", "b") && !Le("b", "a");
  }

  // Nothing is lost.

  predicate Without(s: string, c: char) {
    forall i :: 0 <= i < |s| ==> s[i] != c
  }

  /** Hypothesis on Go's %v of a float: neither a colon nor a line end. */
  ghost predicate PlainText(text: GaugeText) {
    forall g: Gauge :: Without(text.plain(g), ':') && Without(text.plain(g), '\n')
  }

  lemma EndStands(a: string, x: string, c: char)
    requires Without(a, c)
    ensures var s := a + [c] + x;
            s[|a|] == c && (forall i :: 0 <= i < |a| ==> s[i] != c) && s[..|a|] == a && s[|a| + 1..] == x
  {
    var s := a + [c] + x;
    assert forall i :: 0 <= i < |a| ==> s[i] == a[i];
  }

  lemma FirstEnd(a: string, x: string, b: string, y: string, c: char)
    requires Without(a, c) && Without(b, c) && a + [c] + x == b + [c] + y
    ensures a == b && x == y
  {
    EndStands(a, x, c);
    EndStands(b, y, c);
    assert !(|a| < |b|) && !(|b| < |a|);
  }

  lemma ColonStands(k: string, v: string)
    requires Without(v, ':')
    ensures var s := k + ": " + v;
            s[|k|] == ':' && (forall i :: |k| < i < |s| ==> s[i] != ':') && s[..|k|] == k && s[|k| + 2..] == v
  {
    var s := k + ": " + v;
    forall i | |k| < i < |s| ensures s[i] != ':' {
      if i > |k| + 1 {
        assert s[i] == v[i - |k| - 2];
      }
    }
  }

  lemma LastColon(k: string, v: string, l: string, w: string)
    requires Without(v, ':') && Without(w, ':') && k + ": " + v == l + ": " + w
    ensures k == l && v == w
  {
    ColonStands(k, v);
    ColonStands(l, w);
    assert !(|k| < |l|) && !(|l| < |k|);
  }

  lemma FormatIntPlain(x: int)
    ensures Without(FormatInt(x), ':') && Without(FormatInt(x), '\n')
  {
    hide Digits;
    var d := if x < 0 then Digits(-x) else Digits(x);
    assert AllDigits(d);
  }

  lemma FormatIntInjective(x: int64, y: int64)
    requires FormatInt(x) == FormatInt(y)
    ensures x == y
  {
    hide FormatInt, ParseInt;
    ParseFormat(x);
    ParseFormat(y);
  }

  /** A line of the listing is the name, a colon and the value. */
  lemma LineSplits(k: string, v: string, x: string, l: string, w: string, y: string)
    requires Without(k, '\n') && Without(v, '\n') && Without(v, ':')
    requires Without(l, '\n') && Without(w, '\n') && Without(w, ':')
    requires (k + ": " + v + "\n") + x == (l + ": " + w + "\n") + y
    ensures k == l && v == w && x == y
  {
    var (a, b) := (k + ": " + v, l + ": " + w);
    assert Without(a, '\n') && Without(b, '\n');
    FirstEnd(a, x, b, y, '\n');
    LastColon(k, v, l, w);
  }

  /** A counter's line is not the second heading. */
  lemma LineIsNoHeading(k: string, v: string, x: string, y: string)
    requires Without(k, '\n')
    ensures (k + ": " + v + "\n") + x != GAUGES_HEAD + y
  {
    var (s, h) := ((k + ": " + v + "\n") + x, GAUGES_HEAD + y);
    assert s[|k|] == ':' && (forall i :: 0 <= i < |k| ==> s[i] == k[i]);
    assert h[11] == '\n' && Without("---Gauge---", ':');
    assert forall i :: 0 <= i < 11 ==> h[i] == "---Gauge---"[i];
    assert if |k| < 11 then h[|k|] != s[|k|] else s[11] != h[11];
  }

  predicate NamesPlain(ks: seq<string>) {
    forall i :: 0 <= i < |ks| ==> Without(ks[i], '\n')
  }

  lemma {:induction false} CounterLinesInjective(
      ks: seq<string>, m: map<string, int64>, x: string, ls: seq<string>, n: map<string, int64>, y: string)
    requires NamesPlain(ks) && NamesPlain(ls) && (forall k :: k in ks ==> k in m) && (forall l :: l in ls ==> l in n)
    requires CounterLines(ks, m) + (GAUGES_HEAD + x) == CounterLines(ls, n) + (GAUGES_HEAD + y)
    ensures ks == ls && x == y && forall k :: k in ks ==> m[k] == n[k]
  {
    hide FormatInt, NamesPlain;
    var (a, b) := (GAUGES_HEAD + x, GAUGES_HEAD + y);
    if ks == [] && ls == [] {
      assert "" + a == a && "" + b == b;
      DropHead(GAUGES_HEAD, x, y);
    } else if ks == [] {
      NamesStep(ls);
      FormatIntPlain(n[ls[0]]);
      CounterLinesStep(ls, n, b);
      LineIsNoHeading(ls[0], FormatInt(n[ls[0]]), CounterLines(ls[1..], n) + b, x);
    } else if ls == [] {
      NamesStep(ks);
      FormatIntPlain(m[ks[0]]);
      CounterLinesStep(ks, m, a);
      LineIsNoHeading(ks[0], FormatInt(m[ks[0]]), CounterLines(ks[1..], m) + a, y);
    } else {
      NamesStep(ks);
      NamesStep(ls);
      FormatIntPlain(m[ks[0]]);
      FormatIntPlain(n[ls[0]]);
      CounterLinesStep(ks, m, a);
      CounterLinesStep(ls, n, b);
      LineSplits(ks[0], FormatInt(m[ks[0]]), CounterLines(ks[1..], m) + a,
                 ls[0], FormatInt(n[ls[0]]), CounterLines(ls[1..], n) + b);
      FormatIntInjective(m[ks[0]], n[ls[0]]);
      CounterLinesInjective(ks[1..], m, x, ls[1..], n, y);
      assert ks == [ks[0]] + ks[1..] && ls == [ls[0]] + ls[1..];
    }
  }

  lemma NamesStep(ks: seq<string>)
    requires ks != [] && NamesPlain(ks)
    ensures Without(ks[0], '\n') && NamesPlain(ks[1..])
  {}

  lemma CounterLinesStep(ks: seq<string>, m: map<string, int64>, rest: string)
    requires ks != [] && forall k :: k in ks ==> k in m
    ensures CounterLines(ks, m) + rest ==
            (ks[0] + ": " + FormatInt(m[ks[0]]) + "\n") + (CounterLines(ks[1..], m) + rest)
  {
    hide FormatInt;
  }

  lemma GaugeLinesStep(ks: seq<string>, m: map<string, Gauge>, text: GaugeText)
    requires ks != [] && forall k :: k in ks ==> k in m
    ensures GaugeLines(ks, m, text) ==
            (ks[0] + ": " + text.plain(m[ks[0]]) + "\n") + GaugeLines(ks[1..], m, text)
    ensures GaugeLines(ks, m, text) != ""
  {}

  lemma {:induction false} GaugeLinesInjective(
      ks: seq<string>, m: map<string, Gauge>, ls: seq<string>, n: map<string, Gauge>, text: GaugeText)
    requires PlainText(text) && NamesPlain(ks) && NamesPlain(ls)
    requires (forall k :: k in ks ==> k in m) && forall l :: l in ls ==> l in n
    requires GaugeLines(ks, m, text) == GaugeLines(ls, n, text)
    ensures ks == ls && forall k :: k in ks ==> text.plain(m[k]) == text.plain(n[k])
  {
    hide NamesPlain;
    if ks == [] && ls == [] {
    } else if ks == [] {
      GaugeLinesStep(ls, n, text);
    } else if ls == [] {
      GaugeLinesStep(ks, m, text);
    } else {
      NamesStep(ks);
      NamesStep(ls);
      GaugeLinesStep(ks, m, text);
      GaugeLinesStep(ls, n, text);
      LineSplits(ks[0], text.plain(m[ks[0]]), GaugeLines(ks[1..], m, text),
                 ls[0], text.plain(n[ls[0]]), GaugeLines(ls[1..], n, text));
      GaugeLinesInjective(ks[1..], m, ls[1..], n, text);
      assert ks == [ks[0]] + ks[1..] && ls == [ls[0]] + ls[1..];
    }
  }

  lemma {:induction false} SamePlainLines(
      ks: seq<string>, m: map<string, Gauge>, n: map<string, Gauge>, text: GaugeText)
    requires forall k :: k in ks ==> k in m && k in n && text.plain(m[k]) == text.plain(n[k])
    ensures GaugeLines(ks, m, text) == GaugeLines(ks, n, text)
  {
    if ks != [] {
      assert ks[0] in ks;
      SamePlainLines(ks[1..], m, n, text);
    }
  }

  predicate PlainIds(s: Store) {
    (forall k :: k in s.counter ==> Without(k, '\n')) && forall k :: k in s.gauge ==> Without(k, '\n')
  }

  /** Same counters, same gauges up to the text of their values. */
  predicate SameUpToText(s: Store, t: Store, text: GaugeText) {
    && s.counter == t.counter && s.gauge.Keys == t.gauge.Keys
    && forall k :: k in s.gauge ==> text.plain(s.gauge[k]) == text.plain(t.gauge[k])
  }

  lemma ListingParts(s: Store, text: GaugeText)
    ensures ListingText(s, text) ==
            COUNTERS_HEAD + (CounterLines(SortedKeys(s.counter.Keys), s.counter)
                             + (GAUGES_HEAD + GaugeLines(SortedKeys(s.gauge.Keys), s.gauge, text)))
  {
    hide CounterLines, GaugeLines, SortedKeys, COUNTERS_HEAD, GAUGES_HEAD;
    var a := CounterLines(SortedKeys(s.counter.Keys), s.counter);
    var x := GaugeLines(SortedKeys(s.gauge.Keys), s.gauge, text);
    FourParts(COUNTERS_HEAD, a, GAUGES_HEAD, x);
  }

  lemma FourParts(a: string, b: string, c: string, d: string)
    ensures a + b + c + d == a + (b + (c + d))
  {}

  lemma AlikeIsSame(s: Store, t: Store, text: GaugeText)
    requires PlainText(text) && PlainIds(s) && PlainIds(t) && ListingText(s, text) == ListingText(t, text)
    ensures SameUpToText(s, t, text)
  {
    var (ck, gk) := (SortedKeys(s.counter.Keys), SortedKeys(s.gauge.Keys));
    var (cl, gl) := (SortedKeys(t.counter.Keys), SortedKeys(t.gauge.Keys));
    NamesOf(s.counter.Keys);
    NamesOf(s.gauge.Keys);
    NamesOf(t.counter.Keys);
    NamesOf(t.gauge.Keys);
    hide CounterLines, GaugeLines, PlainText, Without, ListingText, NamesPlain, PlainIds;
    ListingParts(s, text);
    ListingParts(t, text);
    var (x, y) := (GaugeLines(gk, s.gauge, text), GaugeLines(gl, t.gauge, text));
    DropHead(COUNTERS_HEAD, CounterLines(ck, s.counter) + (GAUGES_HEAD + x),
             CounterLines(cl, t.counter) + (GAUGES_HEAD + y));
    CounterLinesInjective(ck, s.counter, x, cl, t.counter, y);
    GaugeLinesInjective(gk, s.gauge, gl, t.gauge, text);
    SameCounters(s, t);
    SameKeys(s.gauge.Keys, t.gauge.Keys);
    assert forall k :: k in s.gauge.Keys ==> k in gk;
  }

  lemma SameCounters(s: Store, t: Store)
    requires SortedKeys(s.counter.Keys) == SortedKeys(t.counter.Keys)
    requires forall k :: k in SortedKeys(s.counter.Keys) ==> k in t.counter && s.counter[k] == t.counter[k]
    ensures s.counter == t.counter
  {
    SameKeys(s.counter.Keys, t.counter.Keys);
    assert forall k :: k in s.counter.Keys ==> k in SortedKeys(s.counter.Keys);
  }

  /** For ids without a line end two stores are listed alike if and only if they are the same up to float texts. */
  lemma ListingTellsApart(s: Store, t: Store, text: GaugeText)
    requires PlainText(text) && PlainIds(s) && PlainIds(t)
    ensures ListingText(s, text) == ListingText(t, text) <==> SameUpToText(s, t, text)
  {
    hide PlainText, PlainIds;
    if ListingText(s, text) == ListingText(t, text) {
      AlikeIsSame(s, t, text);
    }
    if SameUpToText(s, t, text) {
      SamePlainLines(SortedKeys(s.gauge.Keys), s.gauge, t.gauge, text);
    }
  }

  lemma DropHead(h: string, a: string, b: string)
    requires h + a == h + b
    ensures a == b
  {
    assert (h + a)[|h|..] == a && (h + b)[|h|..] == b;
  }

  lemma NamesOf(keys: set<string>)
    requires forall k :: k in keys ==> Without(k, '\n')
    ensures NamesPlain(SortedKeys(keys))
  {
    hide Without;
    var ks := SortedKeys(keys);
    forall i | 0 <= i < |ks| ensures Without(ks[i], '\n') {
      assert ks[i] in ks;
    }
  }

  lemma SameKeys(a: set<string>, b: set<string>)
    requires SortedKeys(a) == SortedKeys(b)
    ensures a == b
  {
    assert forall k :: k in a <==> k in SortedKeys(a);
    assert forall k :: k in b <==> k in SortedKeys(b);
  }
}
