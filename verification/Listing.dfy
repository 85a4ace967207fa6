/** The text listing of a store: sort.Strings over the map keys, one line per metric. */
module Listing {
  import opened Int64
  import opened Models
  import opened Stores
  import opened Strconv

  /** Go's string order, character by character. */
  predicate Le(a: string, b: string) {
    a == [] || (b != [] && (a[0] < b[0] || (a[0] == b[0] && Le(a[1..], b[1..]))))
  }

  lemma {:induction false} LeTotal(a: string, b: string)
    ensures Le(a, b) || Le(b, a)
  {
    if a != [] && b != [] && a[0] == b[0] {
      LeTotal(a[1..], b[1..]);
    }
  }

  lemma {:induction false} LeAntisymmetric(a: string, b: string)
    requires Le(a, b) && Le(b, a)
    ensures a == b
  {
    if a != [] && b != [] {
      LeAntisymmetric(a[1..], b[1..]);
      assert a == [a[0]] + a[1..] && b == [b[0]] + b[1..];
    }
  }

  lemma {:induction false} LeTransitive(a: string, b: string, c: string)
    requires Le(a, b) && Le(b, c)
    ensures Le(a, c)
  {
    if a != [] && a[0] == b[0] == c[0] {
      LeTransitive(a[1..], b[1..], c[1..]);
    }
  }

  predicate Sorted(s: seq<string>) {
    forall i, j :: 0 <= i < j < |s| ==> Le(s[i], s[j])
  }

  function Insert(k: string, s: seq<string>): (r: seq<string>)
    requires Sorted(s)
    ensures Sorted(r) && multiset(r) == multiset(s) + multiset{k}
  {
    if s == [] then [k]
    else if Le(k, s[0]) then
      assert forall i :: 0 <= i < |s| ==> Le(k, s[i]) by {
        forall i | 1 <= i < |s| ensures Le(k, s[i]) { LeTransitive(k, s[0], s[i]); }
      }
      [k] + s
    else
      var t := Insert(k, s[1..]);
      assert s == [s[0]] + s[1..];
      assert forall i :: 0 <= i < |t| ==> Le(s[0], t[i]) by {
        LeTotal(k, s[0]);
        forall i | 0 <= i < |t| ensures Le(s[0], t[i]) {
          assert t[i] in multiset(t);
          assert t[i] == k || t[i] in s[1..];
        }
      }
      [s[0]] + t
  }

  /** sort.Strings. */
  function SortStrings(s: seq<string>): (r: seq<string>)
    ensures Sorted(r) && multiset(r) == multiset(s)
  {
    if s == [] then []
    else
      assert s == [s[0]] + s[1..];
      Insert(s[0], SortStrings(s[1..]))
  }

  lemma FirstIsLeast(s: seq<string>, k: string)
    requires Sorted(s) && k in multiset(s)
    ensures s != [] && Le(s[0], k)
  {
    var i :| 0 <= i < |s| && s[i] == k;
    if i == 0 {
      LeTotal(k, k);
    }
  }

  lemma TailOfSame(a: seq<string>, b: seq<string>)
    requires a != [] && b != [] && a[0] == b[0] && multiset(a) == multiset(b)
    ensures multiset(a[1..]) == multiset(b[1..])
  {
    assert a == [a[0]] + a[1..] && b == [b[0]] + b[1..];
    assert multiset(a[1..]) == multiset(a) - multiset{a[0]};
    assert multiset(b[1..]) == multiset(b) - multiset{a[0]};
  }

  lemma HeadOfSame(a: seq<string>, b: seq<string>)
    requires Sorted(a) && Sorted(b) && multiset(a) == multiset(b) && a != []
    ensures b != [] && a[0] == b[0] && Sorted(a[1..]) && Sorted(b[1..])
  {
    assert a[0] in multiset(a);
    FirstIsLeast(b, a[0]);
    assert b[0] in multiset(b);
    FirstIsLeast(a, b[0]);
    LeAntisymmetric(a[0], b[0]);
  }

  /** There is only one sorted arrangement of given strings. */
  lemma {:induction false} SortedUnique(a: seq<string>, b: seq<string>)
    requires Sorted(a) && Sorted(b) && multiset(a) == multiset(b)
    ensures a == b
  {
    hide Sorted;
    if a == [] {
      assert |multiset(b)| == 0;
    } else {
      HeadOfSame(a, b);
      TailOfSame(a, b);
      SortedUnique(a[1..], b[1..]);
      assert a == [a[0]] + a[1..] && b == [b[0]] + b[1..];
    }
  }

  /** e visits every key once: one of the orders in which Go may range over a map. */
  ghost predicate Enumerates(e: seq<string>, keys: set<string>) {
    && multiset(e) == multiset(keys)
    && forall k :: k in e <==> k in keys
  }

  /** The keys in sorted order, whatever order the map is visited in. */
  ghost function SortedKeys(keys: set<string>): (r: seq<string>)
    ensures Sorted(r) && Enumerates(r, keys)
  {
    if keys == {} then []
    else
      var k :| k in keys;
      var r := Insert(k, SortedKeys(keys - {k}));
      assert multiset(keys) == multiset(keys - {k}) + multiset{k};
      assert forall x :: x in r <==> x in multiset(r);
      r
  }

  lemma {:induction false} SortingIsCanonical(e: seq<string>, keys: set<string>)
    requires Enumerates(e, keys)
    ensures SortStrings(e) == SortedKeys(keys)
  {
    SortedUnique(SortStrings(e), SortedKeys(keys));
  }

  function CounterLine(k: string, v: int64): string { k + ": " + FormatInt(v) + "\n" }

  function GaugeLine(k: string, v: Gauge, text: GaugeText): string { k + ": " + text.plain(v) + "\n" }

  function CounterLines(ks: seq<string>, m: map<string, int64>): string
    requires forall k :: k in ks ==> k in m
  {
    if ks == [] then "" else CounterLine(ks[0], m[ks[0]]) + CounterLines(ks[1..], m)
  }

  function GaugeLines(ks: seq<string>, m: map<string, Gauge>, text: GaugeText): string
    requires forall k :: k in ks ==> k in m
  {
    if ks == [] then "" else GaugeLine(ks[0], m[ks[0]], text) + GaugeLines(ks[1..], m, text)
  }

  const COUNTERS_HEAD: string := "---Counters---\n"
  const GAUGES_HEAD: string := "---Gauge---\n"

  /** The one listing of a store: each id once per section, sorted, with its value. */
  ghost function ListingText(s: Store, text: GaugeText): string {
    var (ck, gk) := (SortedKeys(s.counter.Keys), SortedKeys(s.gauge.Keys));
    COUNTERS_HEAD + CounterLines(ck, s.counter) + GAUGES_HEAD + GaugeLines(gk, s.gauge, text)
  }

  /** Two visits of the maps in different orders print the same text. */
  lemma {:induction false} ListingIgnoresMapOrder(s: Store, text: GaugeText, c1: seq<string>, g1: seq<string>)
    requires Enumerates(c1, s.counter.Keys) && Enumerates(g1, s.gauge.Keys)
    ensures forall k :: k in SortStrings(c1) ==> k in s.counter
    ensures forall k :: k in SortStrings(g1) ==> k in s.gauge
    ensures ListingText(s, text) ==
            COUNTERS_HEAD + CounterLines(SortStrings(c1), s.counter)
            + GAUGES_HEAD + GaugeLines(SortStrings(g1), s.gauge, text)
  {
    SortingIsCanonical(c1, s.counter.Keys);
    SortingIsCanonical(g1, s.gauge.Keys);
  }
}
