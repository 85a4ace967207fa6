/** The analyzer that looks for os.Exit in main: one mutable flag, carried through a depth-first walk. */
module OsExit {
  datatype Name = Name(text: string, pos: int)

  /** Go's syntax trees, as far as the walk can tell nodes apart. */
  datatype Node =
    | FuncDecl(name: string, parts: seq<Node>)
    | SelectorExpr(x: Node, sel: Name)
    | Ident(id: Name)
    | Other(parts: seq<Node>)

  datatype File = File(package: string, tree: Node)

  /** Any function or method called main, wherever it is declared. */
  predicate MainDecl(n: Node) { n.FuncDecl? && n.name == "main" }

  predicate ExitSelector(n: Node) {
    n.SelectorExpr? && n.sel.text == "Exit" && n.x.Ident? && n.x.id.text == "os"
  }

  /** Every node once, a parent before its parts, and the parts from left to right. */
  function Preorder(n: Node): (ns: seq<Node>)
    ensures ns != [] && ns[0] == n
    decreases n, 0
  {
    match n
    case Ident(_) => [n]
    case SelectorExpr(x, sel) => [n] + (Preorder(x) + [Ident(sel)])
    case FuncDecl(_, parts) => [n] + PreorderParts(n, |parts|)
    case Other(parts) => [n] + PreorderParts(n, |parts|)
  }

  /** The first k parts of n. */
  function PreorderParts(n: Node, k: nat): seq<Node>
    requires (n.FuncDecl? || n.Other?) && k <= |n.parts|
    decreases n, 0, k
  {
    if k == 0 then [] else PreorderParts(n, k - 1) + Preorder(n.parts[k - 1])
  }

  // What the flag does, node by node.

  datatype Walk = Walk(mainFound: bool, reports: seq<int>)

  function Visit(w: Walk, n: Node): Walk {
    if MainDecl(n) then w.(mainFound := true)
    else if ExitSelector(n) && w.mainFound then Walk(false, w.reports + [n.x.id.pos])
    else w
  }

  function VisitAll(w: Walk, ns: seq<Node>): Walk {
    if ns == [] then w else Visit(VisitAll(w, ns[..|ns| - 1]), ns[|ns| - 1])
  }

  lemma {:induction false} VisitConcat(w: Walk, a: seq<Node>, b: seq<Node>)
    ensures VisitAll(w, a + b) == VisitAll(VisitAll(w, a), b)
  {
    if b == [] {
      assert a + b == a;
    } else {
      var k := |b| - 1;
      assert (a + b)[..|a + b| - 1] == a + b[..k];
      VisitConcat(w, a, b[..k]);
    }
  }

  lemma VisitOne(w: Walk, n: Node)
    ensures VisitAll(w, [n]) == Visit(w, n)
  {
    assert [n][..0] == [];
  }

  /** The closure given to ast.Inspect, and the variables it captures. */
  class Checker {
    var mainFound: bool
    var reports: seq<int>

    constructor ()
      ensures State() == Walk(false, [])
    {
      mainFound, reports := false, [];
    }

    function State(): Walk
      reads this
    {
      Walk(mainFound, reports)
    }

    method See(n: Node)
      modifies this
      ensures State() == Visit(old(State()), n)
    {
      if n.FuncDecl? && n.name == "main" {
        mainFound := true;
      }
      if n.SelectorExpr? && mainFound && n.sel.text == "Exit" {
        if n.x.Ident? && n.x.id.text == "os" {
          mainFound := false;
          reports := reports + [n.x.id.pos];
        }
      }
    }

    method Inspect(n: Node)
      modifies this
      ensures State() == VisitAll(old(State()), Preorder(n))
      decreases n, 1
    {
      hide Visit, VisitAll;
      ghost var start := State();
      See(n);
      VisitOne(start, n);
      match n
      case Ident(_) =>
      case SelectorExpr(x, sel) =>
        Inspect(x);
        ghost var inner := State();
        See(Ident(sel));
        VisitOne(inner, Ident(sel));
        VisitConcat(VisitAll(start, [n]), Preorder(x), [Ident(sel)]);
        VisitConcat(start, [n], Preorder(x) + [Ident(sel)]);
      case _ =>
        InspectParts(n);
        VisitConcat(start, [n], PreorderParts(n, |n.parts|));
    }

    method InspectParts(n: Node)
      requires n.FuncDecl? || n.Other?
      modifies this
      ensures State() == VisitAll(old(State()), PreorderParts(n, |n.parts|))
      decreases n, 0
    {
      ghost var start := State();
      var i := 0;
      while i < |n.parts|
        invariant 0 <= i <= |n.parts|
        invariant State() == VisitAll(start, PreorderParts(n, i))
      {
        Inspect(n.parts[i]);
        VisitConcat(start, PreorderParts(n, i), Preorder(n.parts[i]));
        i := i + 1;
      }
    }
  }

  predicate IsMainFile(f: File) { f.package == "main" }

  /** The reports for a package: only its first file of package main is walked. */
  function Expected(files: seq<File>): seq<int> {
    if files == [] then []
    else if IsMainFile(files[0]) then VisitAll(Walk(false, []), Preorder(files[0].tree)).reports
    else Expected(files[1..])
  }

  method OsExitChecker(files: seq<File>) returns (reports: seq<int>)
    ensures reports == Expected(files)
  {
    var checker := new Checker();
    var i := 0;
    while i < |files|
      invariant 0 <= i <= |files|
      invariant checker.State() == Walk(false, []) && fresh(checker)
      invariant Expected(files) == Expected(files[i..])
    {
      if files[i].package == "main" {
        checker.Inspect(files[i].tree);
        return checker.reports;
      }
      assert files[i..][1..] == files[i + 1..];
      i := i + 1;
    }
    return [];
  }

  // Which selectors are reported.

  /** A main declaration before i, and no os.Exit selector from it up to i. */
  predicate Armed(ns: seq<Node>, i: nat)
    requires i <= |ns|
  {
    exists m :: 0 <= m < i && MainDecl(ns[m]) && forall k :: m <= k < i ==> !ExitSelector(ns[k])
  }

  /** The first os.Exit selector after some main declaration. */
  predicate Reported(ns: seq<Node>, i: nat)
    requires i < |ns|
  {
    ExitSelector(ns[i]) && Armed(ns, i)
  }

  /** The reported places, in order. */
  function Hits(ns: seq<Node>, n: nat): (at: seq<nat>)
    requires n <= |ns|
    ensures forall i <- at :: i < n
  {
    if n == 0 then [] else Hits(ns, n - 1) + (if Reported(ns, n - 1) then [n - 1] else [])
  }

  /** The places hold os.Exit selectors. */
  predicate AreExits(ns: seq<Node>, at: seq<nat>) {
    forall j :: 0 <= j < |at| ==> at[j] < |ns| && ExitSelector(ns[at[j]])
  }

  function Positions(ns: seq<Node>, at: seq<nat>): seq<int>
    requires AreExits(ns, at)
  {
    if at == [] then []
    else
      Positions(ns, at[..|at| - 1]) + [ns[at[|at| - 1]].x.id.pos]
  }

  lemma {:induction false} HitsAre(ns: seq<Node>, n: nat)
    requires n <= |ns|
    ensures forall i: nat :: i in Hits(ns, n) <==> i < n && Reported(ns, i)
    ensures forall j, k :: 0 <= j < k < |Hits(ns, n)| ==> Hits(ns, n)[j] < Hits(ns, n)[k]
  {
    if n > 0 {
      HitsAre(ns, n - 1);
      var (h, g) := (Hits(ns, n), Hits(ns, n - 1));
      forall j, k | 0 <= j < k < |h| ensures h[j] < h[k] {
        assert h[j] == g[j] && g[j] in g;
      }
    }
  }

  lemma ArmedStep(ns: seq<Node>, n: nat)
    requires n < |ns|
    ensures Armed(ns, n + 1) <==> MainDecl(ns[n]) || (Armed(ns, n) && !ExitSelector(ns[n]))
  {
    if Armed(ns, n + 1) && !MainDecl(ns[n]) {
      var m :| 0 <= m < n + 1 && MainDecl(ns[m]) && forall k :: m <= k < n + 1 ==> !ExitSelector(ns[k]);
      assert m < n;
    }
    if Armed(ns, n) && !ExitSelector(ns[n]) {
      var m :| 0 <= m < n && MainDecl(ns[m]) && forall k :: m <= k < n ==> !ExitSelector(ns[k]);
      assert forall k :: m <= k < n + 1 ==> !ExitSelector(ns[k]);
    }
    if MainDecl(ns[n]) {
      assert forall k :: n <= k < n + 1 ==> !ExitSelector(ns[k]);
    }
  }

  lemma HitsAreExits(ns: seq<Node>, n: nat)
    requires n <= |ns|
    ensures AreExits(ns, Hits(ns, n))
  {
    HitsAre(ns, n);
    var at := Hits(ns, n);
    forall j | 0 <= j < |at| ensures at[j] < |ns| && ExitSelector(ns[at[j]]) {
      assert at[j] in at && Reported(ns, at[j]);
    }
  }

  lemma HitsStep(ns: seq<Node>, n: nat)
    requires n < |ns| && AreExits(ns, Hits(ns, n)) && AreExits(ns, Hits(ns, n + 1))
    ensures Visit(Walk(Armed(ns, n), Positions(ns, Hits(ns, n))), ns[n])
            == Walk(Armed(ns, n + 1), Positions(ns, Hits(ns, n + 1)))
  {
    hide Armed;
    ArmedStep(ns, n);
    if Reported(ns, n) {
      assert Hits(ns, n + 1)[..|Hits(ns, n + 1)| - 1] == Hits(ns, n);
    } else {
      assert Hits(ns, n + 1) == Hits(ns, n);
    }
  }

  /** The flag stands for Armed, and the reports are the positions of the reported selectors, in order. */
  lemma {:induction false} WalkMeans(ns: seq<Node>, n: nat)
    requires n <= |ns|
    ensures AreExits(ns, Hits(ns, n))
    ensures VisitAll(Walk(false, []), ns[..n]) == Walk(Armed(ns, n), Positions(ns, Hits(ns, n)))
  {
    HitsAreExits(ns, n);
    if n > 0 {
      hide Armed, Positions, Hits, Visit, VisitAll, AreExits;
      WalkMeans(ns, n - 1);
      HitsStep(ns, n - 1);
      VisitPrefix(Walk(false, []), ns, n);
    }
  }

  lemma VisitPrefix(w: Walk, ns: seq<Node>, n: nat)
    requires 0 < n <= |ns|
    ensures VisitAll(w, ns[..n]) == Visit(VisitAll(w, ns[..n - 1]), ns[n - 1])
  {
    hide Visit;
    assert ns[..n][..n - 1] == ns[..n - 1];
  }

  /** The checker reports exactly the first os.Exit selector after each main declaration, in preorder. */
  lemma CheckerReports(f: File, rest: seq<File>)
    requires IsMainFile(f)
    ensures var ns := Preorder(f.tree);
            && (forall i: nat :: i in Hits(ns, |ns|) <==> i < |ns| && Reported(ns, i))
            && (forall j, k :: 0 <= j < k < |Hits(ns, |ns|)| ==> Hits(ns, |ns|)[j] < Hits(ns, |ns|)[k])
            && AreExits(ns, Hits(ns, |ns|)) && Expected([f] + rest) == Positions(ns, Hits(ns, |ns|))
  {
    var ns := Preorder(f.tree);
    HitsAre(ns, |ns|);
    WalkMeans(ns, |ns|);
    assert ns[..|ns|] == ns;
  }

  // Consequences.

  /** Between two reports there is a main declaration. */
  lemma ReportsSeparated(ns: seq<Node>, i: nat, j: nat)
    requires i < j < |ns| && Reported(ns, i) && Reported(ns, j)
    ensures exists m :: i < m < j && MainDecl(ns[m])
  {
    var m :| 0 <= m < j && MainDecl(ns[m]) && forall k :: m <= k < j ==> !ExitSelector(ns[k]);
    assert i < m;
  }

  function MainDecls(ns: seq<Node>, n: nat): nat
    requires n <= |ns|
  {
    if n == 0 then 0 else MainDecls(ns, n - 1) + if MainDecl(ns[n - 1]) then 1 else 0
  }

  /** No more reports than main declarations. */
  lemma {:induction false} AtMostOneEach(ns: seq<Node>, n: nat)
    requires n <= |ns|
    ensures |Hits(ns, n)| + (if Armed(ns, n) then 1 else 0) <= MainDecls(ns, n)
  {
    if n > 0 {
      AtMostOneEach(ns, n - 1);
      ArmedStep(ns, n - 1);
    }
  }

  /** An os.Exit selector follows a main declaration. */
  predicate ExitAfterMain(ns: seq<Node>) {
    exists m, i :: 0 <= m < i < |ns| && MainDecl(ns[m]) && ExitSelector(ns[i])
  }

  /** The checker is silent exactly when no os.Exit selector follows a main declaration. */
  lemma SilentIff(ns: seq<Node>)
    ensures Hits(ns, |ns|) == [] <==> !ExitAfterMain(ns)
  {
    hide Hits, MainDecl, ExitSelector, Armed;
    HitsAre(ns, |ns|);
    if ExitAfterMain(ns) {
      var m, i :| 0 <= m < i < |ns| && MainDecl(ns[m]) && ExitSelector(ns[i]);
      var f := FirstExit(ns, m, i);
      ArmedAt(ns, m, f);
      assert f in Hits(ns, |ns|);
    }
    if Hits(ns, |ns|) != [] {
      var i := Hits(ns, |ns|)[0];
      assert i in Hits(ns, |ns|);
      var m := ArmedSince(ns, i);
    }
  }

  lemma ArmedAt(ns: seq<Node>, m: nat, i: nat)
    requires m < i <= |ns| && MainDecl(ns[m]) && forall k :: m <= k < i ==> !ExitSelector(ns[k])
    ensures Armed(ns, i)
  {}

  lemma ArmedSince(ns: seq<Node>, i: nat) returns (m: nat)
    requires i <= |ns| && Armed(ns, i)
    ensures m < i && MainDecl(ns[m])
  {
    m :| 0 <= m < i && MainDecl(ns[m]) && forall k :: m <= k < i ==> !ExitSelector(ns[k]);
  }

  lemma {:induction false} FirstExit(ns: seq<Node>, m: nat, i: nat) returns (f: nat)
    requires m < i < |ns| && ExitSelector(ns[i]) && MainDecl(ns[m])
    ensures m < f <= i && ExitSelector(ns[f]) && forall k :: m <= k < f ==> !ExitSelector(ns[k])
  {
    f := m + 1;
    while !ExitSelector(ns[f])
      invariant m < f <= i && forall k :: m <= k < f ==> !ExitSelector(ns[k])
      decreases i - f
    {
      f := f + 1;
    }
  }

  /** d is n or stands somewhere below it. */
  predicate Within(d: Node, n: Node)
    decreases n
  {
    d == n ||
    match n
    case Ident(_) => false
    case SelectorExpr(x, _) => Within(d, x)
    case FuncDecl(_, parts) => exists k :: 0 <= k < |parts| && Within(d, parts[k])
    case Other(parts) => exists k :: 0 <= k < |parts| && Within(d, parts[k])
  }

  lemma {:induction false} PartIsSlice(n: Node, i: nat, k: nat) returns (a: seq<Node>, b: seq<Node>)
    requires (n.FuncDecl? || n.Other?) && i < k <= |n.parts|
    ensures PreorderParts(n, k) == a + Preorder(n.parts[i]) + b
    decreases k
  {
    if i == k - 1 {
      a, b := PreorderParts(n, i), [];
    } else {
      var a', b' := PartIsSlice(n, i, k - 1);
      a, b := a', b' + Preorder(n.parts[k - 1]);
    }
  }

  /** A subtree is one contiguous piece of the preorder. */
  lemma {:induction false} SubtreeIsSlice(d: Node, n: Node) returns (a: seq<Node>, b: seq<Node>)
    requires Within(d, n)
    ensures Preorder(n) == a + Preorder(d) + b
    decreases n
  {
    a, b := [], [];
    if d != n {
      if n.SelectorExpr? {
        var a', b' := SubtreeIsSlice(d, n.x);
        a, b := [n] + a', b' + [Ident(n.sel)];
        Regroup([n], [], a', Preorder(d), b', [Ident(n.sel)]);
      } else {
        var k: nat :| k < |n.parts| && Within(d, n.parts[k]);
        var a', b' := SubtreeIsSlice(d, n.parts[k]);
        var c, e := PartIsSlice(n, k, |n.parts|);
        a, b := [n] + c + a', b' + e;
        Regroup([n], c, a', Preorder(d), b', e);
      }
    }
  }

  lemma Regroup(r: seq<Node>, c: seq<Node>, a: seq<Node>, d: seq<Node>, b: seq<Node>, e: seq<Node>)
    ensures r + (c + (a + d + b) + e) == (r + c + a) + d + (b + e)
    ensures c == [] ==> r + ((a + d + b) + e) == (r + a) + d + (b + e)
  {}

  /** Whatever else the file holds: a main that contains an os.Exit selector gets one reported inside it. */
  lemma ExitInMainIsReported(main: Node, exit: Node, tree: Node) returns (i: nat, from: nat)
    requires MainDecl(main) && ExitSelector(exit) && Within(exit, main) && Within(main, tree)
    ensures var ns := Preorder(tree);
            && from + |Preorder(main)| <= |ns| && ns[from..from + |Preorder(main)|] == Preorder(main)
            && from < i < from + |Preorder(main)| && Reported(ns, i)
  {
    hide Within, MainDecl, ExitSelector, Armed;
    var a, b := SubtreeIsSlice(main, tree);
    var c, e := SubtreeIsSlice(exit, main);
    NotBoth(main);
    var ns := Preorder(tree);
    from := |a|;
    assert ns[from..from + |Preorder(main)|] == Preorder(main);
    assert Preorder(main)[0] == main && Preorder(main)[|c|] == exit;
    assert ns[from] == main && ns[from + |c|] == exit;
    i := FirstExit(ns, from, from + |c|);
    ArmedAt(ns, from, i);
  }

  // What the checker gets wrong.

  predicate HasExit(ns: seq<Node>) {
    exists i :: 0 <= i < |ns| && ExitSelector(ns[i])
  }

  predicate NoMain(ns: seq<Node>) {
    forall i :: 0 <= i < |ns| ==> !MainDecl(ns[i])
  }

  /**
   * A file with one main declaration, a before and b after it. The checker speaks up if and only if main holds an
   * os.Exit selector, exactly when main holds one or none comes after main: the flag outlives the declaration.
   */
  lemma RightIff(a: seq<Node>, main: Node, b: seq<Node>)
    requires MainDecl(main) && NoMain(a) && NoMain(Preorder(main)[1..]) && NoMain(b)
    ensures var ns := a + Preorder(main) + b;
            var inside := HasExit(Preorder(main));
            (Hits(ns, |ns|) != [] <==> inside) <==> (inside || !HasExit(b))
  {
    hide Preorder, MainDecl, ExitSelector, Hits;
    var ns := a + Preorder(main) + b;
    SilentIff(ns);
    assert ns[|a|] == main;
    if ExitAfterMain(ns) {
      var m, i :| 0 <= m < i < |ns| && MainDecl(ns[m]) && ExitSelector(ns[i]);
      OnlyMain(a, main, b, m);
      if i < |a| + |Preorder(main)| {
        assert Preorder(main)[i - |a|] == ns[i];
      } else {
        assert b[i - |a| - |Preorder(main)|] == ns[i];
      }
    }
    if HasExit(Preorder(main)) {
      var i :| 0 <= i < |Preorder(main)| && ExitSelector(Preorder(main)[i]);
      NotBoth(main);
      assert ns[|a| + i] == Preorder(main)[i];
    }
    if HasExit(b) {
      var i :| 0 <= i < |b| && ExitSelector(b[i]);
      assert ns[|a| + |Preorder(main)| + i] == b[i];
    }
  }

  lemma NotBoth(n: Node)
    ensures !(MainDecl(n) && ExitSelector(n))
  {}

  lemma OnlyMain(a: seq<Node>, main: Node, b: seq<Node>, m: nat)
    requires NoMain(a) && NoMain(Preorder(main)[1..]) && NoMain(b)
    requires m < |a + Preorder(main) + b| && MainDecl((a + Preorder(main) + b)[m])
    ensures m == |a|
  {
    hide Preorder, MainDecl;
    PieceAt(a, Preorder(main), b, m);
  }

  lemma PieceAt(a: seq<Node>, p: seq<Node>, b: seq<Node>, m: nat)
    requires m < |a + p + b|
    ensures m < |a| ==> (a + p + b)[m] == a[m]
    ensures |a| < m < |a| + |p| ==> (a + p + b)[m] == p[1..][m - |a| - 1]
    ensures |a| + |p| <= m ==> (a + p + b)[m] == b[m - |a| - |p|]
  {}

  // A whole package.

  /** Where the first file of package main stands, or the number of files if there is none. */
  function FirstMainFile(files: seq<File>): (f: nat)
    ensures f <= |files| && (f < |files| ==> IsMainFile(files[f]))
    ensures forall e :: 0 <= e < f ==> !IsMainFile(files[e])
  {
    if files == [] || IsMainFile(files[0]) then 0 else 1 + FirstMainFile(files[1..])
  }

  /** Node i of file f is reported. */
  predicate ReportedIn(files: seq<File>, f: nat, i: nat) {
    f < |files| && f == FirstMainFile(files) && i < |Preorder(files[f].tree)| && Reported(Preorder(files[f].tree), i)
  }

  lemma {:induction false} ExpectedOfFirst(files: seq<File>)
    ensures var f := FirstMainFile(files);
            Expected(files) ==
            if f == |files| then [] else VisitAll(Walk(false, []), Preorder(files[f].tree)).reports
  {
    hide Preorder, VisitAll;
    if files != [] && !IsMainFile(files[0]) {
      ExpectedOfFirst(files[1..]);
    }
  }

  /** The reports for a package are the positions of its reported nodes, in order. */
  lemma PackageReports(files: seq<File>)
    ensures var f := FirstMainFile(files);
            if f == |files| then Expected(files) == [] && forall e, i :: !ReportedIn(files, e, i)
            else
              var ns := Preorder(files[f].tree);
              && (forall i: nat :: i in Hits(ns, |ns|) <==> ReportedIn(files, f, i))
              && (forall e, i :: ReportedIn(files, e, i) ==> e == f)
              && AreExits(ns, Hits(ns, |ns|)) && Expected(files) == Positions(ns, Hits(ns, |ns|))
  {
    hide Preorder, VisitAll, Reported, Expected;
    var f := FirstMainFile(files);
    ExpectedOfFirst(files);
    if f < |files| {
      var ns := Preorder(files[f].tree);
      HitsAre(ns, |ns|);
      WalkMeans(ns, |ns|);
      assert ns[..|ns|] == ns;
    }
  }

  /** Another os.Exit selector comes before i, with no main declaration in between. */
  predicate Preceded(ns: seq<Node>, i: nat)
    requires i < |ns|
  {
    exists k :: 0 <= k < i && ExitSelector(ns[k]) && forall j :: k <= j < i ==> !MainDecl(ns[j])
  }

  lemma LastMain(ns: seq<Node>, m: nat, i: nat) returns (l: nat)
    requires m < i < |ns| && MainDecl(ns[m])
    ensures m <= l < i && MainDecl(ns[l]) && forall j :: l < j < i ==> !MainDecl(ns[j])
  {
    l := i - 1;
    while !MainDecl(ns[l])
      invariant m <= l < i && forall j :: l < j < i ==> !MainDecl(ns[j])
      decreases l
    {
      l := l - 1;
    }
  }

  /** While the flag is up, a main declaration stands behind every os.Exit selector. */
  lemma MainSince(ns: seq<Node>, i: nat, k: nat)
    requires k < i < |ns| && Armed(ns, i) && ExitSelector(ns[k])
    ensures exists j :: k <= j < i && MainDecl(ns[j])
  {
    hide MainDecl, ExitSelector;
    var a :| 0 <= a < i && MainDecl(ns[a]) && forall j :: a <= j < i ==> !ExitSelector(ns[j]);
    assert !(a <= k);
  }

  /** After some main declaration the flag is down exactly behind an os.Exit selector of the same declaration. */
  lemma ArmedIffNotPreceded(ns: seq<Node>, m: nat, i: nat)
    requires m < i < |ns| && MainDecl(ns[m])
    ensures Armed(ns, i) <==> !Preceded(ns, i)
  {
    hide MainDecl, ExitSelector, Armed;
    if Preceded(ns, i) {
      var k: nat :| k < i && ExitSelector(ns[k]) && forall j :: k <= j < i ==> !MainDecl(ns[j]);
      if Armed(ns, i) {
        MainSince(ns, i, k);
      }
    } else {
      var l := LastMain(ns, m, i);
      NotBoth(ns[l]);
      assert forall k :: l <= k < i ==> !ExitSelector(ns[k]);
      ArmedAt(ns, l, i);
    }
  }

  /**
   * Which os.Exit selectors after a main declaration stay unreported: those of a file behind the first one of package
   * main, and those that another one precedes since the last main declaration.
   */
  lemma UnreportedIff(files: seq<File>, f: nat, m: nat, i: nat)
    requires f < |files| && IsMainFile(files[f]) && m < i < |Preorder(files[f].tree)|
    requires MainDecl(Preorder(files[f].tree)[m]) && ExitSelector(Preorder(files[f].tree)[i])
    ensures !ReportedIn(files, f, i) <==>
            (exists e :: 0 <= e < f && IsMainFile(files[e])) || Preceded(Preorder(files[f].tree), i)
  {
    hide Preorder, MainDecl, ExitSelector;
    ArmedIffNotPreceded(Preorder(files[f].tree), m, i);
    var g := FirstMainFile(files);
    assert g < f ==> IsMainFile(files[g]);
  }

  // From left to right.

  /** Of two parts of a node, the nodes of the left one all come before those of the right one. */
  lemma PartsInOrder(n: Node, j: nat, k: nat) returns (a: seq<Node>, b: seq<Node>, c: seq<Node>)
    requires (n.FuncDecl? || n.Other?) && j < k < |n.parts|
    ensures Preorder(n) == a + Preorder(n.parts[j]) + b + Preorder(n.parts[k]) + c
    ensures a != [] && a[0] == n
  {
    hide Preorder;
    var a', b' := PartIsSlice(n, j, k);
    var (p, q) := (Preorder(n.parts[j]), Preorder(n.parts[k]));
    c := PartsAfter(n, k + 1);
    a, b := [n] + a', b';
    PreorderOf(n);
    assert PreorderParts(n, k + 1) == PreorderParts(n, k) + q;
    assert [n] + ((a' + p + b') + q + c) == a + p + b + q + c;
  }

  lemma PreorderOf(n: Node)
    requires n.FuncDecl? || n.Other?
    ensures Preorder(n) == [n] + PreorderParts(n, |n.parts|)
  {}

  lemma {:induction false} PartsAfter(n: Node, k: nat) returns (c: seq<Node>)
    requires (n.FuncDecl? || n.Other?) && k <= |n.parts|
    ensures PreorderParts(n, |n.parts|) == PreorderParts(n, k) + c
    decreases |n.parts| - k
  {
    hide Preorder;
    if k == |n.parts| {
      c := [];
    } else {
      var c' := PartsAfter(n, k + 1);
      c := Preorder(n.parts[k]) + c';
    }
  }

  /** os.Exit at a position. */
  function ExitAt(pos: int): Node { SelectorExpr(Ident(Name("os", pos)), Name("Exit", pos + 3)) }

  lemma WalkExit(w: Walk, pos: int)
    ensures VisitAll(w, Preorder(ExitAt(pos))) == if w.mainFound then Walk(false, w.reports + [pos]) else w
  {
    hide VisitAll, Preorder;
    WalkSelector(w, ExitAt(pos));
  }

  lemma WalkTwo(w: Walk, n: Node)
    requires (n.FuncDecl? || n.Other?) && |n.parts| <= 2
    ensures VisitAll(w, Preorder(n)) ==
            var w0 := Visit(w, n);
            var w1 := if n.parts == [] then w0 else VisitAll(w0, Preorder(n.parts[0]));
            if |n.parts| == 2 then VisitAll(w1, Preorder(n.parts[1])) else w1
  {
    hide VisitAll, Visit, Preorder;
    PreorderOf(n);
    VisitOne(w, n);
    VisitConcat(w, [n], PreorderParts(n, |n.parts|));
    var w0 := Visit(w, n);
    assert VisitAll(w0, []) == w0 by { VisitNothing(w0); }
    assert PreorderParts(n, 0) == [];
    if |n.parts| == 1 {
      assert PreorderParts(n, 1) == Preorder(n.parts[0]);
    } else if |n.parts| == 2 {
      assert PreorderParts(n, 1) == Preorder(n.parts[0]);
      assert PreorderParts(n, 2) == PreorderParts(n, 1) + Preorder(n.parts[1]);
      VisitConcat(w0, Preorder(n.parts[0]), Preorder(n.parts[1]));
    }
  }

  lemma VisitNothing(w: Walk)
    ensures VisitAll(w, []) == w
  {}

  /** Of two in main the left one is reported, one behind main is too, and one before it is not. */
  lemma CheckerExamples(p: int, q: int)
    ensures Expected([File("main", Other([FuncDecl("main", [ExitAt(p), ExitAt(q)])]))]) == [p]
    ensures Expected([File("main", Other([FuncDecl("main", []), FuncDecl("f", [ExitAt(p)])]))]) == [p]
    ensures Expected([File("main", Other([FuncDecl("f", [ExitAt(p)]), FuncDecl("main", [])]))]) == []
    ensures Expected([File("lib", Other([FuncDecl("main", [ExitAt(p)])]))]) == []
  {
    hide Preorder, VisitAll, ExitAt;
    var (one, two) := (FuncDecl("f", [ExitAt(p)]), FuncDecl("main", [ExitAt(p), ExitAt(q)]));
    var empty := FuncDecl("main", []);
    var (idle, armed) := (Walk(false, []), Walk(true, []));
    WalkExit(idle, p);
    WalkExit(armed, p);
    WalkExit(Walk(false, [p]), q);
    assert VisitAll(armed, Preorder(ExitAt(p))) == Walk(false, [p]);
    WalkTwo(idle, two);
    assert VisitAll(idle, Preorder(two)) == Walk(false, [p]);
    WalkTwo(idle, empty);
    WalkTwo(idle, one);
    WalkTwo(armed, one);
    WalkTwo(idle, Other([two]));
    WalkTwo(idle, Other([empty, one]));
    WalkTwo(idle, Other([one, empty]));
  }

  /** A selector in a function, whatever the three names: only os.Exit in main is reported. */
  lemma OneSelector(name: string, x: string, sel: string, p: int, q: int)
    ensures Expected([File("main", Other([FuncDecl(name, [SelectorExpr(Ident(Name(x, p)), Name(sel, q))])]))]) ==
            if name == "main" && x == "os" && sel == "Exit" then [p] else []
  {
    hide Preorder, VisitAll;
    var n := SelectorExpr(Ident(Name(x, p)), Name(sel, q));
    var (idle, armed) := (Walk(false, []), Walk(true, []));
    WalkSelector(idle, n);
    WalkSelector(armed, n);
    WalkTwo(idle, FuncDecl(name, [n]));
    WalkTwo(idle, Other([FuncDecl(name, [n])]));
  }

  lemma WalkSelector(w: Walk, n: Node)
    requires n.SelectorExpr? && n.x.Ident?
    ensures VisitAll(w, Preorder(n)) == Visit(w, n)
  {
    hide VisitAll;
    assert Preorder(n) == [n] + ([n.x] + [Ident(n.sel)]);
    VisitConcat(w, [n], [n.x] + [Ident(n.sel)]);
    VisitConcat(Visit(w, n), [n.x], [Ident(n.sel)]);
    VisitOne(w, n);
    VisitOne(Visit(w, n), n.x);
    VisitOne(Visit(w, n), Ident(n.sel));
  }
}
