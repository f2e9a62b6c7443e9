/** Resolution of imports over a database of registered modules whose imports may form cycles. */
module Imports {
  type Name = string

  /** The registered modules and, in item order, the names that each of them imports. */
  type Database = map<Name, seq<Name>>

  /** A resolved module, by the resolved modules that it imports. */
  datatype Resolved = Resolved(nested: map<Name, Resolved>)

  datatype Diagnostic = ImportCycle(name: Name)

  // ---- Walks ------------------------------------------------------------------------------------

  /** A chain of imports that starts with one of `items`; all but its last name are registered. */
  predicate Walk(db: Database, items: seq<Name>, w: seq<Name>) {
    && w != [] && w[0] in items
    && forall i :: 0 <= i < |w| - 1 ==> w[i] in db && w[i + 1] in db[w[i]]
  }

  /** A walk that ends in a name it has been through, or that was being resolved before it. */
  predicate Returns(db: Database, stack: seq<Name>, items: seq<Name>, w: seq<Name>) {
    Walk(db, items, w) && (w[|w| - 1] in stack || w[|w| - 1] in w[..|w| - 1])
  }

  ghost predicate Cyclic(db: Database, stack: seq<Name>, items: seq<Name>) {
    exists w :: Returns(db, stack, items, w)
  }

  /** A returning walk ends in the name. */
  ghost predicate Ends(db: Database, stack: seq<Name>, items: seq<Name>, name: Name) {
    exists w :: Returns(db, stack, items, w) && w[|w| - 1] == name
  }

  lemma EndsPrepend(db: Database, stack: seq<Name>, items: seq<Name>, m: Name, name: Name)
    requires m in items && m in db && Ends(db, stack + [m], db[m], name)
    ensures Ends(db, stack, items, name)
  {
    var w :| Returns(db, stack + [m], db[m], w) && w[|w| - 1] == name;
    ReturnsPrepend(db, stack, items, m, w);
  }

  /** What ends a returning walk is on a cycle. */
  lemma EndsOnCycle(db: Database, items: seq<Name>, name: Name)
    requires Ends(db, [], items, name)
    ensures Leads(db, name, name)
  {
    var w :| Returns(db, [], items, w) && w[|w| - 1] == name;
    ReturnMeansCycle(db, items, w);
  }

  lemma ReturnsPrepend(db: Database, stack: seq<Name>, items: seq<Name>, m: Name, w: seq<Name>)
    requires m in items && m in db && Returns(db, stack + [m], db[m], w)
    ensures Returns(db, stack, items, [m] + w)
  {
    var v := [m] + w;
    forall i | 0 <= i < |v| - 1 ensures v[i] in db && v[i + 1] in db[v[i]] {
      if i > 0 { assert v[i] == w[i - 1] && v[i + 1] == w[i]; }
    }
    var last := w[|w| - 1];
    assert v[|v| - 1] == last;
    assert v[..|v| - 1] == [m] + w[..|w| - 1];
  }

  lemma ReturnsRest(db: Database, stack: seq<Name>, items: seq<Name>, w: seq<Name>)
    requires Returns(db, stack, items, w) && w[0] !in stack
    ensures w[0] in db && Returns(db, stack + [w[0]], db[w[0]], w[1..])
  {
    assert |w| > 1;
    var v := w[1..];
    forall i | 0 <= i < |v| - 1 ensures v[i] in db && v[i + 1] in db[v[i]] {
      assert v[i] == w[i + 1] && v[i + 1] == w[i + 2];
    }
    assert w[..|w| - 1] == [w[0]] + v[..|v| - 1];
  }

  /** A module's imports lead back to the stack, or to themselves, if and only if one of its items
      is on the stack or does so below it. */
  lemma CyclicByItems(db: Database, stack: seq<Name>, items: seq<Name>)
    ensures Cyclic(db, stack, items)
       <==> exists m :: m in items && (m in stack || (m in db && Cyclic(db, stack + [m], db[m])))
  {
    if w :| Returns(db, stack, items, w) {
      if w[0] !in stack { ReturnsRest(db, stack, items, w); }
      assert w[0] in items;
    }
    if m :| m in items && (m in stack || (m in db && Cyclic(db, stack + [m], db[m]))) {
      if m in stack {
        assert Returns(db, stack, items, [m]);
      } else {
        var w :| Returns(db, stack + [m], db[m], w);
        ReturnsPrepend(db, stack, items, m, w);
      }
    }
  }

  // ---- Cycles of registered modules --------------------------------------------------------------

  /** A nonempty chain of imports from `a` to `b` between registered modules. */
  ghost predicate Leads(db: Database, a: Name, b: Name) {
    exists w :: Chain(db, a, b, w)
  }

  predicate Chain(db: Database, a: Name, b: Name, w: seq<Name>) {
    && |w| > 1 && w[0] == a && w[|w| - 1] == b
    && (forall i :: 0 <= i < |w| ==> w[i] in db)
    && forall i :: 0 <= i < |w| - 1 ==> w[i + 1] in db[w[i]]
  }

  /** Some registered module is imported, directly or not, and imports itself, directly or not. */
  ghost predicate CycleReachable(db: Database, items: seq<Name>) {
    exists m :: Leads(db, m, m) && (m in items || exists a :: a in items && Leads(db, a, m))
  }

  lemma WalkRegistered(db: Database, items: seq<Name>, w: seq<Name>)
    requires Returns(db, [], items, w)
    ensures forall i :: 0 <= i < |w| ==> w[i] in db
  {
    var k :| 0 <= k < |w| - 1 && w[..|w| - 1][k] == w[|w| - 1];
    assert w[k] in db;
  }

  lemma ReturnMeansCycle(db: Database, items: seq<Name>, w: seq<Name>)
    requires Returns(db, [], items, w)
    ensures CycleReachable(db, items) && Leads(db, w[|w| - 1], w[|w| - 1])
  {
    WalkRegistered(db, items, w);
    var n := |w| - 1;
    var k :| 0 <= k < n && w[..n][k] == w[n];
    var m := w[k];
    assert Chain(db, m, m, w[k..]) by {
      var c := w[k..];
      assert forall i :: 0 <= i < |c| ==> c[i] == w[k + i];
    }
    assert Leads(db, m, m) && w[0] in items;
    if k > 0 {
      assert Chain(db, w[0], m, w[..k + 1]);
      assert Leads(db, w[0], m);
    }
  }

  lemma CycleMeansReturn(db: Database, items: seq<Name>, m: Name, p: seq<Name>, c: seq<Name>)
    requires Chain(db, m, m, c) && p != [] && p[0] in items && p[|p| - 1] == m && Walk(db, items, p)
    ensures Returns(db, [], items, p + c[1..])
  {
    var w := p + c[1..];
    var n := |p| - 1;
    forall i | 0 <= i < |w| - 1 ensures w[i] in db && w[i + 1] in db[w[i]] {
      if i >= n { assert w[i] == c[i - n] && w[i + 1] == c[i - n + 1]; }
    }
    assert w[..|w| - 1][n] == m == w[|w| - 1];
  }

  /** With nothing on the stack, returning walks are exactly the reachable cycles. */
  lemma CyclicIffCycleReachable(db: Database, items: seq<Name>)
    ensures Cyclic(db, [], items) <==> CycleReachable(db, items)
  {
    if w :| Returns(db, [], items, w) {
      ReturnMeansCycle(db, items, w);
    }
    if CycleReachable(db, items) {
      var m :| Leads(db, m, m) && (m in items || exists a :: a in items && Leads(db, a, m));
      var c :| Chain(db, m, m, c);
      if m in items {
        CycleMeansReturn(db, items, m, [m], c);
      } else {
        var a :| a in items && Leads(db, a, m);
        var p :| Chain(db, a, m, p);
        CycleMeansReturn(db, items, m, p, c);
      }
    }
  }

  // ---- What resolution gives ---------------------------------------------------------------------

  /** The registered imports that are not on the stack, each with what its own imports give. */
  ghost function Tree(db: Database, items: seq<Name>, stack: set<Name>): map<Name, Resolved>
    decreases db.Keys - stack
  {
    map m | m in items && m in db && m !in stack :: Resolved(Tree(db, db[m], stack + {m}))
  }

  ghost function Names(s: seq<Name>): set<Name> {
    set i | 0 <= i < |s| :: s[i]
  }

  /** Without a cycle, what an import resolves to does not depend on how it was reached. */
  lemma {:induction false} TreeIgnoresStack(db: Database, items: seq<Name>, s: seq<Name>, t: seq<Name>)
    requires !Cyclic(db, s, items) && !Cyclic(db, t, items)
    ensures Tree(db, items, Names(s)) == Tree(db, items, Names(t))
    ensures Tree(db, items, Names(s)).Keys == set m | m in items && m in db
    decreases db.Keys - Names(s)
  {
    CyclicByItems(db, s, items);
    CyclicByItems(db, t, items);
    forall m | m in items && m in db
      ensures m !in s && m !in t
      ensures Tree(db, db[m], Names(s) + {m}) == Tree(db, db[m], Names(t) + {m})
    {
      NamesPush(s, m);
      NamesPush(t, m);
      TreeIgnoresStack(db, db[m], s + [m], t + [m]);
    }
  }

  lemma NamesPush(s: seq<Name>, m: Name)
    ensures Names(s + [m]) == Names(s) + {m}
    ensures m in Names(s) <==> m in s
  {
    var r := s + [m];
    forall x | x in Names(s) + {m} ensures x in Names(r) {
      if x == m { assert r[|s|] == m; } else {
        var i :| 0 <= i < |s| && s[i] == x;
        assert r[i] == x;
      }
    }
  }

  // ---- What resolution reports -------------------------------------------------------------------

  /** A path to a name on the stack, by the positions of its imports: every module it goes through
      is registered and at its first position among the imports of the one before. */
  ghost predicate Path(db: Database, stack: seq<Name>, items: seq<Name>, p: seq<nat>)
    decreases |p|
  {
    && p != [] && p[0] < |items|
    && if items[p[0]] in stack then |p| == 1
       else && items[p[0]] in db && items[p[0]] !in items[..p[0]]
            && Path(db, stack + [items[p[0]]], db[items[p[0]]], p[1..])
  }

  /** Where a path ends. */
  ghost function End(db: Database, stack: seq<Name>, items: seq<Name>, p: seq<nat>): Name
    requires Path(db, stack, items, p)
    decreases |p|
  {
    var m := items[p[0]];
    if m in stack then m else End(db, stack + [m], db[m], p[1..])
  }

  /** Depth first: at the first position where two paths part, `p` takes the earlier import. */
  ghost predicate Before(p: seq<nat>, q: seq<nat>) {
    p != [] && q != [] && (p[0] < q[0] || (p[0] == q[0] && Before(p[1..], q[1..])))
  }

  /** Every path once, in depth-first order, with the name where it ends. */
  ghost predicate Reports(db: Database, stack: seq<Name>, items: seq<Name>, ps: seq<seq<nat>>, ds: seq<Diagnostic>) {
    && |ds| == |ps|
    && (forall i :: 0 <= i < |ps| ==>
          Path(db, stack, items, ps[i]) && ds[i] == ImportCycle(End(db, stack, items, ps[i])))
    && (forall i, j {:trigger Before(ps[i], ps[j])} :: 0 <= i < j < |ps| ==> Before(ps[i], ps[j]))
    && (forall p :: Path(db, stack, items, p) ==> p in ps)
  }

  ghost predicate Reported(db: Database, stack: seq<Name>, items: seq<Name>, ds: seq<Diagnostic>) {
    exists ps :: Reports(db, stack, items, ps, ds)
  }

  /** Imports that come later do not matter to a path. */
  lemma PathPrefix(db: Database, stack: seq<Name>, items: seq<Name>, n: nat, p: seq<nat>)
    requires n <= |items| && p != [] && p[0] < n
    ensures Path(db, stack, items[..n], p) <==> Path(db, stack, items, p)
    ensures Path(db, stack, items, p) ==> End(db, stack, items[..n], p) == End(db, stack, items, p)
  {
    assert items[..n][..p[0]] == items[..p[0]];
  }

  /** The reports of the first `n` imports, and those of paths through the next one. */
  lemma ReportsStep(db: Database, stack: seq<Name>, items: seq<Name>, n: nat,
                    ps: seq<seq<nat>>, ds: seq<Diagnostic>, qs: seq<seq<nat>>, es: seq<Diagnostic>)
    requires n < |items| && Reports(db, stack, items[..n], ps, ds) && |es| == |qs|
    requires forall i :: 0 <= i < |qs| ==> Path(db, stack, items, qs[i]) && qs[i][0] == n
    requires forall i :: 0 <= i < |qs| ==> es[i] == ImportCycle(End(db, stack, items, qs[i]))
    requires forall i, j :: 0 <= i < j < |qs| ==> Before(qs[i], qs[j])
    requires forall p :: Path(db, stack, items, p) && p[0] == n ==> p in qs
    ensures Reports(db, stack, items[..n + 1], ps + qs, ds + es)
  {
    var next, all := items[..n + 1], ps + qs;
    assert next[..n] == items[..n];
    forall i | 0 <= i < |all|
      ensures Path(db, stack, next, all[i]) && (ds + es)[i] == ImportCycle(End(db, stack, next, all[i]))
    {
      if i < |ps| { PathPrefix(db, stack, next, n, ps[i]); } else { PathPrefix(db, stack, items, n + 1, all[i]); }
    }
    forall i, j | 0 <= i < j < |all| ensures Before(all[i], all[j]) {
      if i < |ps| <= j { assert ps[i][0] < n && all[j] == qs[j - |ps|]; }
    }
    forall p | Path(db, stack, next, p) ensures p in all {
      if p[0] < n { PathPrefix(db, stack, next, n, p); } else { PathPrefix(db, stack, items, n + 1, p); }
    }
  }

  lemma NothingReported(db: Database, stack: seq<Name>, items: seq<Name>)
    ensures Reported(db, stack, items[..0], [])
  {
    assert Reports(db, stack, items[..0], [], []);
  }

  /** An import that is resolved already, or not registered, reports nothing. */
  lemma ReportsSkip(db: Database, stack: seq<Name>, items: seq<Name>, n: nat, ds: seq<Diagnostic>)
    requires n < |items| && Reported(db, stack, items[..n], ds)
    requires items[n] !in stack && (items[n] in items[..n] || items[n] !in db)
    ensures Reported(db, stack, items[..n + 1], ds)
  {
    var ps :| Reports(db, stack, items[..n], ps, ds);
    ReportsStep(db, stack, items, n, ps, ds, [], []);
    assert ds + [] == ds;
  }

  /** An import on the stack reports itself. */
  lemma ReportsHit(db: Database, stack: seq<Name>, items: seq<Name>, n: nat, ds: seq<Diagnostic>)
    requires n < |items| && Reported(db, stack, items[..n], ds) && items[n] in stack
    ensures Reported(db, stack, items[..n + 1], ds + [ImportCycle(items[n])])
  {
    var ps :| Reports(db, stack, items[..n], ps, ds);
    forall p | Path(db, stack, items, p) && p[0] == n ensures p in [[n]] {
      assert p == [n];
    }
    ReportsStep(db, stack, items, n, ps, ds, [[n]], [ImportCycle(items[n])]);
  }

  /** Any other import reports what its own imports do. */
  lemma ReportsBelow(db: Database, stack: seq<Name>, items: seq<Name>, n: nat, ds: seq<Diagnostic>, es: seq<Diagnostic>)
    requires n < |items| && Reported(db, stack, items[..n], ds)
    requires items[n] !in stack && items[n] !in items[..n] && items[n] in db
    requires Reported(db, stack + [items[n]], db[items[n]], es)
    ensures Reported(db, stack, items[..n + 1], ds + es)
  {
    var ps :| Reports(db, stack, items[..n], ps, ds);
    var below :| Reports(db, stack + [items[n]], db[items[n]], below, es);
    var qs := PathsBelow(db, stack, items, n, below, es);
    ReportsStep(db, stack, items, n, ps, ds, qs, es);
  }

  /** The paths through an import: its position, then a path below it. */
  lemma PathsBelow(db: Database, stack: seq<Name>, items: seq<Name>, n: nat,
                   below: seq<seq<nat>>, es: seq<Diagnostic>) returns (qs: seq<seq<nat>>)
    requires n < |items| && items[n] !in stack && items[n] !in items[..n] && items[n] in db
    requires Reports(db, stack + [items[n]], db[items[n]], below, es)
    ensures |es| == |qs|
    ensures forall i :: 0 <= i < |qs| ==> Path(db, stack, items, qs[i]) && qs[i][0] == n
    ensures forall i :: 0 <= i < |qs| ==> es[i] == ImportCycle(End(db, stack, items, qs[i]))
    ensures forall i, j :: 0 <= i < j < |qs| ==> Before(qs[i], qs[j])
    ensures forall p :: Path(db, stack, items, p) && p[0] == n ==> p in qs
  {
    qs := seq(|below|, i requires 0 <= i < |below| => [n] + below[i]);
    assert forall i :: 0 <= i < |qs| ==> qs[i][0] == n && qs[i][1..] == below[i];
    forall p | Path(db, stack, items, p) && p[0] == n ensures p in qs {
      assert p[1..] in below;
      var k :| 0 <= k < |below| && below[k] == p[1..];
      assert qs[k] == p;
    }
  }

  /** What resolution reports, import by import. */
  ghost function Found(db: Database, items: seq<Name>, stack: seq<Name>): seq<Diagnostic>
    decreases db.Keys - Names(stack), |items|
  {
    if items == [] then []
    else
      var n := |items| - 1;
      var m := items[n];
      NamesPush(stack, m);
      Found(db, items[..n], stack)
      + if m in stack then [ImportCycle(m)]
        else if m in items[..n] || m !in db then []
        else Found(db, db[m], stack + [m])
  }

  lemma {:induction false} FoundIsReported(db: Database, items: seq<Name>, stack: seq<Name>)
    ensures Reported(db, stack, items, Found(db, items, stack))
    decreases db.Keys - Names(stack), |items|
  {
    if items == [] {
      NothingReported(db, stack, items);
    } else {
      var n := |items| - 1;
      var m, ds := items[n], Found(db, items[..n], stack);
      FoundIsReported(db, items[..n], stack);
      assert items[..n + 1] == items;
      if m in stack {
        ReportsHit(db, stack, items, n, ds);
      } else if m in items[..n] || m !in db {
        ReportsSkip(db, stack, items, n, ds);
        assert ds + [] == ds;
      } else {
        NamesPush(stack, m);
        FoundIsReported(db, db[m], stack + [m]);
        ReportsBelow(db, stack, items, n, ds, Found(db, db[m], stack + [m]));
      }
    }
  }

  /** A path is a walk that returns. */
  lemma {:induction false} PathEnds(db: Database, stack: seq<Name>, items: seq<Name>, p: seq<nat>)
    requires Path(db, stack, items, p)
    ensures Ends(db, stack, items, End(db, stack, items, p))
    decreases |p|
  {
    var m := items[p[0]];
    if m in stack {
      assert Returns(db, stack, items, [m]);
    } else {
      PathEnds(db, stack + [m], db[m], p[1..]);
      EndsPrepend(db, stack, items, m, End(db, stack, items, p));
    }
  }

  /** Where some walk returns, there is a path. */
  lemma {:induction false} CyclicPath(db: Database, stack: seq<Name>, items: seq<Name>) returns (p: seq<nat>)
    requires Cyclic(db, stack, items)
    ensures Path(db, stack, items, p)
    decreases db.Keys - Names(stack)
  {
    CyclicByItems(db, stack, items);
    var m :| m in items && (m in stack || (m in db && Cyclic(db, stack + [m], db[m])));
    var k := First(items, m);
    if m in stack {
      p := [k];
    } else {
      NamesPush(stack, m);
      var below := CyclicPath(db, stack + [m], db[m]);
      p := [k] + below;
      assert p[1..] == below;
    }
  }

  function First(items: seq<Name>, m: Name): (k: nat)
    requires m in items
    ensures k < |items| && items[k] == m && m !in items[..k]
  {
    if items[0] == m then 0 else 1 + First(items[1..], m)
  }

  /** The reports are there exactly when a walk returns, and each names where one does. */
  lemma ReportedCyclic(db: Database, stack: seq<Name>, items: seq<Name>, ds: seq<Diagnostic>)
    requires Reported(db, stack, items, ds)
    ensures ds != [] <==> Cyclic(db, stack, items)
    ensures forall i :: 0 <= i < |ds| ==> Ends(db, stack, items, ds[i].name)
  {
    var ps :| Reports(db, stack, items, ps, ds);
    forall i | 0 <= i < |ds| ensures Ends(db, stack, items, ds[i].name) {
      PathEnds(db, stack, items, ps[i]);
    }
    if Cyclic(db, stack, items) {
      var p := CyclicPath(db, stack, items);
      assert p in ps;
    }
    if ds != [] {
      assert Ends(db, stack, items, ds[0].name);
    }
  }

  /** One pass over a root module: its stack of names being resolved and its diagnostics. */
  class Resolver {
    var resolving: seq<Name>
    var diagnostics: seq<Diagnostic>

    constructor ()
      ensures resolving == [] && diagnostics == []
    {
      resolving, diagnostics := [], [];
    }

    /** Ends on every database, leaves the stack as it was, and adds one diagnostic for every path
        to a name on the stack, in depth-first order. */
    method ResolveImports(db: Database, items: seq<Name>) returns (result: map<Name, Resolved>)
      modifies this
      ensures resolving == old(resolving)
      ensures diagnostics == old(diagnostics) + Found(db, items, resolving)
      ensures Reported(db, resolving, items, diagnostics[|old(diagnostics)|..])
      ensures |diagnostics| > |old(diagnostics)| <==> Cyclic(db, resolving, items)
      ensures forall i :: |old(diagnostics)| <= i < |diagnostics| ==> Ends(db, resolving, items, diagnostics[i].name)
      ensures result == Tree(db, items, Names(resolving))
      decreases db.Keys - Names(resolving)
    {
      result := map[];
      ghost var stack, was := resolving, diagnostics;
      for n := 0 to |items|
        invariant resolving == stack && diagnostics == was + Found(db, items[..n], stack)
        invariant result == Tree(db, items[..n], Names(stack))
      {
        var m := items[n];
        ItemStep(db, stack, items, n);
        if m in result {
          continue;
        }
        if m in resolving {
          diagnostics := diagnostics + [ImportCycle(m)];
          continue;
        }
        if m !in db {
          continue;
        }
        NamesPush(stack, m);
        resolving := resolving + [m];
        ghost var found, below := Found(db, items[..n], stack), Found(db, db[m], stack + [m]);
        var nested := ResolveImports(db, db[m]);
        assert diagnostics == (was + found) + below;
        Associates(was, found, below);
        resolving := resolving[..|resolving| - 1];
        result := result[m := Resolved(nested)];
      }
      assert items[..|items|] == items;
      assert diagnostics[|was|..] == Found(db, items, stack);
      FoundIsReported(db, items, stack);
      ReportedCyclic(db, stack, items, diagnostics[|was|..]);
    }

    /** The entry point: nothing is being resolved yet. */
    method ResolveRoot(db: Database, items: seq<Name>) returns (result: map<Name, Resolved>)
      requires resolving == [] && diagnostics == []
      modifies this
      ensures resolving == []
      ensures diagnostics != [] <==> CycleReachable(db, items)
      ensures forall i :: 0 <= i < |diagnostics| ==> Leads(db, diagnostics[i].name, diagnostics[i].name)
      ensures Reported(db, [], items, diagnostics)
      ensures diagnostics == [] ==> result.Keys == set m | m in items && m in db
    {
      result := ResolveImports(db, items);
      assert diagnostics[0..] == diagnostics;
      CyclicIffCycleReachable(db, items);
      forall i | 0 <= i < |diagnostics| ensures Leads(db, diagnostics[i].name, diagnostics[i].name) {
        EndsOnCycle(db, items, diagnostics[i].name);
      }
      if diagnostics == [] { TreeIgnoresStack(db, items, [], []); }
    }
  }

  lemma Associates<T>(a: seq<T>, b: seq<T>, c: seq<T>)
    ensures (a + b) + c == a + (b + c)
  {
  }

  /** What one more item adds. */
  lemma ItemStep(db: Database, stack: seq<Name>, items: seq<Name>, n: nat)
    requires n < |items|
    ensures var m := items[n];
            var done, found := Tree(db, items[..n], Names(stack)), Found(db, items[..n], stack);
            && (m in done <==> m !in stack && m in items[..n] && m in db)
            && (m in done || m in stack || m !in db ==> Tree(db, items[..n + 1], Names(stack)) == done)
            && (m !in stack && m in db ==>
                  Tree(db, items[..n + 1], Names(stack)) == done[m := Resolved(Tree(db, db[m], Names(stack) + {m}))])
            && Found(db, items[..n + 1], stack)
               == if m in stack then found + [ImportCycle(m)]
                  else if m in done || m !in db then found
                  else found + Found(db, db[m], stack + [m])
  {
    NamesPush(stack, items[n]);
    assert items[..n + 1][..n] == items[..n];
    assert items[..n + 1] == items[..n] + [items[n]];
  }
}
