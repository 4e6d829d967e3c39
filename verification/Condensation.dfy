/** From components to an order of the nodes: the reasoning behind `DependencyGraph.topsort`. */
module Condensation {
  import opened Reachability
  import opened Sequences
  import opened Tarjan
  import opened Kahn

  /** The graph over components that `topsort` builds: no self edges, parallel edges allowed. */
  ghost predicate Condenses<T(!new)>(g: map<T, seq<T>>, comps: seq<seq<T>>, h: map<seq<T>, seq<seq<T>>>) {
    && (forall c :: c in h <==> c in comps)
    && (forall a, b :: a in h ==> (b in h[a] <==> a != b && HasEdge(g, a, b) && b in comps))
  }

  ghost predicate HasEdge<T(!new)>(g: map<T, seq<T>>, a: seq<T>, b: seq<T>) {
    exists u, v :: u in a && u in g && v in g[u] && v in b
  }

  /** What `topsort` promises: one representative of every strongly connected component,
      each after every representative it depends on, directly or not. */
  ghost predicate TopSorted<T(!new)>(g: map<T, seq<T>>, r: seq<T>) {
    && (forall v :: v in r ==> v in g)
    && (forall v :: v in g ==> Represented(g, r, v))
    && (forall i, j :: 0 <= i < |r| && 0 <= j < |r| && MutuallyReachable(g, r[i], r[j]) ==> i == j)
    && (forall i, j :: 0 <= i < |r| && 0 <= j < |r| && Reach(g, r[i], r[j]) ==> j <= i)
  }

  ghost predicate Represented<T(!new)>(g: map<T, seq<T>>, r: seq<T>, v: T) {
    exists i :: 0 <= i < |r| && MutuallyReachable(g, r[i], v)
  }

  lemma {:induction false} OrderBoundsWalk<T(!new)>(g: map<T, seq<T>>, s: seq<T>, i: nat, v: T, n: nat) returns (j: nat)
    requires Closed(g) && (forall x :: x in g <==> x in s) && DependenciesFirst(g, s)
    requires i < |s| && ReachIn(g, s[i], v, n)
    ensures j <= i && s[j] == v
    ensures n > 0 ==> j < i
  {
    if n == 0 {
      j := i;
    } else {
      var x :| x in g[s[i]] && ReachIn(g, x, v, n - 1);
      assert s[i] in s && x in s;
      var k :| 0 <= k < |s| && s[k] == x;
      j := OrderBoundsWalk(g, s, k, v, n - 1);
    }
  }

  lemma OrderBoundsReach<T(!new)>(g: map<T, seq<T>>, s: seq<T>, i: nat, j: nat)
    requires Closed(g) && (forall x :: x in g <==> x in s) && DependenciesFirst(g, s) && NoDup(s)
    requires i < |s| && j < |s| && Reach(g, s[i], s[j])
    ensures j <= i
  {
    var n: nat :| ReachIn(g, s[i], s[j], n);
    var k := OrderBoundsWalk(g, s, i, s[j], n);
  }

  lemma OrderMeansAcyclic<T(!new)>(g: map<T, seq<T>>, s: seq<T>)
    requires Closed(g) && (forall x :: x in g <==> x in s) && DependenciesFirst(g, s) && NoDup(s)
    ensures Acyclic(g)
    ensures forall v :: !BelowCycle(g, v)
  {
    forall v | v in g
      ensures !OnCycle(g, v)
    {
      if OnCycle(g, v) {
        var w :| w in g[v] && Reach(g, w, v);
        var n: nat :| ReachIn(g, w, v, n);
        assert v in s;
        var i :| 0 <= i < |s| && s[i] == v;
        assert ReachIn(g, v, v, n + 1);
        var j := OrderBoundsWalk(g, s, i, v, n + 1);
      }
    }
  }

  lemma ComponentsAreDistinct<T(!new)>(g: map<T, seq<T>>, comps: seq<seq<T>>)
    requires Classes(g, comps)
    ensures NoDup(comps)
  {
    forall i, j | 0 <= i < j < |comps|
      ensures comps[i] != comps[j]
    {
      assert comps[i][0] in comps[i];
      assert comps[j][0] in comps[j];
    }
  }

  /** The order in which components were emitted already orders the condensed graph. */
  lemma CondensationIsOrdered<T(!new)>(g: map<T, seq<T>>, comps: seq<seq<T>>, h: map<seq<T>, seq<seq<T>>>)
    requires Closed(g) && Components(g, comps) && Condenses(g, comps, h)
    ensures Closed(h) && NoDup(comps) && DependenciesFirst(h, comps)
  {
    ComponentsAreDistinct(g, comps);
    forall i, j | 0 <= i < |comps| && 0 <= j < |comps| && comps[i] in h && comps[j] in h[comps[i]]
      ensures j < i
    {
      assert HasEdge(g, comps[i], comps[j]);
      var u, v :| u in comps[i] && u in g && v in g[u] && v in comps[j];
      assert InComponent(comps, v);
      ReachEdge(g, u, v);
    }
  }

  lemma {:induction false} WalkCondenses<T(!new)>(
    g: map<T, seq<T>>, comps: seq<seq<T>>, h: map<seq<T>, seq<seq<T>>>, u: T, v: T, n: nat, a: seq<T>, b: seq<T>)
    requires Closed(g) && Components(g, comps) && Condenses(g, comps, h)
    requires a in comps && u in a && b in comps && v in b && ReachIn(g, u, v, n)
    ensures Reach(h, a, b)
  {
    hide *;
    if n == 0 {
      NoStep(g, comps, h, u, v, a, b);
    } else {
      var x, c := FirstStep(g, comps, h, u, v, n, a);
      WalkCondenses(g, comps, h, x, v, n - 1, c, b);
      ReachTrans(h, a, c, b);
    }
  }

  lemma NoStep<T(!new)>(
    g: map<T, seq<T>>, comps: seq<seq<T>>, h: map<seq<T>, seq<seq<T>>>, u: T, v: T, a: seq<T>, b: seq<T>)
    requires Closed(g) && Components(g, comps) && Condenses(g, comps, h)
    requires a in comps && u in a && b in comps && v in b && ReachIn(g, u, v, 0)
    ensures Reach(h, a, b)
  {
    SameComponent(g, comps, u, a, b);
    ReachRefl(h, a);
  }

  lemma FirstStep<T(!new)>(
    g: map<T, seq<T>>, comps: seq<seq<T>>, h: map<seq<T>, seq<seq<T>>>, u: T, v: T, n: nat, a: seq<T>)
    returns (x: T, c: seq<T>)
    requires Closed(g) && Components(g, comps) && Condenses(g, comps, h) && n > 0
    requires a in comps && u in a && ReachIn(g, u, v, n)
    ensures ReachIn(g, x, v, n - 1) && c in comps && x in c && Reach(h, a, c)
  {
    x :| x in g[u] && ReachIn(g, x, v, n - 1);
    assert InComponent(comps, x);
    var k :| 0 <= k < |comps| && x in comps[k];
    c := comps[k];
    ReachRefl(h, a);
    if a != c {
      assert HasEdge(g, a, c);
      ReachEdge(h, a, c);
    }
  }

  lemma SameComponent<T(!new)>(g: map<T, seq<T>>, comps: seq<seq<T>>, u: T, a: seq<T>, b: seq<T>)
    requires Classes(g, comps) && a in comps && b in comps && u in a && u in b
    ensures a == b
  {
    var i :| 0 <= i < |comps| && comps[i] == a;
    var j :| 0 <= j < |comps| && comps[j] == b;
  }

  lemma SortedHoldsAll<T(!new)>(
    g: map<T, seq<T>>, comps: seq<seq<T>>, h: map<seq<T>, seq<seq<T>>>, s: seq<seq<T>>)
    requires Closed(g) && Components(g, comps) && Condenses(g, comps, h) && Sorted(h, s)
    ensures Closed(h) && (forall c :: c in s <==> c in comps) && (forall c :: c in h <==> c in s)
  {
    CondensationIsOrdered(g, comps, h);
    assert forall c :: c in h <==> c in comps;
    OrderMeansAcyclic(h, comps);
  }

  lemma RepresentativesAreSorted<T(!new)>(
    g: map<T, seq<T>>, comps: seq<seq<T>>, h: map<seq<T>, seq<seq<T>>>, s: seq<seq<T>>, r: seq<T>)
    requires Closed(g) && Components(g, comps) && Condenses(g, comps, h) && Sorted(h, s)
    requires |r| == |s| && forall i :: 0 <= i < |s| && s[i] != [] ==> r[i] == s[i][0]
    ensures TopSorted(g, r)
  {
    hide *;
    SortedHoldsAll(g, comps, h, s);
    SortedIsOrdered(h, s);
    FirstNodesBelong(g, comps, s, r);
    RepresentativesCover(g, comps, s, r);
    RepresentativesAreOrdered(g, comps, h, s, r);
    TopSortedIs(g, r);
  }

  lemma SortedIsOrdered<T(!new)>(h: map<T, seq<T>>, s: seq<T>)
    requires Sorted(h, s)
    ensures NoDup(s) && DependenciesFirst(h, s)
  {}

  lemma FirstNodesBelong<T(!new)>(g: map<T, seq<T>>, comps: seq<seq<T>>, s: seq<seq<T>>, r: seq<T>)
    requires Components(g, comps) && forall c :: c in s <==> c in comps
    requires |r| == |s| && forall i :: 0 <= i < |s| && s[i] != [] ==> r[i] == s[i][0]
    ensures forall i :: 0 <= i < |s| ==> s[i] in comps && r[i] in s[i] && r[i] in g
  {
    hide Components;
    forall i | 0 <= i < |s|
      ensures s[i] in comps && r[i] in s[i] && r[i] in g
    {
      assert s[i] in s && s[i] in comps;
      RepresentativeOf(g, comps, s[i]);
    }
  }

  lemma RepresentativesCover<T(!new)>(g: map<T, seq<T>>, comps: seq<seq<T>>, s: seq<seq<T>>, r: seq<T>)
    requires Components(g, comps) && forall c :: c in s <==> c in comps
    requires |r| == |s| && forall i :: 0 <= i < |s| ==> r[i] in s[i]
    ensures forall v :: v in g ==> Represented(g, r, v)
  {
    hide Components;
    hide Represented;
    forall v | v in g
      ensures Represented(g, r, v)
    {
      var c := ComponentOf(g, comps, v);
      FindRepresentative(g, comps, s, r, c, v);
    }
  }

  lemma TopSortedIs<T(!new)>(g: map<T, seq<T>>, r: seq<T>)
    requires forall i :: 0 <= i < |r| ==> r[i] in g
    requires forall v :: v in g ==> Represented(g, r, v)
    requires forall i, j :: 0 <= i < |r| && 0 <= j < |r| && MutuallyReachable(g, r[i], r[j]) ==> i == j
    requires forall i, j :: 0 <= i < |r| && 0 <= j < |r| && Reach(g, r[i], r[j]) ==> j <= i
    ensures TopSorted(g, r)
  {
    hide Represented;
    hide MutuallyReachable;
    hide Reach;
  }

  lemma RepresentativesAreOrdered<T(!new)>(
    g: map<T, seq<T>>, comps: seq<seq<T>>, h: map<seq<T>, seq<seq<T>>>, s: seq<seq<T>>, r: seq<T>)
    requires Closed(g) && Components(g, comps) && Condenses(g, comps, h)
    requires Closed(h) && (forall c :: c in h <==> c in s) && DependenciesFirst(h, s) && NoDup(s)
    requires |r| == |s| && forall i :: 0 <= i < |s| ==> r[i] in s[i] && s[i] in comps
    ensures forall i, j :: 0 <= i < |r| && 0 <= j < |r| && Reach(g, r[i], r[j]) ==> j <= i
    ensures forall i, j :: 0 <= i < |r| && 0 <= j < |r| && MutuallyReachable(g, r[i], r[j]) ==> i == j
  {
    hide Closed;
    hide Components;
    hide Condenses;
    hide Reach;
    hide DependenciesFirst;
    forall i, j | 0 <= i < |r| && 0 <= j < |r| && Reach(g, r[i], r[j])
      ensures j <= i
    {
      ReachCondenses(g, comps, h, r[i], r[j], s[i], s[j]);
      OrderBoundsReach(h, s, i, j);
    }
  }

  lemma FindRepresentative<T(!new)>(
    g: map<T, seq<T>>, comps: seq<seq<T>>, s: seq<seq<T>>, r: seq<T>, c: seq<T>, v: T)
    requires Components(g, comps) && c in comps && v in c && c in s
    requires |r| == |s| && forall i :: 0 <= i < |s| ==> r[i] in s[i]
    ensures Represented(g, r, v)
  {
    hide Components;
    var i :| 0 <= i < |s| && s[i] == c;
    SameComponentIffMutual(g, comps, r[i], c, v, c);
  }

  lemma ReachCondenses<T(!new)>(
    g: map<T, seq<T>>, comps: seq<seq<T>>, h: map<seq<T>, seq<seq<T>>>, u: T, v: T, a: seq<T>, b: seq<T>)
    requires Closed(g) && Components(g, comps) && Condenses(g, comps, h)
    requires a in comps && u in a && b in comps && v in b && Reach(g, u, v)
    ensures Reach(h, a, b)
  {
    var n: nat :| ReachIn(g, u, v, n);
    WalkCondenses(g, comps, h, u, v, n, a, b);
  }

  lemma RepresentativeOf<T(!new)>(g: map<T, seq<T>>, comps: seq<seq<T>>, c: seq<T>)
    requires Components(g, comps) && c in comps
    ensures c != [] && c[0] in g
  {
    var k :| 0 <= k < |comps| && comps[k] == c;
    assert comps[k] != [];
    assert InComponent(comps, c[0]);
  }

  lemma ComponentOf<T(!new)>(g: map<T, seq<T>>, comps: seq<seq<T>>, v: T) returns (c: seq<T>)
    requires Components(g, comps) && v in g
    ensures c in comps && v in c
  {
    assert InComponent(comps, v);
    var k :| 0 <= k < |comps| && v in comps[k];
    c := comps[k];
  }

  lemma SameComponentIffMutual<T(!new)>(g: map<T, seq<T>>, comps: seq<seq<T>>, u: T, a: seq<T>, v: T, b: seq<T>)
    requires Components(g, comps) && a in comps && b in comps && u in a && v in b
    ensures MutuallyReachable(g, u, v) <==> a == b
  {
    var i :| 0 <= i < |comps| && comps[i] == a;
    var j :| 0 <= j < |comps| && comps[j] == b;
    assert v in comps[i] <==> MutuallyReachable(g, u, v);
  }

  /** On an acyclic graph the result is a permutation of the nodes, dependencies first. */
  lemma TopSortedAcyclic<T(!new)>(g: map<T, seq<T>>, r: seq<T>)
    requires Closed(g) && Acyclic(g) && TopSorted(g, r)
    ensures NoDup(r) && (forall v :: v in r <==> v in g) && DependenciesFirst(g, r)
  {
    forall i | 0 <= i < |r|
      ensures r[i] in g && r[i] !in g[r[i]]
    {
      assert r[i] in r;
      ReachRefl(g, r[i]);
      assert !OnCycle(g, r[i]);
    }
    forall i, j | 0 <= i < j < |r|
      ensures r[i] != r[j]
    {
      ReachRefl(g, r[i]);
    }
    forall v | v in g
      ensures v in r
    {
      assert Represented(g, r, v);
      var i :| 0 <= i < |r| && MutuallyReachable(g, r[i], v);
      MutualOnCycle(g, r[i], v);
    }
    forall i, j | 0 <= i < |r| && 0 <= j < |r| && r[i] in g && r[j] in g[r[i]]
      ensures j < i
    {
      ReachEdge(g, r[i], r[j]);
    }
  }

  lemma MutualOnCycle<T(!new)>(g: map<T, seq<T>>, u: T, v: T)
    requires MutuallyReachable(g, u, v)
    ensures u == v || OnCycle(g, u)
  {
    var n: nat :| ReachIn(g, u, v, n);
    if n > 0 {
      var w :| w in g[u] && ReachIn(g, w, v, n - 1);
      assert Reach(g, w, v);
      ReachTrans(g, w, v, u);
    }
  }

  // ---- Building the condensed graph one edge at a time ----

  ghost predicate HasSeen<T(!new)>(seen: set<(T, T)>, a: seq<T>, b: seq<T>) {
    exists u, v :: (u, v) in seen && u in a && v in b
  }

  ghost predicate CondensesSeen<T(!new)>(comps: seq<seq<T>>, h: map<seq<T>, seq<seq<T>>>, seen: set<(T, T)>) {
    && (forall c :: c in h <==> c in comps)
    && (forall a, b :: a in h ==> (b in h[a] <==> a != b && b in comps && HasSeen(seen, a, b)))
  }

  lemma NodesAreCovered<T(!new)>(g: map<T, seq<T>>, comps: seq<seq<T>>, v: T)
    requires Components(g, comps)
    ensures v in g <==> InComponent(comps, v)
  {}

  lemma SeeEdge<T(!new)>(
    g: map<T, seq<T>>, comps: seq<seq<T>>, h: map<seq<T>, seq<seq<T>>>, seen: set<(T, T)>,
    u: T, v: T, a: seq<T>, b: seq<T>)
    requires Components(g, comps) && CondensesSeen(comps, h, seen)
    requires a in comps && b in comps && u in a && v in b
    ensures a in h
    ensures CondensesSeen(comps, if a != b then h[a := h[a] + [b]] else h, seen + {(u, v)})
  {
    assert Classes(g, comps);
    hide Components;
    hide Classes;
    var seen' := seen + {(u, v)};
    assert (u, v) in seen';
    assert HasSeen(seen', a, b);
    forall c, d | c in comps && d in comps
      ensures HasSeen(seen', c, d) <==> HasSeen(seen, c, d) || (c == a && d == b)
    {
      if HasSeen(seen', c, d) {
        var x, y :| (x, y) in seen' && x in c && y in d;
        if (x, y) !in seen {
          SameComponent(g, comps, u, a, c);
          SameComponent(g, comps, v, b, d);
        }
      }
      if HasSeen(seen, c, d) {
        var x, y :| (x, y) in seen && x in c && y in d;
        assert (x, y) in seen';
      }
    }
    hide HasSeen;
  }

  lemma SeenAll<T(!new)>(
    g: map<T, seq<T>>, comps: seq<seq<T>>, h: map<seq<T>, seq<seq<T>>>, seen: set<(T, T)>, order: seq<T>)
    requires CondensesSeen(comps, h, seen)
    requires forall v :: v in order <==> v in g
    requires forall u, v :: (u, v) in seen <==> u in order[..|order|] && u in g && v in g[u]
    ensures Condenses(g, comps, h)
  {
    assert order[..|order|] == order;
    forall a, b
      ensures HasSeen(seen, a, b) <==> HasEdge(g, a, b)
    {
      if HasEdge(g, a, b) {
        var u, v :| u in a && u in g && v in g[u] && v in b;
        assert (u, v) in seen;
      }
    }
  }
}
