/** Walks in a finite directed graph given by its adjacency map. */
module Reachability {

  /** Every successor is itself a key of the graph. */
  ghost predicate Closed<T>(g: map<T, seq<T>>) {
    forall u, v :: u in g && v in g[u] ==> v in g
  }

  ghost predicate ReachIn<T>(g: map<T, seq<T>>, u: T, v: T, n: nat) {
    u in g && if n == 0 then u == v else exists w :: w in g[u] && ReachIn(g, w, v, n - 1)
  }

  /** `v` can be reached from `u` by following zero or more edges. */
  ghost predicate Reach<T>(g: map<T, seq<T>>, u: T, v: T) {
    exists n: nat :: ReachIn(g, u, v, n)
  }

  ghost predicate OnCycle<T>(g: map<T, seq<T>>, v: T) {
    v in g && exists w :: w in g[v] && Reach(g, w, v)
  }

  ghost predicate Acyclic<T>(g: map<T, seq<T>>) {
    forall v :: v in g ==> !OnCycle(g, v)
  }

  ghost predicate MutuallyReachable<T>(g: map<T, seq<T>>, u: T, v: T) {
    Reach(g, u, v) && Reach(g, v, u)
  }

  lemma ReachRefl<T>(g: map<T, seq<T>>, u: T)
    requires u in g
    ensures Reach(g, u, u)
  {
    assert ReachIn(g, u, u, 0);
  }

  lemma ReachEdge<T>(g: map<T, seq<T>>, u: T, v: T)
    requires u in g && v in g[u] && v in g
    ensures Reach(g, u, v)
  {
    assert ReachIn(g, v, v, 0);
    assert ReachIn(g, u, v, 1);
  }

  lemma {:induction false} ReachInTrans<T>(g: map<T, seq<T>>, u: T, v: T, w: T, m: nat, n: nat)
    requires ReachIn(g, u, v, m) && ReachIn(g, v, w, n)
    ensures ReachIn(g, u, w, m + n)
  {
    if m > 0 {
      var x :| x in g[u] && ReachIn(g, x, v, m - 1);
      ReachInTrans(g, x, v, w, m - 1, n);
    }
  }

  lemma ReachTrans<T>(g: map<T, seq<T>>, u: T, v: T, w: T)
    requires Reach(g, u, v) && Reach(g, v, w)
    ensures Reach(g, u, w)
  {
    var m: nat :| ReachIn(g, u, v, m);
    var n: nat :| ReachIn(g, v, w, n);
    ReachInTrans(g, u, v, w, m, n);
  }

  lemma {:induction false} ReachEnds<T>(g: map<T, seq<T>>, u: T, v: T)
    requires Reach(g, u, v)
    ensures u in g && v in g
  {
    var n: nat :| ReachIn(g, u, v, n);
    ReachInEnds(g, u, v, n);
  }

  lemma {:induction false} ReachInEnds<T>(g: map<T, seq<T>>, u: T, v: T, n: nat)
    requires ReachIn(g, u, v, n)
    ensures v in g
  {
    if n == 0 {
    } else {
      var x :| x in g[u] && ReachIn(g, x, v, n - 1);
      ReachInEnds(g, x, v, n - 1);
    }
  }

  /** A walk cannot leave a set that is closed under successors. */
  lemma {:induction false} ClosedSetKeepsWalk<T>(g: map<T, seq<T>>, S: set<T>, u: T, v: T, n: nat)
    requires forall x, y :: x in S && x in g && y in g[x] ==> y in S
    requires u in S && ReachIn(g, u, v, n)
    ensures v in S
  {
    if n == 0 {
    } else {
      var x :| x in g[u] && ReachIn(g, x, v, n - 1);
      ClosedSetKeepsWalk(g, S, x, v, n - 1);
    }
  }

  lemma ClosedSetKeepsReach<T>(g: map<T, seq<T>>, S: set<T>, u: T, v: T)
    requires forall x, y :: x in S && x in g && y in g[x] ==> y in S
    requires u in S && Reach(g, u, v)
    ensures v in S
  {
    var n: nat :| ReachIn(g, u, v, n);
    ClosedSetKeepsWalk(g, S, u, v, n);
  }
}
