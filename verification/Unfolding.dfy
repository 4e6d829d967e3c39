/** Finite trees of labels: what a hierarchy of nodes denotes, and what the recursion of
    `valency_of` unfolds a graph into. */
module Unfoldings {
  import opened Reachability

  datatype Tree<T> = Tree(data: T, kids: seq<Tree<T>>)

  /** The number of nodes, the root included. */
  ghost function Size<T>(t: Tree<T>): (n: nat)
    ensures n > 0
    decreases t
  {
    1 + SizeAll(t.kids)
  }

  ghost function SizeAll<T>(ts: seq<Tree<T>>): nat
    decreases ts
  {
    if ts == [] then 0 else SizeAll(ts[..|ts| - 1]) + Size(ts[|ts| - 1])
  }

  /** The labels of a tree, each as often as it occurs. */
  ghost function Labels<T(!new)>(t: Tree<T>): multiset<T>
    decreases t
  {
    multiset{t.data} + LabelsAll(t.kids)
  }

  ghost function LabelsAll<T(!new)>(ts: seq<Tree<T>>): multiset<T>
    decreases ts
  {
    if ts == [] then multiset{} else LabelsAll(ts[..|ts| - 1]) + Labels(ts[|ts| - 1])
  }

  function Tops<T>(ts: seq<Tree<T>>): seq<T> {
    seq(|ts|, i requires 0 <= i < |ts| => ts[i].data)
  }

  /** `t` is `v` with its successors below it, their successors below them, and so on; what
      is not a key of the graph has nothing below it. */
  ghost predicate Unfolds<T>(g: map<T, seq<T>>, v: T, t: Tree<T>)
    decreases t
  {
    && t.data == v
    && (if v in g then Tops(t.kids) == g[v] else t.kids == [])
    && (forall k :: 0 <= k < |t.kids| ==> Unfolds(g, t.kids[k].data, t.kids[k]))
  }

  ghost predicate ReachesCycle<T(!new)>(g: map<T, seq<T>>, v: T) {
    exists c :: Reach(g, v, c) && OnCycle(g, c)
  }

  /** The recursion of `valency_of` ends exactly when no cycle can be reached. */
  lemma UnfoldsExactlyOffCycles<T(!new)>(g: map<T, seq<T>>, v: T)
    ensures (exists t :: Unfolds(g, v, t)) <==> !ReachesCycle(g, v)
  {
    if !ReachesCycle(g, v) {
      assert Unfolds(g, v, Unfold(g, v, {}));
    } else if t :| Unfolds(g, v, t) {
      var c :| Reach(g, v, c) && OnCycle(g, c);
      var n: nat :| ReachIn(g, v, c, n);
      var u := SubtreeOnWalk(g, v, c, n, t);
      NoUnfoldingOnCycle(g, c, u);
      assert false;
    }
  }

  lemma NoUnfoldingOnCycle<T>(g: map<T, seq<T>>, c: T, t: Tree<T>)
    requires OnCycle(g, c)
    ensures !Unfolds(g, c, t)
  {
    if Unfolds(g, c, t) {
      var w :| w in g[c] && Reach(g, w, c);
      var m: nat :| ReachIn(g, w, c, m);
      assert ReachIn(g, c, c, m + 1);
      var u := SubtreeOnWalk(g, c, c, m + 1, t);
      UnfoldingIsUnique(g, c, t, u);
    }
  }

  /** The unfolding of a node at the end of a walk is part of the unfolding of its start. */
  lemma {:induction false} SubtreeOnWalk<T>(g: map<T, seq<T>>, v: T, w: T, n: nat, t: Tree<T>) returns (u: Tree<T>)
    requires Unfolds(g, v, t) && ReachIn(g, v, w, n)
    ensures Unfolds(g, w, u) && if n == 0 then u == t else Size(u) < Size(t)
    decreases n
  {
    if n == 0 {
      u := t;
    } else {
      var x :| x in g[v] && ReachIn(g, x, w, n - 1);
      var k :| 0 <= k < |g[v]| && g[v][k] == x;
      assert Tops(t.kids)[k] == x;
      SizeOfKid(t.kids, k);
      u := SubtreeOnWalk(g, x, w, n - 1, t.kids[k]);
    }
  }

  lemma {:induction false} SizeOfKid<T>(ts: seq<Tree<T>>, k: nat)
    requires k < |ts|
    ensures Size(ts[k]) <= SizeAll(ts)
  {
    if k < |ts| - 1 {
      SizeOfKid(ts[..|ts| - 1], k);
    }
  }

  lemma {:induction false} UnfoldingIsUnique<T>(g: map<T, seq<T>>, v: T, t: Tree<T>, u: Tree<T>)
    requires Unfolds(g, v, t) && Unfolds(g, v, u)
    ensures t == u
    decreases t
  {
    if v in g {
      assert |t.kids| == |Tops(t.kids)| == |Tops(u.kids)| == |u.kids|;
      forall k | 0 <= k < |t.kids|
        ensures t.kids[k] == u.kids[k]
      {
        assert t.kids[k].data == Tops(t.kids)[k] == Tops(u.kids)[k] == u.kids[k].data;
        UnfoldingIsUnique(g, t.kids[k].data, t.kids[k], u.kids[k]);
      }
    }
  }

  /** The unfolding of a node from which no cycle is reached; `above` are the nodes it was
      reached through. */
  ghost function Unfold<T(!new)>(g: map<T, seq<T>>, v: T, above: set<T>): (t: Tree<T>)
    requires !ReachesCycle(g, v) && above <= g.Keys
    requires forall a :: a in above && v in g ==> exists w :: w in g[a] && Reach(g, w, v)
    ensures Unfolds(g, v, t)
    decreases g.Keys - above
  {
    if v !in g then Tree(v, [])
    else
      NotAbove(g, v, above);
      var kids := seq(|g[v]|, i requires 0 <= i < |g[v]| =>
        StepDown(g, v, g[v][i], above);
        Unfold(g, g[v][i], above + {v}));
      Tree(v, kids)
  }

  lemma NotAbove<T(!new)>(g: map<T, seq<T>>, v: T, above: set<T>)
    requires v in g && !ReachesCycle(g, v) && above <= g.Keys
    requires forall a :: a in above ==> exists w :: w in g[a] && Reach(g, w, v)
    ensures v !in above && g.Keys - (above + {v}) < g.Keys - above
  {
    ReachRefl(g, v);
    if v in above {
      assert OnCycle(g, v);
    }
    assert v in g.Keys - above && v !in g.Keys - (above + {v});
  }

  lemma StepDown<T(!new)>(g: map<T, seq<T>>, v: T, w: T, above: set<T>)
    requires v in g && w in g[v] && !ReachesCycle(g, v) && above <= g.Keys
    requires forall a :: a in above ==> exists x :: x in g[a] && Reach(g, x, v)
    ensures !ReachesCycle(g, w)
    ensures forall a :: a in above + {v} && w in g ==> exists x :: x in g[a] && Reach(g, x, w)
  {
    if ReachesCycle(g, w) {
      var c :| Reach(g, w, c) && OnCycle(g, c);
      ReachEnds(g, w, c);
      ReachEdge(g, v, w);
      ReachTrans(g, v, w, c);
    }
    if w in g {
      ReachRefl(g, w);
      ReachEdge(g, v, w);
      forall a | a in above
        ensures exists x :: x in g[a] && Reach(g, x, w)
      {
        var x :| x in g[a] && Reach(g, x, v);
        ReachTrans(g, x, v, w);
      }
    }
  }
}
