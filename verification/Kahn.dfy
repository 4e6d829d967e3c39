/**
 Kahn's topological sort, as run by `DependencyGraph._khan62`.  An edge A -> B says that
 A depends on B; the sort takes off nodes nobody waits for and reverses the order at the end.
 */
module Kahn {
  import opened Reachability
  import opened Sequences

  /** The heads of all edges whose tails are in `tails`, with multiplicity. */
  ghost function Heads<T>(g: map<T, seq<T>>, tails: seq<T>): multiset<T>
    requires forall u :: u in tails ==> u in g
  {
    if tails == [] then multiset{} else multiset(g[tails[0]]) + Heads(g, tails[1..])
  }

  lemma {:induction false} HeadsSplit<T>(g: map<T, seq<T>>, a: seq<T>, b: seq<T>)
    requires forall u :: u in a + b ==> u in g
    ensures forall u :: u in a || u in b ==> u in g
    ensures Heads(g, a + b) == Heads(g, a) + Heads(g, b)
  {
    assert forall u :: u in a || u in b ==> u in a + b;
    if a == [] {
      assert a + b == b;
    } else {
      assert (a + b)[1..] == a[1..] + b;
      assert forall u :: u in a[1..] + b ==> u in a + b;
      HeadsSplit(g, a[1..], b);
    }
  }

  lemma NoHeads<T>(g: map<T, seq<T>>, tails: seq<T>)
    ensures (forall u :: u in tails[..0] ==> u in g) && Heads(g, tails[..0]) == multiset{}
  {}

  /** One more tail brings the heads of its edges. */
  lemma MoreHeads<T>(g: map<T, seq<T>>, tails: seq<T>, i: nat)
    requires i < |tails| && tails[i] in g && forall u :: u in tails[..i] ==> u in g
    ensures forall u :: u in tails[..i + 1] ==> u in g
    ensures Heads(g, tails[..i + 1]) == Heads(g, tails[..i]) + multiset(g[tails[i]])
  {
    assert tails[..i + 1] == tails[..i] + [tails[i]];
    HeadsSplit(g, tails[..i], [tails[i]]);
    assert Heads(g, [tails[i]]) == multiset(g[tails[i]]) + Heads(g, []);
  }

  lemma OneHead<T>(before: multiset<T>, successors: seq<T>, j: nat)
    requires j < |successors|
    ensures var count, v := before + multiset(successors[..j]), successors[j];
            count[v := count[v] + 1] == before + multiset(successors[..j + 1])
  {
    assert successors[..j + 1] == successors[..j] + [successors[j]];
  }

  lemma {:induction false} HeadsHasTail<T>(g: map<T, seq<T>>, tails: seq<T>, v: T)
    requires forall u :: u in tails ==> u in g
    ensures v in Heads(g, tails) <==> exists u :: u in tails && v in g[u]
  {
    if tails == [] {
    } else {
      HeadsHasTail(g, tails[1..], v);
      assert tails == [tails[0]] + tails[1..];
    }
  }

  /** Nodes that lie on a cycle or can be reached from one. */
  ghost predicate BelowCycle<T(!new)>(g: map<T, seq<T>>, v: T) {
    exists c :: OnCycle(g, c) && Reach(g, c, v)
  }

  /** Every edge out of `u` within `s` leads to an earlier position. */
  ghost predicate DependenciesFirst<T(!new)>(g: map<T, seq<T>>, s: seq<T>) {
    forall i, j :: 0 <= i < |s| && 0 <= j < |s| && s[i] in g && s[j] in g[s[i]] ==> j < i
  }

  /** ... or to a later one. */
  ghost predicate DependantsFirst<T(!new)>(g: map<T, seq<T>>, s: seq<T>) {
    forall i, j :: 0 <= i < |s| && 0 <= j < |s| && s[i] in g && s[j] in g[s[i]] ==> i < j
  }

  /** What the sort promises on any closed graph. */
  ghost predicate Sorted<T(!new)>(g: map<T, seq<T>>, s: seq<T>) {
    && NoDup(s)
    && (forall v :: v in s <==> v in g && !BelowCycle(g, v))
    && DependenciesFirst(g, s)
  }

  // ---- The state of the sort ----

  /** Emitted so far, newest last; still to emit; and the count of edges into each node. */
  ghost predicate Counting<T(!new)>(
    g: map<T, seq<T>>, emitted: seq<T>, rest: seq<T>, ready: seq<T>, count: multiset<T>)
  {
    && Closed(g)
    && NoDup(emitted) && NoDup(rest) && NoDup(ready)
    && (forall v :: v in g <==> v in emitted || v in rest)
    && (forall v :: v in emitted ==> v !in rest)
    && (forall v :: v in ready <==> v in rest && v !in count)
    && (forall v :: v in emitted ==> v !in count)
    && DependantsFirst(g, emitted)
  }

  ghost predicate HasDependant<T>(g: map<T, seq<T>>, rest: set<T>, x: T) {
    exists u :: u in rest && u in g && x in g[u]
  }

  lemma Dependant<T>(g: map<T, seq<T>>, rest: set<T>, x: T) returns (u: T)
    requires HasDependant(g, rest, x)
    ensures u in rest && u in g && x in g[u]
  {
    u :| u in rest && u in g && x in g[u];
  }

  /** Following edges backwards within `rest` for ever must meet a node twice. */
  lemma {:induction false} TraceBack<T(!new)>(g: map<T, seq<T>>, rest: set<T>, seen: set<T>, v: T)
    requires rest <= g.Keys && seen <= rest && v in rest - seen
    requires forall x :: x in rest ==> HasDependant(g, rest, x)
    requires forall x :: x in seen ==> Reach(g, v, x)
    ensures BelowCycle(g, v)
    decreases rest - seen
  {
    hide HasDependant;
    var u := Dependant(g, rest, v);
    ReachRefl(g, v);
    ReachEdge(g, u, v);
    hide Reach;
    if u in seen || u == v {
      assert OnCycle(g, u);
    } else {
      forall x | x in seen + {v}
        ensures Reach(g, u, x)
      {
        if x != v {
          ReachTrans(g, u, v, x);
        }
      }
      TraceBack(g, rest, seen + {v}, u);
      var c :| OnCycle(g, c) && Reach(g, c, u);
      ReachTrans(g, c, u, v);
    }
  }

  lemma RemoveOne<T(!new)>(g: map<T, seq<T>>, rest: seq<T>, k: nat)
    requires k < |rest| && NoDup(rest) && forall u :: u in rest ==> u in g
    ensures var rest' := rest[..k] + rest[k + 1..];
            && NoDup(rest') && (forall v :: v in rest' <==> v in rest && v != rest[k])
            && Heads(g, rest) == Heads(g, rest') + multiset(g[rest[k]])
  {
    var a, b := rest[..k], rest[k + 1..];
    assert rest == a + ([rest[k]] + b);
    HeadsSplit(g, a, [rest[k]] + b);
    HeadsSplit(g, [rest[k]], b);
    assert Heads(g, [rest[k]]) == multiset(g[rest[k]]) + Heads(g, []);
    hide Heads;
    assert forall u :: u in a + b ==> u in rest;
    HeadsSplit(g, a, b);
    RemoveDistinct(rest, k);
  }

  lemma RemoveDistinct<T(!new)>(s: seq<T>, k: nat)
    requires k < |s| && NoDup(s)
    ensures var s' := s[..k] + s[k + 1..]; NoDup(s') && forall v :: v in s' <==> v in s && v != s[k]
  {
    var s' := s[..k] + s[k + 1..];
    forall v | v in s && v != s[k]
      ensures v in s'
    {
      var i :| 0 <= i < |s| && s[i] == v;
      assert s'[if i < k then i else i - 1] == v;
    }
  }

  /** Taking a ready node off: its own out-edges are still to be counted down. */
  lemma Emit<T(!new)>(g: map<T, seq<T>>, emitted: seq<T>, rest: seq<T>, ready: seq<T>, node: T)
    returns (rest': seq<T>)
    requires (forall u :: u in rest ==> u in g) && Counting(g, emitted, rest, ready + [node], Heads(g, rest))
    ensures (forall u :: u in rest' ==> u in g) && node in g
    ensures Heads(g, rest) == Heads(g, rest') + multiset(g[node])
    ensures Counting(g, emitted + [node], rest', ready, Heads(g, rest))
    ensures |rest'| < |rest|
  {
    assert (ready + [node])[|ready|] == node && node in ready + [node];
    var k :| 0 <= k < |rest| && rest[k] == node;
    rest' := rest[..k] + rest[k + 1..];
    RemoveOne(g, rest, k);
    forall v | v in emitted + [node]
      ensures v !in g[node]
    {
      HeadsHasTail(g, rest, v);
    }
    forall v
      ensures v in ready <==> v in rest' && v !in Heads(g, rest)
    {
      assert v in ready + [node] <==> v in ready || v == node;
      assert v in ready ==> v != node by {
        if v in ready {
          var i :| 0 <= i < |ready| && ready[i] == v;
          assert (ready + [node])[i] == v;
        }
      }
    }
    assert NoDup(ready) by {
      assert forall i :: 0 <= i < |ready| ==> ready[i] == (ready + [node])[i];
    }
  }

  lemma CountDown<T(!new)>(
    g: map<T, seq<T>>, emitted: seq<T>, rest: seq<T>, ready: seq<T>, count: multiset<T>, w: T)
    requires Counting(g, emitted, rest, ready, count) && w in count && w in g
    ensures var count' := count - multiset{w};
            Counting(g, emitted, rest, if w in count' then ready else ready + [w], count')
  {}

  lemma {:induction false} EmittedAncestors<T(!new)>(
    g: map<T, seq<T>>, emitted: seq<T>, u: T, j: nat, n: nat) returns (i: nat)
    requires forall x, y :: x in g && y in g[x] && y in emitted ==> x in emitted
    requires DependantsFirst(g, emitted)
    requires j < |emitted| && ReachIn(g, u, emitted[j], n)
    ensures i <= j && emitted[i] == u
    ensures n > 0 ==> i < j
  {
    if n == 0 {
      i := j;
    } else {
      var x :| x in g[u] && ReachIn(g, x, emitted[j], n - 1);
      var k := EmittedAncestors(g, emitted, x, j, n - 1);
      assert emitted[k] in emitted;
      i :| 0 <= i < |emitted| && emitted[i] == u;
    }
  }

  lemma EmittedNotBelowCycle<T(!new)>(g: map<T, seq<T>>, emitted: seq<T>, v: T)
    requires NoDup(emitted) && v in emitted
    requires forall x, y :: x in g && y in g[x] && y in emitted ==> x in emitted
    requires DependantsFirst(g, emitted)
    ensures !BelowCycle(g, v)
  {
    forall c | OnCycle(g, c) && Reach(g, c, v)
      ensures false
    {
      var j :| 0 <= j < |emitted| && emitted[j] == v;
      var n: nat :| ReachIn(g, c, v, n);
      var i := EmittedAncestors(g, emitted, c, j, n);
      var w :| w in g[c] && Reach(g, w, c);
      var m: nat :| ReachIn(g, w, c, m);
      assert ReachIn(g, c, c, m + 1);
      var k := EmittedAncestors(g, emitted, c, i, m + 1);
    }
  }

  lemma EmittedIsAllButBelowCycles<T(!new)>(g: map<T, seq<T>>, emitted: seq<T>, rest: seq<T>)
    requires (forall u :: u in rest ==> u in g) && Counting(g, emitted, rest, [], Heads(g, rest))
    ensures forall v :: v in g ==> (v in emitted <==> !BelowCycle(g, v))
  {
    var left := set u | u in rest;
    forall x, y | x in g && y in g[x] && y in emitted
      ensures x in emitted
    {
      HeadsHasTail(g, rest, y);
    }
    forall x | x in left
      ensures HasDependant(g, left, x)
    {
      HeadsHasTail(g, rest, x);
    }
    hide HasDependant;
    hide BelowCycle;
    forall v | v in g
      ensures v in emitted <==> !BelowCycle(g, v)
    {
      if v in emitted {
        EmittedNotBelowCycle(g, emitted, v);
      } else {
        TraceBack(g, left, {}, v);
      }
    }
  }

  lemma Done<T(!new)>(g: map<T, seq<T>>, emitted: seq<T>, rest: seq<T>, reversed: seq<T>)
    requires (forall u :: u in rest ==> u in g) && Counting(g, emitted, rest, [], Heads(g, rest))
    requires |reversed| == |emitted| && forall i :: 0 <= i < |emitted| ==> reversed[i] == emitted[|emitted| - 1 - i]
    ensures Sorted(g, reversed)
  {
    EmittedIsAllButBelowCycles(g, emitted, rest);
    hide BelowCycle;
    hide Heads;
    forall v
      ensures v in reversed <==> v in emitted
    {
      if v in emitted {
        var i :| 0 <= i < |emitted| && emitted[i] == v;
        assert reversed[|emitted| - 1 - i] == v;
      }
    }
  }
}
