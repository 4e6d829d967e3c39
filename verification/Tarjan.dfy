/**
 The invariant of Tarjan's search for strongly connected components, as run by
 `DependencyGraph._tarjan72`, and the proof that each move of the search keeps it.

 `low`, `stack` and `result` are the closure variables of `visit`; `low` is the map keyed
 by node that every use in the source takes it for.  Two ghost parts complete the state:
 `num`, the order of first visits, and `gray`, the nodes whose `visit` is still active.
 */
module Tarjan {
  import opened Reachability
  import opened Sequences

  datatype Search<T> = Search(
    low: map<T, nat>, stack: seq<T>, result: seq<seq<T>>, num: map<T, nat>, gray: set<T>)

  ghost predicate InComponent<T(!new)>(result: seq<seq<T>>, v: T) {
    exists i :: 0 <= i < |result| && v in result[i]
  }

  /** Pairwise disjoint duplicate-free components, each a whole class of mutual reachability. */
  ghost predicate Classes<T(!new)>(g: map<T, seq<T>>, result: seq<seq<T>>) {
    && (forall i :: 0 <= i < |result| ==> result[i] != [] && NoDup(result[i]))
    && (forall i, j, v :: 0 <= i < |result| && 0 <= j < |result| && v in result[i] && v in result[j] ==> i == j)
    && (forall i, u, v :: 0 <= i < |result| && u in result[i] ==> (v in result[i] <==> MutuallyReachable(g, u, v)))
  }

  /** No edge leaves a component for a later one. */
  ghost predicate EdgesGoBack<T(!new)>(g: map<T, seq<T>>, result: seq<seq<T>>) {
    forall i, u, v :: 0 <= i < |result| && u in result[i] && u in g && v in g[u] ==>
      exists j :: 0 <= j <= i && v in result[j]
  }

  /** What the algorithm promises: the partition of the nodes into strongly connected
      components, each component after every other component it can reach. */
  ghost predicate Components<T(!new)>(g: map<T, seq<T>>, result: seq<seq<T>>) {
    && (forall v :: v in g <==> InComponent(result, v))
    && Classes(g, result)
    && (forall i, j, u, v :: 0 <= i < |result| && 0 <= j < |result| && u in result[i] && v in result[j] ==>
          Reach(g, u, v) ==> j <= i)
  }

  // ---- The invariant of the search ----

  ghost predicate Numbered<T(!new)>(g: map<T, seq<T>>, num: map<T, nat>) {
    && num.Keys <= g.Keys
    && (forall v :: v in num ==> num[v] < |num|)
    && (forall u, v :: u in num && v in num && num[u] == num[v] ==> u == v)
  }

  /** The visited nodes are the stack and, apart from it, the emitted components. */
  ghost predicate Split<T(!new)>(visited: set<T>, stack: seq<T>, result: seq<seq<T>>, gray: set<T>) {
    && (forall v :: v in visited <==> v in stack || InComponent(result, v))
    && (forall v :: v in stack ==> !InComponent(result, v))
    && (forall v :: v in gray ==> v in stack)
  }

  ghost predicate Ordered<T(!new)>(stack: seq<T>, num: map<T, nat>) {
    && (forall i :: 0 <= i < |stack| ==> stack[i] in num)
    && (forall i, j :: 0 <= i < j < |stack| && stack[i] in num && stack[j] in num ==> num[stack[i]] < num[stack[j]])
  }

  /** `u` is a stack node with number `n` that `v` reaches. */
  ghost predicate Target<T(!new)>(g: map<T, seq<T>>, stack: seq<T>, num: map<T, nat>, v: T, u: T, n: nat) {
    u in stack && u in num && num[u] == n && Reach(g, v, u)
  }

  ghost predicate HasTarget<T(!new)>(g: map<T, seq<T>>, stack: seq<T>, num: map<T, nat>, v: T, n: nat) {
    exists u :: Target(g, stack, num, v, u, n)
  }

  ghost predicate LowLinks<T(!new)>(
    g: map<T, seq<T>>, low: map<T, nat>, stack: seq<T>, num: map<T, nat>, gray: set<T>)
  {
    && (forall v :: v in stack && v in low && v in num ==> low[v] <= num[v])
    && (forall v :: v in stack && v in low && v in num && v !in gray ==> low[v] < num[v])
    && (forall v :: v in stack && v in low ==> HasTarget(g, stack, num, v, low[v]))
    && (forall v :: v in low && v !in stack ==> low[v] == |g|)
  }

  lemma TargetMonotone<T(!new)>(g: map<T, seq<T>>, stack: seq<T>, num: map<T, nat>,
                                stack': seq<T>, num': map<T, nat>, v: T, n: nat)
    requires HasTarget(g, stack, num, v, n)
    requires forall u :: u in stack && u in num && num[u] == n ==> u in stack' && u in num' && num'[u] == n
    ensures HasTarget(g, stack', num', v, n)
  {
    hide Reach;
    var u :| Target(g, stack, num, v, u, n);
    assert Target(g, stack', num', v, u, n);
  }

  ghost predicate GrayReaches<T(!new)>(g: map<T, seq<T>>, stack: seq<T>, num: map<T, nat>, gray: set<T>) {
    forall u, v :: u in gray && v in stack && u in num && v in num && num[u] <= num[v] ==> Reach(g, u, v)
  }

  ghost predicate BlackClosed<T(!new)>(g: map<T, seq<T>>, visited: set<T>, gray: set<T>) {
    forall v, w :: v in visited && v in g && v !in gray && w in g[v] ==> w in visited
  }

  ghost predicate Inv<T(!new)>(g: map<T, seq<T>>, s: Search<T>) {
    && Closed(g)
    && s.low.Keys == s.num.Keys
    && Numbered(g, s.num)
    && Split(s.low.Keys, s.stack, s.result, s.gray)
    && Ordered(s.stack, s.num)
    && LowLinks(g, s.low, s.stack, s.num, s.gray)
    && GrayReaches(g, s.stack, s.num, s.gray)
    && BlackClosed(g, s.low.Keys, s.gray)
    && Classes(g, s.result)
    && EdgesGoBack(g, s.result)
  }

  /** `m` is no more than the number of any stack node below `base` that `v` has an edge to. */
  ghost predicate Seen<T(!new)>(g: map<T, seq<T>>, stack: seq<T>, num: map<T, nat>, v: T, base: nat, m: nat)
    requires v in g
  {
    forall w :: w in g[v] && w in stack && w in num && num[w] < base ==> m <= num[w]
  }

  /** ... for every stack node `v` numbered `base` or more, `node` itself excepted. */
  ghost predicate SeenAbove<T(!new)>(
    g: map<T, seq<T>>, stack: seq<T>, num: map<T, nat>, node: T, base: nat, m: nat)
  {
    forall v :: v in stack && v in num && base <= num[v] && v != node && v in g ==> Seen(g, stack, num, v, base, m)
  }

  ghost predicate Extends<T(!new)>(s0: Search<T>, s1: Search<T>) {
    && s0.gray <= s1.gray
    && s0.stack <= s1.stack
    && s0.result <= s1.result
    && |s0.num| <= |s1.num|
    && (forall v :: v in s0.low ==> v in s1.low && s1.low[v] == s0.low[v])
    && (forall v :: v in s0.num ==> v in s1.num && s1.num[v] == s0.num[v])
    && (forall v :: v in s1.num && v !in s0.num ==> |s0.num| <= s1.num[v])
  }

  /** What a call of `visit` on `node` does to the search. */
  ghost predicate Visited<T(!new)>(g: map<T, seq<T>>, s0: Search<T>, s1: Search<T>, node: T) {
    && Extends(s0, s1)
    && s1.gray == s0.gray
    && node in g && node in s1.low
    && SeenAbove(g, s1.stack, s1.num, node, |s0.num|, s1.low[node])
    && (node !in s0.low ==> Seen(g, s1.stack, s1.num, node, |s0.num|, s1.low[node]))
  }

  // ---- First visit of a node ----

  ghost function Push<T>(s: Search<T>, node: T): Search<T> {
    Search(s.low[node := |s.low|], s.stack + [node], s.result, s.num[node := |s.low|], s.gray + {node})
  }

  lemma PushKeepsOrder<T(!new)>(g: map<T, seq<T>>, s: Search<T>, node: T)
    requires s.low.Keys == s.num.Keys && Numbered(g, s.num) && Ordered(s.stack, s.num)
    requires node in g && node !in s.low
    ensures var t := Push(s, node); t.low.Keys == t.num.Keys && Numbered(g, t.num) && Ordered(t.stack, t.num)
  {
    var t := Push(s, node);
    assert |s.low| == |s.low.Keys| == |s.num.Keys| == |s.num|;
    assert |t.num| == |s.num| + 1;
  }

  lemma PushKeepsSplit<T(!new)>(s: Search<T>, node: T)
    requires Split(s.low.Keys, s.stack, s.result, s.gray) && node !in s.low
    ensures var t := Push(s, node); Split(t.low.Keys, t.stack, t.result, t.gray)
  {
    hide InComponent;
  }

  lemma PushKeepsGray<T(!new)>(g: map<T, seq<T>>, s: Search<T>, node: T)
    requires s.low.Keys == s.num.Keys && Numbered(g, s.num) && Ordered(s.stack, s.num)
    requires (forall v :: v in s.gray ==> v in s.stack) && GrayReaches(g, s.stack, s.num, s.gray)
    requires node in g && node !in s.low
    requires forall u :: u in s.gray ==> Reach(g, u, node)
    ensures var t := Push(s, node); GrayReaches(g, t.stack, t.num, t.gray)
  {
    assert |s.low| == |s.low.Keys| == |s.num.Keys| == |s.num|;
    ReachRefl(g, node);
    hide Reach;
  }

  lemma PushKeepsLinks<T(!new)>(g: map<T, seq<T>>, s: Search<T>, node: T)
    requires s.low.Keys == s.num.Keys && LowLinks(g, s.low, s.stack, s.num, s.gray)
    requires node in g && node !in s.low
    ensures var t := Push(s, node); LowLinks(g, t.low, t.stack, t.num, t.gray)
  {
    var t := Push(s, node);
    ReachRefl(g, node);
    assert node in t.stack;
    assert Target(g, t.stack, t.num, node, node, t.low[node]);
    hide Reach;
    hide HasTarget;
    assert HasTarget(g, t.stack, t.num, node, t.low[node]);
    forall v | v in s.stack && v in s.low
      ensures HasTarget(g, t.stack, t.num, v, t.low[v])
    {
      TargetMonotone(g, s.stack, s.num, t.stack, t.num, v, s.low[v]);
    }
  }

  lemma PushKeepsInv<T(!new)>(g: map<T, seq<T>>, s: Search<T>, node: T)
    requires Inv(g, s) && node in g && node !in s.low
    requires forall u :: u in s.gray ==> Reach(g, u, node)
    ensures Inv(g, Push(s, node))
  {
    assert forall v :: v in s.gray ==> v in s.stack;
    hide Closed;
    hide Reach;
    hide Numbered;
    hide Split;
    hide Ordered;
    hide LowLinks;
    hide GrayReaches;
    hide Classes;
    hide EdgesGoBack;
    PushKeepsOrder(g, s, node);
    PushKeepsSplit(s, node);
    PushKeepsGray(g, s, node);
    PushKeepsLinks(g, s, node);
  }

  // ---- low[node] = min(low[node], low[successor]) ----

  ghost function Relax<T>(s: Search<T>, node: T, w: T): Search<T>
    requires node in s.low && w in s.low
  {
    s.(low := s.low[node := if s.low[w] < s.low[node] then s.low[w] else s.low[node]])
  }

  lemma CardinalityOfSubset<T>(a: set<T>, b: set<T>)
    requires a <= b
    ensures |a| <= |b|
  {
    assert b == a + (b - a);
  }

  lemma LowIsBounded<T(!new)>(g: map<T, seq<T>>, s: Search<T>, v: T)
    requires s.low.Keys == s.num.Keys && Numbered(g, s.num) && LowLinks(g, s.low, s.stack, s.num, s.gray)
    requires v in s.low
    ensures |s.num| <= |g|
    ensures if v in s.stack then s.low[v] <= s.num[v] < |g| else s.low[v] == |g|
  {
    CardinalityOfSubset(s.num.Keys, g.Keys);
    assert |s.num| == |s.num.Keys| && |g| == |g.Keys|;
  }

  lemma RelaxKeepsLinks<T(!new)>(g: map<T, seq<T>>, s: Search<T>, node: T, w: T)
    requires s.low.Keys == s.num.Keys && LowLinks(g, s.low, s.stack, s.num, s.gray)
    requires node in s.gray && node in s.stack && node in s.low
    requires node in g && w in g[node] && w in s.low && w in g
    requires s.low[node] <= |g|
    ensures LowLinks(g, Relax(s, node, w).low, s.stack, s.num, s.gray)
  {
    hide Reach;
    hide HasTarget;
    if s.low[w] < s.low[node] {
      assert w in s.stack;
      TargetOfSuccessor(g, s.stack, s.num, node, w, s.low[w]);
    }
  }

  lemma TargetOfSuccessor<T(!new)>(g: map<T, seq<T>>, stack: seq<T>, num: map<T, nat>, v: T, w: T, n: nat)
    requires v in g && w in g && w in g[v] && HasTarget(g, stack, num, w, n)
    ensures HasTarget(g, stack, num, v, n)
  {
    var u :| Target(g, stack, num, w, u, n);
    ReachEdge(g, v, w);
    ReachTrans(g, v, w, u);
    assert Target(g, stack, num, v, u, n);
  }

  lemma RelaxKeepsInv<T(!new)>(g: map<T, seq<T>>, s: Search<T>, node: T, w: T)
    requires Inv(g, s) && node in s.gray && node in g && w in g[node] && w in s.low
    ensures node in s.low && Inv(g, Relax(s, node, w))
  {
    hide Closed;
    hide Reach;
    hide Ordered;
    hide LowLinks;
    hide GrayReaches;
    hide BlackClosed;
    hide Classes;
    hide EdgesGoBack;
    assert node in s.stack && node in s.low && w in g;
    LowIsBounded(g, s, node);
    RelaxKeepsLinks(g, s, node, w);
    assert Relax(s, node, w).low.Keys == s.low.Keys;
  }

  // ---- A finished node that is not the root of a component ----

  ghost function Blacken<T>(s: Search<T>, node: T): Search<T> {
    s.(gray := s.gray - {node})
  }

  lemma BlackenKeepsInv<T(!new)>(g: map<T, seq<T>>, s: Search<T>, node: T)
    requires Inv(g, s) && node in s.gray && node in s.low && node in s.num && s.low[node] != s.num[node]
    requires node in g && forall w :: w in g[node] ==> w in s.low
    ensures Inv(g, Blacken(s, node))
  {
    hide Closed;
    hide Reach;
    hide Numbered;
    hide Ordered;
    hide Target;
    hide Classes;
    hide EdgesGoBack;
  }

  // ---- A finished node that is the root of the component on top of the stack ----

  ghost function Pop<T>(g: map<T, seq<T>>, s: Search<T>, node: T, pos: nat): Search<T>
    requires pos <= |s.stack|
  {
    Search(map v | v in s.low :: if v in s.stack[pos..] then |g| else s.low[v],
           s.stack[..pos], s.result + [s.stack[pos..]], s.num, s.gray - {node})
  }

  ghost predicate Root<T(!new)>(g: map<T, seq<T>>, s: Search<T>, node: T, pos: nat) {
    && pos < |s.stack| && s.stack[pos] == node
    && node in g && node in s.gray && node in s.low && node in s.num && s.low[node] == s.num[node]
    && (forall u :: u in s.gray && u in s.num && u != node ==> s.num[u] < s.num[node])
    && (forall w :: w in g[node] ==> w in s.low)
    && SeenAbove(g, s.stack, s.num, node, s.num[node], s.num[node])
    && Seen(g, s.stack, s.num, node, s.num[node], s.num[node])
  }

  lemma AboveRoot<T(!new)>(stack: seq<T>, num: map<T, nat>, node: T, pos: nat, v: T)
    requires Ordered(stack, num)
    requires pos < |stack| && stack[pos] == node && v in stack
    ensures v in num && node in num
    ensures v in stack[pos..] <==> num[node] <= num[v]
    ensures v in stack[..pos] <==> num[v] < num[node]
  {
    var i :| 0 <= i < |stack| && stack[i] == v;
    if i < pos {
      assert stack[..pos][i] == v;
    } else {
      assert stack[pos..][i - pos] == v;
    }
    assert forall j :: 0 <= j < pos ==> num[stack[j]] < num[stack[pos]];
    assert forall j :: pos < j < |stack| ==> num[stack[pos]] < num[stack[j]];
    assert forall x :: x in stack[..pos] ==> num[x] < num[node];
    assert forall x :: x in stack[pos..] ==> num[node] <= num[x];
  }

  lemma TopIsClosed<T(!new)>(g: map<T, seq<T>>, s: Search<T>, node: T, pos: nat, v: T, w: T)
    requires s.low.Keys == s.num.Keys && Ordered(s.stack, s.num) && Root(g, s, node, pos)
    requires Split(s.low.Keys, s.stack, s.result, s.gray) && BlackClosed(g, s.low.Keys, s.gray)
    requires v in s.stack[pos..] && v in g && w in g[v]
    ensures w in s.stack[pos..] || InComponent(s.result, w)
  {
    hide InComponent;
    assert v in s.stack;
    AboveRoot(s.stack, s.num, node, pos, v);
    assert v == node || v !in s.gray;
    assert v in s.low;
    assert w in s.low;
    if w in s.stack {
      AboveRoot(s.stack, s.num, node, pos, w);
      assert Seen(g, s.stack, s.num, v, s.num[node], s.num[node]);
    }
  }

  lemma EmittedIsClosed<T(!new)>(g: map<T, seq<T>>, result: seq<seq<T>>, v: T, w: T)
    requires EdgesGoBack(g, result)
    requires InComponent(result, v) && v in g && w in g[v]
    ensures InComponent(result, w)
  {
    var i :| 0 <= i < |result| && v in result[i];
    var j :| 0 <= j <= i && w in result[j];
  }

  lemma TopOrEmittedIsClosed<T(!new)>(g: map<T, seq<T>>, s: Search<T>, node: T, pos: nat, v: T, w: T)
    requires Inv(g, s) && Root(g, s, node, pos)
    requires v in s.stack[pos..] || InComponent(s.result, v)
    requires v in g && w in g[v]
    ensures w in g
    ensures w in s.stack[pos..] || InComponent(s.result, w)
  {
    if v in s.stack[pos..] {
      TopIsClosed(g, s, node, pos, v, w);
    } else {
      EmittedIsClosed(g, s.result, v, w);
    }
  }

  lemma ReachFromTop<T(!new)>(g: map<T, seq<T>>, s: Search<T>, node: T, pos: nat, v: T, w: T)
    requires Inv(g, s) && Root(g, s, node, pos)
    requires v in s.stack[pos..] && Reach(g, v, w)
    ensures w in s.stack[pos..] || InComponent(s.result, w)
  {
    hide Inv;
    hide Root;
    ReachEnds(g, v, w);
    var S := set x | x in g && (x in s.stack[pos..] || InComponent(s.result, x));
    forall x, y | x in S && x in g && y in g[x]
      ensures y in S
    {
      TopOrEmittedIsClosed(g, s, node, pos, x, y);
    }
    ClosedSetKeepsReach(g, S, v, w);
  }

  lemma RootReachesTop<T(!new)>(g: map<T, seq<T>>, s: Search<T>, node: T, pos: nat, v: T)
    requires Inv(g, s) && Root(g, s, node, pos) && v in s.stack[pos..]
    ensures Reach(g, node, v)
  {
    assert v in s.stack;
    AboveRoot(s.stack, s.num, node, pos, v);
  }

  /** A node above the root is black, so its low link leads strictly down the stack. */
  lemma StepDown<T(!new)>(g: map<T, seq<T>>, s: Search<T>, node: T, pos: nat, v: T) returns (u: T)
    requires Inv(g, s) && Root(g, s, node, pos)
    requires v in s.stack[pos..] && v != node
    ensures u in s.stack[pos..] && Reach(g, v, u)
    ensures u in s.num && v in s.num && s.num[u] < s.num[v]
  {
    assert v in s.stack;
    AboveRoot(s.stack, s.num, node, pos, v);
    assert v !in s.gray && v in s.low;
    u :| Target(g, s.stack, s.num, v, u, s.low[v]);
    ReachFromTop(g, s, node, pos, v, u);
  }

  lemma {:induction false} TopReachesRoot<T(!new)>(g: map<T, seq<T>>, s: Search<T>, node: T, pos: nat, v: T)
    requires Inv(g, s) && Root(g, s, node, pos)
    requires v in s.stack[pos..]
    ensures Reach(g, v, node)
    decreases if v in s.num then s.num[v] else 0
  {
    if v == node {
      assert node in g;
      ReachRefl(g, node);
    } else {
      hide Inv;
      hide Root;
      var u := StepDown(g, s, node, pos, v);
      TopReachesRoot(g, s, node, pos, u);
      ReachTrans(g, v, u, node);
    }
  }

  lemma EmittedKeepsReach<T(!new)>(g: map<T, seq<T>>, result: seq<seq<T>>, u: T, v: T)
    requires Closed(g) && EdgesGoBack(g, result)
    requires InComponent(result, u) && Reach(g, u, v)
    ensures InComponent(result, v)
  {
    ReachEnds(g, u, v);
    var S := set x | x in g && InComponent(result, x);
    forall x, y | x in S && x in g && y in g[x]
      ensures y in S
    {
      EmittedIsClosed(g, result, x, y);
    }
    ClosedSetKeepsReach(g, S, u, v);
  }

  lemma TopIsAComponent<T(!new)>(g: map<T, seq<T>>, s: Search<T>, node: T, pos: nat, u: T, v: T)
    requires Inv(g, s) && Root(g, s, node, pos)
    requires u in s.stack[pos..]
    ensures v in s.stack[pos..] <==> MutuallyReachable(g, u, v)
  {
    assert u in s.stack && !InComponent(s.result, u);
    assert Closed(g) && EdgesGoBack(g, s.result);
    hide Inv;
    hide Root;
    RootReachesTop(g, s, node, pos, u);
    TopReachesRoot(g, s, node, pos, u);
    if v in s.stack[pos..] {
      RootReachesTop(g, s, node, pos, v);
      TopReachesRoot(g, s, node, pos, v);
      ReachTrans(g, u, node, v);
      ReachTrans(g, v, node, u);
    }
    if MutuallyReachable(g, u, v) {
      ReachFromTop(g, s, node, pos, u, v);
      if InComponent(s.result, v) {
        EmittedKeepsReach(g, s.result, v, u);
      }
    }
  }

  lemma InComponentAppend<T(!new)>(result: seq<seq<T>>, c: seq<T>, v: T)
    ensures InComponent(result + [c], v) <==> InComponent(result, v) || v in c
  {
    var r := result + [c];
    if InComponent(result, v) {
      var i :| 0 <= i < |result| && v in result[i];
      assert v in r[i];
    }
    if v in c {
      assert v in r[|result|];
    }
  }

  lemma ClassesAppend<T(!new)>(g: map<T, seq<T>>, result: seq<seq<T>>, c: seq<T>)
    requires Classes(g, result) && c != [] && NoDup(c)
    requires forall v :: v in c ==> !InComponent(result, v)
    requires forall u, v :: u in c ==> (v in c <==> MutuallyReachable(g, u, v))
    ensures Classes(g, result + [c])
  {
    hide MutuallyReachable;
    var r := result + [c];
    forall i, j, v | 0 <= i < |r| && 0 <= j < |r| && v in r[i] && v in r[j]
      ensures i == j
    {
      if i < |result| || j < |result| {
        assert InComponent(result, v);
      }
    }
  }

  lemma EdgesGoBackAppend<T(!new)>(g: map<T, seq<T>>, result: seq<seq<T>>, c: seq<T>)
    requires EdgesGoBack(g, result)
    requires forall u, v :: u in c && u in g && v in g[u] ==> v in c || InComponent(result, v)
    ensures EdgesGoBack(g, result + [c])
  {
    var r := result + [c];
    forall i, u, v | 0 <= i < |r| && u in r[i] && u in g && v in g[u]
      ensures exists j :: 0 <= j <= i && v in r[j]
    {
      if i < |result| {
        var j :| 0 <= j <= i && v in result[j];
        assert v in r[j];
      } else if v in c {
        assert v in r[i];
      } else {
        var j :| 0 <= j < |result| && v in result[j];
        assert v in r[j];
      }
    }
  }

  lemma TopIsFresh<T(!new)>(g: map<T, seq<T>>, s: Search<T>, node: T, pos: nat)
    requires Inv(g, s) && Root(g, s, node, pos)
    ensures s.stack[pos..] != [] && NoDup(s.stack[pos..])
    ensures forall v :: v in s.stack[pos..] ==> !InComponent(s.result, v)
    ensures Classes(g, s.result) && EdgesGoBack(g, s.result)
  {
    hide InComponent;
    hide LowLinks;
    hide GrayReaches;
    hide BlackClosed;
    hide Classes;
    hide EdgesGoBack;
    hide Closed;
    hide Numbered;
    hide SeenAbove;
    hide Seen;
    var c := s.stack[pos..];
    assert NoDup(c) && c != [] by {
      assert forall i, j :: pos <= i < j < |s.stack| ==> s.num[s.stack[i]] < s.num[s.stack[j]];
    }
    hide Ordered;
    assert forall v :: v in c ==> v in s.stack;
  }

  lemma PopKeepsClasses<T(!new)>(g: map<T, seq<T>>, s: Search<T>, node: T, pos: nat)
    requires Inv(g, s) && Root(g, s, node, pos)
    ensures Classes(g, s.result + [s.stack[pos..]])
    ensures EdgesGoBack(g, s.result + [s.stack[pos..]])
  {
    TopIsFresh(g, s, node, pos);
    var c := s.stack[pos..];
    hide Inv;
    hide Root;
    hide NoDup;
    hide InComponent;
    hide MutuallyReachable;
    hide Classes;
    hide EdgesGoBack;
    forall u, v | u in c
      ensures v in c <==> MutuallyReachable(g, u, v)
    {
      TopIsAComponent(g, s, node, pos, u, v);
    }
    ClassesAppend(g, s.result, c);
    forall u, v | u in c && u in g && v in g[u]
      ensures v in c || InComponent(s.result, v)
    {
      TopOrEmittedIsClosed(g, s, node, pos, u, v);
    }
    EdgesGoBackAppend(g, s.result, c);
  }

  /** The top of the stack is exactly what is numbered from the root on. */
  lemma StackSplits<T(!new)>(stack: seq<T>, num: map<T, nat>, node: T, pos: nat)
    requires Ordered(stack, num) && pos < |stack| && stack[pos] == node
    ensures Ordered(stack[..pos], num)
    ensures node in num
    ensures forall v :: v in stack ==> v in num
    ensures forall v :: v in stack[pos..] <==> v in stack && num[node] <= num[v]
    ensures forall v :: v in stack[..pos] <==> v in stack && num[v] < num[node]
  {
    forall v | v in stack
      ensures v in num && node in num
      ensures v in stack[pos..] <==> num[node] <= num[v]
      ensures v in stack[..pos] <==> num[v] < num[node]
    {
      AboveRoot(stack, num, node, pos, v);
    }
    assert stack == stack[..pos] + stack[pos..];
  }

  lemma PopKeepsSplit<T(!new)>(g: map<T, seq<T>>, s: Search<T>, node: T, pos: nat)
    requires Ordered(s.stack, s.num) && pos < |s.stack| && s.stack[pos] == node
    requires forall u :: u in s.gray && u in s.num && u != node ==> s.num[u] < s.num[node]
    requires Split(s.low.Keys, s.stack, s.result, s.gray)
    ensures var t := Pop(g, s, node, pos); Split(s.low.Keys, t.stack, t.result, t.gray)
  {
    var t := Pop(g, s, node, pos);
    StackSplits(s.stack, s.num, node, pos);
    forall v
      ensures InComponent(t.result, v) <==> InComponent(s.result, v) || v in s.stack[pos..]
    {
      InComponentAppend(s.result, s.stack[pos..], v);
    }
    hide InComponent;
    hide Ordered;
  }

  lemma PopKeepsLinks<T(!new)>(g: map<T, seq<T>>, s: Search<T>, node: T, pos: nat)
    requires s.low.Keys == s.num.Keys && Ordered(s.stack, s.num) && Root(g, s, node, pos)
    requires LowLinks(g, s.low, s.stack, s.num, s.gray)
    ensures var t := Pop(g, s, node, pos); LowLinks(g, t.low, t.stack, t.num, t.gray)
  {
    hide Reach;
    hide HasTarget;
    var t := Pop(g, s, node, pos);
    StackSplits(s.stack, s.num, node, pos);
    hide Ordered;
    forall v | v in t.stack && v in t.low
      ensures HasTarget(g, t.stack, t.num, v, t.low[v])
    {
      assert v in s.stack && s.low[v] <= s.num[v];
      TargetMonotone(g, s.stack, s.num, t.stack, t.num, v, s.low[v]);
    }
  }

  lemma PopKeepsInv<T(!new)>(g: map<T, seq<T>>, s: Search<T>, node: T, pos: nat)
    requires Inv(g, s) && Root(g, s, node, pos)
    ensures Inv(g, Pop(g, s, node, pos))
  {
    hide Closed;
    hide Reach;
    hide Numbered;
    hide Ordered;
    hide Split;
    hide LowLinks;
    hide Classes;
    hide EdgesGoBack;
    var t := Pop(g, s, node, pos);
    PopKeepsClasses(g, s, node, pos);
    PopKeepsSplit(g, s, node, pos);
    StackSplits(s.stack, s.num, node, pos);
    PopKeepsLinks(g, s, node, pos);
    assert t.low.Keys == s.low.Keys;
    assert s.stack == t.stack + s.stack[pos..];
  }

  // ---- One call of visit, from the push to the return ----

  /** The call of `visit` on `node` that began in `s0` has gone through its first `i` successors. */
  ghost predicate Scanning<T(!new)>(g: map<T, seq<T>>, s0: Search<T>, s: Search<T>, node: T, i: nat) {
    && node in g && i <= |g[node]| && node !in s0.low
    && Extends(s0, s)
    && s.gray == s0.gray + {node}
    && s0.stack + [node] <= s.stack
    && node in s.low && node in s.num && s.num[node] == |s0.num|
    && SeenAbove(g, s.stack, s.num, node, |s0.num|, s.low[node])
    && (forall k :: 0 <= k < i ==> g[node][k] in s.low)
    && (forall k :: 0 <= k < i ==> SeenEdge(s.stack, s.num, g[node][k], |s0.num|, s.low[node]))
  }

  ghost predicate SeenEdge<T>(stack: seq<T>, num: map<T, nat>, w: T, base: nat, m: nat) {
    w in stack && w in num && num[w] < base ==> m <= num[w]
  }

  lemma AlreadyVisited<T(!new)>(g: map<T, seq<T>>, s: Search<T>, node: T)
    requires Inv(g, s) && node in g && node in s.low
    ensures Visited(g, s, s, node)
  {
    hide Closed;
    hide Split;
    hide Ordered;
    hide LowLinks;
    hide GrayReaches;
    hide BlackClosed;
    hide Classes;
    hide EdgesGoBack;
  }

  lemma StartScan<T(!new)>(g: map<T, seq<T>>, s: Search<T>, node: T)
    requires Inv(g, s) && node in g && node !in s.low
    ensures Scanning(g, s, Push(s, node), node, 0)
  {
    hide Closed;
    hide LowLinks;
    hide GrayReaches;
    hide BlackClosed;
    hide Classes;
    hide EdgesGoBack;
    hide Ordered;
    var t := Push(s, node);
    assert |s.low| == |s.low.Keys| == |s.num.Keys| == |s.num|;
    assert |t.num| == |s.num| + 1;
  }

  lemma StillOnStack<T(!new)>(g: map<T, seq<T>>, s: Search<T>, s': Search<T>, v: T)
    requires Inv(g, s) && Inv(g, s') && Extends(s, s') && v in s'.stack && v in s.num
    ensures v in s.stack
  {
    hide Closed;
    hide LowLinks;
    hide GrayReaches;
    hide BlackClosed;
    hide Classes;
    hide EdgesGoBack;
    hide Ordered;
    EmittedStays(s.result, s'.result, v);
    hide InComponent;
  }

  lemma EmittedStays<T(!new)>(result: seq<seq<T>>, result': seq<seq<T>>, v: T)
    requires result <= result'
    ensures InComponent(result, v) ==> InComponent(result', v)
  {
    if InComponent(result, v) {
      var i :| 0 <= i < |result| && v in result[i];
      assert result'[i] == result[i];
    }
  }

  /** A node that was on the stack before the recursive call sees no new edge. */
  lemma SeenBefore<T(!new)>(
    g: map<T, seq<T>>, s: Search<T>, s': Search<T>, v: T, base: nat, m: nat, m': nat)
    requires Inv(g, s) && Inv(g, s') && Extends(s, s') && base <= |s.num| && m' <= m
    requires v in g && Seen(g, s.stack, s.num, v, base, m)
    ensures Seen(g, s'.stack, s'.num, v, base, m')
  {
    hide Inv;
    forall w | w in g[v] && w in s'.stack && w in s'.num && s'.num[w] < base
      ensures m' <= s'.num[w]
    {
      StillOnStack(g, s, s', w);
    }
  }

  /** What the recursive call on a successor `w` left behind is seen once low[node] is relaxed. */
  lemma SeenAfterSuccessor<T(!new)>(
    g: map<T, seq<T>>, s: Search<T>, s': Search<T>, node: T, w: T, base: nat, m: nat, m': nat)
    requires Inv(g, s) && Inv(g, s') && Visited(g, s, s', w)
    requires s.low.Keys == s.num.Keys && base <= |s.num| && m' <= m && m' <= s'.low[w]
    requires SeenAbove(g, s.stack, s.num, node, base, m)
    ensures SeenAbove(g, s'.stack, s'.num, node, base, m')
  {
    hide Inv;
    forall v | v in s'.stack && v in s'.num && base <= s'.num[v] && v != node && v in g
      ensures Seen(g, s'.stack, s'.num, v, base, m')
    {
      if v in s.num {
        StillOnStack(g, s, s', v);
        hide Seen;
        SeenBefore(g, s, s', v, base, m, m');
      } else if v == w {
        assert Seen(g, s'.stack, s'.num, v, |s.num|, s'.low[w]);
      } else {
        assert Seen(g, s'.stack, s'.num, v, |s.num|, s'.low[w]);
      }
    }
  }

  lemma SeenEdgeBefore<T(!new)>(
    g: map<T, seq<T>>, s: Search<T>, s': Search<T>, w: T, base: nat, m: nat, m': nat)
    requires Inv(g, s) && Inv(g, s') && Extends(s, s') && base <= |s.num| && m' <= m
    requires SeenEdge(s.stack, s.num, w, base, m)
    ensures SeenEdge(s'.stack, s'.num, w, base, m')
  {
    hide Inv;
    if w in s'.stack && w in s'.num && s'.num[w] < base {
      StillOnStack(g, s, s', w);
    }
  }

  lemma Numbers<T(!new)>(g: map<T, seq<T>>, s: Search<T>)
    requires Inv(g, s)
    ensures s.low.Keys == s.num.Keys
    ensures forall v :: v in s.num ==> s.num[v] < |s.num|
    ensures forall v :: v in s.gray ==> v in s.stack
    ensures forall v :: v in s.stack ==> v in s.num
    ensures forall i, j :: 0 <= i < j < |s.stack| ==> s.num[s.stack[i]] < s.num[s.stack[j]]
  {
    hide Closed;
    hide LowLinks;
    hide GrayReaches;
    hide BlackClosed;
    hide Classes;
    hide EdgesGoBack;
    hide InComponent;
  }

  lemma SeenEdgeNow<T(!new)>(g: map<T, seq<T>>, s: Search<T>, w: T, base: nat, m: nat)
    requires Inv(g, s) && w in s.low && m <= s.low[w]
    ensures SeenEdge(s.stack, s.num, w, base, m)
  {
    hide Closed;
    hide Split;
    hide Ordered;
    hide HasTarget;
    hide GrayReaches;
    hide BlackClosed;
    hide Classes;
    hide EdgesGoBack;
  }

  lemma ExtendsThenRelax<T(!new)>(s0: Search<T>, s: Search<T>, s': Search<T>, node: T, w: T)
    requires Extends(s0, s) && Extends(s, s') && node !in s0.low && node in s'.low && w in s'.low
    ensures Extends(s0, Relax(s', node, w))
  {}

  lemma SeenEdgesAfterSuccessor<T(!new)>(
    g: map<T, seq<T>>, s: Search<T>, s': Search<T>, succs: seq<T>, i: nat, base: nat, m: nat, m': nat)
    requires Inv(g, s) && Inv(g, s') && Extends(s, s') && i < |succs| && succs[i] in s'.low
    requires base <= |s.num| && m' <= m && m' <= s'.low[succs[i]]
    requires forall k :: 0 <= k < i ==> succs[k] in s.low
    requires forall k :: 0 <= k < i ==> SeenEdge(s.stack, s.num, succs[k], base, m)
    ensures forall k :: 0 <= k <= i ==> succs[k] in s'.low
    ensures forall k :: 0 <= k <= i ==> SeenEdge(s'.stack, s'.num, succs[k], base, m')
  {
    hide Inv;
    hide SeenEdge;
    forall k | 0 <= k <= i
      ensures SeenEdge(s'.stack, s'.num, succs[k], base, m')
    {
      if k < i {
        SeenEdgeBefore(g, s, s', succs[k], base, m, m');
      } else {
        SeenEdgeNow(g, s', succs[k], base, m');
      }
    }
  }

  lemma NextSuccessor<T(!new)>(
    g: map<T, seq<T>>, s0: Search<T>, s: Search<T>, s': Search<T>, node: T, i: nat, w: T)
    requires Inv(g, s) && Inv(g, s') && Scanning(g, s0, s, node, i) && i < |g[node]| && w == g[node][i]
    requires Visited(g, s, s', w)
    ensures node in s'.low && w in s'.low && Scanning(g, s0, Relax(s', node, w), node, i + 1)
  {
    hide Inv;
    hide Seen;
    hide SeenEdge;
    var t := Relax(s', node, w);
    Numbers(g, s);
    SeenAfterSuccessor(g, s, s', node, w, |s0.num|, s.low[node], t.low[node]);
    SeenEdgesAfterSuccessor(g, s, s', g[node], i, |s0.num|, s.low[node], t.low[node]);
    hide SeenAbove;
    assert node in s.low && node in s'.low && s'.low[node] == s.low[node];
    assert node in s'.num && s'.num[node] == s.num[node];
    assert s.low.Keys <= s'.low.Keys && s.stack <= s'.stack;
    assert s0.stack + [node] <= t.stack;
    ExtendsThenRelax(s0, s, s', node, w);
    hide Extends;
  }

  lemma ScanIsRoot<T(!new)>(g: map<T, seq<T>>, s0: Search<T>, s: Search<T>, node: T)
    requires Inv(g, s0) && Inv(g, s) && node in g && Scanning(g, s0, s, node, |g[node]|)
    requires s.low[node] == s.num[node]
    ensures Root(g, s, node, |s0.stack|)
  {
    hide Inv;
    hide SeenAbove;
    Numbers(g, s0);
    assert s.stack[|s0.stack|] == node;
    forall w | w in g[node]
      ensures w in s.low
      ensures SeenEdge(s.stack, s.num, w, |s0.num|, s.low[node])
    {
      var k :| 0 <= k < |g[node]| && g[node][k] == w;
    }
  }

  lemma AboveBase<T(!new)>(g: map<T, seq<T>>, s0: Search<T>, s: Search<T>, node: T, v: T)
    requires Inv(g, s0) && Inv(g, s) && node in g && Scanning(g, s0, s, node, |g[node]|)
    requires v in s0.low
    ensures v !in s.stack[|s0.stack|..]
  {
    hide Inv;
    hide SeenAbove;
    hide SeenEdge;
    Numbers(g, s0);
    Numbers(g, s);
    assert s.stack[|s0.stack|] == node;
    assert s.num[v] == s0.num[v] < |s0.num| == s.num[node];
  }

  lemma PopExtends<T(!new)>(g: map<T, seq<T>>, s0: Search<T>, s: Search<T>, node: T)
    requires Inv(g, s0) && Inv(g, s) && node in g && Scanning(g, s0, s, node, |g[node]|)
    ensures |s0.stack| <= |s.stack|
    ensures var t := Pop(g, s, node, |s0.stack|); Extends(s0, t) && t.stack == s0.stack && t.gray == s0.gray
    ensures node in s.stack[|s0.stack|..]
  {
    hide Inv;
    hide SeenAbove;
    hide SeenEdge;
    Numbers(g, s0);
    Numbers(g, s);
    assert s.stack[|s0.stack|..][0] == node;
    forall v | v in s0.low
      ensures v !in s.stack[|s0.stack|..]
    {
      AboveBase(g, s0, s, node, v);
    }
  }

  lemma FinishRoot<T(!new)>(g: map<T, seq<T>>, s0: Search<T>, s: Search<T>, node: T)
    requires Inv(g, s0) && Inv(g, s) && node in g && Scanning(g, s0, s, node, |g[node]|)
    requires s.low[node] == s.num[node]
    ensures |s0.stack| <= |s.stack|
    ensures var t := Pop(g, s, node, |s0.stack|); Inv(g, t) && Visited(g, s0, t, node)
  {
    hide Inv;
    ScanIsRoot(g, s0, s, node);
    PopKeepsInv(g, s, node, |s0.stack|);
    PopExtends(g, s0, s, node);
    Numbers(g, s0);
    assert s0.stack <= s.stack;
    hide Extends;
    var t := Pop(g, s, node, |s0.stack|);
    assert node in s.stack[|s0.stack|..];
  }

  lemma FinishBlack<T(!new)>(g: map<T, seq<T>>, s0: Search<T>, s: Search<T>, node: T)
    requires Inv(g, s0) && Inv(g, s) && node in g && Scanning(g, s0, s, node, |g[node]|)
    requires s.low[node] != s.num[node]
    ensures Inv(g, Blacken(s, node)) && Visited(g, s0, Blacken(s, node), node)
  {
    hide Inv;
    forall w | w in g[node]
      ensures w in s.low
      ensures SeenEdge(s.stack, s.num, w, |s0.num|, s.low[node])
    {
      var k :| 0 <= k < |g[node]| && g[node][k] == w;
    }
    BlackenKeepsInv(g, s, node);
    Numbers(g, s0);
    hide SeenAbove;
  }

  // ---- When no visit is active ----

  lemma NumbersAreNodes<T(!new)>(g: map<T, seq<T>>, s: Search<T>)
    requires Inv(g, s)
    ensures s.low.Keys <= g.Keys
  {
    hide Split;
    hide Ordered;
    hide LowLinks;
    hide Classes;
  }

  lemma VisitedFacts<T(!new)>(g: map<T, seq<T>>, s0: Search<T>, s1: Search<T>, node: T)
    requires Visited(g, s0, s1, node)
    ensures s1.gray == s0.gray && node in s1.low && forall v :: v in s0.low ==> v in s1.low
  {}

  lemma TargetOf<T(!new)>(g: map<T, seq<T>>, stack: seq<T>, num: map<T, nat>, v: T, n: nat) returns (u: T)
    requires HasTarget(g, stack, num, v, n)
    ensures u in stack && u in num && num[u] == n
  {
    u :| Target(g, stack, num, v, u, n);
  }

  /** The low link of a stack node leads to a stack node, and down the stack from a black one. */
  lemma LowLinkOf<T(!new)>(g: map<T, seq<T>>, s: Search<T>, v: T) returns (u: T)
    requires Inv(g, s) && v in s.stack
    ensures v in s.low && v in s.num && u in s.stack && u in s.num
    ensures v !in s.gray ==> s.num[u] < s.num[v]
  {
    hide HasTarget;
    hide Reach;
    hide Closed;
    hide GrayReaches;
    hide BlackClosed;
    hide Classes;
    hide EdgesGoBack;
    Numbers(g, s);
    u := TargetOf(g, s.stack, s.num, v, s.low[v]);
  }

  lemma LowestIsGray<T(!new)>(g: map<T, seq<T>>, s: Search<T>)
    requires Inv(g, s) && s.stack != []
    ensures s.stack[0] in s.gray
  {
    hide *;
    Numbers(g, s);
    var u := LowLinkOf(g, s, s.stack[0]);
    var i :| 0 <= i < |s.stack| && s.stack[i] == u;
    assert i > 0 ==> s.num[s.stack[0]] < s.num[s.stack[i]];
  }

  lemma NothingActive<T(!new)>(g: map<T, seq<T>>, s: Search<T>)
    requires Inv(g, s) && s.gray == {}
    ensures s.stack == []
  {
    if s.stack != [] {
      LowestIsGray(g, s);
    }
  }

  /** Before the recursive call on a successor: every active node reaches it. */
  lemma GrayReachesSuccessor<T(!new)>(g: map<T, seq<T>>, s0: Search<T>, s: Search<T>, node: T, i: nat)
    requires Inv(g, s) && Scanning(g, s0, s, node, i) && i < |g[node]|
    requires forall u :: u in s0.gray ==> Reach(g, u, node)
    ensures g[node][i] in g
    ensures forall u :: u in s.gray ==> Reach(g, u, g[node][i])
  {
    hide Numbered;
    hide Split;
    hide Ordered;
    hide LowLinks;
    hide GrayReaches;
    hide BlackClosed;
    hide Classes;
    hide EdgesGoBack;
    hide Extends;
    hide SeenAbove;
    hide SeenEdge;
    hide Reach;
    var w := g[node][i];
    assert w in g;
    hide Closed;
    ReachEdge(g, node, w);
    forall u | u in s.gray
      ensures Reach(g, u, w)
    {
      if u in s0.gray {
        ReachTrans(g, u, node, w);
      }
    }
  }

  lemma ScanFacts<T(!new)>(g: map<T, seq<T>>, s0: Search<T>, s: Search<T>, node: T, i: nat)
    requires Scanning(g, s0, s, node, i)
    ensures node in g && node !in s0.low && i <= |g[node]|
    ensures s0.low.Keys < s.low.Keys && node in s.low && node in s.num && s.num[node] == |s0.num|
    ensures node in s.gray && s.gray == s0.gray + {node}
    ensures |s0.stack| < |s.stack|
  {
    hide SeenAbove;
    hide SeenEdge;
    assert node in s.low.Keys - s0.low.Keys;
  }

  lemma ReachGoesBack<T(!new)>(g: map<T, seq<T>>, result: seq<seq<T>>, i: nat, u: T, j: nat, v: T)
    requires Closed(g) && EdgesGoBack(g, result) && Classes(g, result)
    requires i < |result| && u in result[i] && j < |result| && v in result[j] && Reach(g, u, v)
    ensures j <= i
  {
    ReachEnds(g, u, v);
    var S := set x | x in g && InComponent(result[..i + 1], x);
    assert result[..i + 1][i] == result[i];
    forall x, y | x in S && x in g && y in g[x]
      ensures y in S
    {
      var k :| 0 <= k < |result[..i + 1]| && x in result[..i + 1][k];
      assert x in result[k];
      var l :| 0 <= l <= k && y in result[l];
      assert y in result[..i + 1][l];
      assert InComponent(result[..i + 1], y) && y in g;
    }
    ClosedSetKeepsReach(g, S, u, v);
    var k :| 0 <= k < |result[..i + 1]| && v in result[..i + 1][k];
    assert v in result[k];
  }

  lemma SearchIsComplete<T(!new)>(g: map<T, seq<T>>, s: Search<T>)
    requires Inv(g, s) && s.gray == {} && s.low.Keys == g.Keys
    ensures Components(g, s.result)
  {
    NothingActive(g, s);
    assert forall v :: v in g <==> v in s.low.Keys;
    assert forall v :: v in g <==> InComponent(s.result, v);
    forall i, j, u, v |
      0 <= i < |s.result| && 0 <= j < |s.result| && u in s.result[i] && v in s.result[j] && Reach(g, u, v)
      ensures j <= i
    {
      ReachGoesBack(g, s.result, i, u, j, v);
    }
  }
}
