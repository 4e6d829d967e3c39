/** `mode/utils/graphs/graph.py`: the dependency graph and its sorts. */
module DependencyGraphs {
  import opened Reachability
  import opened Sequences
  import opened Tarjan
  import opened Kahn
  import opened Condensation
  import opened Unfoldings

  /**
   The closure of `_tarjan72`: `visit` updates `low`, `stack` and `result` in place.
   */
  class TarjanSearch<T(==,!new)> {
    const adjacent: map<T, seq<T>>
    var low: map<T, nat>
    var stack: seq<T>
    var result: seq<seq<T>>
    ghost var num: map<T, nat>
    ghost var gray: set<T>

    ghost function State(): Search<T>
      reads this
    {
      Search(low, stack, result, num, gray)
    }

    constructor (adjacent: map<T, seq<T>>)
      requires Closed(adjacent)
      ensures this.adjacent == adjacent
      ensures State() == Search(map[], [], [], map[], {})
      ensures Inv(adjacent, State())
    {
      this.adjacent := adjacent;
      low, stack, result, num, gray := map[], [], [], map[], {};
    }

    method MarkEmitted(component: seq<T>)
      requires forall v :: v in component ==> v in low
      modifies this`low
      ensures low == map v | v in old(low) :: if v in component then |adjacent| else old(low)[v]
    {
      for k := 0 to |component|
        invariant low == map v | v in old(low) :: if v in component[..k] then |adjacent| else old(low)[v]
      {
        low := low[component[k] := |adjacent|];
      }
      assert component[..|component|] == component;
    }

    method Visit(node: T)
      requires Inv(adjacent, State()) && node in adjacent
      requires forall u :: u in gray ==> Reach(adjacent, u, node)
      modifies this
      ensures Inv(adjacent, State())
      ensures Visited(adjacent, old(State()), State(), node)
      decreases adjacent.Keys - low.Keys
    {
      hide Inv;
      hide Scanning;
      hide Visited;
      ghost var s0 := State();
      Numbers(adjacent, s0);
      assert |low| == |low.Keys| == |num.Keys| == |num|;
      if node in low {
        AlreadyVisited(adjacent, s0, node);
        return;
      }
      PushKeepsInv(adjacent, s0, node);
      StartScan(adjacent, s0, node);
      var n := |low|;
      low := low[node := n];
      var stackPos := |stack|;
      stack := stack + [node];
      num, gray := num[node := n], gray + {node};

      var successors := adjacent[node];
      var i := 0;
      while i < |successors|
        invariant 0 <= i <= |successors|
        invariant Inv(adjacent, State()) && Scanning(adjacent, s0, State(), node, i)
      {
        var successor := successors[i];
        ghost var s := State();
        ScanFacts(adjacent, s0, s, node, i);
        GrayReachesSuccessor(adjacent, s0, s, node, i);
        Visit(successor);
        NextSuccessor(adjacent, s0, s, State(), node, i, successor);
        ScanFacts(adjacent, s0, Relax(State(), node, successor), node, i + 1);
        RelaxKeepsInv(adjacent, State(), node, successor);
        low := low[node := if low[successor] < low[node] then low[successor] else low[node]];
        i := i + 1;
      }

      Finish(node, n, stackPos, s0);
    }

    /** The end of a visit: the top of the stack is emitted if the node is the root of its component. */
    method Finish(node: T, n: nat, stackPos: nat, ghost s0: Search<T>)
      requires Inv(adjacent, s0) && Inv(adjacent, State()) && node in adjacent
      requires Scanning(adjacent, s0, State(), node, |adjacent[node]|)
      requires n == |s0.num| && stackPos == |s0.stack|
      modifies this
      ensures Inv(adjacent, State())
      ensures Visited(adjacent, s0, State(), node)
    {
      hide Inv;
      hide Scanning;
      hide Visited;
      ghost var s := State();
      ScanFacts(adjacent, s0, s, node, |adjacent[node]|);
      Numbers(adjacent, s);
      if n == low[node] {
        FinishRoot(adjacent, s0, s, node);
        var component := stack[stackPos..];
        stack := stack[..stackPos];
        result := result + [component];
        MarkEmitted(component);
        gray := gray - {node};
      } else {
        FinishBlack(adjacent, s0, s, node);
        gray := gray - {node};
      }
    }
  }

  /** Keys keep the order in which they were added, as Python dictionaries do. */
  /** All of these nodes have been found. */
  ghost predicate Within<T>(nodes: seq<T>, found: set<T>) {
    forall v :: v in nodes ==> v in found
  }

  lemma NoneWithin<T>(nodes: seq<T>, found: set<T>)
    ensures Within(nodes[..0], found)
  {}

  lemma OneMoreWithin<T>(nodes: seq<T>, i: nat, found: set<T>, found': set<T>)
    requires i < |nodes| && Within(nodes[..i], found) && found <= found' && nodes[i] in found'
    ensures Within(nodes[..i + 1], found')
  {
    assert nodes[..i + 1] == nodes[..i] + [nodes[i]];
  }

  class DependencyGraph<T(==,!new)> {
    var order: seq<T>
    var adjacent: map<T, seq<T>>

    ghost predicate Valid()
      reads this
    {
      NoDup(order) && forall v :: v in order <==> v in adjacent
    }

    constructor ()
      ensures Valid() && adjacent == map[]
    {
      order, adjacent := [], map[];
    }

    method AddArc(obj: T)
      requires Valid()
      modifies this
      ensures Valid()
      ensures adjacent == if obj in old(adjacent) then old(adjacent) else old(adjacent)[obj := []]
      ensures order == if obj in old(adjacent) then old(order) else old(order) + [obj]
    {
      if obj !in adjacent {
        adjacent := adjacent[obj := []];
        order := order + [obj];
      }
    }

    /** Fails (a KeyError in the source) when `a` was never added. */
    method AddEdge(a: T, b: T) returns (ok: bool)
      requires Valid()
      modifies this
      ensures Valid() && order == old(order)
      ensures ok <==> a in old(adjacent)
      ensures adjacent == if ok then old(adjacent)[a := old(adjacent)[a] + [b]] else old(adjacent)
    {
      ok := a in adjacent;
      if ok {
        adjacent := adjacent[a := adjacent[a] + [b]];
      }
    }

    /** Ends when no cycle can be reached from `obj`, and counts the nodes below it, one for
        each way of getting there. */
    method ValencyOf(obj: T, ghost below: Tree<T>) returns (n: nat)
      requires Unfolds(adjacent, obj, below)
      ensures n == Size(below) - 1
      decreases below
    {
      if obj !in adjacent {
        assert below.kids == [];
        return 0;
      }
      assert |Tops(below.kids)| == |below.kids|;
      n := |adjacent[obj]|;
      for i := 0 to |adjacent[obj]|
        invariant n == |adjacent[obj]| + SizeAll(below.kids[..i]) - i
      {
        assert Tops(below.kids)[i] == below.kids[i].data;
        assert below.kids[..i + 1][..i] == below.kids[..i];
        var more := ValencyOf(adjacent[obj][i], below.kids[i]);
        n := n + more;
      }
      assert below.kids[..|adjacent[obj]|] == below.kids;
    }

    method Tarjan72() returns (result: seq<seq<T>>)
      requires Valid() && Closed(adjacent)
      ensures Components(adjacent, result)
    {
      hide Inv;
      hide Visited;
      hide Components;
      hide Closed;
      hide Valid;
      hide Reach;
      hide Within;
      KeysInOrder();
      var search := new TarjanSearch(adjacent);
      NoneWithin(order, search.low.Keys);
      for i := 0 to |order|
        invariant search.adjacent == adjacent && search.gray == {}
        invariant Inv(adjacent, search.State())
        invariant Within(order[..i], search.low.Keys)
      {
        var node := order[i];
        ghost var before := search.State();
        search.Visit(node);
        VisitedFacts(adjacent, before, search.State(), node);
        OneMoreWithin(order, i, before.low.Keys, search.low.Keys);
      }
      assert order[..|order|] == order;
      NumbersAreNodes(adjacent, search.State());
      AllVisited(search.low.Keys);
      SearchIsComplete(adjacent, search.State());
      result := search.result;
    }

    lemma KeysInOrder()
      requires Valid()
      ensures forall k :: 0 <= k < |order| ==> order[k] in adjacent
    {
      assert forall k :: 0 <= k < |order| ==> order[k] in order;
    }

    lemma AllVisited(found: set<T>)
      requires Valid() && found <= adjacent.Keys
      requires Within(order, found)
      ensures found == adjacent.Keys
    {
      assert forall v :: v in adjacent ==> v in order;
    }

    /** The number of edges into each node; a node of no edges counts 0. */
    method CountEdges() returns (count: multiset<T>)
      requires Valid() && Closed(adjacent)
      ensures (forall u :: u in order ==> u in adjacent) && count == Heads(adjacent, order)
    {
      hide Heads;
      hide Valid;
      hide Closed;
      KeysInOrder();
      NoHeads(adjacent, order);
      count := multiset{};
      for i := 0 to |order|
        invariant forall u :: u in order[..i] ==> u in adjacent
        invariant count == Heads(adjacent, order[..i])
      {
        var successors := adjacent[order[i]];
        ghost var before := count;
        MoreHeads(adjacent, order, i);
        assert before + multiset(successors[..0]) == before;
        for j := 0 to |successors|
          invariant count == before + multiset(successors[..j])
        {
          OneHead(before, successors, j);
          count := count[successors[j] := count[successors[j]] + 1];
        }
        assert successors[..|successors|] == successors;
      }
      assert order[..|order|] == order;
    }

    /** The nodes no edge leads to, in key order. */
    method Uncounted(count: multiset<T>) returns (ready: seq<T>)
      requires Valid()
      ensures NoDup(ready) && forall v :: v in ready <==> v in order && v !in count
    {
      ready := [];
      for i := 0 to |order|
        invariant NoDup(ready) && forall v :: v in ready <==> v in order[..i] && v !in count
      {
        if count[order[i]] == 0 {
          ready := ready + [order[i]];
        }
        assert order[..i + 1] == order[..i] + [order[i]];
      }
      assert order[..|order|] == order;
    }

    /** The body of the sort loop after `node` is popped: count its edges down. */
    method CountDownFrom(node: T, ready0: seq<T>, count0: multiset<T>, ghost emitted: seq<T>, ghost rest: seq<T>)
      returns (ready: seq<T>, count: multiset<T>)
      requires Valid() && Closed(adjacent) && node in adjacent && forall u :: u in rest ==> u in adjacent
      requires count0 == Heads(adjacent, rest) + multiset(adjacent[node])
      requires Counting(adjacent, emitted, rest, ready0, count0)
      ensures count == Heads(adjacent, rest) && Counting(adjacent, emitted, rest, ready, count)
    {
      hide Counting;
      hide Heads;
      ready, count := ready0, count0;
      var successors := adjacent[node];
      assert successors[0..] == successors;
      for j := 0 to |successors|
        invariant count == Heads(adjacent, rest) + multiset(successors[j..])
        invariant Counting(adjacent, emitted, rest, ready, count)
      {
        var successor := successors[j];
        assert successors[j..] == [successor] + successors[j + 1..];
        CountDown(adjacent, emitted, rest, ready, count, successor);
        assert count - multiset{successor} == count[successor := count[successor] - 1];
        count := count[successor := count[successor] - 1];
        if count[successor] == 0 {
          ready := ready + [successor];
        }
      }
    }

    method Khan62() returns (result: seq<T>)
      requires Valid() && Closed(adjacent)
      ensures Sorted(adjacent, result)
    {
      hide Heads;
      hide Sorted;
      var count := CountEdges();
      var ready := Uncounted(count);
      result := [];
      ghost var rest := order;
      while ready != []
        invariant forall u :: u in rest ==> u in adjacent
        invariant count == Heads(adjacent, rest)
        invariant Counting(adjacent, result, rest, ready, count)
        decreases |rest|
      {
        hide Counting;
        var node := ready[|ready| - 1];
        assert ready == ready[..|ready| - 1] + [node];
        rest := Emit(adjacent, result, rest, ready[..|ready| - 1], node);
        ready := ready[..|ready| - 1];
        result := result + [node];
        ready, count := CountDownFrom(node, ready, count, result, rest);
      }
      hide Counting;
      Done(adjacent, result, rest, Reverse(result));
      result := Reverse(result);
    }

    /** The graph over components: one edge for every edge between different components. */
    method Condense(components: seq<seq<T>>) returns (graph: DependencyGraph<seq<T>>)
      requires Valid() && Closed(adjacent) && Components(adjacent, components)
      ensures fresh(graph) && graph.Valid() && Condenses(adjacent, components, graph.adjacent)
    {
      hide Components;
      hide Condenses;
      hide CondensesSeen;
      graph := new DependencyGraph<seq<T>>();
      var nc := NodeComponents(components);
      AddComponents(graph, components);
      ghost var seen: set<(T, T)> := {};
      for i := 0 to |order|
        invariant fresh(graph) && graph.Valid()
        invariant CondensesSeen(components, graph.adjacent, seen)
        invariant forall u, v :: (u, v) in seen <==> u in order[..i] && u in adjacent && v in adjacent[u]
      {
        var node := order[i];
        assert node in order && node in adjacent;
        seen := CondenseEdgesOf(graph, components, nc, node, seen);
        assert order[..i + 1] == order[..i] + [node];
      }
      SeenAll(adjacent, components, graph.adjacent, seen, order);
    }

    method CondenseEdgesOf(
      graph: DependencyGraph<seq<T>>, ghost components: seq<seq<T>>, nc: map<T, seq<T>>, node: T,
      ghost seen: set<(T, T)>)
      returns (ghost seen': set<(T, T)>)
      requires Closed(adjacent) && Components(adjacent, components) && node in adjacent
      requires forall v :: v in adjacent ==> v in nc && nc[v] in components && v in nc[v]
      requires (graph as object) != this && graph.Valid() && CondensesSeen(components, graph.adjacent, seen)
      modifies graph
      ensures graph.Valid() && CondensesSeen(components, graph.adjacent, seen')
      ensures forall u, v :: (u, v) in seen' <==> (u, v) in seen || (u == node && v in adjacent[node])
    {
      hide Components;
      hide CondensesSeen;
      var nodeC := nc[node];
      var successors := adjacent[node];
      seen' := seen;
      for j := 0 to |successors|
        invariant graph.Valid()
        invariant CondensesSeen(components, graph.adjacent, seen')
        invariant forall u, v :: (u, v) in seen' <==> (u, v) in seen || (u == node && v in successors[..j])
      {
        var successorC := nc[successors[j]];
        SeeEdge(adjacent, components, graph.adjacent, seen', node, successors[j], nodeC, successorC);
        if nodeC != successorC {
          var ok := graph.AddEdge(nodeC, successorC);
        }
        seen' := seen' + {(node, successors[j])};
        assert successors[..j + 1] == successors[..j] + [successors[j]];
      }
      assert successors[..|successors|] == successors;
    }

    static method AddComponents(graph: DependencyGraph<seq<T>>, components: seq<seq<T>>)
      requires graph.Valid() && graph.adjacent == map[]
      modifies graph
      ensures graph.Valid() && CondensesSeen(components, graph.adjacent, {})
    {
      hide DependencyGraph.Valid;
      for i := 0 to |components|
        invariant graph.Valid()
        invariant forall c :: c in graph.adjacent <==> c in components[..i]
        invariant forall c :: c in graph.adjacent ==> graph.adjacent[c] == []
      {
        graph.AddArc(components[i]);
        assert components[..i + 1] == components[..i] + [components[i]];
      }
      assert components[..|components|] == components;
    }

    method Topsort() returns (result: seq<T>)
      requires Valid() && Closed(adjacent)
      ensures TopSorted(adjacent, result)
      ensures Acyclic(adjacent) ==>
                NoDup(result) && (forall v :: v in result <==> v in adjacent) && DependenciesFirst(adjacent, result)
    {
      hide Components;
      hide Condenses;
      hide Sorted;
      hide TopSorted;
      var components := Tarjan72();
      var graph := Condense(components);
      CondensationIsOrdered(adjacent, components, graph.adjacent);
      ghost var condensed := graph.adjacent;
      var sorted := graph.Khan62();
      SortedHoldsAll(adjacent, components, condensed, sorted);
      result := [];
      for i := 0 to |sorted|
        invariant |result| == i && forall k :: 0 <= k < i && sorted[k] != [] ==> result[k] == sorted[k][0]
      {
        assert sorted[i] in sorted;
        RepresentativeOf(adjacent, components, sorted[i]);
        result := result + [sorted[i][0]];
      }
      RepresentativesAreSorted(adjacent, components, condensed, sorted, result);
      if Acyclic(adjacent) {
        TopSortedAcyclic(adjacent, result);
      }
    }

    method NodeComponents(components: seq<seq<T>>) returns (nc: map<T, seq<T>>)
      requires Components(adjacent, components)
      ensures forall v :: v in nc <==> v in adjacent
      ensures forall v :: v in nc ==> nc[v] in components && v in nc[v]
    {
      hide Components;
      nc := map[];
      for i := 0 to |components|
        invariant forall v :: v in nc <==> exists k :: 0 <= k < i && v in components[k]
        invariant forall v :: v in nc ==> nc[v] in components && v in nc[v]
      {
        for j := 0 to |components[i]|
          invariant forall v :: v in nc <==> v in components[i][..j] || exists k :: 0 <= k < i && v in components[k]
          invariant forall v :: v in nc ==> nc[v] in components && v in nc[v]
        {
          nc := nc[components[i][j] := components[i]];
        }
        assert components[i][..|components[i]|] == components[i];
      }
      forall v
        ensures v in adjacent <==> InComponent(components, v)
      {
        NodesAreCovered(adjacent, components, v);
      }
    }
  }
}
