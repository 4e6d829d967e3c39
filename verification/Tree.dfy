/** `mode/utils/trees.py`: hierarchies of nodes and the graph drawn from them. */
module Trees {
  import opened DependencyGraphs
  import opened Unfoldings

  /** An entry of `children`: a node, or arbitrary data. */
  datatype Child<T> = Sub(node: Node<T>) | Raw(data: T)

  class Node<T(==)> {
    const data: T
    var root: Node?<T>
    var parent: Node?<T>
    var children: seq<Child<T>>

    constructor (data: T, root: Node?<T>, parent: Node?<T>)
      ensures this.data == data && this.root == root && this.parent == parent && children == []
    {
      this.data, this.root, this.parent, children := data, root, parent, [];
    }

    /** `walk` visits these nodes, this one first, and would go on with `next`. */
    ghost predicate IsWalk(path: seq<Node<T>>, next: Node?<T>)
      reads path
    {
      && path != [] && path[0] == this
      && (forall k :: 0 <= k < |path| - 1 ==> path[k].parent == path[k + 1])
      && path[|path| - 1].parent == next
    }

    method New(data: T) returns (node: Node<T>)
      modifies this
      ensures fresh(node) && node.data == data && node.parent == this && node.children == []
      ensures node.root == if root != null then root else this
      ensures children == old(children) + [Sub(node)]
      ensures root == old(root) && parent == old(parent)
    {
      node := new Node(data, if root != null then root else this, this);
      children := children + [Sub(node)];
    }

    /** Refused (a ValueError in the source), with nothing changed, when the root or the
        parent of the node would be the node itself.

        Afterwards the walk from this node ends exactly when it was not itself on the walk
        from its new parent. */
    method Reattach(to: Node<T>, ghost path: seq<Node<T>>) returns (ok: bool)
      modifies this, to
      ensures ok <==> this != old(if to.root != null then to.root else to) && this != to
      ensures !ok ==> unchanged(this) && unchanged(to)
      ensures ok ==>
        && parent == to && root == old(if to.root != null then to.root else to)
        && children == old(children)
        && to.root == old(to.root) && to.parent == old(to.parent)
        && to.children == old(to.children) + if Sub(this) in old(to.children) then [] else [Sub(this)]
      ensures ok && old(to.IsWalk(path, null)) && this !in path ==> IsWalk([this] + path, null)
      ensures ok && old(to.IsWalk(path, this)) && this !in path ==> IsWalk([this] + path, this)
    {
      var top := if to.root != null then to.root else to;
      if top == this || to == this {
        return false;
      }
      root := top;
      parent := to;
      if Sub(this) !in to.children {
        to.children := to.children + [Sub(this)];
      }
      return true;
    }

    /** The argument of `detach` plays no part: the node leaves the parent it has. */
    method Detach(from: Node<T>)
      requires parent != this
      modifies this, parent
      ensures parent == null && root == null && children == old(children)
      ensures old(parent) != null ==>
                && old(parent).children == Without(old(if parent == null then [] else parent.children), this)
                && unchanged(old(parent)`root) && unchanged(old(parent)`parent)
    {
      if parent != null {
        parent.Discard(this);
      }
      parent := null;
      root := null;
    }

    /** Removes the first mention of `node`, if there is one. */
    method Discard(node: Node<T>)
      modifies `children
      ensures children == Without(old(children), node)
    {
      for i := 0 to |children|
        invariant Sub(node) !in children[..i] && children == old(children)
      {
        if children[i] == Sub(node) {
          FirstMention(children, node, i);
          children := children[..i] + children[i + 1..];
          return;
        }
      }
      NoMention(children, node);
    }
  }

  /** The children with the first mention of `node` left out. */
  ghost function Without<T>(children: seq<Child<T>>, node: Node<T>): seq<Child<T>> {
    if children == [] then []
    else if children[0] == Sub(node) then children[1..]
    else [children[0]] + Without(children[1..], node)
  }

  lemma {:induction false} FirstMention<T>(children: seq<Child<T>>, node: Node<T>, i: nat)
    requires i < |children| && children[i] == Sub(node) && Sub(node) !in children[..i]
    ensures Without(children, node) == children[..i] + children[i + 1..]
  {
    if i == 0 {
    } else {
      assert children[0] in children[..i] && children[1..][..i - 1] == children[..i][1..];
      FirstMention(children[1..], node, i - 1);
    }
  }

  lemma {:induction false} NoMention<T>(children: seq<Child<T>>, node: Node<T>)
    requires Sub(node) !in children
    ensures Without(children, node) == children
  {
    if children == [] {
    } else {
      NoMention(children[1..], node);
    }
  }

  /** The guards of `reattach` do not keep cycles out: `detach` forgets the root of the node
      it is called on but not of the nodes below, whose roots are then out of date. */
  method StaleRootsLetACycleIn<T(==)>(data: T) returns (b: Node<T>, c: Node<T>)
    ensures b.parent == c && c.parent == b && b.IsWalk([b, c], b)
  {
    var a := new Node(data, null, null);
    b := a.New(data);
    c := b.New(data);
    b.Detach(a);
    var ok := b.Reattach(c, [c]);
  }

  // ---- as_graph ----

  /** Below `n` hangs the tree `t`; its nodes are all in `nodes`. */
  ghost predicate Denotes<T>(n: Node<T>, t: Tree<T>, nodes: set<Node<T>>)
    reads nodes
    decreases t, 0
  {
    && n in nodes && n.data == t.data && |n.children| == |t.kids|
    && forall k :: 0 <= k < |t.kids| ==> DenotesChild(n.children[k], t.kids[k], nodes)
  }

  ghost predicate DenotesChild<T>(c: Child<T>, t: Tree<T>, nodes: set<Node<T>>)
    reads nodes
    decreases t, 1
  {
    match c
    case Sub(m) => Denotes(m, t, nodes)
    case Raw(d) => t == Tree(d, [])
  }

  /** Exactly the parent-to-child edges of a tree, children in order. */
  ghost function Edges<T(!new)>(t: Tree<T>): map<T, seq<T>>
    decreases t
  {
    OwnEdges(t) + EdgesAll(t.kids)
  }

  ghost function EdgesAll<T(!new)>(ts: seq<Tree<T>>): map<T, seq<T>>
    decreases ts
  {
    if ts == [] then map[] else EdgesAll(ts[..|ts| - 1]) + Edges(ts[|ts| - 1])
  }

  ghost predicate Distinct<T>(labels: multiset<T>) {
    forall x :: x in labels ==> labels[x] == 1
  }

  lemma {:induction false} EdgesHaveLabels<T(!new)>(t: Tree<T>)
    ensures forall x :: x in Edges(t) ==> x in Labels(t)
    decreases t
  {
    EdgesAllHaveLabels(t.kids);
  }

  lemma {:induction false} EdgesAllHaveLabels<T(!new)>(ts: seq<Tree<T>>)
    ensures forall x :: x in EdgesAll(ts) ==> x in LabelsAll(ts)
    decreases ts
  {
    if ts == [] {
    } else {
      EdgesAllHaveLabels(ts[..|ts| - 1]);
      EdgesHaveLabels(ts[|ts| - 1]);
    }
  }

  lemma {:induction false} LabelsConcat<T(!new)>(a: seq<Tree<T>>, b: seq<Tree<T>>)
    ensures LabelsAll(a + b) == LabelsAll(a) + LabelsAll(b)
  {
    hide Labels;
    if b == [] {
      assert a + b == a;
    } else {
      var init := b[..|b| - 1];
      assert (a + b)[..|a + b| - 1] == a + init;
      LabelsConcat(a, init);
    }
  }

  lemma {:induction false} EdgesConcat<T(!new)>(a: seq<Tree<T>>, b: seq<Tree<T>>)
    ensures EdgesAll(a + b) == EdgesAll(a) + EdgesAll(b)
  {
    hide Edges;
    if b == [] {
      assert a + b == a;
    } else {
      var init := b[..|b| - 1];
      assert (a + b)[..|a + b| - 1] == a + init;
      EdgesConcat(a, init);
      Overlay(EdgesAll(a), EdgesAll(init), Edges(b[|b| - 1]));
    }
  }

  lemma Overlay<K, V>(a: map<K, V>, b: map<K, V>, c: map<K, V>)
    ensures (a + b) + c == a + (b + c)
  {}

  lemma {:induction false} SizeConcat<T>(a: seq<Tree<T>>, b: seq<Tree<T>>)
    ensures SizeAll(a + b) == SizeAll(a) + SizeAll(b)
  {
    hide Size;
    if b == [] {
      assert a + b == a;
    } else {
      var init := b[..|b| - 1];
      assert (a + b)[..|a + b| - 1] == a + init;
      SizeConcat(a, init);
    }
  }

  lemma AllConcat<T(!new)>(a: seq<Tree<T>>, b: seq<Tree<T>>)
    ensures LabelsAll(a + b) == LabelsAll(a) + LabelsAll(b)
    ensures EdgesAll(a + b) == EdgesAll(a) + EdgesAll(b)
    ensures SizeAll(a + b) == SizeAll(a) + SizeAll(b)
  {
    hide *;
    LabelsConcat(a, b);
    EdgesConcat(a, b);
    SizeConcat(a, b);
  }

  lemma AllOne<T(!new)>(t: Tree<T>)
    ensures LabelsAll([t]) == Labels(t) && EdgesAll([t]) == Edges(t) && SizeAll([t]) == Size(t)
  {
    assert [t][..0] == [];
  }

  /** What the inner loop knows when the children denoting `kids` have been looked at. */
  ghost predicate Queued<T(!new)>(pending: seq<Tree<T>>, rest: seq<Tree<T>>, kids: seq<Tree<T>>) {
    && LabelsAll(pending) <= LabelsAll(rest) + LabelsAll(kids)
    && EdgesAll(pending) == EdgesAll(rest) + EdgesAll(kids)
    && SizeAll(pending) <= SizeAll(rest) + SizeAll(kids)
  }

  lemma QueueChild<T(!new)>(pending: seq<Tree<T>>, rest: seq<Tree<T>>, kids: seq<Tree<T>>, i: nat)
    requires i < |kids| && Queued(pending, rest, kids[..i])
    ensures Queued(pending + [kids[i]], rest, kids[..i + 1])
    ensures kids[i].kids == [] ==> Queued(pending, rest, kids[..i + 1])
  {
    hide EdgesAll;
    hide LabelsAll;
    hide SizeAll;
    hide Edges;
    hide Labels;
    hide Size;
    AllOne(kids[i]);
    AllConcat(pending, [kids[i]]);
    AllConcat(kids[..i], [kids[i]]);
    assert kids[..i + 1] == kids[..i] + [kids[i]];
    Overlay(EdgesAll(rest), EdgesAll(kids[..i]), EdgesAll([kids[i]]));
    if kids[i].kids == [] {
      LeafHasNoEdges(kids[i]);
      Nothing(EdgesAll(kids[..i]));
    }
  }

  lemma LeafHasNoEdges<T(!new)>(t: Tree<T>)
    requires t.kids == []
    ensures Edges(t) == map[]
  {}

  lemma Nothing<K, V>(m: map<K, V>)
    ensures m + map[] == m
  {}

  /** Some of the edges are drawn, and the trees still to be visited hold the others. */
  ghost predicate Drawing<T(!new)>(t: Tree<T>, drawn: map<T, seq<T>>, pending: seq<Tree<T>>) {
    && Distinct(LabelsAll(pending))
    && (forall x :: x in drawn ==> x !in LabelsAll(pending))
    && drawn + EdgesAll(pending) == Edges(t)
  }

  ghost function OwnEdges<T(!new)>(t: Tree<T>): map<T, seq<T>> {
    if t.kids == [] then map[] else map[t.data := Tops(t.kids)]
  }

  lemma DrawNode<T(!new)>(t: Tree<T>, drawn: map<T, seq<T>>, u: Tree<T>, rest: seq<Tree<T>>, pending: seq<Tree<T>>)
    requires Drawing(t, drawn, [u] + rest) && Queued(pending, rest, u.kids)
    ensures Drawing(t, drawn + OwnEdges(u), pending)
    ensures SizeAll(pending) < SizeAll([u] + rest)
  {
    hide EdgesAll;
    hide LabelsAll;
    hide SizeAll;
    hide Edges;
    hide Labels;
    hide Size;
    hide Distinct;
    hide OwnEdges;
    AllOne(u);
    AllConcat([u], rest);
    TreeIs(u);
    EdgesAllHaveLabels(rest);
    EdgesAllHaveLabels(u.kids);
    DistinctParts(u.data, LabelsAll(u.kids), LabelsAll(rest), LabelsAll(pending));
    SwapApart(drawn, OwnEdges(u), EdgesAll(u.kids), EdgesAll(rest));
  }

  lemma TreeIs<T(!new)>(t: Tree<T>)
    ensures Labels(t) == multiset{t.data} + LabelsAll(t.kids)
    ensures Edges(t) == OwnEdges(t) + EdgesAll(t.kids)
    ensures Size(t) == 1 + SizeAll(t.kids)
    ensures forall x :: x in OwnEdges(t) ==> x == t.data
  {}

  lemma DistinctParts<T>(x: T, kids: multiset<T>, rest: multiset<T>, pending: multiset<T>)
    requires Distinct(multiset{x} + kids + rest) && pending <= rest + kids
    ensures Distinct(pending) && x !in pending
    ensures forall y :: y in pending ==> y in multiset{x} + kids + rest
    ensures kids !! rest
  {
    var all := multiset{x} + kids + rest;
    assert forall y :: pending[y] <= (rest + kids)[y];
    forall y
      ensures pending[y] + multiset{x}[y] <= kids[y] + rest[y] + multiset{x}[y] == all[y] <= 1
    {
      assert y in all ==> all[y] == 1;
    }
    forall y
      ensures !(y in kids && y in rest)
    {
      assert kids[y] + rest[y] + multiset{x}[y] <= 1;
    }
    assert multiset{x}[x] == 1;
  }

  lemma SwapApart<K, V>(drawn: map<K, V>, own: map<K, V>, kids: map<K, V>, rest: map<K, V>)
    requires kids.Keys !! rest.Keys
    ensures drawn + ((own + kids) + rest) == (drawn + own) + (rest + kids)
  {}

  /** The graph when the children denoting `kids` have been drawn below `x`. */
  ghost function With<T>(drawn: map<T, seq<T>>, x: T, kids: seq<Tree<T>>): map<T, seq<T>> {
    if kids == [] then drawn else drawn[x := Tops(kids)]
  }

  lemma NextEdge<T>(drawn: map<T, seq<T>>, x: T, kids: seq<Tree<T>>, i: nat)
    requires x !in drawn && i < |kids|
    ensures var arc := if i == 0 then drawn[x := []] else With(drawn, x, kids[..i]);
            && (x in With(drawn, x, kids[..i]) <==> i > 0)
            && x in arc && With(drawn, x, kids[..i + 1]) == arc[x := arc[x] + [kids[i].data]]
  {
    assert Tops(kids[..i + 1]) == Tops(kids[..i]) + [kids[i].data];
    assert i == 0 ==> Tops(kids[..i]) == [];
  }

  lemma AllEdges<T(!new)>(drawn: map<T, seq<T>>, u: Tree<T>)
    ensures With(drawn, u.data, u.kids[..0]) == drawn
    ensures With(drawn, u.data, u.kids[..|u.kids|]) == drawn + OwnEdges(u)
  {
    assert u.kids[..|u.kids|] == u.kids;
  }

  /** `as_graph`: with pairwise distinct labels the graph has exactly the parent-to-child edges. */
  method AsGraph<T(==,!new)>(top: Node<T>, ghost t: Tree<T>, ghost nodes: set<Node<T>>)
    returns (graph: DependencyGraph<T>)
    requires Denotes(top, t, nodes) && Distinct(Labels(t))
    ensures fresh(graph) && graph.Valid() && graph.adjacent == Edges(t)
  {
    hide Edges;
    hide EdgesAll;
    hide Labels;
    hide LabelsAll;
    hide Size;
    hide SizeAll;
    hide Drawing;
    hide Queued;
    hide With;
    hide OwnEdges;
    hide Distinct;
    graph := new DependencyGraph();
    var stack := [top];
    ghost var pending := [t];
    StartDrawing(t);
    while stack != []
      invariant graph.Valid() && fresh(graph)
      invariant |stack| == |pending|
      invariant forall k :: 0 <= k < |stack| ==> Denotes(stack[k], pending[k], nodes)
      invariant Drawing(t, graph.adjacent, pending)
      decreases SizeAll(pending)
    {
      var node := stack[0];
      ghost var u, rest, drawn := pending[0], pending[1..], graph.adjacent;
      assert pending == [u] + rest;
      stack, pending := stack[1..], rest;
      QueueNone(rest, u.kids);
      NewKey(t, drawn, u, rest);
      AllEdges(drawn, u);
      for i := 0 to |node.children|
        invariant graph.Valid() && fresh(graph)
        invariant |stack| == |pending|
        invariant forall k :: 0 <= k < |stack| ==> Denotes(stack[k], pending[k], nodes)
        invariant Queued(pending, rest, u.kids[..i])
        invariant graph.adjacent == With(drawn, u.data, u.kids[..i])
      {
        NextEdge(drawn, u.data, u.kids, i);
        QueueChild(pending, rest, u.kids, i);
        ChildIs(node.children[i], u.kids[i], nodes);
        graph.AddArc(node.data);
        match node.children[i]
        case Sub(child) =>
          stack, pending := stack + [child], pending + [u.kids[i]];
          var ok := graph.AddEdge(node.data, child.data);
        case Raw(data) =>
          var ok := graph.AddEdge(node.data, data);
      }
      assert u.kids[..|u.kids|] == u.kids;
      DrawNode(t, drawn, u, rest, pending);
    }
    Drawn(t, graph.adjacent);
  }

  lemma ChildIs<T>(c: Child<T>, t: Tree<T>, nodes: set<Node<T>>)
    requires DenotesChild(c, t, nodes)
    ensures c.Sub? ==> c.node.data == t.data && Denotes(c.node, t, nodes)
    ensures c.Raw? ==> c.data == t.data && t.kids == []
  {}

  lemma StartDrawing<T(!new)>(t: Tree<T>)
    requires Distinct(Labels(t))
    ensures Drawing(t, map[], [t])
  {
    AllOne(t);
  }

  lemma QueueNone<T(!new)>(rest: seq<Tree<T>>, kids: seq<Tree<T>>)
    ensures Queued(rest, rest, kids[..0])
  {}

  lemma NewKey<T(!new)>(t: Tree<T>, drawn: map<T, seq<T>>, u: Tree<T>, rest: seq<Tree<T>>)
    requires Drawing(t, drawn, [u] + rest)
    ensures u.data !in drawn
  {
    AllOne(u);
    AllConcat([u], rest);
    assert u.data in LabelsAll([u] + rest);
  }

  lemma Drawn<T(!new)>(t: Tree<T>, drawn: map<T, seq<T>>)
    requires Drawing(t, drawn, [])
    ensures drawn == Edges(t)
  {}

  // ---- valency_of on that graph ----

  /** Within `labels` the graph has the edges `edges`. */
  ghost predicate Agree<T>(g: map<T, seq<T>>, edges: map<T, seq<T>>, labels: multiset<T>) {
    forall x :: x in labels ==> (x in g <==> x in edges) && (x in g ==> g[x] == edges[x])
  }

  /** The graph of a tree unfolds into the tree again. */
  lemma {:induction false} EdgesUnfold<T(!new)>(g: map<T, seq<T>>, t: Tree<T>)
    requires Distinct(Labels(t)) && Agree(g, Edges(t), Labels(t))
    ensures Unfolds(g, t.data, t)
    decreases t
  {
    hide Labels;
    hide Edges;
    hide Agree;
    forall k | 0 <= k < |t.kids|
      ensures Unfolds(g, t.kids[k].data, t.kids[k])
    {
      KidAlone(g, t, k);
      EdgesUnfold(g, t.kids[k]);
    }
    OwnAlone(g, t);
  }

  lemma OwnAlone<T(!new)>(g: map<T, seq<T>>, t: Tree<T>)
    requires Distinct(Labels(t)) && Agree(g, Edges(t), Labels(t))
    ensures if t.data in g then Tops(t.kids) == g[t.data] else t.kids == []
  {
    hide Labels;
    hide Edges;
    hide Distinct;
    TreeIs(t);
    EdgesAllHaveLabels(t.kids);
    DistinctParts(t.data, LabelsAll(t.kids), multiset{}, LabelsAll(t.kids));
    assert multiset{t.data} + LabelsAll(t.kids) + multiset{} == Labels(t);
    assert t.data in Labels(t);
  }

  /** Within the labels of one child a tree has the edges of that child. */
  lemma KidAlone<T(!new)>(g: map<T, seq<T>>, t: Tree<T>, k: nat)
    requires Distinct(Labels(t)) && Agree(g, Edges(t), Labels(t)) && k < |t.kids|
    ensures Distinct(Labels(t.kids[k])) && Agree(g, Edges(t.kids[k]), Labels(t.kids[k]))
  {
    hide Labels;
    hide Edges;
    hide LabelsAll;
    hide EdgesAll;
    hide OwnEdges;
    hide Distinct;
    var a, u, b := t.kids[..k], t.kids[k], t.kids[k + 1..];
    assert t.kids == a + [u] + b;
    TreeIs(t);
    AllOne(u);
    AllConcat(a, [u]);
    AllConcat(a + [u], b);
    EdgesAllHaveLabels(a);
    EdgesAllHaveLabels(b);
    EdgesHaveLabels(u);
    var others := LabelsAll(a) + LabelsAll(b);
    assert Labels(t) == multiset{t.data} + others + Labels(u);
    DistinctParts(t.data, others, Labels(u), Labels(u));
    assert forall x :: x in Labels(u) ==> x in Labels(t) && x !in others;
    OneOfThree(OwnEdges(t), EdgesAll(a), Edges(u), EdgesAll(b));
  }

  lemma OneOfThree<K, V>(own: map<K, V>, a: map<K, V>, u: map<K, V>, b: map<K, V>)
    ensures forall x :: x !in own && x !in a && x !in b ==>
              && (x in own + (a + u + b) <==> x in u)
              && (x in u ==> (own + (a + u + b))[x] == u[x])
  {}

  /** On the graph of a tree with distinct labels `valency_of` counts the proper descendants. */
  method ValencyInTree<T(==,!new)>(top: Node<T>, ghost t: Tree<T>, ghost nodes: set<Node<T>>) returns (n: nat)
    requires Denotes(top, t, nodes) && Distinct(Labels(t))
    ensures n == Size(t) - 1
  {
    var graph := AsGraph(top, t, nodes);
    EdgesUnfold(graph.adjacent, t);
    n := graph.ValencyOf(top.data, t);
  }
}
