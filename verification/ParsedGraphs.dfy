/** The graph read from a topology file, and the traversal that decides whether it is a tree. */
module ParsedGraphs {
  import opened Prelude
  import opened Forest
  import opened Trees
  import opened SerialGraph
  import Growth

  // A node is known by its rank; every child occurrence is one pointer in its parent's vector.
  datatype Edges = Edges(hosts: map<Rank, string>, children: map<Rank, seq<Rank>>, port: nat, backends: bool)

  /** Every child is a node of the graph, and every node has a host name. */
  predicate ClosedEdges(g: Edges) {
    && g.hosts.Keys == g.children.Keys
    && forall n, i :: n in g.children && 0 <= i < |g.children[n]| ==> g.children[n][i] in g.children
  }

  /** tr follows the child vectors from tr.rank down to where they end. */
  ghost predicate Unfolds(g: Edges, tr: Tree)
    decreases tr
  {
    && tr.rank in g.children && tr.rank in g.hosts
    && tr.name == Name(g.hosts[tr.rank], g.port)
    && tr.isBackend == (g.backends && tr.kids == [])
    && UnfoldsAll(g, tr.kids, g.children[tr.rank])
  }

  ghost predicate UnfoldsAll(g: Edges, ts: seq<Tree>, ranks: seq<Rank>)
    decreases ts
  {
    |ts| == |ranks| && forall i :: 0 <= i < |ts| ==> ts[i].rank == ranks[i] && Unfolds(g, ts[i])
  }

  function RanksIn(ranks: seq<Rank>): set<Rank> {
    set r | r in ranks
  }

  /** A tree unfolding that meets no rank twice and none of those in `seen`. */
  ghost predicate FreshTree(g: Edges, tr: Tree, node: Rank, seen: set<Rank>) {
    Unfolds(g, tr) && tr.rank == node && NoRepeats(Ranks(tr)) && RanksIn(Ranks(tr)) !! seen
  }

  ghost predicate FreshTrees(g: Edges, ts: seq<Tree>, ranks: seq<Rank>, seen: set<Rank>) {
    UnfoldsAll(g, ts, ranks) && NoRepeats(RanksAll(ts)) && RanksIn(RanksAll(ts)) !! seen
  }

  /** The child edges form a tree rooted at root that spans all nodes. */
  ghost predicate IsTree(g: Edges, root: Rank) {
    exists tr :: FreshTree(g, tr, root, {}) && RanksIn(Ranks(tr)) == g.children.Keys
  }

  // ---------------------------------------------------------------- unfoldings

  lemma {:induction false} UnfoldingIsUnique(g: Edges, a: Tree, b: Tree)
    requires Unfolds(g, a) && Unfolds(g, b) && a.rank == b.rank
    ensures a == b
    decreases a
  {
    forall i | 0 <= i < |a.kids| ensures a.kids[i] == b.kids[i] {
      UnfoldingIsUnique(g, a.kids[i], b.kids[i]);
    }
  }

  lemma RanksSnoc(ts: seq<Tree>, t: Tree)
    ensures RanksAll(ts + [t]) == RanksAll(ts) + Ranks(t)
  {
    Growth.RanksAllSum(ts, [t]);
    assert [t][1..] == [];
    assert RanksAll([t]) == Ranks(t) + RanksAll([]);
  }

  lemma NoRepeatsSum(a: seq<Rank>, b: seq<Rank>)
    ensures NoRepeats(a + b) <==> NoRepeats(a) && NoRepeats(b) && RanksIn(a) !! RanksIn(b)
    ensures RanksIn(a + b) == RanksIn(a) + RanksIn(b)
  {
    assert multiset(a + b) == multiset(a) + multiset(b);
    if NoRepeats(a + b) {
      forall x ensures multiset(a)[x] <= 1 && multiset(b)[x] <= 1 && !(x in a && x in b) {
        assert multiset(a + b)[x] <= 1;
      }
    }
    if NoRepeats(a) && NoRepeats(b) && RanksIn(a) !! RanksIn(b) {
      forall x ensures multiset(a + b)[x] <= 1 {
        assert multiset(a)[x] <= 1 && multiset(b)[x] <= 1;
        assert x in RanksIn(a) ==> x !in RanksIn(b);
      }
    }
  }

  lemma OnlyRank(r: Rank)
    ensures NoRepeats([r]) && RanksIn([r]) == {r}
  {
  }

  /** Adding one more fresh child keeps the children fresh. */
  lemma FreshSnoc(g: Edges, ts: seq<Tree>, ranks: seq<Rank>, seen: set<Rank>, t: Tree, c: Rank)
    requires FreshTrees(g, ts, ranks, seen) && FreshTree(g, t, c, seen + RanksIn(RanksAll(ts)))
    ensures FreshTrees(g, ts + [t], ranks + [c], seen)
    ensures RanksIn(RanksAll(ts + [t])) == RanksIn(RanksAll(ts)) + RanksIn(Ranks(t))
  {
    RanksSnoc(ts, t);
    NoRepeatsSum(RanksAll(ts), Ranks(t));
  }

  /** A node over fresh children is fresh. */
  lemma FreshNode(g: Edges, tr: Tree, seen: set<Rank>)
    requires tr.rank in g.children && tr.rank in g.hosts && tr.rank !in seen
    requires tr.name == Name(g.hosts[tr.rank], g.port) && tr.isBackend == (g.backends && tr.kids == [])
    requires FreshTrees(g, tr.kids, g.children[tr.rank], seen + {tr.rank})
    ensures FreshTree(g, tr, tr.rank, seen)
    ensures RanksIn(Ranks(tr)) == {tr.rank} + RanksIn(RanksAll(tr.kids))
  {
    OnlyRank(tr.rank);
    NoRepeatsSum([tr.rank], RanksAll(tr.kids));
  }

  lemma MiddleApart(p: Rank, a: seq<Rank>, k: seq<Rank>, y: seq<Rank>, seen: set<Rank>)
    requires NoRepeats([p] + (a + k + y)) && RanksIn([p] + (a + k + y)) !! seen
    ensures NoRepeats(k) && RanksIn(k) !! seen + {p} + RanksIn(a)
  {
    OnlyRank(p);
    NoRepeatsSum([p], a + k + y);
    NoRepeatsSum(a + k, y);
    NoRepeatsSum(a, k);
  }

  lemma RanksAround(ts: seq<Tree>, i: nat)
    requires i < |ts|
    ensures RanksAll(ts) == RanksAll(ts[..i]) + Ranks(ts[i]) + RanksAll(ts[i + 1..])
  {
    var elder, younger := ts[..i], ts[i + 1..];
    Growth.RanksAllSum(elder + [ts[i]], younger);
    RanksSnoc(elder, ts[i]);
    AroundAt(ts, i);
  }

  lemma AroundAt(ts: seq<Tree>, i: nat)
    requires i < |ts|
    ensures ts == ts[..i] + [ts[i]] + ts[i + 1..]
  {
  }

  /** A planned child is fresh with respect to its parent and its elder siblings. */
  lemma PlannedChild(g: Edges, plan: Tree, seen: set<Rank>, i: nat)
    requires FreshTree(g, plan, plan.rank, seen) && i < |plan.kids|
    ensures i < |g.children[plan.rank]| && plan.kids[i].rank == g.children[plan.rank][i]
    ensures FreshTree(g, plan.kids[i], plan.kids[i].rank, seen + {plan.rank} + RanksIn(RanksAll(plan.kids[..i])))
  {
    assert UnfoldsAll(g, plan.kids, g.children[plan.rank]);
    RanksAround(plan.kids, i);
    MiddleApart(plan.rank, RanksAll(plan.kids[..i]), Ranks(plan.kids[i]), RanksAll(plan.kids[i + 1..]), seen);
  }

  /** Part way through a node's children: the first i subtrees are fresh and visited. */
  ghost predicate Midway(g: Edges, node: Rank, seen: set<Rank>, visited: set<Rank>, kids: seq<Tree>, i: nat) {
    && node in g.children && i <= |g.children[node]|
    && FreshTrees(g, kids, g.children[node][..i], seen + {node})
    && visited == seen + {node} + RanksIn(RanksAll(kids))
  }

  lemma MidwayNext(g: Edges, node: Rank, seen: set<Rank>, visited: set<Rank>, kids: seq<Tree>, i: nat, kid: Tree)
    requires Midway(g, node, seen, visited, kids, i) && i < |g.children[node]|
    requires FreshTree(g, kid, g.children[node][i], visited)
    ensures Midway(g, node, seen, visited + RanksIn(Ranks(kid)), kids + [kid], i + 1)
  {
    var ranks := g.children[node];
    assert ranks[..i + 1] == ranks[..i] + [ranks[i]];
    FreshSnoc(g, kids, ranks[..i], seen + {node}, kid, ranks[i]);
  }

  lemma MidwayDone(g: Edges, tr: Tree, seen: set<Rank>, visited: set<Rank>)
    requires ClosedEdges(g) && tr.rank in g.children && tr.rank !in seen
    requires tr.name == Name(g.hosts[tr.rank], g.port) && tr.isBackend == (g.backends && tr.kids == [])
    requires Midway(g, tr.rank, seen, visited, tr.kids, |g.children[tr.rank]|)
    ensures FreshTree(g, tr, tr.rank, seen) && visited == seen + RanksIn(Ranks(tr))
  {
    assert g.children[tr.rank][..|g.children[tr.rank]|] == g.children[tr.rank];
    FreshNode(g, tr, seen);
  }

  /** The part of the plan the traversal has already followed. */
  ghost predicate OnPlan(g: Edges, plan: Option<Tree>, node: Rank, seen: set<Rank>) {
    plan.Some? && FreshTree(g, plan.value, node, seen)
  }

  ghost function KidPlan(plan: Option<Tree>, i: nat): Option<Tree> {
    if plan.Some? && i < |plan.value.kids| then Some(plan.value.kids[i]) else None
  }

  ghost predicate Followed(plan: Option<Tree>, kids: seq<Tree>, i: nat) {
    plan.Some? && i <= |plan.value.kids| && kids == plan.value.kids[..i]
  }

  lemma KidOnPlan(g: Edges, plan: Option<Tree>, node: Rank, seen: set<Rank>, visited: set<Rank>, kids: seq<Tree>, i: nat)
    requires OnPlan(g, plan, node, seen) && Midway(g, node, seen, visited, kids, i) && i < |g.children[node]|
    requires Followed(plan, kids, i)
    ensures OnPlan(g, KidPlan(plan, i), g.children[node][i], visited)
  {
    assert UnfoldsAll(g, plan.value.kids, g.children[node]);
    PlannedChild(g, plan.value, seen, i);
  }

  lemma KidFollowed(g: Edges, plan: Option<Tree>, node: Rank, seen: set<Rank>, kids: seq<Tree>, i: nat, kid: Tree)
    requires OnPlan(g, plan, node, seen) && i < |g.children[node]| && Followed(plan, kids, i)
    requires Unfolds(g, kid) && kid.rank == g.children[node][i]
    ensures Followed(plan, kids + [kid], i + 1)
  {
    assert UnfoldsAll(g, plan.value.kids, g.children[node]);
    UnfoldingIsUnique(g, kid, plan.value.kids[i]);
  }

  /** What holds between a node's children, the node having been entered with `seen` visited. */
  ghost predicate Traversing(g: Edges, node: Rank, seen: set<Rank>, plan: Option<Tree>, free0: bool,
                             kids: seq<Tree>, i: nat, visited: set<Rank>, free: bool, count: nat)
  {
    && seen + {node} <= visited <= g.children.Keys
    && count == |visited - seen|
    && (!free0 ==> !free)
    && (free ==> Midway(g, node, seen, visited, kids, i))
    && (free0 && OnPlan(g, plan, node, seen) ==> free && Followed(plan, kids, i))
  }

  lemma TraversingPlan(g: Edges, node: Rank, seen: set<Rank>, plan: Option<Tree>, free0: bool,
                       kids: seq<Tree>, i: nat, visited: set<Rank>, free: bool, count: nat)
    requires Traversing(g, node, seen, plan, free0, kids, i, visited, free, count)
    requires node in g.children && i < |g.children[node]|
    ensures free0 && OnPlan(g, plan, node, seen) ==> OnPlan(g, KidPlan(plan, i), g.children[node][i], visited)
  {
    if free0 && OnPlan(g, plan, node, seen) {
      KidOnPlan(g, plan, node, seen, visited, kids, i);
    }
  }

  /** One more child: `kid`, `after`, `free'` and `more` are what its own traversal left and returned. */
  lemma TraversingNext(g: Edges, node: Rank, seen: set<Rank>, plan: Option<Tree>, free0: bool,
                       kids: seq<Tree>, i: nat, visited: set<Rank>, free: bool, count: nat,
                       kid: Tree, after: set<Rank>, free': bool, more: nat)
    requires Traversing(g, node, seen, plan, free0, kids, i, visited, free, count)
    requires node in g.children && i < |g.children[node]|
    requires visited <= after <= g.children.Keys && more == |after - visited| && (!free ==> !free')
    requires free' ==> FreshTree(g, kid, g.children[node][i], visited) && after == visited + RanksIn(Ranks(kid))
    requires free0 && OnPlan(g, plan, node, seen) ==> free'
    ensures Traversing(g, node, seen, plan, free0, kids + [kid], i + 1, after, free', count + more)
  {
    CountMore(seen, visited, after);
    if free' {
      MidwayNext(g, node, seen, visited, kids, i, kid);
      if free0 && OnPlan(g, plan, node, seen) {
        KidFollowed(g, plan, node, seen, kids, i, kid);
      }
    }
  }

  // ---------------------------------------------------------------- the object

  class ParsedGraph {
    const g: Edges
    const root: Rank
    var visited: set<Rank>
    var cycleFree: bool
    var fullyConnected: bool

    constructor (g: Edges, root: Rank)
      ensures this.g == g && this.root == root
      ensures visited == {} && cycleFree && fullyConnected
    {
      this.g, this.root := g, root;
      visited, cycleFree, fullyConnected := {}, true, true;
    }

    /**
     * preorder_traversal. If no node is met twice the subgraph is the returned tree, and if the
     * subgraph is a planned tree no node is met twice.
     */
    method PreorderTraversal(node: Rank, ghost plan: Option<Tree>) returns (nodesVisited: nat, ghost tr: Tree)
      requires ClosedEdges(g) && node in g.children && visited <= g.children.Keys
      modifies `visited, `cycleFree
      ensures old(visited) <= visited <= g.children.Keys && node in visited
      ensures nodesVisited == |visited - old(visited)|
      ensures node in old(visited) ==> !cycleFree
      ensures !old(cycleFree) ==> !cycleFree
      ensures cycleFree ==> FreshTree(g, tr, node, old(visited)) && visited == old(visited) + RanksIn(Ranks(tr))
      ensures old(cycleFree) && OnPlan(g, plan, node, old(visited)) ==> cycleFree
      decreases g.children.Keys - visited, 0
    {
      ghost var seen := visited;
      tr := Node(node, Name(g.hosts[node], g.port), g.backends && g.children[node] == [], []);
      if node in visited {
        cycleFree := false;
        return 0, tr;
      }
      visited := visited + {node};
      assert visited - seen == {node};
      ghost var kids;
      nodesVisited, kids := TraverseChildren(node, seen, plan);
      tr := tr.(kids := kids);
      if cycleFree {
        MidwayDone(g, tr, seen, visited);
      }
    }

    /** The loop over the children of a node that has just been visited. */
    method TraverseChildren(node: Rank, ghost seen: set<Rank>, ghost plan: Option<Tree>)
      returns (nodesVisited: nat, ghost kids: seq<Tree>)
      requires ClosedEdges(g) && node in g.children
      requires Traversing(g, node, seen, plan, cycleFree, [], 0, visited, cycleFree, 1)
      modifies `visited, `cycleFree
      ensures Traversing(g, node, seen, plan, old(cycleFree), kids, |g.children[node]|, visited, cycleFree, nodesVisited)
      ensures old(visited) <= visited
      decreases g.children.Keys - visited, 2
    {
      nodesVisited, kids := 1, [];
      for i := 0 to |g.children[node]|
        invariant Traversing(g, node, seen, plan, old(cycleFree), kids, i, visited, cycleFree, nodesVisited)
        invariant old(visited) <= visited
      {
        ghost var kid;
        nodesVisited, kid := TraverseChild(node, i, nodesVisited, seen, plan, old(cycleFree), kids);
        kids := kids + [kid];
      }
    }

    /** The body of the traversal's loop: the i-th child, added to the count so far. */
    method TraverseChild(node: Rank, i: nat, count: nat, ghost seen: set<Rank>, ghost plan: Option<Tree>,
                         ghost free0: bool, ghost kids: seq<Tree>) returns (total: nat, ghost kid: Tree)
      requires ClosedEdges(g) && node in g.children && i < |g.children[node]|
      requires Traversing(g, node, seen, plan, free0, kids, i, visited, cycleFree, count)
      modifies `visited, `cycleFree
      ensures Traversing(g, node, seen, plan, free0, kids + [kid], i + 1, visited, cycleFree, total)
      ensures old(visited) <= visited
      decreases g.children.Keys - visited, 1
    {
      TraversingPlan(g, node, seen, plan, free0, kids, i, visited, cycleFree, count);
      var more;
      more, kid := PreorderTraversal(g.children[node][i], KidPlan(plan, i));
      TraversingNext(g, node, seen, plan, free0, kids, i, old(visited), old(cycleFree), count, kid, visited, cycleFree, more);
      total := count + more;
    }

    /** serialize: appends the text of the subgraph, which must be a tree or the recursion does not end. */
    method Serialize(node: Rank, graph: Graph, ghost tr: Tree)
      requires Unfolds(g, tr) && tr.rank == node
      modifies graph`byteArray
      ensures graph.byteArray == old(graph.byteArray) + Print(tr)
      decreases tr
    {
      ghost var text := graph.byteArray;
      assert UnfoldsAll(g, tr.kids, g.children[node]);
      if |g.children[node]| == 0 && g.backends {
        graph.AddLeaf(Name(g.hosts[node], g.port), node);
        return;
      }
      graph.AddSubTreeRoot(Name(g.hosts[node], g.port), node);
      assert graph.byteArray == text + (Head(tr) + PrintAll(tr.kids[..0]));
      for i := 0 to |g.children[node]|
        invariant graph.byteArray == text + (Head(tr) + PrintAll(tr.kids[..i]))
      {
        Serialize(g.children[node][i], graph, tr.kids[i]);
        AppendKid(text, tr, tr.kids[..i], tr.kids[i]);
        assert tr.kids[..i] + [tr.kids[i]] == tr.kids[..i + 1];
      }
      assert tr.kids[..|tr.kids|] == tr.kids;
      graph.EndSubTree();
      assert text + (Head(tr) + PrintAll(tr.kids)) + "]" == text + (Head(tr) + PrintAll(tr.kids) + "]");
    }

    /** get_SerializedGraphString: the text of what the graph unfolds to, which in a validated graph is its spanning tree. */
    method GetSerializedGraphString() returns (text: string, ghost tr: Tree)
      requires exists all :: Unfolds(g, all) && all.rank == root
      ensures Unfolds(g, tr) && tr.rank == root && text == Print(tr)
      ensures IsTree(g, root) ==> FreshTree(g, tr, root, {}) && RanksIn(Ranks(tr)) == g.children.Keys
    {
      var graph := new Graph("");
      tr :| Unfolds(g, tr) && tr.rank == root;
      Serialize(root, graph, tr);
      text := graph.byteArray;
      assert "" + Print(tr) == Print(tr);
      if IsTree(g, root) {
        var spanning :| FreshTree(g, spanning, root, {}) && RanksIn(Ranks(spanning)) == g.children.Keys;
        UnfoldingIsUnique(g, tr, spanning);
      }
    }

    /** validate, on a graph nothing has traversed before. */
    method Validate() returns (ok: bool)
      requires ClosedEdges(g) && root in g.children && visited <= g.children.Keys
      modifies this
      ensures old(visited) == {} && old(cycleFree) && old(fullyConnected) ==> (ok <==> IsTree(g, root))
      ensures root in old(visited) ==> !ok
      ensures root in visited
    {
      ghost var plan := None;
      if tree :| FreshTree(g, tree, root, {}) && RanksIn(Ranks(tree)) == g.children.Keys {
        plan := Some(tree);
      }
      ghost var before := visited;
      var visitedNodes, tr := PreorderTraversal(root, plan);
      if visitedNodes != |g.children| {
        fullyConnected := false;
      }
      ok := cycleFree && fullyConnected;
      if before == {} {
        assert visited - {} == visited;
        if cycleFree {
          Spans(g, root, tr, plan, visited);
        }
      }
    }
  }

  lemma Spans(g: Edges, root: Rank, tr: Tree, plan: Option<Tree>, visited: set<Rank>)
    requires FreshTree(g, tr, root, {}) && visited == {} + RanksIn(Ranks(tr)) && visited <= g.children.Keys
    requires plan.Some? ==> FreshTree(g, plan.value, root, {}) && RanksIn(Ranks(plan.value)) == g.children.Keys
    requires plan.None? ==> !IsTree(g, root)
    ensures |visited| == |g.children| <==> IsTree(g, root)
  {
    if |visited| == |g.children| {
      CountMore({}, visited, g.children.Keys);
      assert g.children.Keys - {} == g.children.Keys && visited - {} == visited;
      assert visited == g.children.Keys;
      assert IsTree(g, root);
    }
    if plan.Some? {
      UnfoldingIsUnique(g, tr, plan.value);
    }
  }

  lemma CountMore(a: set<Rank>, b: set<Rank>, c: set<Rank>)
    requires a <= b <= c
    ensures |c - a| == |b - a| + |c - b|
  {
    assert c - a == (b - a) + (c - b);
  }
}
