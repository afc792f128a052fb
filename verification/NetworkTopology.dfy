/**
 * The topology object: the table of node records, the root and the orphans.  A pointer from one
 * node to another is that node's rank.  View() is the value the object stands for; every update
 * is proved to do to that value what Forest says, reading a text to do what Hanging says, and every
 * traversal to compute what Trees and Recovery say.
 */
module NetworkTopology {
  import opened Prelude
  import opened Forest
  import opened Trees
  import opened Recovery
  import opened Proximity
  import opened SerialGraph
  import opened Growth
  import opened Hanging
  import opened Mixing

  datatype NodeRec = NodeRec(
    name: Name, parent: Option<Rank>, children: set<Rank>, ascendants: set<Rank>, isBackend: bool)

  class Topology {
    var root: Option<Rank>
    var nodes: map<Rank, NodeRec>
    var orphans: set<Rank>

    ghost function View(): Topo
      reads this
    {
      ViewOf(root, nodes, orphans)
    }

    /** A topology that holds just this process. */
    constructor (name: Name, rank: Rank, isBackend: bool)
      ensures View() == Topo(Some(rank), map[rank := name], map[rank := None], map[rank := {}], {},
                             if isBackend then {rank} else {})
      ensures Exact(Here())
    {
      root, orphans := Some(rank), {};
      nodes := map[rank := NodeRec(name, None, {}, {}, isBackend)];
      new;
      OneRow(rank, NodeRec(name, None, {}, {}, isBackend));
      LoneRootExact(Here());
    }

    /** The topology together with the ascendant set kept at each node. */
    ghost function Here(): Known
      reads this
    {
      Known(View(), AscendantsOf(nodes))
    }

    method SetParent(childRank: Rank, newParentRank: Rank) returns (ok: bool)
      requires Linked(View())
      modifies this
      ensures (View(), ok) == Forest.SetParent(old(View()), childRank, newParentRank)
      ensures Linked(View())
      ensures AscendantsOf(nodes) ==
        if ok && old(View()).parent[childRank] != Some(newParentRank)
        then AscendantsOf(old(nodes))[childRank := AscendantsOf(old(nodes))[newParentRank] + {newParentRank}]
        else AscendantsOf(old(nodes))
    {
      SetParentLinked(View(), childRank, newParentRank);
      if childRank !in nodes || newParentRank !in nodes {
        return false;
      }
      var oldParent := nodes[childRank].parent;
      assert View().parent[childRank] == oldParent;
      if oldParent.Some? {
        if oldParent == Some(newParentRank) {
          return true;
        }
        RemoveChild(oldParent.value, childRank);
      }
      MoveSteps(old(View()), childRank, newParentRank);
      PointToParent(childRank, newParentRank);
      AddChild(newParentRank, childRank);
      RemoveOrphan(childRank);
      InheritAscendants(childRank, newParentRank);
      ok := true;
    }

    method RemoveChild(p: Rank, c: Rank)
      requires p in nodes
      modifies `nodes
      ensures nodes.Keys == old(nodes).Keys && AscendantsOf(nodes) == AscendantsOf(old(nodes))
      ensures View() == old(View()).(kids := old(View()).kids[p := old(View()).kids[p] - {c}])
    {
      StoredChildren(nodes, p, nodes[p].children - {c});
      nodes := nodes[p := nodes[p].(children := nodes[p].children - {c})];
    }

    method AddChild(p: Rank, c: Rank)
      requires p in nodes
      modifies `nodes
      ensures nodes.Keys == old(nodes).Keys && AscendantsOf(nodes) == AscendantsOf(old(nodes))
      ensures View() == old(View()).(kids := old(View()).kids[p := old(View()).kids[p] + {c}],
                                     backends := old(View()).backends - {p})
    {
      StoredFlag(nodes, p);
      nodes := nodes[p := nodes[p].(isBackend := false)];
      StoredChildren(nodes, p, nodes[p].children + {c});
      nodes := nodes[p := nodes[p].(children := nodes[p].children + {c})];
    }

    method PointToParent(c: Rank, p: Rank)
      requires c in nodes
      modifies `nodes
      ensures nodes.Keys == old(nodes).Keys && AscendantsOf(nodes) == AscendantsOf(old(nodes))
      ensures View() == old(View()).(parent := old(View()).parent[c := Some(p)])
    {
      StoredParent(nodes, c, Some(p));
      nodes := nodes[c := nodes[c].(parent := Some(p))];
    }

    method InheritAscendants(c: Rank, p: Rank)
      requires c in nodes && p in nodes
      modifies `nodes
      ensures nodes.Keys == old(nodes).Keys
      ensures AscendantsOf(nodes) == AscendantsOf(old(nodes))[c := AscendantsOf(old(nodes))[p] + {p}]
      ensures View() == old(View())
    {
      ghost var was := AscendantsOf(nodes);
      StoredAscendants(nodes, c, nodes[p].ascendants);
      nodes := nodes[c := nodes[c].(ascendants := nodes[p].ascendants)];
      StoredAscendants(nodes, c, nodes[c].ascendants + {p});
      nodes := nodes[c := nodes[c].(ascendants := nodes[c].ascendants + {p})];
      ReplacedTwice(was, c, was[p], was[p] + {p});
    }

    method RemoveOrphan(r: Rank)
      modifies `orphans
      ensures View() == old(View()).(orphans := if r in nodes then old(View()).orphans - {r} else old(View()).orphans)
    {
      if r in nodes {
        orphans := orphans - {r};
      }
    }

    /** Removes a node; the children it leaves behind become orphans. */
    method RemoveNode(rank: Rank) returns (ok: bool)
      requires Linked(View())
      modifies this
      ensures (View(), ok) == Forest.RemoveNode(old(View()), rank)
      ensures Linked(View())
    {
      RemoveLinked(View(), rank);
      if rank !in nodes {
        return false;
      }
      ghost var was := View();
      var p := nodes[rank].parent;
      assert was.parent[rank] == p;
      if p.Some? {
        RemoveChild(p.value, rank);
      }
      var left := nodes[rank].children;
      RemovalSteps(was, rank);
      assert left == View().kids[rank];
      Erase(rank);
      forall c | c in left ensures c in nodes && nodes[c].parent == Some(rank) {
        assert c in View().parent && View().parent[c] == Some(rank);
      }
      OrphanChildren(rank, left);
      ok := true;
    }

    /** Drops the node from the root pointer and from every index. */
    method Erase(rank: Rank)
      modifies this
      ensures nodes == old(nodes) - {rank}
      ensures View() == Erased(old(View()), rank)
    {
      RowDropped(nodes, rank);
      if root == Some(rank) {
        root := None;
      }
      nodes := nodes - {rank};
      orphans := orphans - {rank};
    }

    /** The loop of remove_Node over the children of the node that is going. */
    method OrphanChildren(rank: Rank, left: set<Rank>)
      requires forall c :: c in left ==> c in nodes && nodes[c].parent == Some(rank)
      modifies this
      ensures View() == Orphaned(old(View()), left)
    {
      var rest := left;
      while rest != {}
        invariant rest <= left
        invariant forall c :: c in left ==> c in nodes
        invariant forall c :: c in rest ==> nodes[c].parent == Some(rank)
        invariant View() == Orphaned(old(View()), left - rest)
        decreases rest
      {
        var c :| c in rest;
        OrphanedMore(old(View()), left - rest, c);
        assert left - (rest - {c}) == (left - rest) + {c};
        CutLoose(c, rank);
        rest := rest - {c};
      }
      assert left - {} == left;
    }

    method CutLoose(c: Rank, p: Rank)
      requires c in nodes && nodes[c].parent == Some(p)
      modifies this
      ensures nodes == old(nodes)[c := old(nodes)[c].(parent := None)]
      ensures View() == old(View()).(parent := old(View()).parent[c := None], orphans := old(View()).orphans + {c})
    {
      StoredParent(nodes, c, None);
      nodes := nodes[c := nodes[c].(parent := None)];
      orphans := orphans + {c};
    }

    /** new_Node followed by set_Parent: a fresh node under a live one. */
    method AddNode(name: Name, rank: Rank, under: Rank, isBackend: bool)
      requires Kept(Here()) && rank !in nodes && under in nodes
      modifies this
      ensures View() == Forest.AddNode(old(View()), rank, name, under, isBackend)
      ensures AscendantsOf(nodes) == AscendantsOf(old(nodes))[rank := AscendantsOf(old(nodes))[under] + {under}]
    {
      ghost var t, up := View(), AscendantsOf(nodes);
      AdditionSteps(t, rank, name, under, isBackend);
      Allocate(name, rank, isBackend);
      assert View() == Allocated(t, rank, name, isBackend);
      var ok := SetParent(rank, under);
      assert (View(), ok) == (Forest.AddNode(t, rank, name, under, isBackend), true);
      ReplacedTwice(up, rank, {}, up[under] + {under});
    }

    method Allocate(name: Name, rank: Rank, isBackend: bool)
      requires rank !in nodes
      modifies `nodes
      ensures nodes.Keys == old(nodes.Keys) + {rank}
      ensures View() == Allocated(old(View()), rank, name, isBackend)
      ensures AscendantsOf(nodes) == AscendantsOf(old(nodes))[rank := {}]
    {
      Stored(nodes, rank, NodeRec(name, None, {}, {}, isBackend));
      FreshRow(nodes, rank);
      nodes := nodes[rank := NodeRec(name, None, {}, {}, isBackend)];
    }

    // The traversals walk the child sets in whatever order the set yields; `seen` is the tree in that order.

    /** get_Descendants: everything below a node, parents before children. */
    method GetDescendants(r: Rank, ghost tr: Tree) returns (out: seq<Rank>, ghost seen: Tree)
      requires Represents(View(), tr) && tr.rank == r
      ensures Represents(View(), seen) && seen.rank == r && out == RanksAll(seen.kids)
      decreases tr
    {
      out := [];
      ghost var done: seq<Tree> := [];
      var rest := nodes[r].children;
      while rest != {}
        invariant Visited(View(), r, rest, done) && out == RanksAll(done)
        decreases rest
      {
        var c :| c in rest;
        ghost var i := NextKid(View(), tr, rest, done, c);
        var below;
        ghost var sub;
        below, sub := GetDescendants(c, tr.kids[i]);
        out := out + [c];
        out := out + below;
        VisitedMore(View(), r, rest, done, sub);
        rest, done := rest - {c}, done + [sub];
      }
      seen := tr.(kids := done);
      VisitedAll(View(), tr, done);
    }

    /** find_SubTreeHeight. */
    method FindSubTreeHeight(r: Rank, ghost tr: Tree) returns (height: nat)
      requires Represents(View(), tr) && tr.rank == r
      ensures height == Height(tr)
      decreases tr
    {
      if nodes[r].children == {} {
        NoKids(tr);
        return 0;
      }
      RootsAll(tr.kids);
      var maxHeight := 0;
      var rest := nodes[r].children;
      while rest != {}
        invariant rest <= nodes[r].children
        invariant forall i :: 0 <= i < |tr.kids| && tr.kids[i].rank !in rest ==> Height(tr.kids[i]) <= maxHeight
        invariant maxHeight == 0 || exists i :: 0 <= i < |tr.kids| && Height(tr.kids[i]) == maxHeight
        decreases rest
      {
        var c :| c in rest;
        ghost var i := KidAt(tr.kids, c);
        KidFacts(View(), tr.kids, i);
        var cur := FindSubTreeHeight(c, tr.kids[i]);
        maxHeight := if cur > maxHeight then cur else maxHeight;
        forall j | 0 <= j < |tr.kids| && tr.kids[j].rank == c ensures j == i {
          DistinctIndex(tr.kids, i, j);
        }
        rest := rest - {c};
      }
      HeightAllIsMax(tr.kids, maxHeight);
      height := maxHeight + 1;
    }

    /** find_PotentialAdopters: the search from one candidate downwards. */
    method FindPotentialAdopters(orphan: Rank, candidate: Rank, ghost tr: Tree) returns (out: seq<Rank>, ghost seen: Tree)
      requires orphan in nodes && Represents(View(), tr) && tr.rank == candidate
      ensures Represents(View(), seen) && seen.rank == candidate
      ensures out == AdopterList(seen, View().parent[orphan])
      decreases tr
    {
      if nodes[orphan].parent == Some(candidate) || nodes[candidate].isBackend {
        return [], tr;
      }
      out := [candidate];
      ghost var done: seq<Tree> := [];
      var rest := nodes[candidate].children;
      while rest != {}
        invariant Visited(View(), candidate, rest, done)
        invariant out == [candidate] + AdopterListAll(done, View().parent[orphan])
        decreases rest
      {
        var c :| c in rest;
        ghost var i := NextKid(View(), tr, rest, done, c);
        var below;
        ghost var sub;
        below, sub := FindPotentialAdopters(orphan, c, tr.kids[i]);
        out := out + below;
        VisitedMore(View(), candidate, rest, done, sub);
        AdoptersMore(done, sub, View().parent[orphan]);
        rest, done := rest - {c}, done + [sub];
      }
      seen := tr.(kids := done);
      VisitedAll(View(), tr, done);
    }

    /** find_NewParent on a first attempt: some entry of the list of potential adopters, if there is one. */
    method FindNewParent(orphan: Rank) returns (adopter: Option<Rank>)
      requires Inv(View()) && root.Some?
      ensures adopter.Some? ==> CanAdopt(View(), orphan, adopter.value)
      ensures adopter == None ==> forall x :: !CanAdopt(View(), orphan, x)
    {
      if orphan !in nodes {
        return None;
      }
      ghost var tr := TreeAt(View(), root.value, {});
      var found;
      ghost var seen;
      found, seen := FindPotentialAdopters(orphan, root.value, tr);
      forall x ensures x in found <==> CanAdopt(View(), orphan, x) {
        SearchFindsAdopters(View(), seen, orphan, x);
      }
      if found == [] {
        return None;
      }
      var pick :| 0 <= pick < |found|;
      adopter := Some(found[pick]);
    }

    /**
     * get_Proximity: the number of links between this node and an orphan.  The first rank met on the way up from this
     * node that the orphan lists as an ascendant must really lie above the orphan, or the second loop runs off the top.
     * When none is met the result is the unsigned -1.  With exact ascendant sets the result is the distance exactly when
     * the node is not below the orphan.
     */
    method GetProximity(self: Rank, orphan: Rank) returns (d: nat)
      requires Inv(View()) && self in nodes && orphan in nodes
      requires forall i: nat :: FirstListed(View(), nodes[orphan].ascendants, self, i) ==>
        InSubtree(View(), Climb(View(), self, i).value, orphan)
      ensures (forall i: nat :: !FirstListed(View(), nodes[orphan].ascendants, self, i)) ==> d == 0xFFFF_FFFF
      ensures forall i: nat, j: nat ::
        FirstListed(View(), nodes[orphan].ascendants, self, i) && Climb(View(), orphan, j) == Climb(View(), self, i)
        ==> d == i + j
      ensures Exact(Here()) && (exists i: nat :: FirstMeeting(View(), self, i, orphan)) ==>
        (Distance(View(), self, orphan, d) <==> !InSubtree(View(), orphan, self))
    {
      ghost var t, up := View(), nodes[orphan].ascendants;
      var common, nodeDistance := ClosestAscendant(self, orphan);
      if common == None {
        forall i: nat ensures Exact(Here()) ==> !FirstMeeting(t, self, i, orphan) {
          if Exact(Here()) {
            ListedIsMeeting(t, AscendantsOf(nodes), self, i, orphan);
          }
        }
        return 0xFFFF_FFFF;
      }
      var orphanDistance := ClimbTo(orphan, common.value);
      d := nodeDistance + orphanDistance;
      ProximityUnique(t, up, self, nodeDistance, orphan, orphanDistance);
      if Exact(Here()) {
        ListedIsMeeting(t, AscendantsOf(nodes), self, nodeDistance, orphan);
        ProximityMeans(t, self, nodeDistance, orphan, orphanDistance);
      }
    }

    /** The first loop of get_Proximity: the first rank on the way up that the orphan lists as an ascendant. */
    method ClosestAscendant(self: Rank, orphan: Rank) returns (common: Option<Rank>, steps: nat)
      requires Inv(View()) && self in nodes && orphan in nodes
      ensures common.Some? ==>
        FirstListed(View(), nodes[orphan].ascendants, self, steps) && Climb(View(), self, steps) == common
      ensures common == None ==> forall i: nat :: !FirstListed(View(), nodes[orphan].ascendants, self, i)
    {
      ghost var t, up := View(), nodes[orphan].ascendants;
      assert Grounded(t, self);
      ghost var n: nat :| Climb(t, self, n) == None;
      common, steps := Some(self), 0;
      while common.Some? && common.value !in nodes[orphan].ascendants
        invariant Climb(t, self, steps) == common && NoneListed(t, up, self, steps)
        decreases common.Some?, n - steps
      {
        ClimbLive(t, self, steps);
        ClimbNext(t, self, steps);
        ClimbEndsBefore(t, self, steps, n);
        NoneListedMore(t, up, self, steps);
        common, steps := nodes[common.value].parent, steps + 1;
      }
      if common == None {
        NoneListedAtAll(t, up, self, steps);
      }
    }

    method ClimbTo(from: Rank, goal: Rank) returns (steps: nat)
      requires Inv(View()) && from in nodes && InSubtree(View(), goal, from)
      ensures Climb(View(), from, steps) == Some(goal)
    {
      ghost var t := View();
      ghost var n: nat :| Climb(t, from, n) == Some(goal);
      var cur := from;
      steps := 0;
      assert Climb(t, from, 0) == Some(from);
      while cur != goal
        invariant steps <= n && Climb(t, from, steps) == Some(cur)
        decreases n - steps
      {
        ghost var next := ClimbTowards(t, from, steps, n, goal, cur);
        assert nodes[cur].parent == Some(next);
        cur, steps := nodes[cur].parent.value, steps + 1;
      }
    }

    /** serialize: appends the text of a subtree. */
    method Serialize(r: Rank, graph: Graph, ghost tr: Tree) returns (ghost seen: Tree)
      requires Accounted(View()) && Represents(View(), tr) && tr.rank == r
      modifies graph`byteArray
      ensures Represents(View(), seen) && seen.rank == r
      ensures graph.byteArray == old(graph.byteArray) + Print(seen)
      decreases tr
    {
      ghost var t, text := View(), graph.byteArray;
      if nodes[r].isBackend {
        graph.AddLeaf(nodes[r].name, r);
        return tr;
      }
      graph.AddSubTreeRoot(nodes[r].name, r);
      ghost var done: seq<Tree> := [];
      var rest := nodes[r].children;
      while rest != {}
        invariant Visited(t, r, rest, done)
        invariant graph.byteArray == text + (Head(tr) + PrintAll(done))
        decreases rest
      {
        var c :| c in rest;
        ghost var i := NextKid(t, tr, rest, done, c);
        ghost var sub := Serialize(c, graph, tr.kids[i]);
        VisitedMore(t, r, rest, done, sub);
        AppendKid(text, tr, done, sub);
        rest, done := rest - {c}, done + [sub];
      }
      graph.EndSubTree();
      seen := tr.(kids := done);
      VisitedAll(t, tr, done);
      assert Head(seen) == Head(tr);
      assert text + (Head(tr) + PrintAll(done)) + "]" == text + (Head(tr) + PrintAll(done) + "]");
    }

    /** get_TopologyString: the text of what hangs from the root. */
    method GetTopologyString() returns (text: string, ghost seen: Tree)
      requires Inv(View()) && root.Some?
      ensures Represents(View(), seen) && View().root == Some(seen.rank) && text == Print(seen)
    {
      var graph := new Graph("");
      ghost var tr := TreeAt(View(), root.value, {});
      seen := Serialize(root.value, graph, tr);
      text := graph.byteArray;
    }

    /** add_SubGraph by rank: nothing happens below a rank that is not there. */
    method AddSubGraph(under: Rank, sg: Graph, ghost tr: Tree) returns (ok: bool)
      requires Kept(Here()) && sg.byteArray == Print(tr) && Printable(tr)
      modifies this, sg`bufIdx
      ensures ok == (under in old(nodes))
      ensures Here() == if ok then Hang(old(Here()), under, tr) else old(Here())
      ensures ok && Exact(old(Here())) && Fresh(old(View()), [tr]) ==>
        Exact(Here()) && Grown(old(View()), View(), under, [tr])
      ensures ok && Inv(old(View())) && NoRepeats(Ranks(tr)) && NamesNoneAbove(old(View()), under, tr) ==>
        HasLinksOf(old(View()), View(), under, tr)
    {
      ok := under in nodes;
      if ok {
        ghost var was := Here();
        HangSubGraph(under, sg, tr);
        if Inv(was.t) && NoRepeats(Ranks(tr)) && NamesNoneAbove(was.t, under, tr) {
          HangMeans(was, under, tr);
        }
        if Exact(was) && Fresh(was.t, [tr]) {
          HangGrows(was, under, tr);
        }
      }
    }

    /** add_SubGraph: hangs the tree a text describes under a node, whether its ranks are new or known. */
    method HangSubGraph(under: Rank, sg: Graph, ghost tr: Tree)
      requires Kept(Here()) && under in nodes && sg.byteArray == Print(tr) && Printable(tr)
      modifies this, sg`bufIdx
      ensures Here() == Hang(old(Here()), under, tr)
      decreases tr, 2
    {
      var rank := PlaceRoot(under, sg, tr);
      HangChildren(rank, sg, tr);
    }

    /** Reads the fields of the root of a text, adds that node unless its rank is known, and puts it under a node. */
    method PlaceRoot(under: Rank, sg: Graph, ghost tr: Tree) returns (rank: Rank)
      requires Kept(Here()) && under in nodes && sg.byteArray == Print(tr) && Printable(tr)
      modifies this
      ensures rank == tr.rank && Here() == Placed(old(Here()), under, tr)
    {
      PrintStarts(tr);
      rank := RootRank(sg.byteArray);
      if rank !in nodes {
        var leaf := sg.IsRootBackEnd();
        AddNode(Name(RootHostName(sg.byteArray), RootPort(sg.byteArray)), rank, under, leaf);
      } else {
        SetParentFinds(View(), rank, under);
        var _ := SetParent(rank, under);
      }
    }

    /** The loop over the children of a text, for a node that is already in place. */
    method HangChildren(rank: Rank, sg: Graph, ghost tr: Tree)
      requires Kept(Here()) && rank == tr.rank && rank in nodes && sg.byteArray == Print(tr) && Printable(tr)
      modifies this, sg`bufIdx
      ensures Here() == HangAll(old(Here()), rank, tr.kids)
      decreases tr, 1
    {
      var child := FirstChildOf(sg, tr);
      ghost var m, i := Here(), 0;
      NoneHung(m, rank, tr.kids);
      while child != null
        invariant child != null ==> fresh(child)
        invariant AtChild(child, sg, tr, i)
        invariant HungSoFar(Here(), m, rank, tr.kids, i)
        decreases |tr.kids| - i
      {
        HangChild(rank, child, m, tr, i);
        i := i + 1;
        child := NextChildOf(sg, tr, i);
      }
      AllHung(Here(), m, rank, tr.kids, i);
    }

    method HangChild(rank: Rank, child: Graph, ghost m: Known, ghost tr: Tree, ghost i: nat)
      requires i < |tr.kids| && HungSoFar(Here(), m, rank, tr.kids, i)
      requires child.byteArray == Print(tr.kids[i]) && PrintableAll(tr.kids)
      modifies this, child`bufIdx
      ensures HungSoFar(Here(), m, rank, tr.kids, i + 1)
      decreases tr, 0
    {
      assert Kept(Here()) && rank in View().parent;
      PrintableKid(tr.kids, i);
      HangSubGraph(rank, child, tr.kids[i]);
      OneMoreHung(m, rank, tr.kids, i);
    }

    static method FirstChildOf(sg: Graph, ghost tr: Tree) returns (child: Graph?)
      requires sg.byteArray == Print(tr) && Printable(tr)
      modifies sg`bufIdx
      ensures AtChild(child, sg, tr, 0) && (child != null ==> fresh(child))
    {
      FirstGroup(tr);
      sg.SetToFirstChild();
      child := NextChildOf(sg, tr, 0);
    }

    /** get_NextChild on a text whose cursor stands before its i-th child. */
    static method NextChildOf(sg: Graph, ghost tr: Tree, ghost i: nat) returns (child: Graph?)
      requires BeforeChild(sg, tr, i)
      modifies sg`bufIdx
      ensures AtChild(child, sg, tr, i) && (child != null ==> fresh(child))
    {
      ghost var n := if i < |tr.kids| then |Print(tr.kids[i])| else 0;
      GroupReady(tr, i, sg.bufIdx, n);
      child := sg.GetNextChild(n);
    }

    /** reset: forgets everything and rebuilds the topology a text describes; the empty text describes nothing. */
    method Reset(text: string, ghost tr: Tree)
      requires text == "" || (text == Print(tr) && Printable(tr))
      modifies this
      ensures text == "" ==> View() == Topo(None, map[], map[], map[], {}, {})
      ensures text != "" ==> Kept(Alone(tr)) && Here() == HangAll(Alone(tr), tr.rank, tr.kids)
      ensures text != "" && NoRepeats(Ranks(tr)) ==>
        SingleTree(View()) && View().root == Some(tr.rank) && Represents(View(), tr) && Exact(Here())
    {
      root, nodes, orphans := None, map[], {};
      if text == "" {
        return;
      }
      LoneRootExact(Alone(tr));
      ReadText(text, tr);
      if NoRepeats(Ranks(tr)) {
        AloneGrows(tr);
      }
    }

    /** The part of reset that reads a text into a cleared topology. */
    method ReadText(text: string, ghost tr: Tree)
      requires text == Print(tr) && Printable(tr) && Kept(Alone(tr)) && orphans == {}
      modifies this
      ensures Here() == HangAll(Alone(tr), tr.rank, tr.kids)
    {
      var sg := new Graph(text);
      PrintStarts(tr);
      var leaf := sg.IsRootBackEnd();
      var rank := RootRank(text);
      InstallRoot(Name(RootHostName(text), RootPort(text)), rank, leaf);
      assert Here() == Alone(tr);
      HangChildren(rank, sg, tr);
    }

    method InstallRoot(name: Name, rank: Rank, isBackend: bool)
      requires orphans == {}
      modifies this
      ensures Here() == Alone(Node(rank, name, isBackend, []))
    {
      root := Some(rank);
      nodes := map[rank := NodeRec(name, None, {}, {}, isBackend)];
      OneRow(rank, NodeRec(name, None, {}, {}, isBackend));
    }
  }

  /** What one process sends another: the text of its whole topology, from which the other gets the very same topology. */
  method SendTopology(from: Topology, to: Topology)
    requires from != to && SingleTree(from.View()) && PrintableTopo(from.View())
    modifies to
    ensures to.View() == from.View() == old(from.View()) && Exact(to.Here())
  {
    var text;
    ghost var tr;
    text, tr := from.GetTopologyString();
    RepresentedPrintable(from.View(), tr);
    RanksOnce(from.View(), tr);
    PrintStarts(tr);
    to.Reset(text, tr);
    SameTopology(from.View(), to.View(), tr);
  }

  /** A lone root, as reset leaves it before it reads the children. */
  ghost function Alone(tr: Tree): Known {
    Known(Topo(Some(tr.rank), map[tr.rank := tr.name], map[tr.rank := None], map[tr.rank := {}], {},
               if tr.isBackend then {tr.rank} else {}),
          map[tr.rank := {}])
  }

  lemma LoneRootExact(k: Known)
    requires k.t.root.Some? && k.t.parent == map[k.t.root.value := None] && k.t.kids == map[k.t.root.value := {}]
    requires k.t.orphans == {} && k.t.backends <= {k.t.root.value} && k.t.names.Keys == {k.t.root.value}
    requires k.up == map[k.t.root.value := {}]
    ensures Kept(k) && Exact(k)
  {
    LoneRoot(k.t);
    forall a ensures !ProperAncestor(k.t, a, k.t.root.value) {}
  }

  lemma AloneGrows(tr: Tree)
    requires Kept(Alone(tr)) && Exact(Alone(tr)) && Printable(tr) && NoRepeats(Ranks(tr))
    ensures var k := HangAll(Alone(tr), tr.rank, tr.kids);
            SingleTree(k.t) && k.t.root == Some(tr.rank) && Represents(k.t, tr) && Exact(k)
  {
    FreshUnderRoot(Alone(tr).t, tr);
    HangAllGrows(Alone(tr), tr.rank, tr.kids);
    GrownFromRoot(Alone(tr).t, HangAll(Alone(tr), tr.rank, tr.kids).t, tr);
  }

  /** The cursor of a whole text stands before its i-th child. */
  ghost predicate BeforeChild(sg: Graph, tr: Tree, i: nat)
    reads sg
  {
    && sg.byteArray == Print(tr) && Printable(tr) && i <= |tr.kids|
    && sg.bufIdx == if tr.kids == [] then -1 else KidStart(tr, i)
  }

  /** child is the text of the i-th child, the cursor of the whole text stands behind it, and null stands for the end. */
  ghost predicate AtChild(child: Graph?, sg: Graph, tr: Tree, i: nat)
    reads child, sg
  {
    && i <= |tr.kids| && sg.byteArray == Print(tr) && (child == null <==> i == |tr.kids|)
    && (tr.kids == [] ==> sg.bufIdx == -1)
    && (child == null && tr.kids != [] ==> sg.bufIdx == KidStart(tr, i))
    && (child != null ==> child != sg && child.byteArray == Print(tr.kids[i]) && sg.bufIdx == KidStart(tr, i + 1))
  }

  /** Before its i-th child a printed text is ready for get_NextChild, which finds that child or nothing. */
  lemma GroupReady(tr: Tree, i: nat, at: int, n: nat)
    requires Printable(tr) && i <= |tr.kids| && at == if tr.kids == [] then -1 else KidStart(tr, i)
    requires n == if i < |tr.kids| then |Print(tr.kids[i])| else 0
    ensures GroupOrEnd(Print(tr), at, n)
    ensures at == -1 || Find(Print(tr), '[', at) == -1 <==> i == |tr.kids|
    ensures i < |tr.kids| ==> at + n <= |Print(tr)| && Print(tr)[at..at + n] == Print(tr.kids[i]) && KidStart(tr, i + 1) == at + n
  {
    if i < |tr.kids| {
      GroupAtKid(tr, i, at, n);
    } else if tr.kids != [] {
      NextGroup(tr, i);
    }
  }

  lemma GroupAtKid(tr: Tree, i: nat, at: nat, n: nat)
    requires Printable(tr) && i < |tr.kids| && at == KidStart(tr, i) && n == |Print(tr.kids[i])|
    ensures at + n <= |Print(tr)| && Print(tr)[at..at + n] == Print(tr.kids[i]) && KidStart(tr, i + 1) == at + n
    ensures Closed(Print(tr)[at..at + n]) && Print(tr)[at] == '[' && Find(Print(tr), '[', at) == at
  {
    NextGroup(tr, i);
  }

  /** The first i children are in place. */
  ghost predicate HungSoFar(here: Known, m: Known, rank: Rank, ts: seq<Tree>, i: nat) {
    i <= |ts| && Kept(m) && rank in m.t.parent && here == HangAll(m, rank, ts[..i])
  }

  lemma NoneHung(m: Known, rank: Rank, ts: seq<Tree>)
    requires Kept(m) && rank in m.t.parent
    ensures HungSoFar(m, m, rank, ts, 0)
  {
    assert ts[..0] == [];
  }

  lemma OneMoreHung(m: Known, rank: Rank, ts: seq<Tree>, i: nat)
    requires i < |ts| && Kept(m) && rank in m.t.parent
    ensures HungSoFar(Hang(HangAll(m, rank, ts[..i]), rank, ts[i]), m, rank, ts, i + 1)
  {
    SeqSnoc(ts, i);
    HangOneMore(m, rank, ts[..i], ts[i], ts[..i + 1]);
  }

  lemma AllHung(here: Known, m: Known, rank: Rank, ts: seq<Tree>, i: nat)
    requires HungSoFar(here, m, rank, ts, i) && i == |ts|
    ensures here == HangAll(m, rank, ts)
  {
    assert ts[..i] == ts;
  }

  lemma PrintStarts(tr: Tree)
    requires Printable(tr)
    ensures var s := Print(tr);
      && HasFields(s) && |s| > 0 && Find(s, ':', 1) != -1 && Find(s, ':', 2) != -1 && RankAt(s, 0) != -1
      && Name(RootHostName(s), RootPort(s)) == tr.name && RootRank(s) == tr.rank
      && (s[FlagAt(s)] == '0' <==> tr.isBackend)
  {
    var rest := PrintAll(tr.kids) + "]";
    FieldsReadBack(tr, rest);
    assert Print(tr) == Head(tr) + rest;
  }

  lemma FreshUnderRoot(t: Topo, tr: Tree)
    requires NoRepeats(Ranks(tr)) && t.parent.Keys == {tr.rank}
    ensures Fresh(t, tr.kids)
  {
    forall r ensures multiset(RanksAll(tr.kids))[r] <= 1 && (r in RanksAll(tr.kids) ==> r != tr.rank) {
      assert multiset(Ranks(tr))[r] <= 1;
    }
  }

  // ---------------------------------------------------------------- walking a child set

  /** The children of r outside `rest` have been visited, and `done` holds their trees. */
  ghost predicate Visited(t: Topo, r: Rank, rest: set<Rank>, done: seq<Tree>) {
    && r in t.kids && rest <= t.kids[r]
    && Roots(done) == t.kids[r] - rest && DistinctRoots(done) && RepresentsAll(t, done)
  }

  lemma NextKid(t: Topo, tr: Tree, rest: set<Rank>, done: seq<Tree>, c: Rank) returns (i: nat)
    requires Represents(t, tr) && Visited(t, tr.rank, rest, done) && c in rest
    ensures i < |tr.kids| && tr.kids[i].rank == c && Represents(t, tr.kids[i]) && c in t.names
  {
    i := KidAt(tr.kids, c);
    KidFacts(t, tr.kids, i);
  }

  lemma VisitedMore(t: Topo, r: Rank, rest: set<Rank>, done: seq<Tree>, sub: Tree)
    requires Visited(t, r, rest, done) && sub.rank in rest && Represents(t, sub)
    ensures Visited(t, r, rest - {sub.rank}, done + [sub])
    ensures RanksAll(done + [sub]) == RanksAll(done) + [sub.rank] + RanksAll(sub.kids)
  {
    RootsSum(t, done, sub);
    RanksAllSum(done, [sub]);
    assert [sub][1..] == [];
  }

  lemma VisitedAll(t: Topo, tr: Tree, done: seq<Tree>)
    requires Represents(t, tr) && Visited(t, tr.rank, {}, done)
    ensures Represents(t, tr.(kids := done))
  {
    assert t.kids[tr.rank] - {} == t.kids[tr.rank];
  }

  lemma NoKids(tr: Tree)
    requires Roots(tr.kids) == {}
    ensures tr.kids == []
  {
  }

  lemma {:induction false} DistinctIndex(ts: seq<Tree>, i: nat, j: nat)
    requires DistinctRoots(ts) && i < |ts| && j < |ts| && ts[i].rank == ts[j].rank
    ensures i == j
  {
    if i > 0 && j > 0 {
      DistinctIndex(ts[1..], i - 1, j - 1);
    } else if i != j {
      RootsAt(ts[1..], if i == 0 then j - 1 else i - 1);
    }
  }

  lemma {:induction false} RootsAt(ts: seq<Tree>, i: nat)
    requires i < |ts|
    ensures ts[i].rank in Roots(ts)
  {
    if i > 0 {
      RootsAt(ts[1..], i - 1);
    }
  }

  lemma RootsAll(ts: seq<Tree>)
    ensures forall i :: 0 <= i < |ts| ==> ts[i].rank in Roots(ts)
  {
    forall i | 0 <= i < |ts| ensures ts[i].rank in Roots(ts) {
      RootsAt(ts, i);
    }
  }

  lemma {:induction false} AdoptersMore(done: seq<Tree>, sub: Tree, avoid: Option<Rank>)
    ensures AdopterListAll(done + [sub], avoid) == AdopterListAll(done, avoid) + AdopterList(sub, avoid)
    decreases done
  {
    if done == [] {
      assert [sub][1..] == [];
    } else {
      assert (done + [sub])[1..] == done[1..] + [sub];
      AdoptersMore(done[1..], sub, avoid);
    }
  }

  // ---------------------------------------------------------------- updates in steps

  /** Unlinking a node from its parent, pointing it to another, and listing it there is what moving it means. */
  lemma MoveSteps(t: Topo, c: Rank, p: Rank)
    requires Linked(t) && c in t.parent && p in t.parent && t.parent[c] != Some(p)
    ensures t.parent[c].Some? ==> t.parent[c].value in t.kids
    ensures var u := Unlinked(t, c);
      && p in u.kids
      && Forest.SetParent(t, c, p).0 ==
           u.(parent := u.parent[c := Some(p)], kids := u.kids[p := u.kids[p] + {c}], backends := u.backends - {p},
              orphans := u.orphans - {c})
  {
  }

  lemma SetParentFinds(t: Topo, c: Rank, p: Rank)
    requires Linked(t)
    ensures Forest.SetParent(t, c, p).1 <==> c in t.parent && p in t.parent
  {
  }

  lemma ReplacedTwice(m: map<Rank, set<Rank>>, r: Rank, a: set<Rank>, b: set<Rank>)
    ensures m[r := a][r := b] == m[r := b]
  {
  }

  function Allocated(t: Topo, r: Rank, name: Name, isBackend: bool): Topo {
    t.(names := t.names[r := name], parent := t.parent[r := None], kids := t.kids[r := {}],
       backends := if isBackend then t.backends + {r} else t.backends)
  }

  lemma AllocatedLinked(t: Topo, r: Rank, name: Name, isBackend: bool)
    requires Linked(t) && r !in t.parent
    ensures Linked(Allocated(t, r, name, isBackend))
  {
  }

  lemma AdditionSteps(t: Topo, r: Rank, name: Name, p: Rank, isBackend: bool)
    requires Linked(t) && Accounted(t) && r !in t.parent && p in t.parent
    ensures Linked(Allocated(t, r, name, isBackend))
    ensures Forest.SetParent(Allocated(t, r, name, isBackend), r, p) == (Forest.AddNode(t, r, name, p, isBackend), true)
  {
    AllocatedLinked(t, r, name, isBackend);
    NewOrphanless(t, r);
    AdditionSame(t, r, name, p, isBackend);
  }

  lemma AdditionSame(t: Topo, r: Rank, name: Name, p: Rank, isBackend: bool)
    requires t.parent.Keys == t.kids.Keys && r !in t.parent && p in t.parent && t.orphans - {r} == t.orphans
    requires Linked(Allocated(t, r, name, isBackend))
    ensures Forest.SetParent(Allocated(t, r, name, isBackend), r, p) == (Forest.AddNode(t, r, name, p, isBackend), true)
  {
    var u := Allocated(t, r, name, isBackend);
    assert u.kids[p := u.kids[p] + {r}] == t.kids[r := {}][p := t.kids[p] + {r}];
    assert u.parent[r := Some(p)] == t.parent[r := Some(p)];
  }

  lemma NewOrphanless(t: Topo, r: Rank)
    requires Accounted(t) && r !in t.parent
    ensures t.orphans - {r} == t.orphans
  {
  }

  function Erased(t: Topo, r: Rank): Topo {
    Topo(if t.root == Some(r) then None else t.root, t.names - {r}, t.parent - {r}, t.kids - {r}, t.orphans - {r}, t.backends - {r})
  }

  function Unlinked(t: Topo, r: Rank): Topo
    requires r in t.parent && (t.parent[r].Some? ==> t.parent[r].value in t.kids)
  {
    if t.parent[r].Some? then t.(kids := t.kids[t.parent[r].value := t.kids[t.parent[r].value] - {r}]) else t
  }

  /** Unlinking a node from its parent, erasing it and orphaning its children is what removing it means. */
  lemma RemovalSteps(t: Topo, r: Rank)
    requires Linked(t) && r in t.parent
    ensures t.parent[r].Some? ==> t.parent[r].value in t.kids
    ensures var u := Unlinked(t, r);
      && (forall c :: c in u.kids[r] ==> c in Erased(u, r).parent && Erased(u, r).parent[c] == Some(r))
      && Orphaned(Erased(u, r), u.kids[r]) == Forest.RemoveNode(t, r).0
  {
    UnlinkedKids(t, r);
    var u := Unlinked(t, r);
    assert Orphaned(Erased(u, r), u.kids[r]).parent == Forest.RemoveNode(t, r).0.parent;
  }

  lemma UnlinkedKids(t: Topo, r: Rank)
    requires Linked(t) && r in t.parent
    ensures t.parent[r].Some? ==> t.parent[r].value in t.kids
    ensures var u := Unlinked(t, r); u.kids[r] == t.kids[r] - {r} && Erased(u, r).kids == Forest.RemoveNode(t, r).0.kids
  {
    var u := Unlinked(t, r);
    forall x | x in t.kids ensures x in u.kids && u.kids[x] == t.kids[x] - {r} {
      assert r in t.kids[x] ==> t.parent[r] == Some(x);
    }
  }

  function Orphaned(t: Topo, s: set<Rank>): Topo {
    t.(parent := map r | r in t.parent :: (if r in s then None else t.parent[r]), orphans := t.orphans + s)
  }

  lemma OrphanedMore(t: Topo, s: set<Rank>, c: Rank)
    requires c in t.parent
    ensures Orphaned(t, s + {c}) ==
      Orphaned(t, s).(parent := Orphaned(t, s).parent[c := None], orphans := Orphaned(t, s).orphans + {c})
  {
    assert Orphaned(t, s + {c}).parent == Orphaned(t, s).parent[c := None];
  }

  // ---------------------------------------------------------------- the node table, column by column

  ghost function NamesOf(nodes: map<Rank, NodeRec>): map<Rank, Name> {
    map r | r in nodes :: nodes[r].name
  }

  ghost function ParentsOf(nodes: map<Rank, NodeRec>): map<Rank, Option<Rank>> {
    map r | r in nodes :: nodes[r].parent
  }

  ghost function KidsOf(nodes: map<Rank, NodeRec>): map<Rank, set<Rank>> {
    map r | r in nodes :: nodes[r].children
  }

  ghost function AscendantsOf(nodes: map<Rank, NodeRec>): map<Rank, set<Rank>> {
    map r | r in nodes :: nodes[r].ascendants
  }

  ghost function BackendsOf(nodes: map<Rank, NodeRec>): set<Rank> {
    set r | r in nodes && nodes[r].isBackend
  }

  ghost function ViewOf(root: Option<Rank>, nodes: map<Rank, NodeRec>, orphans: set<Rank>): Topo {
    Topo(root, NamesOf(nodes), ParentsOf(nodes), KidsOf(nodes), orphans, BackendsOf(nodes))
  }

  /** One record more, or another in its place. */
  lemma Stored(nodes: map<Rank, NodeRec>, r: Rank, rec: NodeRec)
    ensures NamesOf(nodes[r := rec]) == NamesOf(nodes)[r := rec.name]
    ensures ParentsOf(nodes[r := rec]) == ParentsOf(nodes)[r := rec.parent]
    ensures KidsOf(nodes[r := rec]) == KidsOf(nodes)[r := rec.children]
    ensures AscendantsOf(nodes[r := rec]) == AscendantsOf(nodes)[r := rec.ascendants]
    ensures BackendsOf(nodes[r := rec]) == BackendsOf(nodes) - {r} + if rec.isBackend then {r} else {}
  {
    StoredLinks(nodes, r, rec);
  }

  lemma StoredLinks(nodes: map<Rank, NodeRec>, r: Rank, rec: NodeRec)
    ensures ParentsOf(nodes[r := rec]) == ParentsOf(nodes)[r := rec.parent]
    ensures KidsOf(nodes[r := rec]) == KidsOf(nodes)[r := rec.children]
  {
  }

  lemma Rewritten<V>(m: map<Rank, V>, r: Rank)
    requires r in m
    ensures m[r := m[r]] == m
  {
  }

  lemma SetAgain(s: set<Rank>, r: Rank)
    ensures s - {r} + (if r in s then {r} else {}) == s && s - {r} + {} == s - {r}
  {
  }

  lemma FreshRow(nodes: map<Rank, NodeRec>, r: Rank)
    requires r !in nodes
    ensures BackendsOf(nodes) - {r} + {} == BackendsOf(nodes) && BackendsOf(nodes) - {r} + {r} == BackendsOf(nodes) + {r}
  {
  }

  lemma StoredChildren(nodes: map<Rank, NodeRec>, r: Rank, children: set<Rank>)
    requires r in nodes
    ensures var n := nodes[r := nodes[r].(children := children)];
      && n.Keys == nodes.Keys && KidsOf(n) == KidsOf(nodes)[r := children]
      && NamesOf(n) == NamesOf(nodes) && ParentsOf(n) == ParentsOf(nodes)
      && AscendantsOf(n) == AscendantsOf(nodes) && BackendsOf(n) == BackendsOf(nodes)
  {
    Stored(nodes, r, nodes[r].(children := children));
    Rewritten(NamesOf(nodes), r);
    Rewritten(ParentsOf(nodes), r);
    Rewritten(AscendantsOf(nodes), r);
    SetAgain(BackendsOf(nodes), r);
  }

  lemma StoredParent(nodes: map<Rank, NodeRec>, r: Rank, parent: Option<Rank>)
    requires r in nodes
    ensures var n := nodes[r := nodes[r].(parent := parent)];
      && n.Keys == nodes.Keys && ParentsOf(n) == ParentsOf(nodes)[r := parent]
      && NamesOf(n) == NamesOf(nodes) && KidsOf(n) == KidsOf(nodes)
      && AscendantsOf(n) == AscendantsOf(nodes) && BackendsOf(n) == BackendsOf(nodes)
  {
    Stored(nodes, r, nodes[r].(parent := parent));
    Rewritten(NamesOf(nodes), r);
    Rewritten(KidsOf(nodes), r);
    Rewritten(AscendantsOf(nodes), r);
    SetAgain(BackendsOf(nodes), r);
  }

  lemma StoredAscendants(nodes: map<Rank, NodeRec>, r: Rank, ascendants: set<Rank>)
    requires r in nodes
    ensures var n := nodes[r := nodes[r].(ascendants := ascendants)];
      && n.Keys == nodes.Keys && AscendantsOf(n) == AscendantsOf(nodes)[r := ascendants]
      && NamesOf(n) == NamesOf(nodes) && ParentsOf(n) == ParentsOf(nodes)
      && KidsOf(n) == KidsOf(nodes) && BackendsOf(n) == BackendsOf(nodes)
  {
    Stored(nodes, r, nodes[r].(ascendants := ascendants));
    Rewritten(NamesOf(nodes), r);
    Rewritten(ParentsOf(nodes), r);
    Rewritten(KidsOf(nodes), r);
    SetAgain(BackendsOf(nodes), r);
  }

  lemma StoredFlag(nodes: map<Rank, NodeRec>, r: Rank)
    requires r in nodes
    ensures var n := nodes[r := nodes[r].(isBackend := false)];
      && n.Keys == nodes.Keys && BackendsOf(n) == BackendsOf(nodes) - {r}
      && NamesOf(n) == NamesOf(nodes) && ParentsOf(n) == ParentsOf(nodes)
      && KidsOf(n) == KidsOf(nodes) && AscendantsOf(n) == AscendantsOf(nodes)
  {
    Stored(nodes, r, nodes[r].(isBackend := false));
    Rewritten(NamesOf(nodes), r);
    Rewritten(ParentsOf(nodes), r);
    Rewritten(KidsOf(nodes), r);
    Rewritten(AscendantsOf(nodes), r);
    SetAgain(BackendsOf(nodes), r);
  }

  lemma RowDropped(nodes: map<Rank, NodeRec>, r: Rank)
    ensures NamesOf(nodes - {r}) == NamesOf(nodes) - {r} && ParentsOf(nodes - {r}) == ParentsOf(nodes) - {r}
    ensures KidsOf(nodes - {r}) == KidsOf(nodes) - {r} && BackendsOf(nodes - {r}) == BackendsOf(nodes) - {r}
  {
  }

  lemma OneRow(r: Rank, rec: NodeRec)
    ensures var n := map[r := rec];
      && NamesOf(n) == map[r := rec.name] && ParentsOf(n) == map[r := rec.parent] && KidsOf(n) == map[r := rec.children]
      && AscendantsOf(n) == map[r := rec.ascendants] && BackendsOf(n) == if rec.isBackend then {r} else {}
  {
  }
}
