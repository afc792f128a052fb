/**
 Packets on their way down the tree.  Every node forwards on its own, by its own routing table;
 the tables are those Router computes from one and the same tree.
 */
module Delivery {
  import opened Prelude
  import opened Forest
  import opened Trees
  import opened Router
  import opened StreamPeers

  /** Every node has the table of the same topology, with a connection to each of its children. */
  ghost predicate Tables(t: Topo, tables: map<Rank, map<Rank, Rank>>) {
    && tables.Keys == t.kids.Keys
    && forall n {:trigger tables[n]} :: n in tables ==> Routes(t, n, t.kids[n], tables[n])
  }

  /** The nodes with an end point at or below them. */
  ghost predicate Wanted(t: Topo, endPoints: set<Rank>, n: Rank) {
    n in t.parent && exists e :: e in endPoints && e in t.parent && InSubtree(t, n, e)
  }

  /** Which children a node sends a packet of the stream to: the ones the stream is wanted at. */
  lemma PeersAreWantedChildren(t: Topo, tables: map<Rank, map<Rank, Rank>>, endPoints: set<Rank>, n: Rank, c: Rank)
    requires Linked(t) && Tables(t, tables) && n in tables
    ensures c in Outlets(tables[n], endPoints) <==> c in t.kids[n] && Wanted(t, endPoints, c)
  {
    OutletsAreChildrenTowards(t, n, t.kids[n], tables[n], endPoints, c);
    if c in t.kids[n] && Wanted(t, endPoints, c) {
      var e :| e in endPoints && e in t.parent && InSubtree(t, c, e);
      assert Below(t, n, c, e);
    }
  }

  // ---------------------------------------------------------------- a packet on a stream

  /** Copies of one packet: nodes it is in flight to, and how often it has arrived where. */
  datatype Spread = Spread(inFlight: multiset<Rank>, arrived: multiset<Rank>)

  /** Some node in flight receives the packet and sends it to all its peers in the stream. */
  ghost predicate Hop(tables: map<Rank, map<Rank, Rank>>, endPoints: set<Rank>, s: Spread, s': Spread, n: Rank) {
    && n in s.inFlight && n in tables
    && s'.inFlight == s.inFlight - multiset{n} + multiset(Outlets(tables[n], endPoints))
    && s'.arrived == s.arrived + multiset{n}
  }

  ghost predicate Run(tables: map<Rank, map<Rank, Rank>>, endPoints: set<Rank>, run: seq<Spread>, hops: seq<Rank>) {
    && |run| == |hops| + 1
    && forall i :: 0 <= i < |hops| ==> Hop(tables, endPoints, run[i], run[i + 1], hops[i])
  }

  /** Copies in flight and copies arrived, together. */
  function Copies(s: Spread): multiset<Rank> { s.inFlight + s.arrived }

  ghost predicate AtMostOnce(s: Spread) {
    forall n :: Copies(s)[n] <= 1
  }

  /** Only the root and wanted nodes get the packet, and always from their parent. */
  ghost predicate FromAbove(t: Topo, endPoints: set<Rank>, s: Spread) {
    && t.root.Some? && t.root.value in Copies(s)
    && forall n {:trigger Wanted(t, endPoints, n)} :: n in Copies(s) && n != t.root.value ==>
         Wanted(t, endPoints, n) && t.parent[n].Some? && t.parent[n].value in s.arrived
  }

  /** A node that has the packet has sent it to every child where it is wanted. */
  ghost predicate PassedOn(t: Topo, endPoints: set<Rank>, s: Spread) {
    forall n, c :: n in s.arrived && n in t.kids && c in t.kids[n] && Wanted(t, endPoints, c) ==> c in Copies(s)
  }

  ghost predicate Spreading(t: Topo, endPoints: set<Rank>, s: Spread) {
    AtMostOnce(s) && FromAbove(t, endPoints, s) && PassedOn(t, endPoints, s)
  }

  lemma HopKeepsSpreading(t: Topo, tables: map<Rank, map<Rank, Rank>>, endPoints: set<Rank>, s: Spread, s': Spread, n: Rank)
    requires SingleTree(t) && Tables(t, tables) && Spreading(t, endPoints, s) && Hop(tables, endPoints, s, s', n)
    ensures Spreading(t, endPoints, s')
  {
    var out: set<Rank> := Outlets(tables[n], endPoints);
    forall c ensures c in out <==> c in t.kids[n] && Wanted(t, endPoints, c) {
      PeersAreWantedChildren(t, tables, endPoints, n, c);
    }
    HopCopies(s, s', n, out);
    HopFromAbove(t, endPoints, s, s', n, out);
    HopPassesOn(t, endPoints, s, s', n, out);
    forall c | c in out ensures c !in Copies(s) {
      NotSentYet(t, endPoints, s, n, c);
    }
    HopOnce(Copies(s), out);
  }

  /** As long as a packet is on its way to n, no child of n has it. */
  lemma NotSentYet(t: Topo, endPoints: set<Rank>, s: Spread, n: Rank, c: Rank)
    requires Linked(t) && n in t.kids && c in t.kids[n] && t.root.Some? && t.root.value in t.parent
    requires t.parent[t.root.value] == None && AtMostOnce(s) && FromAbove(t, endPoints, s) && n in s.inFlight
    ensures c !in Copies(s)
  {
    KidLinked(t, n, c);
    assert Copies(s)[n] <= 1;
    assert c in Copies(s) ==> Wanted(t, endPoints, c) && n in s.arrived;
  }

  lemma HopCopies(s: Spread, s': Spread, n: Rank, out: set<Rank>)
    requires n in s.inFlight && s'.inFlight == s.inFlight - multiset{n} + multiset(out) && s'.arrived == s.arrived + multiset{n}
    ensures Copies(s') == Copies(s) + multiset(out)
  {
  }

  lemma HopFromAbove(t: Topo, endPoints: set<Rank>, s: Spread, s': Spread, n: Rank, out: set<Rank>)
    requires Linked(t) && n in t.kids && FromAbove(t, endPoints, s)
    requires Copies(s') == Copies(s) + multiset(out) && s'.arrived == s.arrived + multiset{n}
    requires forall c :: c in out ==> c in t.kids[n] && Wanted(t, endPoints, c)
    ensures FromAbove(t, endPoints, s')
  {
    forall x | x in Copies(s') && x != t.root.value
      ensures Wanted(t, endPoints, x) && t.parent[x].Some? && t.parent[x].value in s'.arrived
    {
      if x in out {
        KidLinked(t, n, x);
      } else {
        SentBefore(t, endPoints, s, x);
      }
    }
  }

  lemma SentBefore(t: Topo, endPoints: set<Rank>, s: Spread, x: Rank)
    requires FromAbove(t, endPoints, s) && x in Copies(s) && x != t.root.value
    ensures Wanted(t, endPoints, x) && t.parent[x].Some? && t.parent[x].value in s.arrived
  {
    assert Wanted(t, endPoints, x) || !Wanted(t, endPoints, x);
  }

  lemma HopPassesOn(t: Topo, endPoints: set<Rank>, s: Spread, s': Spread, n: Rank, out: set<Rank>)
    requires n in t.kids && PassedOn(t, endPoints, s)
    requires Copies(s') == Copies(s) + multiset(out) && s'.arrived == s.arrived + multiset{n}
    requires forall c :: c in t.kids[n] && Wanted(t, endPoints, c) ==> c in out
    ensures PassedOn(t, endPoints, s')
  {
  }

  lemma HopOnce(all: multiset<Rank>, out: set<Rank>)
    requires (forall n :: all[n] <= 1) && forall c :: c in out ==> c !in all
    ensures forall n :: (all + multiset(out))[n] <= 1
  {
  }

  lemma {:induction false} RunSpreads(t: Topo, tables: map<Rank, map<Rank, Rank>>, endPoints: set<Rank>, run: seq<Spread>, hops: seq<Rank>)
    requires SingleTree(t) && Tables(t, tables) && Run(tables, endPoints, run, hops)
    requires run[0] == Spread(multiset{t.root.value}, multiset{})
    ensures Spreading(t, endPoints, run[|hops|])
  {
    if hops != [] {
      var n := |hops| - 1;
      RunSpreads(t, tables, endPoints, run[..n + 1], hops[..n]);
      assert Hop(tables, endPoints, run[n], run[n + 1], hops[n]);
      HopKeepsSpreading(t, tables, endPoints, run[n], run[n + 1], hops[n]);
    }
  }

  /** When nothing is in flight any more, the packet has reached every wanted node. */
  lemma {:induction false} WantedReached(t: Topo, endPoints: set<Rank>, s: Spread, n: Rank, k: nat)
    requires Linked(t) && t.root.Some? && t.root.value in Copies(s) && PassedOn(t, endPoints, s) && s.inFlight == multiset{}
    requires Climb(t, n, k) == t.root && Wanted(t, endPoints, n)
    ensures n in s.arrived
    decreases k
  {
    if k > 0 {
      var p := t.parent[n].value;
      WantedAbove(t, endPoints, n);
      WantedReached(t, endPoints, s, p, k - 1);
      assert n in Copies(s);
    }
  }

  lemma WantedAbove(t: Topo, endPoints: set<Rank>, n: Rank)
    requires Linked(t) && Wanted(t, endPoints, n) && t.parent[n].Some?
    ensures Wanted(t, endPoints, t.parent[n].value) && n in t.kids[t.parent[n].value]
  {
    var e :| e in endPoints && e in t.parent && InSubtree(t, n, e);
    SubtreeSelf(t, t.parent[n].value);
    SubtreeBelow(t, t.parent[n].value, n);
    SubtreeTransitive(t, t.parent[n].value, n, e);
  }

  /**
   In whatever order the nodes act, once nothing is in flight the packet has arrived exactly once at every
   node with an end point at or below it, and nowhere else but at the root.
   */
  lemma ArrivesExactlyOnce(t: Topo, tables: map<Rank, map<Rank, Rank>>, endPoints: set<Rank>, run: seq<Spread>, hops: seq<Rank>, n: Rank)
    requires SingleTree(t) && Tables(t, tables) && Run(tables, endPoints, run, hops)
    requires run[0] == Spread(multiset{t.root.value}, multiset{}) && run[|hops|].inFlight == multiset{}
    ensures run[|hops|].arrived[n] == if t.root == Some(n) || Wanted(t, endPoints, n) then 1 else 0
  {
    RunSpreads(t, tables, endPoints, run, hops);
    var s := run[|hops|];
    assert Copies(s) == s.arrived && Copies(s)[n] <= 1;
    if Wanted(t, endPoints, n) {
      assert InSubtree(t, t.root.value, n);
      var k: nat :| Climb(t, n, k) == t.root;
      WantedReached(t, endPoints, s, n, k);
    }
  }

  /** In particular every end point among the leaves gets the packet once, and no other leaf gets it. */
  lemma EndPointsExactlyOnce(t: Topo, tables: map<Rank, map<Rank, Rank>>, endPoints: set<Rank>, run: seq<Spread>, hops: seq<Rank>, leaf: Rank)
    requires SingleTree(t) && Tables(t, tables) && Run(tables, endPoints, run, hops)
    requires run[0] == Spread(multiset{t.root.value}, multiset{}) && run[|hops|].inFlight == multiset{}
    requires leaf in t.kids && t.kids[leaf] == {} && t.root != Some(leaf)
    ensures run[|hops|].arrived[leaf] == if leaf in endPoints then 1 else 0
  {
    ArrivesExactlyOnce(t, tables, endPoints, run, hops, leaf);
    SubtreeSelf(t, leaf);
    if Wanted(t, endPoints, leaf) {
      var e :| e in endPoints && e in t.parent && InSubtree(t, leaf, e);
      var k: nat :| Climb(t, e, k) == Some(leaf);
      if k > 0 {
        var y := ClimbStop(t, e, k - 1);
      }
    }
  }

  /** No run is longer than there are nodes, so forwarding comes to rest. */
  lemma RunsEnd(t: Topo, tables: map<Rank, map<Rank, Rank>>, endPoints: set<Rank>, run: seq<Spread>, hops: seq<Rank>)
    requires SingleTree(t) && Tables(t, tables) && Run(tables, endPoints, run, hops)
    requires run[0] == Spread(multiset{t.root.value}, multiset{})
    ensures |hops| <= |t.parent.Keys|
  {
    RunSpreads(t, tables, endPoints, run, hops);
    ArrivedCount(tables, endPoints, run, hops);
    var s := run[|hops|];
    var reached: set<Rank> := set n | n in s.arrived;
    forall n ensures s.arrived[n] == multiset(reached)[n] {
      assert Copies(s)[n] <= 1;
    }
    assert s.arrived == multiset(reached);
    forall n | n in reached ensures n in t.parent {
      assert n in Copies(s) && (n == t.root.value || Wanted(t, endPoints, n));
    }
    Cardinality(reached, t.parent.Keys);
  }

  lemma {:induction false} ArrivedCount(tables: map<Rank, map<Rank, Rank>>, endPoints: set<Rank>, run: seq<Spread>, hops: seq<Rank>)
    requires Run(tables, endPoints, run, hops) && run[0].arrived == multiset{}
    ensures |run[|hops|].arrived| == |hops|
  {
    if hops != [] {
      var n := |hops| - 1;
      ArrivedCount(tables, endPoints, run[..n + 1], hops[..n]);
      assert Hop(tables, endPoints, run[n], run[n + 1], hops[n]);
    }
  }

  lemma {:induction false} Cardinality(a: set<Rank>, b: set<Rank>)
    requires a <= b
    ensures |a| <= |b|
  {
    if a != {} {
      var x :| x in a;
      Cardinality(a - {x}, b - {x});
    }
  }

  // ---------------------------------------------------------------- a packet for one back end

  /** On a stream whose id is a rank, each node sends the packet to the outlet for that rank only. */
  ghost function Path(tables: map<Rank, map<Rank, Rank>>, n: Rank, target: Rank, hops: nat): Option<Rank>
    decreases hops
  {
    if hops == 0 then Some(n)
    else if n in tables && target in tables[n] then Path(tables, tables[n][target], target, hops - 1)
    else None
  }

  /** After i hops from a node k links above the target the packet is where the climb from the target is after k - i. */
  lemma {:induction false} PathFollowsClimb(t: Topo, tables: map<Rank, map<Rank, Rank>>, n: Rank, target: Rank, k: nat, i: nat)
    requires Linked(t) && Tables(t, tables) && target in t.parent && Climb(t, target, k) == Some(n) && i <= k
    ensures Path(tables, n, target, i) == Climb(t, target, k - i)
    decreases i
  {
    if i > 0 {
      var c := ClimbStop(t, target, k - 1);
      TableTowards(t, tables, n, c, target, k - 1);
      PathFollowsClimb(t, tables, c, target, k - 1, i - 1);
    }
  }

  /** The table of n sends a packet for the target to the child it lies below. */
  lemma TableTowards(t: Topo, tables: map<Rank, map<Rank, Rank>>, n: Rank, c: Rank, target: Rank, k: nat)
    requires Linked(t) && Tables(t, tables) && target in t.parent
    requires Climb(t, target, k) == Some(c) && c in t.parent && t.parent[c] == Some(n)
    ensures n in tables && target in tables[n] && tables[n][target] == c
  {
    assert InSubtree(t, c, target);
    TableHas(t, tables, n, c, target);
  }

  lemma TableHas(t: Topo, tables: map<Rank, map<Rank, Rank>>, n: Rank, c: Rank, target: Rank)
    requires Tables(t, tables) && n in t.kids && c in t.kids[n] && Below(t, n, c, target)
    ensures target in tables[n] && tables[n][target] == c
  {
    assert Routes(t, n, t.kids[n], tables[n]);
  }

  /** A packet for one rank gets there in as many hops as the rank is deep, and stops there. */
  lemma UnicastReachesItsRank(t: Topo, tables: map<Rank, map<Rank, Rank>>, target: Rank, depth: nat)
    requires SingleTree(t) && Tables(t, tables) && target in t.parent && Climb(t, target, depth) == t.root
    ensures Path(tables, t.root.value, target, depth) == Some(target)
    ensures Path(tables, t.root.value, target, depth + 1) == None
    ensures forall i: nat :: i < depth ==> Path(tables, t.root.value, target, i) != Some(target)
  {
    PathFollowsClimb(t, tables, t.root.value, target, depth, depth);
    StopsAtTarget(t, tables, target);
    PathSum(tables, t.root.value, target, depth);
    forall i: nat | i < depth ensures Path(tables, t.root.value, target, i) != Some(target) {
      PathFollowsClimb(t, tables, t.root.value, target, depth, i);
      NotThereYet(t, target, depth - i);
    }
  }

  lemma NotThereYet(t: Topo, target: Rank, k: nat)
    requires Acyclic(t) && target in t.parent && k > 0
    ensures Climb(t, target, k) != Some(target)
  {
    assert Grounded(t, target) && Climb(t, target, 0) == Some(target);
    if Climb(t, target, k) == Some(target) {
      ClimbInjective(t, target, 0, k);
    }
  }

  lemma TableMeans(t: Topo, tables: map<Rank, map<Rank, Rank>>, n: Rank, r: Rank)
    requires Tables(t, tables) && n in tables && r in tables[n]
    ensures Below(t, n, tables[n][r], r)
  {
    assert Routes(t, n, t.kids[n], tables[n]);
  }

  lemma StopsAtTarget(t: Topo, tables: map<Rank, map<Rank, Rank>>, target: Rank)
    requires Inv(t) && Tables(t, tables) && target in t.parent
    ensures target !in tables[target]
  {
    if target in tables[target] {
      TableMeans(t, tables, target, target);
      NotBelowOwnChild(t, target, tables[target][target]);
    }
  }

  lemma NotBelowOwnChild(t: Topo, n: Rank, c: Rank)
    requires Inv(t)
    ensures !Below(t, n, c, n)
  {
    if n in t.kids && c in t.kids[n] {
      KidLinked(t, n, c);
      ParentNotBelow(t, n, c);
    }
  }

  lemma {:induction false} PathSum(tables: map<Rank, map<Rank, Rank>>, n: Rank, target: Rank, k: nat)
    requires Path(tables, n, target, k) == Some(target) && target in tables && target !in tables[target]
    ensures Path(tables, n, target, k + 1) == None
    decreases k
  {
    if k > 0 {
      PathSum(tables, tables[n][target], target, k - 1);
    }
  }

  /** A packet for a rank that is not in the tree is dropped by the root. */
  lemma UnknownRankIsDropped(t: Topo, tables: map<Rank, map<Rank, Rank>>, target: Rank)
    requires SingleTree(t) && Tables(t, tables) && target !in t.parent
    ensures Path(tables, t.root.value, target, 1) == None
  {
    if target in tables[t.root.value] {
      TableMeans(t, tables, t.root.value, target);
    }
  }
}
