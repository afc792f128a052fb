/** Distances in the tree: how far an orphan is from a candidate parent, and how much adoption deepens a tree. */
module Proximity {
  import opened Prelude
  import opened Forest
  import opened Trees

  ghost predicate ProperAncestor(t: Topo, a: Rank, r: Rank) {
    exists k: nat :: k > 0 && Climb(t, r, k) == Some(a)
  }

  /** The ascendant sets say exactly who lies above whom. */
  ghost predicate AscendantsExact(t: Topo, ascendants: map<Rank, set<Rank>>) {
    && ascendants.Keys == t.parent.Keys
    && forall r, a {:trigger ProperAncestor(t, a, r)} :: r in ascendants ==> (a in ascendants[r] <==> ProperAncestor(t, a, r))
  }

  /** Hanging a fresh leaf under p and giving it p's ascendants and p keeps the sets exact. */
  lemma AddKeepsAscendants(t: Topo, ascendants: map<Rank, set<Rank>>, r: Rank, name: Name, p: Rank, isBackend: bool)
    requires Inv(t) && r !in t.parent && p in t.parent && AscendantsExact(t, ascendants)
    ensures AscendantsExact(AddNode(t, r, name, p, isBackend), ascendants[r := ascendants[p] + {p}])
  {
    var u := AddNode(t, r, name, p, isBackend);
    var more := ascendants[r := ascendants[p] + {p}];
    forall x, a | x in more ensures a in more[x] <==> ProperAncestor(u, a, x) {
      if x == r {
        NewLeafAncestors(t, r, name, p, isBackend, a);
      } else {
        OldAncestors(t, r, name, p, isBackend, x, a);
      }
    }
  }

  lemma OldAncestors(t: Topo, r: Rank, name: Name, p: Rank, isBackend: bool, x: Rank, a: Rank)
    requires Inv(t) && r !in t.parent && p in t.parent && x in t.parent
    ensures ProperAncestor(AddNode(t, r, name, p, isBackend), a, x) <==> ProperAncestor(t, a, x)
  {
    var u := AddNode(t, r, name, p, isBackend);
    NotBelowFresh(t, r, x);
    forall k: nat ensures Climb(u, x, k) == Climb(t, x, k) {
      ClimbAvoiding(t, u, x, r, k);
    }
  }

  lemma NewLeafAncestors(t: Topo, r: Rank, name: Name, p: Rank, isBackend: bool, a: Rank)
    requires Inv(t) && r !in t.parent && p in t.parent
    ensures ProperAncestor(AddNode(t, r, name, p, isBackend), a, r) <==> a == p || ProperAncestor(t, a, p)
  {
    var u := AddNode(t, r, name, p, isBackend);
    NotBelowFresh(t, r, p);
    forall k: nat ensures Climb(u, r, k + 1) == Climb(t, p, k) {
      ClimbAvoiding(t, u, p, r, k);
    }
    if ProperAncestor(u, a, r) {
      var k: nat :| k > 0 && Climb(u, r, k) == Some(a);
      assert Climb(u, r, k - 1 + 1) == Climb(t, p, k - 1);
    }
    if a == p {
      assert Climb(u, r, 0 + 1) == Climb(t, p, 0);
    } else if ProperAncestor(t, a, p) {
      var k: nat :| k > 0 && Climb(t, p, k) == Some(a);
      assert Climb(u, r, k + 1) == Some(a);
    }
  }

  // ---------------------------------------------------------------- tree distance

  ghost predicate Adjacent(t: Topo, x: Rank, y: Rank) {
    (x in t.parent && t.parent[x] == Some(y)) || (y in t.parent && t.parent[y] == Some(x))
  }

  /** A walk along parent and child links, in either direction. */
  ghost predicate Walk(t: Topo, w: seq<Rank>, x: Rank, y: Rank) {
    && w != [] && w[0] == x && w[|w| - 1] == y
    && forall i :: 0 <= i < |w| - 1 ==> Adjacent(t, w[i], w[i + 1])
  }

  /** d is the length of a shortest walk from x to y. */
  ghost predicate Distance(t: Topo, x: Rank, y: Rank, d: nat) {
    && (exists w :: Walk(t, w, x, y) && |w| == d + 1)
    && (forall w :: Walk(t, w, x, y) ==> d + 1 <= |w|)
  }

  /** Going up i links from x and down j links to y. */
  lemma {:induction false} WalkUp(t: Topo, x: Rank, i: nat, a: Rank) returns (w: seq<Rank>)
    requires Climb(t, x, i) == Some(a)
    ensures Walk(t, w, x, a) && |w| == i + 1
    decreases i
  {
    if i == 0 {
      w := [x];
    } else {
      var up := WalkUp(t, t.parent[x].value, i - 1, a);
      w := [x] + up;
    }
  }

  lemma {:induction false} WalkDown(t: Topo, a: Rank, y: Rank, j: nat) returns (w: seq<Rank>)
    requires Climb(t, y, j) == Some(a)
    ensures Walk(t, w, a, y) && |w| == j + 1
    decreases j
  {
    if j == 0 {
      w := [y];
    } else {
      var down := WalkDown(t, a, t.parent[y].value, j - 1);
      w := down + [y];
    }
  }

  lemma WalkOver(t: Topo, x: Rank, i: nat, y: Rank, j: nat) returns (w: seq<Rank>)
    requires Climb(t, x, i).Some? && Climb(t, x, i) == Climb(t, y, j)
    ensures Walk(t, w, x, y) && |w| == i + j + 1
  {
    var up := WalkUp(t, x, i, Climb(t, x, i).value);
    var down := WalkDown(t, Climb(t, x, i).value, y, j);
    w := up[..i] + down;
  }

  /** Any walk meets a common ancestor of its ends, and is at least as long as the detour through it. */
  lemma {:induction false} WalkMeets(t: Topo, w: seq<Rank>, x: Rank, y: Rank) returns (i: nat, j: nat)
    requires Linked(t) && x in t.parent && Walk(t, w, x, y)
    ensures y in t.parent && Climb(t, x, i).Some? && Climb(t, x, i) == Climb(t, y, j) && i + j + 1 <= |w|
    decreases |w|
  {
    var n := |w| - 1;
    if n == 0 {
      i, j := 0, 0;
    } else {
      var z := w[n - 1];
      assert Adjacent(t, w[n - 1], w[n - 1 + 1]);
      i, j := WalkMeets(t, w[..n], x, z);
      if z in t.parent && t.parent[z] == Some(y) {
        if j == 0 {
          ClimbSum(t, x, i, 1);
          assert Climb(t, z, 1) == Some(y) by { assert Climb(t, y, 0) == Some(y); }
          ClimbLive(t, z, 1);
          i, j := i + 1, 0;
        } else {
          ClimbLive(t, z, 1) by { assert Climb(t, y, 0) == Some(y); }
          j := j - 1;
        }
      } else {
        j := j + 1;
      }
    }
  }

  /** i is the first step of the climb from x that meets a rank of the set. */
  ghost predicate FirstListed(t: Topo, up: set<Rank>, x: Rank, i: nat) {
    Climb(t, x, i).Some? && Climb(t, x, i).value in up && NoneListed(t, up, x, i)
  }

  ghost predicate NoneListed(t: Topo, up: set<Rank>, x: Rank, n: nat) {
    forall k: nat :: k < n && Climb(t, x, k).Some? ==> Climb(t, x, k).value !in up
  }

  lemma NoneListedMore(t: Topo, up: set<Rank>, x: Rank, n: nat)
    requires NoneListed(t, up, x, n) && Climb(t, x, n).Some? && Climb(t, x, n).value !in up
    ensures NoneListed(t, up, x, n + 1)
  {
  }

  lemma NoneListedAtAll(t: Topo, up: set<Rank>, x: Rank, n: nat)
    requires NoneListed(t, up, x, n) && Climb(t, x, n) == None
    ensures forall i: nat :: !FirstListed(t, up, x, i)
  {
    forall i: nat ensures !FirstListed(t, up, x, i) {
      if i >= n {
        ClimbOut(t, x, n, i);
      }
    }
  }

  /** i is the first step of the climb from x that meets a proper ancestor of y. */
  ghost predicate FirstMeeting(t: Topo, x: Rank, i: nat, y: Rank) {
    && Climb(t, x, i).Some? && ProperAncestor(t, Climb(t, x, i).value, y)
    && NoneBefore(t, x, i, y)
  }

  /** Nothing met in the first n steps from x is a proper ancestor of y. */
  ghost predicate NoneBefore(t: Topo, x: Rank, n: nat, y: Rank) {
    forall k: nat :: k < n && Climb(t, x, k).Some? ==> !ProperAncestor(t, Climb(t, x, k).value, y)
  }

  /** With exact ascendant sets the listed ranks are the proper ancestors. */
  lemma ListedIsMeeting(t: Topo, ascendants: map<Rank, set<Rank>>, x: Rank, i: nat, y: Rank)
    requires AscendantsExact(t, ascendants) && y in ascendants
    ensures FirstListed(t, ascendants[y], x, i) <==> FirstMeeting(t, x, i, y)
  {
    forall k: nat | Climb(t, x, k).Some?
      ensures Climb(t, x, k).value in ascendants[y] <==> ProperAncestor(t, Climb(t, x, k).value, y)
    {
      assert ProperAncestor(t, Climb(t, x, k).value, y) || true;
    }
  }

  lemma ClimbEndsBefore(t: Topo, x: Rank, i: nat, n: nat)
    requires Climb(t, x, n) == None && Climb(t, x, i).Some?
    ensures i < n
  {
    if n <= i {
      ClimbOut(t, x, n, i);
    }
  }

  lemma ClimbNext(t: Topo, x: Rank, i: nat)
    requires Climb(t, x, i).Some? && Climb(t, x, i).value in t.parent
    ensures Climb(t, x, i + 1) == t.parent[Climb(t, x, i).value]
  {
    ClimbSum(t, x, i, 1);
    var y := Climb(t, x, i).value;
    assert t.parent[y].Some? ==> Climb(t, t.parent[y].value, 0) == t.parent[y];
  }

  lemma ClimbTowards(t: Topo, x: Rank, i: nat, n: nat, goal: Rank, cur: Rank) returns (next: Rank)
    requires Linked(t) && x in t.parent && i <= n && Climb(t, x, n) == Some(goal)
    requires Climb(t, x, i) == Some(cur) && cur != goal
    ensures i < n && cur in t.parent && t.parent[cur] == Some(next) && Climb(t, x, i + 1) == Some(next)
  {
    ClimbLive(t, x, i);
    ClimbNext(t, x, i);
    if Climb(t, x, i + 1) == None {
      ClimbOut(t, x, i + 1, n);
    }
    next := t.parent[cur].value;
  }

  /** Up to the first common ancestor and down again is a shortest way, provided x is not below y. */
  lemma MeetingIsDistance(t: Topo, x: Rank, i: nat, y: Rank, j: nat)
    requires Inv(t) && x in t.parent && y in t.parent && !InSubtree(t, y, x)
    requires FirstMeeting(t, x, i, y) && Climb(t, y, j) == Climb(t, x, i)
    ensures Distance(t, x, y, i + j)
  {
    var over := WalkOver(t, x, i, y, j);
    forall w | Walk(t, w, x, y) ensures i + j + 1 <= |w| {
      var a, b := WalkMeets(t, w, x, y);
      assert Grounded(t, y);
      MeetingMinimal(t, x, i, y, j, a, b);
    }
  }

  lemma MeetingMinimal(t: Topo, x: Rank, i: nat, y: Rank, j: nat, a: nat, b: nat)
    requires Grounded(t, y) && !InSubtree(t, y, x)
    requires FirstMeeting(t, x, i, y) && Climb(t, y, j) == Climb(t, x, i)
    requires Climb(t, x, a).Some? && Climb(t, x, a) == Climb(t, y, b)
    ensures i + j <= a + b
  {
    MeetingOrder(t, x, i, y, a, b);
    MeetingIndices(t, x, y, i, j, a, b);
  }

  lemma MeetingOrder(t: Topo, x: Rank, i: nat, y: Rank, a: nat, b: nat)
    requires !InSubtree(t, y, x) && FirstMeeting(t, x, i, y)
    requires Climb(t, x, a).Some? && Climb(t, x, a) == Climb(t, y, b)
    ensures b > 0 && i <= a
  {
    if b > 0 {
      assert ProperAncestor(t, Climb(t, x, a).value, y);
    }
  }

  lemma MeetingIndices(t: Topo, x: Rank, y: Rank, i: nat, j: nat, a: nat, b: nat)
    requires Grounded(t, y) && i <= a
    requires Climb(t, x, i).Some? && Climb(t, x, i) == Climb(t, y, j)
    requires Climb(t, x, a).Some? && Climb(t, x, a) == Climb(t, y, b)
    ensures b == j + (a - i)
  {
    SameClimb(t, x, y, i, j, a - i, b);
  }

  lemma SameClimb(t: Topo, x: Rank, y: Rank, i: nat, j: nat, d: nat, b: nat)
    requires Grounded(t, y)
    requires Climb(t, x, i).Some? && Climb(t, x, i) == Climb(t, y, j)
    requires Climb(t, x, i + d).Some? && Climb(t, x, i + d) == Climb(t, y, b)
    ensures b == j + d
  {
    ClimbSum(t, x, i, d);
    ClimbSum(t, y, j, d);
    ClimbInjective(t, y, b, j + d);
  }

  /** When x is y itself or below it, the detour counted goes through y's parent and is two steps too long. */
  lemma MeetingBelowOrphan(t: Topo, x: Rank, i: nat, y: Rank, j: nat, k: nat)
    requires Inv(t) && x in t.parent && y in t.parent && Climb(t, x, k) == Some(y)
    requires FirstMeeting(t, x, i, y) && Climb(t, y, j) == Climb(t, x, i)
    ensures i + j == k + 2 && !Distance(t, x, y, i + j)
  {
    assert Grounded(t, x) && Grounded(t, y);
    var over := WalkOver(t, x, k, y, 0);
    var m := AboveOrphan(t, x, i, y, k);
    ThroughOrphan(t, x, k, y, m, i);
    ParentMeets(t, x, i, y, k);
    ClimbInjective(t, y, j, m);
  }

  /** What adding up the two climbs amounts to. */
  lemma ProximityMeans(t: Topo, x: Rank, i: nat, y: Rank, j: nat)
    requires Inv(t) && x in t.parent && y in t.parent
    requires FirstMeeting(t, x, i, y) && Climb(t, y, j) == Climb(t, x, i)
    ensures Distance(t, x, y, i + j) <==> !InSubtree(t, y, x)
  {
    if InSubtree(t, y, x) {
      var k: nat :| Climb(t, x, k) == Some(y);
      MeetingBelowOrphan(t, x, i, y, j, k);
    } else {
      MeetingIsDistance(t, x, i, y, j);
    }
  }

  /** The two climbs the computation adds up are determined. */
  lemma ProximityUnique(t: Topo, up: set<Rank>, x: Rank, i: nat, y: Rank, j: nat)
    requires Acyclic(t) && y in t.parent && FirstListed(t, up, x, i) && Climb(t, y, j) == Climb(t, x, i)
    ensures forall a: nat, b: nat :: FirstListed(t, up, x, a) && Climb(t, y, b) == Climb(t, x, a) ==> i + j == a + b
  {
    assert Grounded(t, y);
    forall a: nat, b: nat | FirstListed(t, up, x, a) && Climb(t, y, b) == Climb(t, x, a) ensures i + j == a + b {
      assert a == i;
      ClimbInjective(t, y, j, b);
    }
  }

  lemma ThroughOrphan(t: Topo, x: Rank, k: nat, y: Rank, m: nat, i: nat)
    requires Grounded(t, x) && Climb(t, x, k) == Some(y)
    requires Climb(t, x, i).Some? && Climb(t, y, m) == Climb(t, x, i)
    ensures i == k + m
  {
    ClimbSum(t, x, k, m);
    ClimbInjective(t, x, i, k + m);
  }

  lemma AboveOrphan(t: Topo, x: Rank, i: nat, y: Rank, k: nat) returns (m: nat)
    requires FirstMeeting(t, x, i, y)
    ensures m > 0 && Climb(t, y, m) == Climb(t, x, i)
  {
    m :| m > 0 && Climb(t, y, m) == Climb(t, x, i);
  }

  lemma ParentMeets(t: Topo, x: Rank, i: nat, y: Rank, k: nat)
    requires Climb(t, x, k) == Some(y) && FirstMeeting(t, x, i, y) && y in t.parent && t.parent[y].Some?
    ensures i <= k + 1
  {
    var p := t.parent[y].value;
    assert Climb(t, y, 1) == Some(p) by { assert Climb(t, p, 0) == Some(p); }
    ClimbSum(t, x, k, 1);
    assert ProperAncestor(t, p, y);
  }

  /** In one tree the climb from any node meets a proper ancestor of any node but the root. */
  lemma {:induction false} RootIsMet(t: Topo, x: Rank, y: Rank, k: nat) returns (i: nat)
    requires t.root.Some? && Climb(t, x, k) == t.root && ProperAncestor(t, t.root.value, y)
    ensures FirstMeeting(t, x, i, y)
    decreases k
  {
    if k == 0 || ProperAncestor(t, x, y) {
      i := 0;
      assert Climb(t, x, 0) == Some(x);
    } else {
      i := RootIsMet(t, t.parent[x].value, y, k - 1);
      StepBack(t, x, y, i);
      i := i + 1;
    }
  }

  lemma StepBack(t: Topo, x: Rank, y: Rank, i: nat)
    requires x in t.parent && t.parent[x].Some? && !ProperAncestor(t, x, y)
    requires FirstMeeting(t, t.parent[x].value, i, y)
    ensures FirstMeeting(t, x, i + 1, y)
  {
    assert NoneBefore(t, t.parent[x].value, i, y);
    forall k: nat | k < i + 1 && Climb(t, x, k).Some? ensures !ProperAncestor(t, Climb(t, x, k).value, y) {
      if k > 0 {
        assert Climb(t, x, k) == Climb(t, t.parent[x].value, k - 1);
      }
    }
  }

  /** Any two nodes of one tree have a first meeting, unless the second is the root. */
  lemma AlwaysMeet(t: Topo, x: Rank, y: Rank) returns (i: nat)
    requires SingleTree(t) && x in t.parent && y in t.parent && t.root != Some(y)
    ensures FirstMeeting(t, x, i, y)
  {
    assert InSubtree(t, t.root.value, x) && InSubtree(t, t.root.value, y);
    var m: nat :| Climb(t, y, m) == t.root;
    var k: nat :| Climb(t, x, k) == t.root;
    assert m > 0;
    i := RootIsMet(t, x, y, k);
  }

  // ---------------------------------------------------------------- height

  /** Node::get_DepthIncrease, from the two subtree heights. */
  function DepthIncrease(nodeHeight: nat, orphanHeight: nat): nat {
    if orphanHeight + 1 > nodeHeight then orphanHeight + 1 - nodeHeight else 0
  }

  lemma {:induction false} HeightAllSum(a: seq<Tree>, b: seq<Tree>)
    ensures HeightAll(a + b) == Max(HeightAll(a), HeightAll(b))
    decreases a
  {
    if a == [] {
      assert a + b == b;
    } else {
      assert (a + b)[1..] == a[1..] + b;
      HeightAllSum(a[1..], b);
    }
  }

  /** Adopting an orphan, wherever it goes among the children, deepens the adopter by exactly the predicted amount. */
  lemma AdoptionDeepensBy(node: Tree, orphan: Tree, i: nat)
    requires i <= |node.kids|
    ensures Height(node.(kids := node.kids[..i] + [orphan] + node.kids[i..]))
         == Height(node) + DepthIncrease(Height(node), Height(orphan))
  {
    var before, after := node.kids[..i], node.kids[i..];
    assert node.kids == before + after;
    HeightAllSum(before, after);
    HeightAllSum(before + [orphan], after);
    HeightAllSum(before, [orphan]);
    assert HeightAll([orphan]) == Height(orphan) by { assert [orphan][1..] == []; }
  }
}
