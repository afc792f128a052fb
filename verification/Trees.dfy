/** Ordered labelled trees: the shape a traversal of the topology sees, and the shape a text describes. */
module Trees {
  import opened Prelude
  import opened Forest

  datatype Tree = Node(rank: Rank, name: Name, isBackend: bool, kids: seq<Tree>)

  // ---------------------------------------------------------------- what traversals compute

  /** Ranks in preorder. */
  function Ranks(tr: Tree): seq<Rank>
    decreases tr
  {
    [tr.rank] + RanksAll(tr.kids)
  }

  function RanksAll(ts: seq<Tree>): seq<Rank>
    decreases ts
  {
    if ts == [] then [] else Ranks(ts[0]) + RanksAll(ts[1..])
  }

  function Max(a: nat, b: nat): nat { if a > b then a else b }

  /** Edges on the longest downward path. */
  function Height(tr: Tree): nat
    decreases tr
  {
    if tr.kids == [] then 0 else 1 + HeightAll(tr.kids)
  }

  function HeightAll(ts: seq<Tree>): nat
    decreases ts
  {
    if ts == [] then 0 else Max(Height(ts[0]), HeightAll(ts[1..]))
  }

  // ---------------------------------------------------------------- trees and topologies

  function Roots(ts: seq<Tree>): set<Rank> {
    if ts == [] then {} else {ts[0].rank} + Roots(ts[1..])
  }

  predicate DistinctRoots(ts: seq<Tree>) {
    ts == [] || (ts[0].rank !in Roots(ts[1..]) && DistinctRoots(ts[1..]))
  }

  /** tr is the subtree of t at tr.rank, its children listed in some order. */
  ghost predicate Represents(t: Topo, tr: Tree)
    decreases tr
  {
    && tr.rank in t.kids && tr.rank in t.names
    && tr.name == t.names[tr.rank]
    && tr.isBackend == (tr.rank in t.backends)
    && Roots(tr.kids) == t.kids[tr.rank] && DistinctRoots(tr.kids)
    && RepresentsAll(t, tr.kids)
  }

  ghost predicate RepresentsAll(t: Topo, ts: seq<Tree>)
    decreases ts
  {
    ts == [] || (Represents(t, ts[0]) && RepresentsAll(t, ts[1..]))
  }

  /** Every live node of an acyclic topology has a finite tree below it. */
  lemma {:induction false} TreeAt(t: Topo, r: Rank, above: set<Rank>) returns (tr: Tree)
    requires Inv(t) && r in t.parent && above <= t.parent.Keys
    requires forall a :: a in above ==> a != r && InSubtree(t, a, r)
    ensures tr.rank == r && Represents(t, tr)
    decreases t.parent.Keys - above, 1
  {
    var kids := TreesAt(t, r, above, t.kids[r]);
    tr := Node(r, t.names[r], r in t.backends, kids);
  }

  lemma AboveChild(t: Topo, r: Rank, above: set<Rank>, c: Rank)
    requires Linked(t) && Acyclic(t) && r in t.kids && c in t.kids[r]
    requires forall a :: a in above ==> a != r && InSubtree(t, a, r)
    ensures forall a :: a in above + {r} ==> a != c && InSubtree(t, a, c)
  {
    SubtreeSelf(t, r);
    ParentNotBelow(t, r, c);
    forall a | a in above + {r} ensures a != c && InSubtree(t, a, c) {
      SubtreeBelow(t, a, c);
    }
  }

  lemma {:induction false} TreesAt(t: Topo, r: Rank, above: set<Rank>, some: set<Rank>) returns (ts: seq<Tree>)
    requires Inv(t) && r in t.parent && above <= t.parent.Keys && some <= t.kids[r]
    requires forall a :: a in above ==> a != r && InSubtree(t, a, r)
    ensures Roots(ts) == some && DistinctRoots(ts) && RepresentsAll(t, ts)
    decreases t.parent.Keys - above, 0, some
  {
    if some == {} {
      ts := [];
    } else {
      var c :| c in some;
      AboveChild(t, r, above, c);
      var first := TreeAt(t, c, above + {r});
      var rest := TreesAt(t, r, above, some - {c});
      ts := [first] + rest;
      assert ts[1..] == rest;
    }
  }

  /** The child tree that carries a given rank. */
  lemma {:induction false} KidAt(ts: seq<Tree>, c: Rank) returns (i: nat)
    requires c in Roots(ts)
    ensures i < |ts| && ts[i].rank == c
  {
    if ts[0].rank == c {
      i := 0;
    } else {
      i := KidAt(ts[1..], c);
      i := i + 1;
    }
  }

  lemma {:induction false} KidFacts(t: Topo, ts: seq<Tree>, i: nat)
    requires RepresentsAll(t, ts) && i < |ts|
    ensures Represents(t, ts[i]) && ts[i].rank in Roots(ts)
    ensures forall x :: x in Ranks(ts[i]) ==> x in RanksAll(ts)
  {
    if i > 0 {
      KidFacts(t, ts[1..], i - 1);
    }
  }

  lemma {:induction false} FindKid(t: Topo, ts: seq<Tree>, x: Rank) returns (i: nat)
    requires RepresentsAll(t, ts) && x in RanksAll(ts)
    ensures i < |ts| && x in Ranks(ts[i])
    decreases ts
  {
    if x in Ranks(ts[0]) {
      i := 0;
    } else {
      i := FindKid(t, ts[1..], x);
      i := i + 1;
    }
  }

  lemma {:induction false} RanksBelow(t: Topo, tr: Tree, x: Rank)
    requires Linked(t) && Represents(t, tr) && x in Ranks(tr)
    ensures x in t.parent && InSubtree(t, tr.rank, x)
    decreases tr
  {
    SubtreeSelf(t, tr.rank);
    if x != tr.rank {
      var i := FindKid(t, tr.kids, x);
      KidFacts(t, tr.kids, i);
      RanksBelow(t, tr.kids[i], x);
      SubtreeBelow(t, tr.rank, tr.kids[i].rank);
      SubtreeTransitive(t, tr.rank, tr.kids[i].rank, x);
    }
  }

  lemma {:induction false} BelowRanks(t: Topo, tr: Tree, x: Rank, k: nat)
    requires Linked(t) && Represents(t, tr) && x in t.parent && Climb(t, x, k) == Some(tr.rank)
    ensures x in Ranks(tr)
    decreases k
  {
    if k > 0 {
      var y := ClimbStop(t, x, k - 1);
      ClimbSum(t, x, k - 1, 1);
      var i := KidAt(tr.kids, y);
      KidFacts(t, tr.kids, i);
      BelowRanks(t, tr.kids[i], x, k - 1);
    }
  }

  lemma ClimbStop(t: Topo, x: Rank, k: nat) returns (y: Rank)
    requires Linked(t) && x in t.parent && Climb(t, x, k + 1).Some?
    ensures Climb(t, x, k) == Some(y) && y in t.parent && t.parent[y] == Climb(t, x, k + 1)
  {
    if Climb(t, x, k) == None {
      ClimbOut(t, x, k, k + 1);
    }
    ClimbLive(t, x, k);
    y := Climb(t, x, k).value;
    ClimbSum(t, x, k, 1);
    assert t.parent[y].Some? ==> Climb(t, t.parent[y].value, 0) == t.parent[y];
  }

  /** The ranks a downward traversal meets are exactly those that climb to where it started. */
  lemma RanksAreSubtree(t: Topo, tr: Tree, x: Rank)
    requires Linked(t) && Represents(t, tr)
    ensures x in Ranks(tr) <==> x in t.parent && InSubtree(t, tr.rank, x)
  {
    if x in Ranks(tr) {
      RanksBelow(t, tr, x);
    }
    if x in t.parent && InSubtree(t, tr.rank, x) {
      var k: nat :| Climb(t, x, k) == Some(tr.rank);
      BelowRanks(t, tr, x, k);
    }
  }

  lemma KidLinked(t: Topo, p: Rank, c: Rank)
    requires Linked(t) && p in t.kids && c in t.kids[p]
    ensures c in t.parent && t.parent[c] == Some(p)
  {
  }

  /** Two nodes with the same parent have no descendant in common. */
  lemma SiblingsApart(t: Topo, p: Rank, a: Rank, b: Rank, x: Rank)
    requires Acyclic(t) && a in t.parent && b in t.parent && x in t.parent
    requires t.parent[a] == Some(p) && t.parent[b] == Some(p)
    requires InSubtree(t, a, x) && InSubtree(t, b, x)
    ensures a == b
  {
    var i := ParentAbove(t, p, a, x);
    var j := ParentAbove(t, p, b, x);
    assert Grounded(t, x);
    ClimbInjective(t, x, i + 1, j + 1);
  }

  lemma ParentAbove(t: Topo, p: Rank, a: Rank, x: Rank) returns (i: nat)
    requires a in t.parent && t.parent[a] == Some(p) && InSubtree(t, a, x)
    ensures Climb(t, x, i) == Some(a) && Climb(t, x, i + 1) == Some(p)
  {
    i :| Climb(t, x, i) == Some(a);
    ClimbSum(t, x, i, 1);
    assert Climb(t, a, 1) == Some(p) by { assert Climb(t, p, 0) == Some(p); }
  }

  ghost predicate NoRepeats(s: seq<Rank>) {
    forall x :: multiset(s)[x] <= 1
  }

  /** A traversal meets no rank twice. */
  lemma {:induction false} RanksOnce(t: Topo, tr: Tree)
    requires Inv(t) && Represents(t, tr)
    ensures NoRepeats(Ranks(tr))
    decreases tr
  {
    RanksAllOnce(t, tr.rank, tr.kids);
    NotBelowItself(t, tr);
  }

  lemma NotBelowItself(t: Topo, tr: Tree)
    requires Linked(t) && Acyclic(t) && Represents(t, tr)
    ensures tr.rank !in RanksAll(tr.kids)
  {
    if tr.rank in RanksAll(tr.kids) {
      var i := FindKid(t, tr.kids, tr.rank);
      KidFacts(t, tr.kids, i);
      RanksBelow(t, tr.kids[i], tr.rank);
      ParentNotBelow(t, tr.rank, tr.kids[i].rank);
    }
  }

  lemma {:induction false} RanksAllOnce(t: Topo, p: Rank, ts: seq<Tree>)
    requires Inv(t) && RepresentsAll(t, ts) && DistinctRoots(ts)
    requires p in t.kids && Roots(ts) <= t.kids[p]
    ensures NoRepeats(RanksAll(ts))
    decreases ts
  {
    if ts != [] {
      RanksOnce(t, ts[0]);
      RanksAllOnce(t, p, ts[1..]);
      forall x ensures multiset(RanksAll(ts))[x] <= 1 {
        if x in Ranks(ts[0]) && x in RanksAll(ts[1..]) {
          var i := FindKid(t, ts[1..], x);
          KidFacts(t, ts[1..], i);
          RanksBelow(t, ts[0], x);
          RanksBelow(t, ts[1..][i], x);
          SiblingsApart(t, p, ts[0].rank, ts[1..][i].rank, x);
        }
      }
    }
  }

  /** Nothing in one child's tree lies below or above anything in another's. */
  lemma ApartFromOthers(t: Topo, p: Rank, ts: seq<Tree>, x: Rank, y: Rank)
    requires Inv(t) && ts != [] && RepresentsAll(t, ts) && DistinctRoots(ts) && p in t.kids && Roots(ts) <= t.kids[p]
    requires x in Ranks(ts[0]) && y in RanksAll(ts[1..])
    ensures !InSubtree(t, x, y) && !InSubtree(t, y, x)
  {
    var i := FindKid(t, ts[1..], y);
    KidFacts(t, ts[1..], i);
    var a, b := ts[0].rank, ts[1..][i].rank;
    RanksBelow(t, ts[0], x);
    RanksBelow(t, ts[1..][i], y);
    if InSubtree(t, x, y) {
      SubtreeTransitive(t, a, x, y);
      SiblingsApart(t, p, a, b, y);
    }
    if InSubtree(t, y, x) {
      SubtreeTransitive(t, b, y, x);
      SiblingsApart(t, p, a, b, x);
    }
  }

  /** The n ranks from the i-th on are the subtree of the i-th. */
  ghost predicate Block(t: Topo, rs: seq<Rank>, i: nat, n: nat) {
    && 0 < n && i + n <= |rs|
    && forall j :: 0 <= j < |rs| ==> (i <= j < i + n <==> InSubtree(t, rs[i], rs[j]))
  }

  /** A traversal meets every rank right before everything else below it. */
  lemma {:induction false} SubtreesAreBlocks(t: Topo, tr: Tree, i: nat) returns (n: nat)
    requires Inv(t) && Represents(t, tr) && i < |Ranks(tr)|
    ensures Block(t, Ranks(tr), i, n)
    decreases tr
  {
    var rs := Ranks(tr);
    if i == 0 {
      n := |rs|;
      forall j | 0 <= j < |rs| ensures InSubtree(t, rs[0], rs[j]) {
        RanksBelow(t, tr, rs[j]);
      }
    } else {
      n := BlocksOfAll(t, tr.rank, tr.kids, i - 1);
      NotAboveRoot(t, tr, rs[i]);
      forall j | 0 <= j < |rs| ensures i <= j < i + n <==> InSubtree(t, rs[i], rs[j]) {
        assert j > 0 ==> rs[j] == RanksAll(tr.kids)[j - 1];
      }
    }
  }

  lemma NotAboveRoot(t: Topo, tr: Tree, x: Rank)
    requires Inv(t) && Represents(t, tr) && x in RanksAll(tr.kids)
    ensures !InSubtree(t, x, tr.rank)
  {
    var i := FindKid(t, tr.kids, x);
    KidFacts(t, tr.kids, i);
    RanksBelow(t, tr.kids[i], x);
    ParentNotBelow(t, tr.rank, tr.kids[i].rank);
    if InSubtree(t, x, tr.rank) {
      SubtreeTransitive(t, tr.kids[i].rank, x, tr.rank);
    }
  }

  lemma {:induction false} BlocksOfAll(t: Topo, p: Rank, ts: seq<Tree>, i: nat) returns (n: nat)
    requires Inv(t) && RepresentsAll(t, ts) && DistinctRoots(ts) && p in t.kids && Roots(ts) <= t.kids[p]
    requires i < |RanksAll(ts)|
    ensures Block(t, RanksAll(ts), i, n)
    decreases ts
  {
    var a, b := Ranks(ts[0]), RanksAll(ts[1..]);
    if i < |a| {
      n := SubtreesAreBlocks(t, ts[0], i);
    } else {
      n := BlocksOfAll(t, p, ts[1..], i - |a|);
    }
    forall x, y | x in a && y in b ensures !InSubtree(t, x, y) && !InSubtree(t, y, x) {
      ApartFromOthers(t, p, ts, x, y);
    }
    BlockBeside(t, a, b, i, n);
  }

  lemma BlockBeside(t: Topo, a: seq<Rank>, b: seq<Rank>, i: nat, n: nat)
    requires i < |a| + |b| && if i < |a| then Block(t, a, i, n) else Block(t, b, i - |a|, n)
    requires forall x, y :: x in a && y in b ==> !InSubtree(t, x, y) && !InSubtree(t, y, x)
    ensures Block(t, a + b, i, n)
  {
    var rs := a + b;
    forall j | 0 <= j < |rs| ensures i <= j < i + n <==> InSubtree(t, rs[i], rs[j]) {
      assert rs[i] in (if i < |a| then a else b) && rs[j] in (if j < |a| then a else b);
    }
  }

  // ---------------------------------------------------------------- heights

  lemma {:induction false} HeightAllIsMax(ts: seq<Tree>, m: nat)
    requires forall i :: 0 <= i < |ts| ==> Height(ts[i]) <= m
    requires m == 0 || exists i :: 0 <= i < |ts| && Height(ts[i]) == m
    ensures HeightAll(ts) == m
  {
    if ts != [] {
      var n := HeightAll(ts[1..]);
      HeightAllBounds(ts[1..]);
      if m > 0 {
        var i :| 0 <= i < |ts| && Height(ts[i]) == m;
        assert i > 0 ==> ts[1..][i - 1] == ts[i];
      }
      if n > 0 {
        var j :| 0 <= j < |ts[1..]| && Height(ts[1..][j]) == n;
        assert ts[j + 1] == ts[1..][j];
      }
    }
  }

  lemma {:induction false} HeightAllBounds(ts: seq<Tree>)
    ensures forall i :: 0 <= i < |ts| ==> Height(ts[i]) <= HeightAll(ts)
    ensures HeightAll(ts) == 0 || exists i :: 0 <= i < |ts| && Height(ts[i]) == HeightAll(ts)
  {
    if ts != [] {
      HeightAllBounds(ts[1..]);
      forall i | 0 <= i < |ts| ensures Height(ts[i]) <= HeightAll(ts) {
        assert i > 0 ==> ts[i] == ts[1..][i - 1];
      }
      if HeightAll(ts[1..]) > 0 {
        var j :| 0 <= j < |ts[1..]| && Height(ts[1..][j]) == HeightAll(ts[1..]);
        assert ts[j + 1] == ts[1..][j];
      }
      assert ts[0] == ts[0];
    }
  }

  lemma {:induction false} HeightBounds(t: Topo, tr: Tree, x: Rank, k: nat)
    requires Linked(t) && Represents(t, tr) && x in t.parent && Climb(t, x, k) == Some(tr.rank)
    ensures k <= Height(tr)
    decreases k
  {
    if k > 0 {
      var y := ClimbStop(t, x, k - 1);
      ClimbSum(t, x, k - 1, 1);
      var i := KidAt(tr.kids, y);
      KidFacts(t, tr.kids, i);
      HeightBounds(t, tr.kids[i], x, k - 1);
      HeightAllBounds(tr.kids);
    }
  }

  lemma {:induction false} Deepest(t: Topo, tr: Tree) returns (x: Rank)
    requires Linked(t) && Represents(t, tr)
    ensures x in t.parent && Climb(t, x, Height(tr)) == Some(tr.rank)
    decreases tr
  {
    x := tr.rank;
    if tr.kids != [] {
      var i := Highest(tr.kids);
      KidFacts(t, tr.kids, i);
      x := Deepest(t, tr.kids[i]);
      KidLinked(t, tr.rank, tr.kids[i].rank);
      ClimbSum(t, x, Height(tr.kids[i]), 1);
      assert Climb(t, tr.rank, 0) == Some(tr.rank);
    }
  }

  lemma Highest(ts: seq<Tree>) returns (i: nat)
    requires ts != []
    ensures i < |ts| && Height(ts[i]) == HeightAll(ts)
  {
    HeightAllBounds(ts);
    if HeightAll(ts) == 0 {
      i := 0;
    } else {
      i :| 0 <= i < |ts| && Height(ts[i]) == HeightAll(ts);
    }
  }

  /** The height of a subtree is the greatest number of links from its root down to any rank. */
  lemma HeightIsGreatest(t: Topo, tr: Tree)
    requires Linked(t) && Represents(t, tr)
    ensures forall x, k: nat :: x in t.parent && Climb(t, x, k) == Some(tr.rank) ==> k <= Height(tr)
    ensures exists x :: x in t.parent && Climb(t, x, Height(tr)) == Some(tr.rank)
  {
    forall x, k: nat | x in t.parent && Climb(t, x, k) == Some(tr.rank) ensures k <= Height(tr) {
      HeightBounds(t, tr, x, k);
    }
    var x := Deepest(t, tr);
  }
}
