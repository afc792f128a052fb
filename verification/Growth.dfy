/** Building a topology from trees: what adding whole subtrees under a node does, and when two topologies are the same. */
module Growth {
  import opened Prelude
  import opened Forest
  import opened Trees
  import opened SerialGraph
  import opened Recovery

  function RankSet(ts: seq<Tree>): set<Rank> {
    set r | r in RanksAll(ts)
  }

  /** u and v agree on everything a representation records about r. */
  ghost predicate AgreeAt(u: Topo, v: Topo, r: Rank) {
    && r in u.kids && r in u.names && r in v.kids && r in v.names
    && u.kids[r] == v.kids[r] && u.names[r] == v.names[r] && (r in u.backends <==> r in v.backends)
  }

  lemma {:induction false} RepresentsKept(u: Topo, v: Topo, tr: Tree)
    requires Represents(u, tr) && forall r :: r in Ranks(tr) ==> AgreeAt(u, v, r)
    ensures Represents(v, tr)
    decreases tr
  {
    assert AgreeAt(u, v, tr.rank);
    RepresentsAllKept(u, v, tr.kids);
  }

  lemma {:induction false} RepresentsAllKept(u: Topo, v: Topo, ts: seq<Tree>)
    requires RepresentsAll(u, ts) && forall r :: r in RanksAll(ts) ==> AgreeAt(u, v, r)
    ensures RepresentsAll(v, ts)
    decreases ts
  {
    if ts != [] {
      RepresentsKept(u, v, ts[0]);
      RepresentsAllKept(u, v, ts[1..]);
    }
  }

  /** The ranks of ts are new and are all that is new. */
  ghost predicate KeysGrown(t: Topo, u: Topo, ts: seq<Tree>) {
    && t.parent.Keys == t.kids.Keys == t.names.Keys
    && u.parent.Keys == u.kids.Keys == u.names.Keys
    && u.parent.Keys == t.parent.Keys + RankSet(ts) && t.parent.Keys !! RankSet(ts)
  }

  /** Of what was there before, only p has changed: it has the roots of ts for further children. */
  ghost predicate OldKept(t: Topo, u: Topo, p: Rank, ts: seq<Tree>)
    requires KeysGrown(t, u, ts)
  {
    && p in t.parent && u.root == t.root && u.orphans == t.orphans
    && (forall r :: r in t.parent && r != p ==> AgreeAt(t, u, r))
    && (forall r :: r in t.parent ==> u.parent[r] == t.parent[r])
    && u.names[p] == t.names[p] && u.kids[p] == t.kids[p] + Roots(ts)
    && (p in u.backends <==> p in t.backends && ts == [])
  }

  /** u is t with the trees ts hung under p, and nothing else changed. */
  ghost predicate Grown(t: Topo, u: Topo, p: Rank, ts: seq<Tree>) {
    KeysGrown(t, u, ts) && OldKept(t, u, p, ts) && RepresentsAll(u, ts) && DistinctRoots(ts)
  }

  lemma {:induction false} RanksAllSum(a: seq<Tree>, b: seq<Tree>)
    ensures RanksAll(a + b) == RanksAll(a) + RanksAll(b)
    decreases a
  {
    if a == [] {
      assert a + b == b;
    } else {
      assert (a + b)[1..] == a[1..] + b;
      RanksAllSum(a[1..], b);
    }
  }

  lemma {:induction false} RootsSum(t: Topo, a: seq<Tree>, s: Tree)
    ensures Roots(a + [s]) == Roots(a) + {s.rank}
    ensures DistinctRoots(a) && s.rank !in Roots(a) ==> DistinctRoots(a + [s])
    ensures RepresentsAll(t, a) && Represents(t, s) ==> RepresentsAll(t, a + [s])
    decreases a
  {
    if a == [] {
      assert [s][1..] == [];
    } else {
      assert (a + [s])[1..] == a[1..] + [s];
      RootsSum(t, a[1..], s);
    }
  }

  lemma {:induction false} RootsAmongRanks(ts: seq<Tree>)
    ensures forall r :: r in Roots(ts) ==> r in RanksAll(ts)
  {
    if ts != [] {
      RootsAmongRanks(ts[1..]);
      assert ts[0].rank in Ranks(ts[0]);
    }
  }

  /** Nothing hung yet. */
  lemma GrownNone(t: Topo, p: Rank, ts: seq<Tree>)
    requires Linked(t) && p in t.parent && ts == []
    ensures Grown(t, t, p, ts)
  {
  }

  lemma KeysMore(t: Topo, u: Topo, v: Topo, a: seq<Tree>, s: Tree)
    requires KeysGrown(t, u, a) && KeysGrown(u, v, [s])
    ensures KeysGrown(t, v, a + [s])
  {
    RanksAllSum(a, [s]);
    assert RankSet(a + [s]) == RankSet(a) + RankSet([s]);
  }

  lemma OldMore(t: Topo, u: Topo, v: Topo, p: Rank, a: seq<Tree>, s: Tree)
    requires KeysGrown(t, u, a) && KeysGrown(u, v, [s]) && KeysGrown(t, v, a + [s])
    requires OldKept(t, u, p, a) && OldKept(u, v, p, [s])
    ensures OldKept(t, v, p, a + [s])
  {
    RootsSum(v, a, s);
    assert Roots([s]) == {s.rank} by { assert [s][1..] == []; }
    forall r | r in t.parent && r != p ensures AgreeAt(t, v, r) {
      assert AgreeAt(t, u, r) && AgreeAt(u, v, r);
    }
  }

  /** One more tree under the same node. */
  lemma GrownMore(t: Topo, u: Topo, v: Topo, p: Rank, a: seq<Tree>, s: Tree)
    requires Grown(t, u, p, a) && Grown(u, v, p, [s])
    ensures Grown(t, v, p, a + [s])
  {
    KeysMore(t, u, v, a, s);
    OldMore(t, u, v, p, a, s);
    RootsSum(v, a, s);
    RootsAmongRanks(a);
    SingleTreeList(s);
    RepresentsAllKept(u, v, a);
  }

  /** A fresh node, then its children: one more tree under the node's parent. */
  lemma GrownNode(t: Topo, u: Topo, p: Rank, tr: Tree)
    requires Linked(t) && Accounted(t) && p in t.parent && tr.rank !in t.parent
    requires tr.isBackend ==> tr.kids == []
    requires Grown(AddNode(t, tr.rank, tr.name, p, tr.isBackend), u, tr.rank, tr.kids)
    ensures Grown(t, u, p, [tr])
  {
    SingleTreeList(tr);
    GrownNodeOld(t, u, p, tr);
    GrownNodeSelf(AddNode(t, tr.rank, tr.name, p, tr.isBackend), u, tr);
  }

  lemma SingleTreeList(tr: Tree)
    ensures RanksAll([tr]) == Ranks(tr) && RankSet([tr]) == {tr.rank} + RankSet(tr.kids)
    ensures Roots([tr]) == {tr.rank} && DistinctRoots([tr])
  {
    assert [tr][1..] == [];
  }

  lemma GrownNodeSelf(m: Topo, u: Topo, tr: Tree)
    requires tr.rank in m.names && m.names[tr.rank] == tr.name && tr.rank in m.kids && m.kids[tr.rank] == {}
    requires (tr.rank in m.backends <==> tr.isBackend) && (tr.isBackend ==> tr.kids == [])
    requires Grown(m, u, tr.rank, tr.kids)
    ensures RepresentsAll(u, [tr])
  {
    assert [tr][1..] == [];
    assert {} + Roots(tr.kids) == Roots(tr.kids);
    assert Represents(u, tr);
  }

  lemma GrownNodeOld(t: Topo, u: Topo, p: Rank, tr: Tree)
    requires Linked(t) && p in t.parent && tr.rank !in t.parent
    requires Grown(AddNode(t, tr.rank, tr.name, p, tr.isBackend), u, tr.rank, tr.kids)
    ensures KeysGrown(t, u, [tr]) && OldKept(t, u, p, [tr])
  {
    SingleTreeList(tr);
    var m := AddNode(t, tr.rank, tr.name, p, tr.isBackend);
    OldThroughNode(t, m, u, p, tr, p);
    forall r | r in t.parent ensures u.parent[r] == t.parent[r] && (r != p ==> AgreeAt(t, u, r)) {
      OldThroughNode(t, m, u, p, tr, r);
    }
  }

  lemma OldThroughNode(t: Topo, m: Topo, u: Topo, p: Rank, tr: Tree, r: Rank)
    requires Linked(t) && p in t.parent && tr.rank !in t.parent && r in t.parent
    requires m == AddNode(t, tr.rank, tr.name, p, tr.isBackend)
    requires KeysGrown(m, u, tr.kids) && OldKept(m, u, tr.rank, tr.kids)
    ensures u.parent[r] == t.parent[r] && AgreeAt(m, u, r)
    ensures r != p ==> AgreeAt(t, u, r)
  {
    assert AgreeAt(m, u, r);
  }

  // ---------------------------------------------------------------- a text determines the topology

  lemma {:induction false} RepresentsAgree(t: Topo, u: Topo, tr: Tree, r: Rank)
    requires Represents(t, tr) && Represents(u, tr) && r in Ranks(tr)
    ensures AgreeAt(t, u, r)
    decreases tr
  {
    if r != tr.rank {
      RepresentsAllAgree(t, u, tr.kids, r);
    }
  }

  lemma {:induction false} RepresentsAllAgree(t: Topo, u: Topo, ts: seq<Tree>, r: Rank)
    requires RepresentsAll(t, ts) && RepresentsAll(u, ts) && r in RanksAll(ts)
    ensures AgreeAt(t, u, r)
    decreases ts
  {
    if r in Ranks(ts[0]) {
      RepresentsAgree(t, u, ts[0], r);
    } else {
      RepresentsAllAgree(t, u, ts[1..], r);
    }
  }

  lemma SingleTreeRanks(t: Topo, tr: Tree)
    requires SingleTree(t) && t.root == Some(tr.rank) && Represents(t, tr)
    ensures t.parent.Keys == set r | r in Ranks(tr)
  {
    forall r ensures r in t.parent <==> r in Ranks(tr) {
      RanksAreSubtree(t, tr, r);
      assert r in t.parent ==> InSubtree(t, t.root.value, r);
    }
  }

  /** One tree, one topology: whatever represents the same labelled tree from its root is the same value. */
  lemma SameTopology(t: Topo, u: Topo, tr: Tree)
    requires SingleTree(t) && t.root == Some(tr.rank) && Represents(t, tr)
    requires SingleTree(u) && u.root == Some(tr.rank) && Represents(u, tr)
    ensures t == u
  {
    SingleTreeRanks(t, tr);
    SingleTreeRanks(u, tr);
    forall r | r in t.parent ensures AgreeAt(t, u, r) {
      RepresentsAgree(t, u, tr, r);
    }
    SameParents(t, u);
    assert t.names == u.names && t.kids == u.kids;
    assert t.backends == u.backends;
  }

  lemma SameParents(t: Topo, u: Topo)
    requires Linked(t) && Linked(u) && t.parent.Keys == u.parent.Keys
    requires forall r :: r in t.parent ==> AgreeAt(t, u, r)
    ensures t.parent == u.parent
  {
    forall r | r in t.parent ensures t.parent[r] == u.parent[r] {
      if t.parent[r].Some? {
        assert AgreeAt(t, u, t.parent[r].value);
      } else if u.parent[r].Some? {
        assert AgreeAt(t, u, u.parent[r].value);
      }
    }
  }

  /** What the text form can carry, said of a topology. */
  ghost predicate PrintableTopo(t: Topo) {
    forall r :: r in t.names ==> PlainHost(t.names[r].host) && t.names[r].port < 0x1_0000 && r < 0x8000_0000
  }

  lemma {:induction false} RepresentedPrintable(t: Topo, tr: Tree)
    requires Accounted(t) && PrintableTopo(t) && Represents(t, tr)
    ensures Printable(tr)
    decreases tr
  {
    if tr.kids != [] {
      assert tr.kids[0].rank in Roots(tr.kids);
    }
    RepresentedPrintableAll(t, tr.kids);
  }

  lemma {:induction false} RepresentedPrintableAll(t: Topo, ts: seq<Tree>)
    requires Accounted(t) && PrintableTopo(t) && RepresentsAll(t, ts)
    ensures PrintableAll(ts)
    decreases ts
  {
    if ts != [] {
      RepresentedPrintable(t, ts[0]);
      RepresentedPrintableAll(t, ts[1..]);
    }
  }

  // ---------------------------------------------------------------- reading a text back

  /** The ranks of ts are all different and none of them is in use. */
  ghost predicate Fresh(t: Topo, ts: seq<Tree>) {
    NoRepeats(RanksAll(ts)) && forall r :: r in RanksAll(ts) ==> r !in t.parent
  }

  lemma FreshKid(m: Topo, u: Topo, p: Rank, ts: seq<Tree>, i: nat)
    requires i < |ts| && Fresh(m, ts) && Grown(m, u, p, ts[..i])
    ensures Fresh(u, [ts[i]])
  {
    assert ts == ts[..i] + ts[i..];
    RanksAllSum(ts[..i], ts[i..]);
    assert ts[i..][1..] == ts[i + 1..];
    SingleTreeList(ts[i]);
    forall r | r in Ranks(ts[i]) ensures r !in u.parent && multiset(Ranks(ts[i]))[r] <= 1 {
      assert multiset(RanksAll(ts))[r] <= 1;
      assert r in RanksAll(ts);
    }
    forall r ensures multiset(RanksAll([ts[i]]))[r] <= 1 {
      assert multiset(RanksAll(ts))[r] <= 1;
    }
  }

  lemma FreshBelow(t: Topo, tr: Tree, name: Name, p: Rank)
    requires Fresh(t, [tr]) && p in t.parent && p in t.kids
    ensures tr.rank !in t.parent && Fresh(AddNode(t, tr.rank, name, p, tr.isBackend), tr.kids)
  {
    SingleTreeList(tr);
    assert tr.rank in Ranks(tr);
    forall r ensures multiset(RanksAll(tr.kids))[r] <= 1 && (r in RanksAll(tr.kids) ==> r != tr.rank && r !in t.parent) {
      assert multiset(Ranks(tr))[r] <= 1;
      assert r in RanksAll(tr.kids) ==> r in Ranks(tr);
    }
  }

  /** A lone root with the children's trees hung under it is the whole tree. */
  lemma GrownFromRoot(t: Topo, u: Topo, tr: Tree)
    requires Inv(u) && t.root == Some(tr.rank) && t.orphans == {} && t.parent == map[tr.rank := None]
    requires t.names == map[tr.rank := tr.name] && t.kids == map[tr.rank := {}]
    requires t.backends == if tr.isBackend then {tr.rank} else {}
    requires tr.isBackend ==> tr.kids == []
    requires Grown(t, u, tr.rank, tr.kids)
    ensures SingleTree(u) && u.root == Some(tr.rank) && Represents(u, tr)
  {
    GrownNodeSelf(t, u, tr);
    assert [tr][0] == tr;
    TreeIffNoOrphans(u);
  }
}
