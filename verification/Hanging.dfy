/** What add_SubGraph does with the tree a text describes: known ranks move, new ones are added, and so on down the tree. */
module Hanging {
  import opened Prelude
  import opened Forest
  import opened Trees
  import opened SerialGraph
  import opened Growth
  import opened Proximity

  /** A topology and the ascendant set kept at each of its nodes. */
  datatype Known = Known(t: Topo, up: map<Rank, set<Rank>>)

  ghost predicate Kept(k: Known) {
    Linked(k.t) && Accounted(k.t) && k.up.Keys == k.t.parent.Keys
  }

  ghost predicate Exact(k: Known) {
    Inv(k.t) && AscendantsExact(k.t, k.up)
  }

  /** set_Parent with the moved node's ascendants refreshed. */
  ghost function Moved(k: Known, c: Rank, p: Rank): Known
    requires Kept(k) && c in k.t.parent && p in k.t.parent
  {
    Known(SetParent(k.t, c, p).0, if k.t.parent[c] == Some(p) then k.up else k.up[c := k.up[p] + {p}])
  }

  /** A fresh leaf under p with p's ascendants and p. */
  ghost function Added(k: Known, tr: Tree, p: Rank): Known
    requires Kept(k) && tr.rank !in k.t.parent && p in k.t.parent
  {
    Known(AddNode(k.t, tr.rank, tr.name, p, tr.isBackend), k.up[tr.rank := k.up[p] + {p}])
  }

  /** The root of the text goes below p: a rank already there keeps its name and moves. */
  ghost function Placed(k: Known, p: Rank, tr: Tree): (r: Known)
    requires Kept(k) && p in k.t.parent
    ensures Kept(r) && r.t.parent.Keys == k.t.parent.Keys + {tr.rank}
  {
    PlacedKept(k, p, tr);
    if tr.rank in k.t.parent then Moved(k, tr.rank, p) else Added(k, tr, p)
  }

  lemma PlacedKept(k: Known, p: Rank, tr: Tree)
    requires Kept(k) && p in k.t.parent
    ensures var r := if tr.rank in k.t.parent then Moved(k, tr.rank, p) else Added(k, tr, p);
            Kept(r) && r.t.parent.Keys == k.t.parent.Keys + {tr.rank}
  {
    if tr.rank in k.t.parent {
      SetParentLinked(k.t, tr.rank, p);
      MoveAccounted(k.t, tr.rank, p);
    } else {
      AddLinked(k.t, tr.rank, tr.name, p, tr.isBackend);
      AddAccounted(k.t, tr.rank, tr.name, p, tr.isBackend);
    }
  }

  ghost function Hang(k: Known, p: Rank, tr: Tree): (r: Known)
    requires Kept(k) && p in k.t.parent
    ensures Kept(r) && k.t.parent.Keys <= r.t.parent.Keys
    decreases tr
  {
    HangAll(Placed(k, p, tr), tr.rank, tr.kids)
  }

  ghost function HangAll(k: Known, p: Rank, ts: seq<Tree>): (r: Known)
    requires Kept(k) && p in k.t.parent
    ensures Kept(r) && k.t.parent.Keys <= r.t.parent.Keys
    decreases ts
  {
    if ts == [] then k else Hang(HangAll(k, p, ts[..|ts| - 1]), p, ts[|ts| - 1])
  }

  lemma HangOneMore(k: Known, p: Rank, ts: seq<Tree>, s: Tree, more: seq<Tree>)
    requires Kept(k) && p in k.t.parent && more == ts + [s]
    ensures HangAll(k, p, more) == Hang(HangAll(k, p, ts), p, s)
  {
    assert more[..|more| - 1] == ts && more[|more| - 1] == s;
  }

  // ---------------------------------------------------------------- a text of new ranks

  lemma PlacedFresh(k: Known, p: Rank, tr: Tree)
    requires Kept(k) && Exact(k) && p in k.t.parent && Fresh(k.t, [tr])
    ensures tr.rank !in k.t.parent && Exact(Placed(k, p, tr)) && Fresh(Placed(k, p, tr).t, tr.kids)
  {
    FreshBelow(k.t, tr, tr.name, p);
    AddKeepsInv(k.t, tr.rank, tr.name, p, tr.isBackend);
    AddKeepsAscendants(k.t, k.up, tr.rank, tr.name, p, tr.isBackend);
  }

  /** A text whose ranks are all new and different hangs below p as it is, and nothing else changes. */
  lemma {:induction false} HangGrows(k: Known, p: Rank, tr: Tree)
    requires Kept(k) && Exact(k) && p in k.t.parent && Printable(tr) && Fresh(k.t, [tr])
    ensures Exact(Hang(k, p, tr)) && Grown(k.t, Hang(k, p, tr).t, p, [tr])
    decreases tr, 1
  {
    PlacedFresh(k, p, tr);
    HangAllGrows(Placed(k, p, tr), tr.rank, tr.kids);
    GrownNode(k.t, Hang(k, p, tr).t, p, tr);
  }

  lemma {:induction false} HangAllGrows(k: Known, p: Rank, ts: seq<Tree>)
    requires Kept(k) && Exact(k) && p in k.t.parent && PrintableAll(ts) && Fresh(k.t, ts)
    ensures Exact(HangAll(k, p, ts)) && Grown(k.t, HangAll(k, p, ts).t, p, ts)
    decreases ts, 0
  {
    if ts == [] {
      GrownNone(k.t, p, ts);
    } else {
      FrontFresh(k.t, ts);
      HangAllGrows(k, p, ts[..|ts| - 1]);
      HangLast(k.t, HangAll(k, p, ts[..|ts| - 1]), p, ts);
    }
  }

  lemma HangLast(t: Topo, u: Known, p: Rank, ts: seq<Tree>)
    requires ts != [] && PrintableAll(ts) && Fresh(t, ts)
    requires Kept(u) && Exact(u) && p in u.t.parent && Grown(t, u.t, p, ts[..|ts| - 1])
    ensures Exact(Hang(u, p, ts[|ts| - 1])) && Grown(t, Hang(u, p, ts[|ts| - 1]).t, p, ts)
    decreases ts[|ts| - 1], 2
  {
    LastFresh(t, u.t, p, ts);
    HangGrows(u, p, ts[|ts| - 1]);
    GrownLast(t, u.t, Hang(u, p, ts[|ts| - 1]).t, p, ts);
  }

  lemma LastFresh(t: Topo, u: Topo, p: Rank, ts: seq<Tree>)
    requires ts != [] && PrintableAll(ts) && Fresh(t, ts) && Grown(t, u, p, ts[..|ts| - 1])
    ensures Fresh(u, [ts[|ts| - 1]]) && Printable(ts[|ts| - 1])
  {
    FreshKid(t, u, p, ts, |ts| - 1);
    PrintableKid(ts, |ts| - 1);
  }

  lemma GrownLast(t: Topo, u: Topo, v: Topo, p: Rank, ts: seq<Tree>)
    requires ts != [] && Grown(t, u, p, ts[..|ts| - 1]) && Grown(u, v, p, [ts[|ts| - 1]])
    ensures Grown(t, v, p, ts)
  {
    GrownMore(t, u, v, p, ts[..|ts| - 1], ts[|ts| - 1]);
    assert ts[..|ts| - 1] + [ts[|ts| - 1]] == ts;
  }

  lemma FrontFresh(t: Topo, ts: seq<Tree>)
    requires ts != [] && Fresh(t, ts) && PrintableAll(ts)
    ensures Fresh(t, ts[..|ts| - 1]) && PrintableAll(ts[..|ts| - 1])
  {
    var front, last := ts[..|ts| - 1], ts[|ts| - 1];
    assert ts == front + [last];
    RanksAllSum(front, [last]);
    RepeatsNowhere(RanksAll(front), RanksAll([last]));
    FrontPrintable(ts, |ts| - 1);
  }

  lemma {:induction false} FrontPrintable(ts: seq<Tree>, n: nat)
    requires PrintableAll(ts) && n <= |ts|
    ensures PrintableAll(ts[..n])
  {
    if n > 0 {
      FrontPrintable(ts[1..], n - 1);
      assert ts[..n][1..] == ts[1..][..n - 1];
    }
  }

  // ---------------------------------------------------------------- a text that is already there

  /** A text that says what is there already changes nothing below its root, so only the root moves. */
  lemma HangKnownMoves(k: Known, p: Rank, tr: Tree)
    requires Kept(k) && Inv(k.t) && Represents(k.t, tr) && tr.rank in k.t.parent
    requires p in k.t.parent && !InSubtree(k.t, tr.rank, p)
    ensures Hang(k, p, tr) == Moved(k, tr.rank, p)
  {
    var m := Moved(k, tr.rank, p);
    assert m == Placed(k, p, tr);
    forall r | r in Ranks(tr) ensures AgreeAt(k.t, m.t, r) {
      MoveSparesBelow(k, p, tr, r);
    }
    RepresentsKept(k.t, m.t, tr);
    HangAllAgain(m, tr.rank, tr.kids);
  }

  lemma MoveSparesBelow(k: Known, p: Rank, tr: Tree, r: Rank)
    requires Kept(k) && Inv(k.t) && Represents(k.t, tr) && tr.rank in k.t.parent && r in Ranks(tr)
    requires p in k.t.parent && !InSubtree(k.t, tr.rank, p)
    ensures AgreeAt(k.t, Moved(k, tr.rank, p).t, r)
  {
    RanksBelow(k.t, tr, r);
    if k.t.parent[tr.rank].Some? {
      ParentNotBelow(k.t, k.t.parent[tr.rank].value, tr.rank);
    }
  }

  lemma {:induction false} HangAllAgain(k: Known, p: Rank, ts: seq<Tree>)
    requires Kept(k) && p in k.t.kids && RepresentsAll(k.t, ts) && Roots(ts) <= k.t.kids[p]
    ensures HangAll(k, p, ts) == k
    decreases ts
  {
    if ts != [] {
      var n := |ts| - 1;
      KidFacts(k.t, ts, n);
      RepresentsFront(k.t, ts, n);
      HangAllAgain(k, p, ts[..n]);
      KidLinked(k.t, p, ts[n].rank);
      assert Placed(k, p, ts[n]) == k;
      HangAllAgain(k, ts[n].rank, ts[n].kids);
    }
  }

  lemma {:induction false} RepresentsFront(t: Topo, ts: seq<Tree>, n: nat)
    requires RepresentsAll(t, ts) && n <= |ts|
    ensures RepresentsAll(t, ts[..n]) && Roots(ts[..n]) <= Roots(ts)
  {
    if n > 0 {
      RepresentsFront(t, ts[1..], n - 1);
      assert ts[..n][1..] == ts[1..][..n - 1];
    }
  }

  // ---------------------------------------------------------------- an adopted subtree

  lemma AdoptionSpares(t: Topo, node: Rank, orphan: Rank, tr: Tree, r: Rank)
    requires Inv(t) && Represents(t, tr) && tr.rank == node && r in RanksAll(tr.kids)
    requires orphan in t.parent && !InSubtree(t, node, orphan)
    ensures AgreeAt(t, SetParent(t, orphan, node).0, r)
  {
    assert r in Ranks(tr);
    RanksBelow(t, tr, r);
    NotBelowItself(t, tr);
    if t.parent[orphan] == Some(r) {
      SubtreeBelow(t, node, orphan);
    }
  }

  lemma AdoptedStays(t: Topo, node: Rank, orphan: Rank, otr: Tree, r: Rank)
    requires Inv(t) && Represents(t, otr) && otr.rank == orphan && orphan in t.parent && r in Ranks(otr)
    requires node in t.parent && !InSubtree(t, orphan, node)
    ensures AgreeAt(t, SetParent(t, orphan, node).0, r)
  {
    RanksBelow(t, otr, r);
    if t.parent[orphan].Some? {
      ParentNotBelow(t, t.parent[orphan].value, orphan);
    }
  }

  lemma AdoptedKids(t: Topo, node: Rank, orphan: Rank)
    requires Linked(t) && node in t.parent && orphan in t.parent && !InSubtree(t, node, orphan)
    ensures orphan !in t.kids[node] && SetParent(t, orphan, node).0.kids[node] == t.kids[node] + {orphan}
    ensures SetParent(t, orphan, node).0.names == t.names && node !in SetParent(t, orphan, node).0.backends
  {
    SubtreeSelf(t, node);
    if orphan in t.kids[node] || t.parent[orphan] == Some(node) {
      SubtreeBelow(t, node, orphan);
    }
  }

  /** When neither lies below the other, set_Parent makes the orphan's tree one more child of the node's tree. */
  lemma AdoptedTree(t: Topo, tr: Tree, otr: Tree)
    requires Inv(t) && Represents(t, tr) && Represents(t, otr)
    requires !InSubtree(t, otr.rank, tr.rank) && !InSubtree(t, tr.rank, otr.rank)
    ensures Represents(SetParent(t, otr.rank, tr.rank).0, tr.(kids := tr.kids + [otr], isBackend := false))
  {
    var u := SetParent(t, otr.rank, tr.rank).0;
    forall r | r in RanksAll(tr.kids) ensures AgreeAt(t, u, r) {
      AdoptionSpares(t, tr.rank, otr.rank, tr, r);
    }
    forall r | r in Ranks(otr) ensures AgreeAt(t, u, r) {
      AdoptedStays(t, tr.rank, otr.rank, otr, r);
    }
    RepresentsAllKept(t, u, tr.kids);
    RepresentsKept(t, u, otr);
    AdoptedKids(t, tr.rank, otr.rank);
    RootsSum(u, tr.kids, otr);
  }

  /** The depth increase computed before an adoption is what set_Parent then adds to the height of the adopter's tree. */
  lemma AdoptionDeepensTree(t: Topo, tr: Tree, otr: Tree)
    requires Inv(t) && Represents(t, tr) && Represents(t, otr)
    requires !InSubtree(t, otr.rank, tr.rank) && !InSubtree(t, tr.rank, otr.rank)
    ensures var now := tr.(kids := tr.kids + [otr], isBackend := false);
      && Represents(SetParent(t, otr.rank, tr.rank).0, now)
      && Height(now) == Height(tr) + DepthIncrease(Height(tr), Height(otr))
  {
    AdoptedTree(t, tr, otr);
    var n, now := |tr.kids|, tr.(kids := tr.kids + [otr], isBackend := false);
    AdoptionDeepensBy(tr, otr, n);
    assert tr.kids[..n] + [otr] + tr.kids[n..] == now.kids;
    assert Height(now) == Height(tr.(kids := now.kids));
  }
}
