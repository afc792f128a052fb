/**
 * What add_SubGraph leaves behind, link by link, when a text names known and new ranks alike: known ranks move to
 * where the text has them, new ones are added there, and everything else stays.
 */
module Mixing {
  import opened Prelude
  import opened Forest
  import opened Trees
  import opened SerialGraph
  import opened Growth
  import opened Hanging

  /** Every live rank has a name and an ascendant set. */
  ghost predicate Columns(k: Known) {
    k.t.names.Keys == k.t.parent.Keys && k.up.Keys == k.t.parent.Keys
  }

  /** Nothing recorded of r itself has changed. */
  ghost predicate Same(k: Known, u: Known, r: Rank)
    requires Columns(k) && Columns(u)
  {
    && (r in k.t.parent <==> r in u.t.parent)
    && (r in k.t.parent ==>
          && u.t.parent[r] == k.t.parent[r] && u.t.names[r] == k.t.names[r] && u.up[r] == k.up[r]
          && (r in u.t.backends <==> r in k.t.backends))
  }

  /** c hangs below q, under its old name if it had one, and has new ascendants if it was not there before. */
  ghost predicate Edge(k: Known, u: Known, q: Rank, c: Tree)
    requires Columns(k) && Columns(u)
  {
    && c.rank in u.t.parent && q in u.t.parent && u.t.parent[c.rank] == Some(q)
    && u.t.names[c.rank] == (if c.rank in k.t.parent then k.t.names[c.rank] else c.name)
    && (c.rank in u.t.backends <==> c.kids == [] && if c.rank in k.t.parent then c.rank in k.t.backends else c.isBackend)
    && u.up[c.rank] == if c.rank in k.t.parent && k.t.parent[c.rank] == Some(q) then k.up[c.rank] else u.up[q] + {q}
  }

  ghost predicate Edges(k: Known, u: Known, q: Rank, ts: seq<Tree>)
    requires Columns(k) && Columns(u)
    decreases ts
  {
    ts == [] || (Edge(k, u, q, ts[0]) && Edges(k, u, ts[0].rank, ts[0].kids) && Edges(k, u, q, ts[1..]))
  }

  /** u is k with the trees ts worked in below q. */
  ghost predicate Mixed(k: Known, u: Known, q: Rank, ts: seq<Tree>)
    requires Columns(k) && Columns(u)
  {
    && q in k.t.parent && q in u.t.parent
    && u.t.root == k.t.root && u.t.orphans == k.t.orphans - RankSet(ts)
    && u.t.parent.Keys == k.t.parent.Keys + RankSet(ts)
    && (forall r :: r != q && r !in RanksAll(ts) ==> Same(k, u, r))
    && u.t.parent[q] == k.t.parent[q] && u.t.names[q] == k.t.names[q] && u.up[q] == k.up[q]
    && (q in u.t.backends <==> q in k.t.backends && ts == [])
    && Edges(k, u, q, ts)
  }

  // ---------------------------------------------------------------- putting pieces together

  lemma EdgeKept(k: Known, k': Known, u: Known, u': Known, q: Rank, c: Tree)
    requires Columns(k) && Columns(k') && Columns(u) && Columns(u') && Edge(k, u, q, c)
    requires Same(k, k', c.rank) && Same(u, u', c.rank) && q in u'.t.parent && u'.up[q] == u.up[q]
    ensures Edge(k', u', q, c)
  {
  }

  lemma {:induction false} EdgesKept(k: Known, k': Known, u: Known, u': Known, q: Rank, ts: seq<Tree>)
    requires Columns(k) && Columns(k') && Columns(u) && Columns(u') && Edges(k, u, q, ts)
    requires forall r :: r in RanksAll(ts) ==> Same(k, k', r) && Same(u, u', r)
    requires ts != [] ==> q in u.t.parent && q in u'.t.parent && u'.up[q] == u.up[q]
    ensures Edges(k', u', q, ts)
    decreases ts
  {
    if ts != [] {
      assert ts[0].rank in Ranks(ts[0]);
      EdgeKept(k, k', u, u', q, ts[0]);
      EdgesKept(k, k', u, u', ts[0].rank, ts[0].kids);
      EdgesKept(k, k', u, u', q, ts[1..]);
    }
  }

  lemma {:induction false} EdgesSnoc(k: Known, u: Known, q: Rank, ts: seq<Tree>, s: Tree)
    requires Columns(k) && Columns(u) && Edges(k, u, q, ts) && Edge(k, u, q, s) && Edges(k, u, s.rank, s.kids)
    ensures Edges(k, u, q, ts + [s])
    decreases ts
  {
    if ts == [] {
      assert [s][1..] == [];
    } else {
      EdgesSnoc(k, u, q, ts[1..], s);
      assert (ts + [s])[1..] == ts[1..] + [s];
    }
  }

  lemma {:induction false} EdgeOf(k: Known, u: Known, q: Rank, ts: seq<Tree>, n: Tree, i: nat)
    requires Columns(k) && Columns(u) && Edges(k, u, q, ts) && AnyHasSubtree(ts, n) && i < |n.kids|
    ensures Edge(k, u, n.rank, n.kids[i])
    decreases ts
  {
    if n == ts[0] {
      EdgeAt(k, u, n.rank, n.kids, i);
    } else if HasSubtree(ts[0], n) {
      EdgeOf(k, u, ts[0].rank, ts[0].kids, n, i);
    } else {
      EdgeOf(k, u, q, ts[1..], n, i);
    }
  }

  lemma {:induction false} EdgeAt(k: Known, u: Known, q: Rank, ts: seq<Tree>, i: nat)
    requires Columns(k) && Columns(u) && Edges(k, u, q, ts) && i < |ts|
    ensures Edge(k, u, q, ts[i])
  {
    if i > 0 {
      EdgeAt(k, u, q, ts[1..], i - 1);
    }
  }

  /** The trees in front, then one more: what the last one does leaves the others' ranks alone. */
  lemma MixedMore(k: Known, m: Known, u: Known, q: Rank, ts: seq<Tree>, s: Tree)
    requires Columns(k) && Columns(m) && Columns(u) && Mixed(k, m, q, ts) && Mixed(m, u, q, [s])
    requires q !in RanksAll(ts) && q !in Ranks(s) && forall r :: r in RanksAll(ts) ==> r !in Ranks(s)
    ensures Mixed(k, u, q, ts + [s])
  {
    SingleTreeList(s);
    RanksAllSum(ts, [s]);
    MixedKeys(k, m, u, q, ts, s);
    MixedOthers(k, m, u, q, ts, s);
    FrontEdges(k, m, u, q, ts, s);
    LastEdges(k, m, u, q, ts, s);
    EdgesSnoc(k, u, q, ts, s);
  }

  lemma MixedKeys(k: Known, m: Known, u: Known, q: Rank, ts: seq<Tree>, s: Tree)
    requires Columns(k) && Columns(m) && Columns(u) && Mixed(k, m, q, ts) && Mixed(m, u, q, [s])
    ensures u.t.parent.Keys == k.t.parent.Keys + RankSet(ts + [s]) && u.t.orphans == k.t.orphans - RankSet(ts + [s])
  {
    RanksAllSum(ts, [s]);
    assert RankSet(ts + [s]) == RankSet(ts) + RankSet([s]);
  }

  lemma MixedSame(k: Known, u: Known, q: Rank, ts: seq<Tree>, r: Rank)
    requires Columns(k) && Columns(u) && Mixed(k, u, q, ts) && r != q && r !in RanksAll(ts)
    ensures Same(k, u, r)
  {
  }

  lemma MixedOthers(k: Known, m: Known, u: Known, q: Rank, ts: seq<Tree>, s: Tree)
    requires Columns(k) && Columns(m) && Columns(u) && Mixed(k, m, q, ts) && Mixed(m, u, q, [s])
    ensures forall r :: r != q && r !in RanksAll(ts + [s]) ==> Same(k, u, r)
  {
    RanksAllSum(ts, [s]);
    forall r | r != q && r !in RanksAll(ts + [s]) ensures Same(k, u, r) {
      MixedSame(k, m, q, ts, r);
      MixedSame(m, u, q, [s], r);
    }
  }

  lemma FrontEdges(k: Known, m: Known, u: Known, q: Rank, ts: seq<Tree>, s: Tree)
    requires Columns(k) && Columns(m) && Columns(u) && Mixed(k, m, q, ts) && Mixed(m, u, q, [s])
    requires q !in RanksAll(ts) && forall r :: r in RanksAll(ts) ==> r !in Ranks(s)
    ensures Edges(k, u, q, ts)
  {
    SingleTreeList(s);
    forall r | r in RanksAll(ts) ensures Same(k, k, r) && Same(m, u, r) {
      MixedSame(m, u, q, [s], r);
    }
    EdgesKept(k, k, m, u, q, ts);
  }

  lemma LastEdges(k: Known, m: Known, u: Known, q: Rank, ts: seq<Tree>, s: Tree)
    requires Columns(k) && Columns(m) && Columns(u) && Mixed(k, m, q, ts) && Mixed(m, u, q, [s])
    requires q !in Ranks(s) && forall r :: r in RanksAll(ts) ==> r !in Ranks(s)
    ensures Edge(k, u, q, s) && Edges(k, u, s.rank, s.kids)
  {
    forall r | r in Ranks(s) ensures Same(m, k, r) && Same(u, u, r) {
      MixedSame(k, m, q, ts, r);
    }
    assert s.rank in Ranks(s) && forall r :: r in RanksAll(s.kids) ==> r in Ranks(s);
    EdgeKept(m, k, u, u, q, s);
    EdgesKept(m, k, u, u, s.rank, s.kids);
  }

  /** What putting the root of a text in its place does. */
  ghost predicate RootPlaced(k: Known, m: Known, p: Rank, tr: Tree)
    requires Columns(k) && Columns(m)
  {
    && p in k.t.parent && tr.rank != p && m.t.parent.Keys == k.t.parent.Keys + {tr.rank}
    && m.t.root == k.t.root && m.t.orphans == k.t.orphans - {tr.rank}
    && m.t.parent[tr.rank] == Some(p) && m.t.parent[p] == k.t.parent[p] && m.t.names[p] == k.t.names[p]
    && p !in m.t.backends && m.up[p] == k.up[p]
    && m.t.names[tr.rank] == (if tr.rank in k.t.parent then k.t.names[tr.rank] else tr.name)
    && (tr.rank in m.t.backends <==> if tr.rank in k.t.parent then tr.rank in k.t.backends else tr.isBackend)
    && m.up[tr.rank] == (if tr.rank in k.t.parent && k.t.parent[tr.rank] == Some(p) then k.up[tr.rank] else k.up[p] + {p})
    && forall r :: r != p && r != tr.rank ==> Same(k, m, r)
  }

  /** A node first, then its children. */
  lemma MixedNode(k: Known, m: Known, u: Known, p: Rank, tr: Tree)
    requires Columns(k) && Columns(m) && Columns(u) && RootPlaced(k, m, p, tr) && Mixed(m, u, tr.rank, tr.kids)
    requires p !in Ranks(tr) && tr.rank !in RanksAll(tr.kids)
    ensures Mixed(k, u, p, [tr])
  {
    SingleTreeList(tr);
    MixedSame(m, u, tr.rank, tr.kids, p);
    NodeOthers(k, m, u, p, tr);
    NodeEdges(k, m, u, p, tr);
    assert [tr][1..] == [];
  }

  lemma NodeOthers(k: Known, m: Known, u: Known, p: Rank, tr: Tree)
    requires Columns(k) && Columns(m) && Columns(u) && RootPlaced(k, m, p, tr) && Mixed(m, u, tr.rank, tr.kids)
    ensures forall r :: r != p && r !in Ranks(tr) ==> Same(k, u, r)
    ensures u.t.parent.Keys == k.t.parent.Keys + ({tr.rank} + RankSet(tr.kids))
    ensures u.t.orphans == k.t.orphans - ({tr.rank} + RankSet(tr.kids))
  {
    forall r | r != p && r !in Ranks(tr) ensures Same(k, u, r) {
      MixedSame(m, u, tr.rank, tr.kids, r);
      assert Same(k, m, r);
    }
  }

  lemma NodeEdges(k: Known, m: Known, u: Known, p: Rank, tr: Tree)
    requires Columns(k) && Columns(m) && Columns(u) && RootPlaced(k, m, p, tr) && Mixed(m, u, tr.rank, tr.kids)
    requires p !in Ranks(tr) && tr.rank !in RanksAll(tr.kids)
    ensures Edge(k, u, p, tr) && Edges(k, u, tr.rank, tr.kids)
  {
    MixedSame(m, u, tr.rank, tr.kids, p);
    forall r | r in RanksAll(tr.kids) ensures Same(m, k, r) && Same(u, u, r) {
      assert r in Ranks(tr);
      assert Same(k, m, r);
    }
    EdgesKept(m, k, u, u, tr.rank, tr.kids);
  }

  lemma MovedIsPlaced(k: Known, p: Rank, tr: Tree)
    requires Kept(k) && p in k.t.parent && tr.rank in k.t.parent && tr.rank != p
    ensures Columns(Moved(k, tr.rank, p)) && RootPlaced(k, Moved(k, tr.rank, p), p, tr)
  {
    if k.t.parent[tr.rank] == Some(p) {
      assert tr.rank in k.t.kids[p];
    }
  }

  lemma AddedIsPlaced(k: Known, p: Rank, tr: Tree)
    requires Kept(k) && p in k.t.parent && tr.rank !in k.t.parent
    ensures Columns(Added(k, tr, p)) && RootPlaced(k, Added(k, tr, p), p, tr)
  {
  }

  lemma RootIsPlaced(k: Known, p: Rank, tr: Tree)
    requires Kept(k) && p in k.t.parent && tr.rank != p
    ensures Columns(Placed(k, p, tr)) && RootPlaced(k, Placed(k, p, tr), p, tr)
  {
    if tr.rank in k.t.parent {
      MovedIsPlaced(k, p, tr);
    } else {
      AddedIsPlaced(k, p, tr);
    }
  }

  // ---------------------------------------------------------------- the walk stays legal

  /** None of the ranks is p or lies above it. */
  ghost predicate NoneAbove(t: Topo, p: Rank, ranks: seq<Rank>) {
    forall r :: r in ranks ==> !InSubtree(t, r, p)
  }

  /** Where the climb from x meets none of the ranks that changed, it goes as before. */
  lemma {:induction false} ClimbClear(t: Topo, u: Topo, ranks: seq<Rank>, x: Rank, j: nat)
    requires Linked(t) && x in t.parent && NoneAbove(t, x, ranks)
    requires forall r :: r in t.parent && r !in ranks ==> r in u.parent && u.parent[r] == t.parent[r]
    ensures Climb(u, x, j) == Climb(t, x, j)
    decreases j
  {
    if x in ranks {
      SubtreeSelf(t, x);
    }
    if j > 0 && t.parent[x].Some? {
      var y := t.parent[x].value;
      forall r | r in ranks ensures !InSubtree(t, r, y) {
        if InSubtree(t, r, y) {
          SubtreeBelow(t, r, x);
        }
      }
      ClimbClear(t, u, ranks, y, j - 1);
    }
  }

  lemma StillNoneAbove(t: Topo, u: Topo, p: Rank, changed: seq<Rank>, ranks: seq<Rank>)
    requires Linked(t) && p in t.parent && NoneAbove(t, p, changed) && NoneAbove(t, p, ranks)
    requires forall r :: r in t.parent && r !in changed ==> r in u.parent && u.parent[r] == t.parent[r]
    ensures NoneAbove(u, p, ranks)
  {
    forall r | r in ranks ensures !InSubtree(u, r, p) {
      if InSubtree(u, r, p) {
        var j: nat :| Climb(u, p, j) == Some(r);
        ClimbClear(t, u, changed, p, j);
      }
    }
  }

  /** Once c hangs below p, what lies above c is p and what lies above p. */
  lemma AboveMoved(t: Topo, u: Topo, c: Rank, p: Rank, r: Rank)
    requires Linked(t) && p in t.parent && !InSubtree(t, c, p) && c in u.parent && u.parent[c] == Some(p)
    requires forall x :: x in t.parent && x !in [c] ==> x in u.parent && u.parent[x] == t.parent[x]
    requires r != c && !InSubtree(t, r, p)
    ensures !InSubtree(u, r, c)
  {
    if InSubtree(u, r, c) {
      var j: nat :| Climb(u, c, j) == Some(r);
      ClimbClear(t, u, [c], p, j - 1);
    }
  }

  lemma PlacedParents(k: Known, m: Known, p: Rank, tr: Tree)
    requires Columns(k) && Columns(m) && RootPlaced(k, m, p, tr)
    ensures forall x :: x in k.t.parent && x !in [tr.rank] ==> x in m.t.parent && m.t.parent[x] == k.t.parent[x]
  {
    forall x | x in k.t.parent && x !in [tr.rank] ensures x in m.t.parent && m.t.parent[x] == k.t.parent[x] {
      assert x != p ==> Same(k, m, x);
    }
  }

  lemma NoneAboveRoot(k: Known, p: Rank, tr: Tree)
    requires Kept(k) && p in k.t.parent && NoneAbove(k.t, p, Ranks(tr)) && tr.rank !in RanksAll(tr.kids)
    ensures tr.rank != p && NoneAbove(Placed(k, p, tr).t, tr.rank, RanksAll(tr.kids))
  {
    PNotNamed(k.t, p, Ranks(tr));
    assert tr.rank in Ranks(tr);
    RootIsPlaced(k, p, tr);
    PlacedParents(k, Placed(k, p, tr), p, tr);
    KidsNotAbove(k.t, Placed(k, p, tr).t, p, tr);
  }

  lemma KidsNotAbove(t: Topo, u: Topo, p: Rank, tr: Tree)
    requires Linked(t) && p in t.parent && NoneAbove(t, p, Ranks(tr)) && tr.rank !in RanksAll(tr.kids)
    requires tr.rank in u.parent && u.parent[tr.rank] == Some(p)
    requires forall x :: x in t.parent && x !in [tr.rank] ==> x in u.parent && u.parent[x] == t.parent[x]
    ensures NoneAbove(u, tr.rank, RanksAll(tr.kids))
  {
    assert tr.rank in Ranks(tr);
    forall r | r in RanksAll(tr.kids) ensures !InSubtree(u, r, tr.rank) {
      assert r in Ranks(tr);
      AboveMoved(t, u, tr.rank, p, r);
    }
  }

  lemma PlacedKeepsInv(k: Known, p: Rank, tr: Tree)
    requires Kept(k) && Inv(k.t) && p in k.t.parent && !InSubtree(k.t, tr.rank, p)
    ensures Inv(Placed(k, p, tr).t)
  {
    if tr.rank in k.t.parent {
      MoveKeepsInv(k.t, tr.rank, p);
    } else {
      AddKeepsInv(k.t, tr.rank, tr.name, p, tr.isBackend);
    }
  }

  // ---------------------------------------------------------------- the whole walk

  lemma {:induction false} HangMixes(k: Known, p: Rank, tr: Tree)
    requires Kept(k) && Inv(k.t) && p in k.t.parent && NoRepeats(Ranks(tr)) && NoneAbove(k.t, p, Ranks(tr))
    ensures Inv(Hang(k, p, tr).t) && Mixed(k, Hang(k, p, tr), p, [tr])
    decreases tr, 1
  {
    RootReady(k, p, tr);
    HangAllMixes(Placed(k, p, tr), tr.rank, tr.kids);
    MixedNode(k, Placed(k, p, tr), Hang(k, p, tr), p, tr);
  }

  lemma RootReady(k: Known, p: Rank, tr: Tree)
    requires Kept(k) && Inv(k.t) && p in k.t.parent && NoRepeats(Ranks(tr)) && NoneAbove(k.t, p, Ranks(tr))
    ensures var m := Placed(k, p, tr);
      && Inv(m.t) && NoRepeats(RanksAll(tr.kids)) && NoneAbove(m.t, tr.rank, RanksAll(tr.kids))
      && Columns(m) && RootPlaced(k, m, p, tr) && p !in Ranks(tr) && tr.rank !in RanksAll(tr.kids)
  {
    RootOnce(tr);
    NoneAboveRoot(k, p, tr);
    PlacedKeepsInv(k, p, tr);
    PNotNamed(k.t, p, Ranks(tr));
    RootIsPlaced(k, p, tr);
  }

  lemma RootOnce(tr: Tree)
    requires NoRepeats(Ranks(tr))
    ensures NoRepeats(RanksAll(tr.kids)) && tr.rank !in RanksAll(tr.kids) && tr.rank in Ranks(tr)
  {
    RepeatsNowhere([tr.rank], RanksAll(tr.kids));
    assert tr.rank in [tr.rank];
  }

  lemma PNotNamed(t: Topo, p: Rank, ranks: seq<Rank>)
    requires NoneAbove(t, p, ranks)
    ensures p !in ranks
  {
    SubtreeSelf(t, p);
  }

  lemma {:induction false} HangAllMixes(k: Known, p: Rank, ts: seq<Tree>)
    requires Kept(k) && Inv(k.t) && p in k.t.parent && NoRepeats(RanksAll(ts)) && NoneAbove(k.t, p, RanksAll(ts))
    ensures Inv(HangAll(k, p, ts).t) && Mixed(k, HangAll(k, p, ts), p, ts)
    decreases ts, 0
  {
    if ts == [] {
      NothingMixed(k, p, ts);
    } else {
      RanksApart(ts);
      HangAllMixes(k, p, ts[..|ts| - 1]);
      LastMixes(k, HangAll(k, p, ts[..|ts| - 1]), p, ts);
    }
  }

  lemma NothingMixed(k: Known, p: Rank, ts: seq<Tree>)
    requires Columns(k) && p in k.t.parent && ts == []
    ensures Mixed(k, k, p, ts)
  {
  }

  lemma RanksApart(ts: seq<Tree>)
    requires ts != [] && NoRepeats(RanksAll(ts))
    ensures var front, last := ts[..|ts| - 1], ts[|ts| - 1];
      && NoRepeats(RanksAll(front)) && NoRepeats(Ranks(last)) && (forall r :: r in RanksAll(front) ==> r !in Ranks(last))
      && (forall r :: r in RanksAll(ts) <==> r in RanksAll(front) || r in Ranks(last))
  {
    var front, last := ts[..|ts| - 1], ts[|ts| - 1];
    assert ts == front + [last];
    SingleTreeList(last);
    RanksAllSum(front, [last]);
    RepeatsNowhere(RanksAll(front), Ranks(last));
  }

  lemma LastMixes(k: Known, m: Known, p: Rank, ts: seq<Tree>)
    requires ts != [] && NoRepeats(RanksAll(ts)) && Kept(k) && NoneAbove(k.t, p, RanksAll(ts))
    requires Kept(m) && Inv(m.t) && Mixed(k, m, p, ts[..|ts| - 1])
    ensures Inv(Hang(m, p, ts[|ts| - 1]).t) && Mixed(k, Hang(m, p, ts[|ts| - 1]), p, ts)
    decreases ts[|ts| - 1], 2
  {
    LastReady(k, m, p, ts);
    HangMixes(m, p, ts[|ts| - 1]);
    PNotNamed(k.t, p, RanksAll(ts));
    MixedLast(k, m, Hang(m, p, ts[|ts| - 1]), p, ts);
  }

  lemma LastReady(k: Known, m: Known, p: Rank, ts: seq<Tree>)
    requires ts != [] && NoRepeats(RanksAll(ts)) && Kept(k) && NoneAbove(k.t, p, RanksAll(ts))
    requires Columns(m) && Mixed(k, m, p, ts[..|ts| - 1])
    ensures NoRepeats(Ranks(ts[|ts| - 1])) && NoneAbove(m.t, p, Ranks(ts[|ts| - 1]))
  {
    RanksApart(ts);
    NoneAboveNow(k, m, p, ts[..|ts| - 1], ts[|ts| - 1]);
  }

  lemma MixedLast(k: Known, m: Known, u: Known, p: Rank, ts: seq<Tree>)
    requires ts != [] && NoRepeats(RanksAll(ts)) && p !in RanksAll(ts)
    requires Columns(k) && Columns(m) && Columns(u) && Mixed(k, m, p, ts[..|ts| - 1]) && Mixed(m, u, p, [ts[|ts| - 1]])
    ensures Mixed(k, u, p, ts)
  {
    RanksApart(ts);
    FrontAndLast(ts);
    MixedMore(k, m, u, p, ts[..|ts| - 1], ts[|ts| - 1]);
  }

  lemma FrontAndLast(ts: seq<Tree>)
    requires ts != []
    ensures ts[..|ts| - 1] + [ts[|ts| - 1]] == ts
  {
  }

  lemma NoneAboveNow(k: Known, m: Known, p: Rank, front: seq<Tree>, last: Tree)
    requires Kept(k) && Columns(m) && Mixed(k, m, p, front)
    requires NoneAbove(k.t, p, RanksAll(front)) && NoneAbove(k.t, p, Ranks(last))
    ensures NoneAbove(m.t, p, Ranks(last))
  {
    forall r | r in k.t.parent && r !in RanksAll(front) ensures r in m.t.parent && m.t.parent[r] == k.t.parent[r] {
      if r != p {
        MixedSame(k, m, p, front, r);
      }
    }
    StillNoneAbove(k.t, m.t, p, RanksAll(front), Ranks(last));
  }

  /** The text names neither p nor a rank above it. */
  ghost predicate NamesNoneAbove(t: Topo, p: Rank, tr: Tree) {
    forall r :: r in Ranks(tr) && r in t.parent ==> !InSubtree(t, r, p)
  }

  /** The text's ranks have come in, each below the rank the text has it under, and the others have kept their parents. */
  ghost predicate HasLinksOf(t: Topo, u: Topo, p: Rank, tr: Tree) {
    && Inv(u)
    && (forall r :: r in u.parent <==> r in t.parent || r in Ranks(tr))
    && tr.rank in u.parent && u.parent[tr.rank] == Some(p)
    && (forall n, i :: HasSubtree(tr, n) && 0 <= i < |n.kids| ==>
          n.kids[i].rank in u.parent && u.parent[n.kids[i].rank] == Some(n.rank))
    && (forall r :: r in t.parent && r !in Ranks(tr) ==> u.parent[r] == t.parent[r])
  }

  lemma NewNotAbove(t: Topo, p: Rank, ranks: seq<Rank>)
    requires Linked(t) && p in t.parent && forall r :: r in ranks && r in t.parent ==> !InSubtree(t, r, p)
    ensures NoneAbove(t, p, ranks)
  {
    forall r | r in ranks ensures !InSubtree(t, r, p) {
      if InSubtree(t, r, p) {
        var j: nat :| Climb(t, p, j) == Some(r);
        ClimbLive(t, p, j);
      }
    }
  }

  /**
   * A text without repeated ranks, none of which is the node it is hung under or lies above that node.  The live ranks are
   * the old ones and the text's, the text's root hangs below the node and every other rank of the text below the rank the
   * text has it under.  New ranks carry the text's name, known ones keep theirs, and ranks the text does not name keep
   * their parent.  No link is lost and no cycle appears.
   */
  lemma HangMeans(k: Known, p: Rank, tr: Tree)
    requires Kept(k) && Inv(k.t) && p in k.t.parent && NoRepeats(Ranks(tr))
    requires NamesNoneAbove(k.t, p, tr)
    ensures HasLinksOf(k.t, Hang(k, p, tr).t, p, tr)
    ensures var t, u := k.t, Hang(k, p, tr).t;
      && Inv(u) && u.root == t.root
      && (forall r :: r in u.parent <==> r in t.parent || r in Ranks(tr))
      && (forall r :: r in u.orphans <==> r in t.orphans && r !in Ranks(tr))
      && tr.rank in u.parent && u.parent[tr.rank] == Some(p)
      && (forall n, i :: HasSubtree(tr, n) && 0 <= i < |n.kids| ==>
            n.kids[i].rank in u.parent && u.parent[n.kids[i].rank] == Some(n.rank))
      && (forall n :: HasSubtree(tr, n) ==>
            n.rank in u.names && u.names[n.rank] == if n.rank in t.parent then t.names[n.rank] else n.name)
      && (forall n :: HasSubtree(tr, n) ==>
            (n.rank in u.backends <==> n.kids == [] && if n.rank in t.parent then n.rank in t.backends else n.isBackend))
      && (forall r :: r in t.parent && r !in Ranks(tr) ==> u.parent[r] == t.parent[r] && u.names[r] == t.names[r])
      && (forall r :: r in t.parent && r !in Ranks(tr) ==> (r in u.backends <==> r in t.backends && r != p))
  {
    NewNotAbove(k.t, p, Ranks(tr));
    HangMixes(k, p, tr);
    MixedMeans(k, Hang(k, p, tr), p, tr);
    SubtreesMean(k, Hang(k, p, tr), p, tr);
  }

  /** Whoever got a new parent got that parent's ascendants and the parent; everyone else keeps the ascendants listed. */
  lemma HangRefreshes(k: Known, p: Rank, tr: Tree)
    requires Kept(k) && Inv(k.t) && p in k.t.parent && NoRepeats(Ranks(tr))
    requires NamesNoneAbove(k.t, p, tr)
    ensures var u := Hang(k, p, tr);
      && (forall r :: r in k.up && r !in Ranks(tr) ==> r in u.up && u.up[r] == k.up[r])
      && tr.rank in u.up
      && u.up[tr.rank] == (if tr.rank in k.t.parent && k.t.parent[tr.rank] == Some(p) then k.up[tr.rank] else k.up[p] + {p})
      && forall n, i :: HasSubtree(tr, n) && 0 <= i < |n.kids| ==>
           var c := n.kids[i].rank;
           && c in u.up && n.rank in u.up
           && u.up[c] == if c in k.t.parent && k.t.parent[c] == Some(n.rank) then k.up[c] else u.up[n.rank] + {n.rank}
  {
    NewNotAbove(k.t, p, Ranks(tr));
    HangMixes(k, p, tr);
    MixedRefreshes(k, Hang(k, p, tr), p, tr);
  }

  lemma MixedRefreshes(k: Known, u: Known, p: Rank, tr: Tree)
    requires Columns(k) && Columns(u) && Mixed(k, u, p, [tr])
    ensures forall r :: r in k.up && r !in Ranks(tr) ==> r in u.up && u.up[r] == k.up[r]
    ensures Edge(k, u, p, tr)
    ensures forall n, i :: HasSubtree(tr, n) && 0 <= i < |n.kids| ==> Edge(k, u, n.rank, n.kids[i])
  {
    SingleTreeList(tr);
    forall r | r in k.up && r !in Ranks(tr) && r != p ensures Same(k, u, r) {
      MixedSame(k, u, p, [tr], r);
    }
    forall n, i | HasSubtree(tr, n) && 0 <= i < |n.kids| ensures Edge(k, u, n.rank, n.kids[i]) {
      assert AnyHasSubtree([tr], n);
      EdgeOf(k, u, p, [tr], n, i);
    }
  }

  lemma SubtreesMean(k: Known, u: Known, p: Rank, tr: Tree)
    requires Columns(k) && Columns(u) && Mixed(k, u, p, [tr])
    ensures forall n :: HasSubtree(tr, n) ==> Named(k, u, n)
    ensures forall n, i :: HasSubtree(tr, n) && 0 <= i < |n.kids| ==> Named(k, u, n) && u.t.parent[n.kids[i].rank] == Some(n.rank)
  {
    forall n | HasSubtree(tr, n)
      ensures Named(k, u, n) && forall i :: 0 <= i < |n.kids| ==> u.t.parent[n.kids[i].rank] == Some(n.rank)
    {
      SubtreeMeans(k, u, p, tr, n);
    }
  }

  ghost predicate Named(k: Known, u: Known, n: Tree)
    requires Columns(k) && Columns(u)
  {
    && n.rank in u.t.parent && (forall i :: 0 <= i < |n.kids| ==> n.kids[i].rank in u.t.parent)
    && u.t.names[n.rank] == (if n.rank in k.t.parent then k.t.names[n.rank] else n.name)
    && (n.rank in u.t.backends <==> n.kids == [] && if n.rank in k.t.parent then n.rank in k.t.backends else n.isBackend)
  }

  lemma MixedMeans(k: Known, u: Known, p: Rank, tr: Tree)
    requires Columns(k) && Columns(u) && Mixed(k, u, p, [tr])
    ensures var t, u := k.t, u.t;
      && u.root == t.root
      && (forall r :: r in u.parent <==> r in t.parent || r in Ranks(tr))
      && (forall r :: r in u.orphans <==> r in t.orphans && r !in Ranks(tr))
      && tr.rank in u.parent && u.parent[tr.rank] == Some(p)
      && (forall r :: r in t.parent && r !in Ranks(tr) ==> u.parent[r] == t.parent[r] && u.names[r] == t.names[r])
      && (forall r :: r in t.parent && r !in Ranks(tr) ==> (r in u.backends <==> r in t.backends && r != p))
  {
    SingleTreeList(tr);
    forall r | r in k.t.parent && r !in Ranks(tr) && r != p ensures Same(k, u, r) {
      MixedSame(k, u, p, [tr], r);
    }
  }

  lemma SubtreeMeans(k: Known, u: Known, p: Rank, tr: Tree, n: Tree)
    requires Columns(k) && Columns(u) && Mixed(k, u, p, [tr]) && HasSubtree(tr, n)
    ensures Named(k, u, n) && forall i :: 0 <= i < |n.kids| ==> u.t.parent[n.kids[i].rank] == Some(n.rank)
  {
    assert AnyHasSubtree([tr], n);
    var above := EdgeTo(k, u, p, [tr], n);
    forall i | 0 <= i < |n.kids| ensures Edge(k, u, n.rank, n.kids[i]) {
      EdgeOf(k, u, p, [tr], n, i);
    }
  }

  /** Every node of the text hangs below something. */
  lemma {:induction false} EdgeTo(k: Known, u: Known, q: Rank, ts: seq<Tree>, n: Tree) returns (above: Rank)
    requires Columns(k) && Columns(u) && Edges(k, u, q, ts) && AnyHasSubtree(ts, n)
    ensures Edge(k, u, above, n)
    decreases ts
  {
    if n == ts[0] {
      above := q;
    } else if HasSubtree(ts[0], n) {
      above := EdgeTo(k, u, ts[0].rank, ts[0].kids, n);
    } else {
      above := EdgeTo(k, u, q, ts[1..], n);
    }
  }
}
