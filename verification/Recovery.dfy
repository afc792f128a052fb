/**
 Recovery from the failure of an interior node.  Every child of the failed node works on its
 own: it collects the nodes that could adopt it from the tree as it was before the failure,
 takes any one of them, and then removes the failed node and re-parents itself.
 */
module Recovery {
  import opened Prelude
  import opened Forest
  import opened Trees

  /** Where the search for adopters turns back: at back ends and at the orphan's own parent. */
  predicate Stops(t: Topo, avoid: Option<Rank>, x: Rank) {
    x in t.backends || avoid == Some(x)
  }

  /** The climb from x passes `top` after k steps, and nothing from x up to there stops the search. */
  ghost predicate Route(t: Topo, avoid: Option<Rank>, top: Rank, x: Rank, k: nat) {
    && Climb(t, x, k) == Some(top)
    && forall i: nat :: i <= k && Climb(t, x, i).Some? ==> !Stops(t, avoid, Climb(t, x, i).value)
  }

  /** A clear line leads from the root down to x: x may adopt this orphan. */
  ghost predicate CanAdopt(t: Topo, orphan: Rank, x: Rank) {
    && orphan in t.parent && t.root.Some?
    && exists k: nat :: Route(t, t.parent[orphan], t.root.value, x, k)
  }

  // ---------------------------------------------------------------- the search itself

  /** find_PotentialAdopters started at the root of tr: the vector it appends to, in order. */
  function AdopterList(tr: Tree, avoid: Option<Rank>): seq<Rank>
    decreases tr
  {
    if tr.isBackend || avoid == Some(tr.rank) then [] else [tr.rank] + AdopterListAll(tr.kids, avoid)
  }

  function AdopterListAll(ts: seq<Tree>, avoid: Option<Rank>): seq<Rank>
    decreases ts
  {
    if ts == [] then [] else AdopterList(ts[0], avoid) + AdopterListAll(ts[1..], avoid)
  }

  lemma {:induction false} ListedHasRoute(t: Topo, tr: Tree, avoid: Option<Rank>, x: Rank) returns (k: nat)
    requires Linked(t) && Represents(t, tr) && x in AdopterList(tr, avoid)
    ensures Route(t, avoid, tr.rank, x, k)
    decreases tr
  {
    if x == tr.rank {
      k := 0;
    } else {
      k := ListedBelow(t, tr, tr.kids, avoid, x);
    }
  }

  lemma {:induction false} ListedBelow(t: Topo, tr: Tree, ts: seq<Tree>, avoid: Option<Rank>, x: Rank) returns (k: nat)
    requires Linked(t) && tr.rank in t.kids && !Stops(t, avoid, tr.rank)
    requires RepresentsAll(t, ts) && Roots(ts) <= t.kids[tr.rank] && x in AdopterListAll(ts, avoid)
    ensures Route(t, avoid, tr.rank, x, k)
    decreases ts
  {
    if x in AdopterList(ts[0], avoid) {
      k := ListedHasRoute(t, ts[0], avoid, x);
      ClimbSum(t, x, k, 1);
      k := k + 1;
      assert Climb(t, ts[0].rank, 1) == Some(tr.rank) by { assert Climb(t, tr.rank, 0) == Some(tr.rank); }
    } else {
      k := ListedBelow(t, tr, ts[1..], avoid, x);
    }
  }

  lemma {:induction false} RouteIsListed(t: Topo, tr: Tree, avoid: Option<Rank>, x: Rank, k: nat)
    requires Linked(t) && Represents(t, tr) && x in t.parent && Route(t, avoid, tr.rank, x, k)
    ensures x in AdopterList(tr, avoid)
    decreases k
  {
    assert !Stops(t, avoid, tr.rank);
    if k > 0 {
      var y := ClimbStop(t, x, k - 1);
      var i := KidAt(tr.kids, y);
      KidFacts(t, tr.kids, i);
      RouteIsListed(t, tr.kids[i], avoid, x, k - 1);
      KidListed(tr.kids, i, avoid, x);
    }
  }

  lemma {:induction false} KidListed(ts: seq<Tree>, i: nat, avoid: Option<Rank>, x: Rank)
    requires i < |ts| && x in AdopterList(ts[i], avoid)
    ensures x in AdopterListAll(ts, avoid)
  {
    if i > 0 {
      KidListed(ts[1..], i - 1, avoid, x);
    }
  }

  /** The search lists exactly the nodes that a clear line connects to the root. */
  lemma SearchFindsAdopters(t: Topo, tr: Tree, orphan: Rank, x: Rank)
    requires Inv(t) && Represents(t, tr) && t.root == Some(tr.rank) && orphan in t.parent
    ensures x in AdopterList(tr, t.parent[orphan]) <==> CanAdopt(t, orphan, x)
  {
    if x in AdopterList(tr, t.parent[orphan]) {
      var k := ListedHasRoute(t, tr, t.parent[orphan], x);
    }
    if CanAdopt(t, orphan, x) {
      var k: nat :| Route(t, t.parent[orphan], t.root.value, x, k);
      assert x in t.parent by { assert k > 0 ==> x in t.parent; }
      RouteIsListed(t, tr, t.parent[orphan], x, k);
    }
  }

  // ---------------------------------------------------------------- reacting to the failure

  /** One thing that happens after the failure: a neighbour drops the failed node, or one of its children recovers. */
  datatype Event = Noticed | Recovered(orphan: Rank, adopter: Rank)

  function Reparent(v: Topo, e: Event): (w: Topo)
    requires Linked(v)
    ensures Linked(w)
  {
    if e.Noticed? then v else SetParentLinked(v, e.orphan, e.adopter); SetParent(v, e.orphan, e.adopter).0
  }

  /** remove_Node on the failed rank, then change_Parent for a recovering orphan. */
  function React(u: Topo, failed: Rank, e: Event): (v: Topo)
    requires Linked(u)
    ensures Linked(v)
  {
    RemoveLinked(u, failed);
    Reparent(RemoveNode(u, failed).0, e)
  }

  function ReactAll(u: Topo, failed: Rank, events: seq<Event>): (v: Topo)
    requires Linked(u)
    ensures Linked(v)
  {
    if events == [] then u
    else React(ReactAll(u, failed, events[..|events| - 1]), failed, events[|events| - 1])
  }

  /** Orphans are children of the failed node and adopters come from the lists computed before the failure. */
  ghost predicate EventsFit(t: Topo, failed: Rank, events: seq<Event>)
    requires Linked(t) && failed in t.parent
  {
    forall e :: e in events && e.Recovered? ==> e.orphan in t.kids[failed] && CanAdopt(t, e.orphan, e.adopter)
  }

  function Returned(events: seq<Event>): set<Rank> {
    set e | e in events && e.Recovered? :: e.orphan
  }

  // ---------------------------------------------------------------- why no cycle can form

  /** A climb that ends at the top without passing a node did not start below that node. */
  lemma RouteClear(t: Topo, avoid: Rank, top: Rank, x: Rank, k: nat)
    requires Route(t, Some(avoid), top, x, k) && top in t.parent && t.parent[top] == None
    ensures x in t.parent && !InSubtree(t, avoid, x)
  {
    assert k > 0 ==> x in t.parent;
    if InSubtree(t, avoid, x) {
      var i: nat :| Climb(t, x, i) == Some(avoid);
      if i > k {
        ClimbSum(t, x, k, i - k);
      }
    }
  }

  /** An adopter never lies below the failed parent. */
  lemma AdopterOutside(t: Topo, failed: Rank, orphan: Rank, x: Rank)
    requires SingleTree(t) && orphan in t.parent && t.parent[orphan] == Some(failed)
    requires CanAdopt(t, orphan, x)
    ensures x in t.parent && !InSubtree(t, failed, x)
  {
    var k: nat :| Route(t, t.parent[orphan], t.root.value, x, k);
    RouteClear(t, failed, t.root.value, x, k);
  }

  /** As long as the root is no back end and is not the failed node, every orphan has someone to turn to. */
  lemma RootAlwaysAdopts(t: Topo, failed: Rank, orphan: Rank)
    requires SingleTree(t) && orphan in t.parent && t.parent[orphan] == Some(failed)
    requires t.root != Some(failed) && t.root.value !in t.backends
    ensures CanAdopt(t, orphan, t.root.value)
  {
    assert Route(t, t.parent[orphan], t.root.value, t.root.value, 0);
  }

  /**
   The state between the failure and full recovery: nothing outside the failed subtree has moved,
   the children that have not returned are exactly the orphans, those that have hang outside it.
   */
  ghost predicate Recovering(t: Topo, failed: Rank, u: Topo, returned: set<Rank>)
    requires Linked(t) && failed in t.parent
  {
    && u.root == t.root
    && u.parent.Keys == t.parent.Keys - {failed}
    && u.orphans == t.kids[failed] - returned
    && forall x {:trigger u.parent[x]} :: x in u.parent ==> PlacedAs(t, failed, u.parent[x], x, returned)
  }

  ghost predicate PlacedAs(t: Topo, failed: Rank, now: Option<Rank>, x: Rank, returned: set<Rank>)
    requires Linked(t) && failed in t.parent && x in t.parent
  {
    if x !in t.kids[failed] then now == t.parent[x]
    else if x !in returned then now == None
    else now.Some? && now.value in t.parent && !InSubtree(t, failed, now.value)
  }

  lemma FirstRemoval(t: Topo, failed: Rank)
    requires SingleTree(t) && failed in t.parent && t.root != Some(failed)
    ensures Inv(RemoveNode(t, failed).0) && Recovering(t, failed, RemoveNode(t, failed).0, {})
  {
    RemoveKeepsInv(t, failed);
  }

  /** Whoever climbs clear of the failed node before still climbs the same way now. */
  lemma {:induction false} OutsideUnmoved(t: Topo, failed: Rank, u: Topo, returned: set<Rank>, x: Rank, k: nat)
    requires Linked(t) && failed in t.parent && Recovering(t, failed, u, returned)
    requires x in t.parent && !InSubtree(t, failed, x)
    ensures Climb(u, x, k) == Climb(t, x, k)
    decreases k
  {
    assert x != failed by { SubtreeSelf(t, x); }
    assert x !in t.kids[failed] by {
      if x in t.kids[failed] { SubtreeSelf(t, failed); SubtreeBelow(t, failed, x); }
    }
    if k > 0 && t.parent[x].Some? {
      assert !InSubtree(t, failed, t.parent[x].value) by {
        if InSubtree(t, failed, t.parent[x].value) { SubtreeBelow(t, failed, x); }
      }
      OutsideUnmoved(t, failed, u, returned, t.parent[x].value, k - 1);
    }
  }

  lemma OrphanReturns(t: Topo, failed: Rank, u: Topo, returned: set<Rank>, orphan: Rank, adopter: Rank)
    requires SingleTree(t) && failed in t.parent && Inv(u) && Recovering(t, failed, u, returned)
    requires orphan in t.kids[failed] && CanAdopt(t, orphan, adopter)
    ensures Inv(SetParent(u, orphan, adopter).0)
    ensures Recovering(t, failed, SetParent(u, orphan, adopter).0, returned + {orphan})
  {
    AdopterOutside(t, failed, orphan, adopter);
    NotBelowOrphan(t, failed, u, returned, orphan, adopter);
    assert adopter != failed by { SubtreeSelf(t, adopter); }
    NotOwnChild(t, failed);
    MoveKeepsInv(u, orphan, adopter);
    OrphanPlaced(t, failed, u, returned, orphan, adopter);
  }

  lemma OrphanPlaced(t: Topo, failed: Rank, u: Topo, returned: set<Rank>, orphan: Rank, adopter: Rank)
    requires Linked(t) && failed in t.parent && Linked(u) && Recovering(t, failed, u, returned)
    requires orphan in t.kids[failed] && orphan != failed
    requires adopter in t.parent && adopter != failed && !InSubtree(t, failed, adopter)
    ensures Recovering(t, failed, SetParent(u, orphan, adopter).0, returned + {orphan})
  {
    var v := SetParent(u, orphan, adopter).0;
    forall x | x in v.parent ensures PlacedAs(t, failed, v.parent[x], x, returned + {orphan}) {
      assert PlacedAs(t, failed, u.parent[x], x, returned);
    }
  }

  /** An adopter does not lie below the orphan it takes in, neither before the failure nor now. */
  lemma NotBelowOrphan(t: Topo, failed: Rank, u: Topo, returned: set<Rank>, orphan: Rank, adopter: Rank)
    requires Linked(t) && failed in t.parent && Recovering(t, failed, u, returned)
    requires orphan in t.kids[failed] && adopter in t.parent && !InSubtree(t, failed, adopter)
    ensures !InSubtree(u, orphan, adopter)
  {
    if InSubtree(u, orphan, adopter) {
      var i: nat :| Climb(u, adopter, i) == Some(orphan);
      OutsideUnmoved(t, failed, u, returned, adopter, i);
      SubtreeSelf(t, failed);
      SubtreeBelow(t, failed, orphan);
      SubtreeTransitive(t, failed, orphan, adopter);
    }
  }

  lemma ReturnedLast(events: seq<Event>)
    requires events != []
    ensures Returned(events) == Returned(events[..|events| - 1]) +
      if events[|events| - 1].Recovered? then {events[|events| - 1].orphan} else {}
  {
    assert events == events[..|events| - 1] + [events[|events| - 1]];
  }

  /** After any non-empty sequence of reactions the topology is acyclic and only the children still to return are orphans. */
  lemma {:induction false} EveryReactionSafe(t: Topo, failed: Rank, events: seq<Event>)
    requires SingleTree(t) && failed in t.parent && t.root != Some(failed)
    requires events != [] && EventsFit(t, failed, events)
    ensures Inv(ReactAll(t, failed, events))
    ensures Recovering(t, failed, ReactAll(t, failed, events), Returned(events))
  {
    var before, e := events[..|events| - 1], events[|events| - 1];
    if before == [] {
      FirstRemoval(t, failed);
    } else {
      EveryReactionSafe(t, failed, before);
      RemovedOnce(t, failed, ReactAll(t, failed, before), Returned(before));
    }
    assert e in events;
    OneReaction(t, failed, RemoveNode(ReactAll(t, failed, before), failed).0, Returned(before), e);
    ReturnedLast(events);
  }

  lemma RemovedOnce(t: Topo, failed: Rank, u: Topo, returned: set<Rank>)
    requires Linked(t) && failed in t.parent && Linked(u) && Recovering(t, failed, u, returned)
    ensures RemoveNode(u, failed) == (u, false)
  {
  }

  lemma OneReaction(t: Topo, failed: Rank, v: Topo, returned: set<Rank>, e: Event)
    requires SingleTree(t) && failed in t.parent && Inv(v) && Recovering(t, failed, v, returned)
    requires e.Recovered? ==> e.orphan in t.kids[failed] && CanAdopt(t, e.orphan, e.adopter)
    ensures Inv(Reparent(v, e))
    ensures Recovering(t, failed, Reparent(v, e), returned + if e.Recovered? then {e.orphan} else {})
  {
    if e.Recovered? {
      OrphanReturns(t, failed, v, returned, e.orphan, e.adopter);
    } else {
      assert returned + {} == returned;
    }
  }

  /**
   Whatever adopters the orphans pick, and in whatever order and however often they and the failed
   node's other neighbours act, the survivors form one tree again exactly when every orphan has acted.
   */
  lemma RecoveryRestoresTree(t: Topo, failed: Rank, events: seq<Event>)
    requires SingleTree(t) && failed in t.parent && t.root != Some(failed)
    requires events != [] && EventsFit(t, failed, events)
    ensures SingleTree(ReactAll(t, failed, events)) <==> t.kids[failed] <= Returned(events)
    ensures ReactAll(t, failed, events).parent.Keys == t.parent.Keys - {failed}
    ensures ReactAll(t, failed, events).root == t.root
  {
    EveryReactionSafe(t, failed, events);
    RootStays(t, failed, ReactAll(t, failed, events), Returned(events));
    TreeIffNoOrphans(ReactAll(t, failed, events));
  }

  lemma RootStays(t: Topo, failed: Rank, u: Topo, returned: set<Rank>)
    requires SingleTree(t) && failed in t.parent && t.root != Some(failed) && Recovering(t, failed, u, returned)
    ensures u.root.Some? && u.root.value in u.parent && u.parent[u.root.value] == None
    ensures u.orphans == {} <==> t.kids[failed] <= returned
  {
    assert PlacedAs(t, failed, u.parent[u.root.value], u.root.value, returned);
    forall o | u.orphans == {} && o in t.kids[failed] ensures o in returned {
      assert o !in t.kids[failed] - returned;
    }
  }

  lemma TreeIffNoOrphans(u: Topo)
    requires Inv(u) && u.root.Some? && u.parent[u.root.value] == None
    ensures SingleTree(u) <==> u.orphans == {}
  {
    if u.orphans == {} {
      forall r | r in u.parent ensures InSubtree(u, u.root.value, r) {
        assert Grounded(u, r);
        var k: nat :| Climb(u, r, k) == None;
        var top := Topmost(u, r, k);
      }
    }
  }
}
