/**
 Failures that overlap: several nodes fail, and their children look for adopters in the tree as it was
 before any of them failed.  An adopter then lies outside its orphan's own failed parent, but it may hang
 below another failed node, and two orphans may each pick the other.  Whether that can happen depends only
 on where the failed nodes stood.
 */
module Overlaps {
  import opened Prelude
  import opened Forest
  import opened Trees
  import opened Recovery

  /** A report of one failure: a neighbour has noticed it, or one of the failed node's children has recovered. */
  datatype Report = Report(failed: Rank, event: Event)

  function HandleAll(t: Topo, reports: seq<Report>): (u: Topo)
    requires Linked(t)
    ensures Linked(u)
  {
    if reports == [] then t
    else
      var last := reports[|reports| - 1];
      React(HandleAll(t, reports[..|reports| - 1]), last.failed, last.event)
  }

  /** Nodes other than the root fail in a single tree. */
  ghost predicate Strikes(t: Topo, failed: set<Rank>) {
    SingleTree(t) && failed <= t.parent.Keys && t.root.value !in failed
  }

  /** The orphans are the surviving children; none reaches a failed adopter, for nobody answers there. */
  ghost predicate Fits(t: Topo, failed: set<Rank>, r: Report)
    requires Strikes(t, failed)
  {
    && r.failed in failed
    && (r.event.Recovered? ==>
          && r.event.orphan in t.kids[r.failed] && r.event.orphan !in failed
          && CanAdopt(t, r.event.orphan, r.event.adopter) && r.event.adopter !in failed)
  }

  ghost predicate ReportsFit(t: Topo, failed: set<Rank>, reports: seq<Report>)
    requires Strikes(t, failed)
  {
    forall r :: r in reports ==> Fits(t, failed, r)
  }

  function Struck(reports: seq<Report>): set<Rank> {
    if reports == [] then {} else Struck(reports[..|reports| - 1]) + {reports[|reports| - 1].failed}
  }

  /** Where each orphan that has recovered went last. */
  function Chosen(reports: seq<Report>): map<Rank, Rank> {
    if reports == [] then map[] else ChosenAfter(Chosen(reports[..|reports| - 1]), reports[|reports| - 1].event)
  }

  function ChosenAfter(chosen: map<Rank, Rank>, e: Event): map<Rank, Rank> {
    if e.Recovered? then chosen[e.orphan := e.adopter] else chosen
  }

  /** Everyone who must find a new parent. */
  ghost function Orphans(t: Topo, failed: set<Rank>): set<Rank> {
    set o | o in t.parent && o !in failed && CutOff(t, failed, o)
  }

  ghost predicate CutOff(t: Topo, gone: set<Rank>, x: Rank) {
    x in t.parent && t.parent[x].Some? && t.parent[x].value in gone
  }

  /** f leaves a child behind that can adopt others. */
  ghost predicate LeavesAdopters(t: Topo, failed: set<Rank>, f: Rank) {
    f in t.kids && exists o :: o in t.kids[f] && o !in failed && o !in t.backends
  }

  /** Of any two failed nodes that leave such a child behind, one stood above the other. */
  ghost predicate OnOneLine(t: Topo, failed: set<Rank>) {
    forall f, g :: f in failed && g in failed && LeavesAdopters(t, failed, f) && LeavesAdopters(t, failed, g) ==>
      InSubtree(t, f, g) || InSubtree(t, g, f)
  }

  // ---------------------------------------------------------------- the state under way

  /** What is known of an orphan and the adopter it went to. */
  ghost predicate Choice(t: Topo, failed: set<Rank>, gone: set<Rank>, o: Rank, a: Rank) {
    && CutOff(t, gone, o) && o !in failed
    && a in t.parent && a !in failed && a !in t.backends && !InSubtree(t, t.parent[o].value, a)
  }

  ghost predicate Choices(t: Topo, failed: set<Rank>, gone: set<Rank>, chosen: map<Rank, Rank>) {
    gone <= failed && forall o :: o in chosen ==> Choice(t, failed, gone, o, chosen[o])
  }

  /** Where x hangs once `gone` have been removed and the orphans in `chosen` have gone to their adopters. */
  ghost function ParentNow(t: Topo, gone: set<Rank>, chosen: map<Rank, Rank>, x: Rank): Option<Rank>
    requires x in t.parent
  {
    if !CutOff(t, gone, x) then t.parent[x] else if x in chosen then Some(chosen[x]) else None
  }

  ghost predicate Underway(t: Topo, u: Topo, gone: set<Rank>, chosen: map<Rank, Rank>) {
    && u.root == t.root && u.parent.Keys == t.parent.Keys - gone
    && (forall x {:trigger u.parent[x]} :: x in u.parent ==> u.parent[x] == ParentNow(t, gone, chosen, x))
    && (forall x {:trigger x in u.orphans} :: x in u.orphans <==> x in u.parent && CutOff(t, gone, x) && x !in chosen)
  }

  lemma RemovalUnderway(t: Topo, failed: set<Rank>, u: Topo, gone: set<Rank>, chosen: map<Rank, Rank>, f: Rank)
    requires Linked(u) && f in failed && f in t.parent && t.root != Some(f)
    requires Underway(t, u, gone, chosen) && Choices(t, failed, gone, chosen)
    ensures Underway(t, RemoveNode(u, f).0, gone + {f}, chosen) && Choices(t, failed, gone + {f}, chosen)
  {
    if f in gone {
      assert gone + {f} == gone;
    } else {
      ChoicesGrow(t, failed, gone, chosen, f);
      var v := RemoveNode(u, f).0;
      forall x | x in v.parent ensures v.parent[x] == ParentNow(t, gone + {f}, chosen, x) {
        assert u.parent[x] == ParentNow(t, gone, chosen, x);
        NotCutTwice(t, failed, gone, chosen, f, x);
      }
      forall x ensures x in v.orphans <==> x in v.parent && CutOff(t, gone + {f}, x) && x !in chosen {
        RemovalOrphan(t, failed, u, gone, chosen, f, x);
      }
    }
  }

  lemma ChoicesGrow(t: Topo, failed: set<Rank>, gone: set<Rank>, chosen: map<Rank, Rank>, f: Rank)
    requires f in failed && Choices(t, failed, gone, chosen)
    ensures Choices(t, failed, gone + {f}, chosen)
  {
    forall o | o in chosen ensures Choice(t, failed, gone + {f}, o, chosen[o]) {
      assert Choice(t, failed, gone, o, chosen[o]);
    }
  }

  /** A node whose parent is still there has chosen nobody, and nobody has chosen a failed node. */
  lemma NotCutTwice(t: Topo, failed: set<Rank>, gone: set<Rank>, chosen: map<Rank, Rank>, f: Rank, x: Rank)
    requires f in failed && f !in gone && Choices(t, failed, gone, chosen)
    ensures x in chosen ==> chosen[x] != f && CutOff(t, gone, x)
  {
    assert x in chosen ==> Choice(t, failed, gone, x, chosen[x]);
  }

  lemma RemovalOrphan(t: Topo, failed: set<Rank>, u: Topo, gone: set<Rank>, chosen: map<Rank, Rank>, f: Rank, x: Rank)
    requires Linked(u) && f in failed && f in t.parent && f !in gone
    requires Underway(t, u, gone, chosen) && Choices(t, failed, gone, chosen)
    ensures var v := RemoveNode(u, f).0;
            x in v.orphans <==> x in v.parent && CutOff(t, gone + {f}, x) && x !in chosen
  {
    NotCutTwice(t, failed, gone, chosen, f, x);
    assert x in u.parent ==> u.parent[x] == ParentNow(t, gone, chosen, x);
    assert x in u.kids[f] ==> x in u.parent && u.parent[x] == Some(f);
    assert x in u.parent && u.parent[x] == Some(f) ==> x in u.kids[f];
  }

  lemma MoveUnderway(t: Topo, failed: set<Rank>, u: Topo, gone: set<Rank>, chosen: map<Rank, Rank>, o: Rank, a: Rank)
    requires Linked(u) && Underway(t, u, gone, chosen) && Choices(t, failed, gone, chosen)
    requires Choice(t, failed, gone, o, a)
    ensures Underway(t, SetParent(u, o, a).0, gone, chosen[o := a]) && Choices(t, failed, gone, chosen[o := a])
  {
    assert o in u.parent && a in u.parent;
    assert u.parent[o] == ParentNow(t, gone, chosen, o);
    var v := SetParent(u, o, a).0;
    forall x | x in v.parent ensures v.parent[x] == ParentNow(t, gone, chosen[o := a], x) {
      assert x != o ==> u.parent[x] == ParentNow(t, gone, chosen, x);
    }
    var now := chosen[o := a];
    forall x | x in now ensures Choice(t, failed, gone, x, now[x]) {
      assert x != o ==> Choice(t, failed, gone, x, chosen[x]);
    }
  }

  // ---------------------------------------------------------------- why one line is enough

  lemma ParentIsAbove(t: Topo, x: Rank)
    requires x in t.parent && t.parent[x].Some?
    ensures InSubtree(t, t.parent[x].value, x)
  {
    SubtreeSelf(t, t.parent[x].value);
    SubtreeBelow(t, t.parent[x].value, x);
  }

  /** An adopter's jump never leads back below a failed node on the line. */
  lemma JumpStaysClear(t: Topo, failed: set<Rank>, gone: set<Rank>, f: Rank, y: Rank, a: Rank)
    requires Linked(t) && OnOneLine(t, failed) && f in failed && LeavesAdopters(t, failed, f) && gone <= failed
    requires y !in t.backends && !InSubtree(t, f, y) && Choice(t, failed, gone, y, a)
    ensures !InSubtree(t, f, a)
  {
    var g := t.parent[y].value;
    assert y in t.kids[g];
    assert LeavesAdopters(t, failed, g);
    ParentIsAbove(t, y);
    if InSubtree(t, f, g) {
      SubtreeTransitive(t, f, g, y);
    } else if InSubtree(t, f, a) {
      SubtreeTransitive(t, g, f, a);
    }
  }

  /** Who is clear of a failed node on the line, and no back end, climbs clear of it. */
  lemma {:induction false} ClimbStaysClear(t: Topo, failed: set<Rank>, u: Topo, gone: set<Rank>, chosen: map<Rank, Rank>,
                                           f: Rank, y: Rank, k: nat)
    requires Linked(t) && BackendsBare(t) && OnOneLine(t, failed) && f in failed && LeavesAdopters(t, failed, f)
    requires Underway(t, u, gone, chosen) && Choices(t, failed, gone, chosen)
    requires y in t.parent && y !in t.backends && !InSubtree(t, f, y) && Climb(u, y, k).Some?
    ensures !InSubtree(t, f, Climb(u, y, k).value)
    decreases k
  {
    if k > 0 {
      var p := NextIsClear(t, failed, u, gone, chosen, f, y);
      ClimbStaysClear(t, failed, u, gone, chosen, f, p, k - 1);
    }
  }

  lemma NextIsClear(t: Topo, failed: set<Rank>, u: Topo, gone: set<Rank>, chosen: map<Rank, Rank>, f: Rank, y: Rank)
    returns (p: Rank)
    requires Linked(t) && BackendsBare(t) && OnOneLine(t, failed) && f in failed && LeavesAdopters(t, failed, f)
    requires Underway(t, u, gone, chosen) && Choices(t, failed, gone, chosen)
    requires y in t.parent && y !in t.backends && !InSubtree(t, f, y) && y in u.parent && u.parent[y].Some?
    ensures u.parent[y] == Some(p) && p in t.parent && p !in t.backends && !InSubtree(t, f, p)
  {
    p := u.parent[y].value;
    if CutOff(t, gone, y) {
      assert Choice(t, failed, gone, y, chosen[y]);
      JumpStaysClear(t, failed, gone, f, y, p);
    } else {
      assert y in t.kids[p];
      if InSubtree(t, f, p) {
        SubtreeBelow(t, f, y);
      }
    }
  }

  lemma NobodyUnderBackend(t: Topo, failed: set<Rank>, u: Topo, gone: set<Rank>, chosen: map<Rank, Rank>, y: Rank)
    requires Linked(t) && BackendsBare(t) && y in u.parent && u.parent[y].Some?
    requires Underway(t, u, gone, chosen) && Choices(t, failed, gone, chosen)
    ensures u.parent[y].value !in t.backends
  {
    assert u.parent[y] == ParentNow(t, gone, chosen, y);
    if CutOff(t, gone, y) {
      assert Choice(t, failed, gone, y, chosen[y]);
    } else {
      KidLinked(t, u.parent[y].value, y);
    }
  }

  /** Nothing climbs to a back end but the back end itself. */
  lemma NothingBelowBackend(t: Topo, failed: set<Rank>, u: Topo, gone: set<Rank>, chosen: map<Rank, Rank>, b: Rank, x: Rank)
    requires Linked(t) && BackendsBare(t) && Linked(u) && b in t.backends && x in u.parent && x != b
    requires Underway(t, u, gone, chosen) && Choices(t, failed, gone, chosen)
    ensures !InSubtree(u, b, x)
  {
    if InSubtree(u, b, x) {
      var k: nat :| Climb(u, x, k) == Some(b);
      var y := ClimbStop(u, x, k - 1);
      NobodyUnderBackend(t, failed, u, gone, chosen, y);
    }
  }

  lemma ChoiceIsLegal(t: Topo, failed: set<Rank>, u: Topo, gone: set<Rank>, chosen: map<Rank, Rank>, o: Rank, a: Rank)
    requires Linked(t) && BackendsBare(t) && Linked(u) && OnOneLine(t, failed)
    requires Underway(t, u, gone, chosen) && Choices(t, failed, gone, chosen) && Choice(t, failed, gone, o, a)
    ensures !InSubtree(u, o, a)
  {
    if o in t.backends {
      NothingBelowBackend(t, failed, u, gone, chosen, o, a);
    } else if InSubtree(u, o, a) {
      var f := t.parent[o].value;
      assert o in t.kids[f];
      assert LeavesAdopters(t, failed, f);
      var k: nat :| Climb(u, a, k) == Some(o);
      ClimbStaysClear(t, failed, u, gone, chosen, f, a, k);
      ParentIsAbove(t, o);
    }
  }

  lemma AdopterIsChoice(t: Topo, failed: set<Rank>, gone: set<Rank>, r: Report)
    requires Strikes(t, failed) && Fits(t, failed, r) && r.event.Recovered? && r.failed in gone
    ensures Choice(t, failed, gone, r.event.orphan, r.event.adopter)
  {
    var o, a := r.event.orphan, r.event.adopter;
    KidLinked(t, r.failed, o);
    AdopterOutside(t, r.failed, o, a);
    AdopterNoBackend(t, o, a);
  }

  lemma AdopterNoBackend(t: Topo, o: Rank, a: Rank)
    requires CanAdopt(t, o, a)
    ensures a !in t.backends
  {
    var k: nat :| Route(t, t.parent[o], t.root.value, a, k);
    assert Climb(t, a, 0) == Some(a);
  }

  lemma ReportSafe(t: Topo, failed: set<Rank>, u: Topo, gone: set<Rank>, chosen: map<Rank, Rank>, r: Report)
    requires Strikes(t, failed) && OnOneLine(t, failed) && Fits(t, failed, r)
    requires Inv(u) && Underway(t, u, gone, chosen) && Choices(t, failed, gone, chosen)
    ensures Inv(React(u, r.failed, r.event))
    ensures Underway(t, React(u, r.failed, r.event), gone + {r.failed}, ChosenAfter(chosen, r.event))
    ensures Choices(t, failed, gone + {r.failed}, ChosenAfter(chosen, r.event))
  {
    RemoveKeepsInv(u, r.failed);
    RemovalUnderway(t, failed, u, gone, chosen, r.failed);
    if r.event.Recovered? {
      AdopterIsChoice(t, failed, gone + {r.failed}, r);
      MoveSafe(t, failed, RemoveNode(u, r.failed).0, gone + {r.failed}, chosen, r.event.orphan, r.event.adopter);
    }
  }

  lemma MoveSafe(t: Topo, failed: set<Rank>, v: Topo, gone: set<Rank>, chosen: map<Rank, Rank>, o: Rank, a: Rank)
    requires Linked(t) && BackendsBare(t) && OnOneLine(t, failed)
    requires Inv(v) && Underway(t, v, gone, chosen) && Choices(t, failed, gone, chosen) && Choice(t, failed, gone, o, a)
    ensures Inv(SetParent(v, o, a).0)
    ensures Underway(t, SetParent(v, o, a).0, gone, chosen[o := a]) && Choices(t, failed, gone, chosen[o := a])
  {
    ChoiceIsLegal(t, failed, v, gone, chosen, o, a);
    MoveKeepsInv(v, o, a);
    MoveUnderway(t, failed, v, gone, chosen, o, a);
  }

  /** With the failed nodes on one line, every sequence of reports leaves every orphan where it chose to be, and no cycle. */
  lemma {:induction false} EveryReportSafe(t: Topo, failed: set<Rank>, reports: seq<Report>)
    requires Strikes(t, failed) && OnOneLine(t, failed) && ReportsFit(t, failed, reports)
    ensures Inv(HandleAll(t, reports))
    ensures Underway(t, HandleAll(t, reports), Struck(reports), Chosen(reports))
    ensures Choices(t, failed, Struck(reports), Chosen(reports))
  {
    if reports == [] {
      NothingYet(t, failed);
    } else {
      var front, last := reports[..|reports| - 1], reports[|reports| - 1];
      EveryReportSafe(t, failed, front);
      assert last in reports;
      ReportSafe(t, failed, HandleAll(t, front), Struck(front), Chosen(front), last);
    }
  }

  lemma NothingYet(t: Topo, failed: set<Rank>)
    requires Strikes(t, failed)
    ensures Underway(t, t, {}, map[]) && Choices(t, failed, {}, map[])
  {
  }

  // ---------------------------------------------------------------- why it is needed

  /** The other's orphan is on the list when neither failed node stood above the other. */
  lemma CanPickOther(t: Topo, failed: set<Rank>, f: Rank, g: Rank, o: Rank, a: Rank)
    requires Strikes(t, failed) && f in failed && g in failed && !InSubtree(t, f, g)
    requires o in t.kids[f] && a in t.kids[g] && a !in failed && a !in t.backends
    ensures CanAdopt(t, o, a)
  {
    KidLinked(t, f, o);
    KidLinked(t, g, a);
    assert InSubtree(t, t.root.value, a);
    var k: nat :| Climb(t, a, k) == Some(t.root.value);
    forall i: nat | i <= k && Climb(t, a, i).Some? ensures !Stops(t, t.parent[o], Climb(t, a, i).value) {
      NothingStops(t, f, g, a, i);
    }
    assert Route(t, t.parent[o], t.root.value, a, k);
  }

  lemma NothingStops(t: Topo, f: Rank, g: Rank, a: Rank, i: nat)
    requires Linked(t) && BackendsBare(t) && !InSubtree(t, f, g) && a in t.parent && t.parent[a] == Some(g)
    requires a != f && a !in t.backends && Climb(t, a, i).Some?
    ensures !Stops(t, Some(f), Climb(t, a, i).value)
  {
    if i > 0 {
      var y := ClimbStop(t, a, i - 1);
      assert y in t.kids[Climb(t, a, i).value];
      assert Climb(t, a, i) == Climb(t, g, i - 1);
    }
  }

  /** Two orphans that pick each other make a cycle. */
  lemma MutualCycle(t: Topo, f: Rank, g: Rank, o: Rank, a: Rank)
    requires Linked(t) && f != g && o != a && f != a && g != o && f != o && g != a
    requires f in t.parent && g in t.parent && o in t.kids[f] && a in t.kids[g]
    ensures !Acyclic(HandleAll(t, [Report(f, Recovered(o, a)), Report(g, Recovered(a, o))]))
  {
    var reports := [Report(f, Recovered(o, a)), Report(g, Recovered(a, o))];
    assert reports[..1] == [reports[0]] && [reports[0]][..0] == [];
    KidLinked(t, f, o);
    KidLinked(t, g, a);
    var u := React(t, f, reports[0].event);
    FirstPick(t, f, g, o, a);
    var v := React(u, g, reports[1].event);
    assert HandleAll(t, [reports[0]]) == u && HandleAll(t, reports) == v;
    SecondPick(u, g, o, a);
    assert Climb(v, o, 1) == Some(a) by { assert Climb(v, a, 0) == Some(a); }
    assert Climb(v, a, 1) == Some(o) by { assert Climb(v, o, 0) == Some(o); }
    assert Climb(v, o, 2) == Climb(v, a, 1);
    LoopNotGrounded(v, o, 2);
  }

  lemma FirstPick(t: Topo, f: Rank, g: Rank, o: Rank, a: Rank)
    requires Linked(t) && f != g && o != a && f != a && f != o
    requires f in t.parent && g in t.parent && o in t.parent && a in t.parent && t.parent[o] == Some(f) && t.parent[a] == Some(g)
    ensures var u := React(t, f, Recovered(o, a));
            && g in u.parent && o in u.parent && a in u.parent && u.parent[o] == Some(a) && u.parent[a] == Some(g)
  {
  }

  lemma SecondPick(u: Topo, g: Rank, o: Rank, a: Rank)
    requires Linked(u) && g in u.parent && o in u.parent && a in u.parent && g != o && g != a && o != a
    requires u.parent[o] == Some(a) && u.parent[a] == Some(g)
    ensures var v := React(u, g, Recovered(a, o));
            o in v.parent && a in v.parent && v.parent[o] == Some(a) && v.parent[a] == Some(o)
  {
  }

  lemma PairCycles(t: Topo, failed: set<Rank>, f: Rank, g: Rank, o: Rank, a: Rank)
    requires Strikes(t, failed) && f in failed && g in failed && !InSubtree(t, f, g) && !InSubtree(t, g, f)
    requires o in t.kids[f] && o !in failed && o !in t.backends && a in t.kids[g] && a !in failed && a !in t.backends
    ensures var reports := [Report(f, Recovered(o, a)), Report(g, Recovered(a, o))];
            ReportsFit(t, failed, reports) && !Acyclic(HandleAll(t, reports))
  {
    CanPickOther(t, failed, f, g, o, a);
    CanPickOther(t, failed, g, f, a, o);
    SubtreeSelf(t, f);
    KidLinked(t, f, o);
    KidLinked(t, g, a);
    MutualCycle(t, f, g, o, a);
  }

  lemma OffLineCycles(t: Topo, failed: set<Rank>) returns (reports: seq<Report>)
    requires Strikes(t, failed) && !OnOneLine(t, failed)
    ensures ReportsFit(t, failed, reports) && !Acyclic(HandleAll(t, reports))
  {
    var f, g :| f in failed && g in failed && LeavesAdopters(t, failed, f) && LeavesAdopters(t, failed, g)
                && !InSubtree(t, f, g) && !InSubtree(t, g, f);
    var o := AdopterLeft(t, failed, f);
    var a := AdopterLeft(t, failed, g);
    PairCycles(t, failed, f, g, o, a);
    reports := [Report(f, Recovered(o, a)), Report(g, Recovered(a, o))];
  }

  lemma AdopterLeft(t: Topo, failed: set<Rank>, f: Rank) returns (o: Rank)
    requires LeavesAdopters(t, failed, f)
    ensures o in t.kids[f] && o !in failed && o !in t.backends
  {
    o :| o in t.kids[f] && o !in failed && o !in t.backends;
  }

  function LoneTree(name: Name): Topo {
    Topo(Some(0), map[0 := name], map[0 := None], map[0 := {}], {}, {})
  }

  function TwoLevels(name: Name): Topo {
    AddNode(AddNode(LoneTree(name), 1, name, 0, false), 2, name, 0, false)
  }

  /** 3 under 1 and 4 under 2, both under the root. */
  function ThreeLevels(name: Name): Topo {
    AddNode(AddNode(TwoLevels(name), 3, name, 1, false), 4, name, 2, false)
  }

  /** When 1 and 2 fail together, 3 and 4 are on each other's lists, and picking each other leaves a cycle. */
  lemma TwoFailuresCycle(name: Name)
    ensures Strikes(ThreeLevels(name), {1, 2})
    ensures var reports := [Report(1, Recovered(3, 4)), Report(2, Recovered(4, 3))];
            ReportsFit(ThreeLevels(name), {1, 2}, reports) && !Acyclic(HandleAll(ThreeLevels(name), reports))
  {
    var t := ThreeLevels(name);
    ThreeLevelsTree(name);
    SubtreeSelf(t, 1);
    SubtreeSelf(t, 2);
    if InSubtree(t, 1, 2) {
      SiblingsApart(t, 0, 1, 2, 2);
    }
    if InSubtree(t, 2, 1) {
      SiblingsApart(t, 0, 1, 2, 1);
    }
    PairCycles(t, {1, 2}, 1, 2, 3, 4);
  }

  lemma ThreeLevelsTree(name: Name)
    ensures SingleTree(ThreeLevels(name))
  {
    LoneRoot(LoneTree(name));
    AddKeepsInv(LoneTree(name), 1, name, 0, false);
    AddKeepsInv(AddNode(LoneTree(name), 1, name, 0, false), 2, name, 0, false);
    AddKeepsInv(TwoLevels(name), 3, name, 1, false);
    AddKeepsInv(AddNode(TwoLevels(name), 3, name, 1, false), 4, name, 2, false);
    TreeIffNoOrphans(ThreeLevels(name));
  }

  // ---------------------------------------------------------------- the exact condition

  /** Overlapping failures are harmless whatever the orphans pick exactly when the failed nodes stood on one line. */
  lemma OverlapSafeIff(t: Topo, failed: set<Rank>)
    requires Strikes(t, failed)
    ensures OnOneLine(t, failed) <==> forall reports :: ReportsFit(t, failed, reports) ==> Acyclic(HandleAll(t, reports))
  {
    if OnOneLine(t, failed) {
      forall reports | ReportsFit(t, failed, reports) ensures Acyclic(HandleAll(t, reports)) {
        EveryReportSafe(t, failed, reports);
      }
    } else {
      var reports := OffLineCycles(t, failed);
    }
  }

  /** On one line, once every failure has been reported, the survivors are one tree exactly when every orphan has recovered. */
  lemma OverlapRestoresTree(t: Topo, failed: set<Rank>, reports: seq<Report>)
    requires Strikes(t, failed) && OnOneLine(t, failed) && ReportsFit(t, failed, reports) && Struck(reports) == failed
    ensures SingleTree(HandleAll(t, reports)) <==> Orphans(t, failed) <= Chosen(reports).Keys
    ensures HandleAll(t, reports).parent.Keys == t.parent.Keys - failed && HandleAll(t, reports).root == t.root
  {
    var u := HandleAll(t, reports);
    EveryReportSafe(t, failed, reports);
    assert u.parent[u.root.value] == ParentNow(t, failed, Chosen(reports), u.root.value);
    TreeIffNoOrphans(u);
    forall o | u.orphans == {} && o in Orphans(t, failed) ensures o in Chosen(reports) {
      assert o !in u.orphans;
    }
  }

  /** One failure alone is always on one line. */
  lemma OneIsOnLine(t: Topo, f: Rank)
    ensures OnOneLine(t, {f})
  {
    SubtreeSelf(t, f);
  }

  // ---------------------------------------------------------------- any number of failures

  datatype Round = Round(failed: set<Rank>, reports: seq<Report>)

  /** In each round nodes on one line fail, and are fully recovered from before the next round. */
  ghost predicate Survivable(t: Topo, rounds: seq<Round>)
    decreases |rounds|
  {
    rounds == [] ||
    var r := rounds[0];
    && Strikes(t, r.failed) && OnOneLine(t, r.failed) && ReportsFit(t, r.failed, r.reports)
    && Struck(r.reports) == r.failed && Orphans(t, r.failed) <= Chosen(r.reports).Keys
    && Survivable(HandleAll(t, r.reports), rounds[1..])
  }

  ghost function Survive(t: Topo, rounds: seq<Round>): Topo
    requires Survivable(t, rounds)
    decreases |rounds|
  {
    if rounds == [] then t else Survive(HandleAll(t, rounds[0].reports), rounds[1..])
  }

  function Casualties(rounds: seq<Round>): set<Rank> {
    if rounds == [] then {} else rounds[0].failed + Casualties(rounds[1..])
  }

  /** Over any sequence of rounds the survivors stay one tree under the same root, and nobody else is lost. */
  lemma {:induction false} AnyNumberOfFailures(t: Topo, rounds: seq<Round>)
    requires SingleTree(t) && Survivable(t, rounds)
    ensures SingleTree(Survive(t, rounds)) && Survive(t, rounds).root == t.root
    ensures Survive(t, rounds).parent.Keys == t.parent.Keys - Casualties(rounds)
    decreases |rounds|
  {
    if rounds != [] {
      OverlapRestoresTree(t, rounds[0].failed, rounds[0].reports);
      AnyNumberOfFailures(HandleAll(t, rounds[0].reports), rounds[1..]);
    }
  }
}
