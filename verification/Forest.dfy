/**
 The network topology as a value: which live rank has which parent, which children, which
 ranks are flagged as back ends, which are orphans and which is the root.  The links are
 kept in both directions, exactly as the node objects keep them, so nothing here makes a
 cycle impossible by construction.
 */
module Forest {
  import opened Prelude

  // Where a process listens; ports are 16-bit.
  datatype Name = Name(host: string, port: nat)

  datatype Topo = Topo(
    root: Option<Rank>,
    names: map<Rank, Name>,
    parent: map<Rank, Option<Rank>>,
    kids: map<Rank, set<Rank>>,
    orphans: set<Rank>,
    backends: set<Rank>)

  // ---------------------------------------------------------------- climbing

  /** The rank met after climbing k parent links from r; None once the climb has left the forest. */
  ghost function Climb(t: Topo, r: Rank, k: nat): Option<Rank>
    decreases k
  {
    if k == 0 then Some(r)
    else if r in t.parent && t.parent[r].Some? then Climb(t, t.parent[r].value, k - 1)
    else None
  }

  /** r lies in the subtree hanging from a (a itself included). */
  ghost predicate InSubtree(t: Topo, a: Rank, r: Rank) {
    exists k: nat :: Climb(t, r, k) == Some(a)
  }

  /** Climbing from r ends, so r is on no cycle and below none. */
  ghost predicate Grounded(t: Topo, r: Rank) {
    exists k: nat :: Climb(t, r, k) == None
  }

  ghost predicate Acyclic(t: Topo) {
    forall r {:trigger Grounded(t, r)} :: r in t.parent ==> Grounded(t, r)
  }

  /** Parent links and child sets are inverses of one another. */
  ghost predicate Linked(t: Topo) {
    && t.parent.Keys == t.kids.Keys && t.names.Keys == t.parent.Keys
    && (forall c {:trigger t.parent[c]} :: c in t.parent && t.parent[c].Some? ==>
          t.parent[c].value in t.kids && c in t.kids[t.parent[c].value])
    && (forall p, c :: p in t.kids && c in t.kids[p] ==> c in t.parent && t.parent[c] == Some(p))
  }

  /** Orphans are live and parentless, and only the root and the orphans are parentless. */
  ghost predicate TopsKnown(t: Topo) {
    && (forall r {:trigger r in t.orphans} :: r in t.orphans ==> r in t.parent && t.parent[r] == None)
    && (forall r {:trigger t.parent[r]} :: r in t.parent && t.parent[r] == None ==> r in t.orphans || t.root == Some(r))
    && (t.root.Some? ==> t.root.value in t.parent)
  }

  /** Only leaves are flagged as back ends. */
  ghost predicate BackendsBare(t: Topo) {
    && t.backends <= t.parent.Keys
    && (forall b {:trigger b in t.backends} :: b in t.backends && b in t.kids ==> t.kids[b] == {})
  }

  ghost predicate Accounted(t: Topo) {
    TopsKnown(t) && BackendsBare(t)
  }

  ghost predicate Inv(t: Topo) {
    Linked(t) && Accounted(t) && Acyclic(t)
  }

  /** One tree: everything live hangs from the root. */
  ghost predicate SingleTree(t: Topo) {
    && Inv(t)
    && t.root.Some?
    && t.orphans == {}
    && t.parent[t.root.value] == None
    && (forall r {:trigger InSubtree(t, t.root.value, r)} :: r in t.parent ==> InSubtree(t, t.root.value, r))
  }

  lemma {:induction false} ClimbSum(t: Topo, r: Rank, i: nat, j: nat)
    requires Climb(t, r, i).Some?
    ensures Climb(t, r, i + j) == Climb(t, Climb(t, r, i).value, j)
    decreases i
  {
    if i > 0 {
      ClimbSum(t, t.parent[r].value, i - 1, j);
    }
  }

  lemma {:induction false} ClimbOut(t: Topo, r: Rank, i: nat, j: nat)
    requires Climb(t, r, i) == None && i <= j
    ensures Climb(t, r, j) == None
    decreases i
  {
    if r in t.parent && t.parent[r].Some? {
      ClimbOut(t, t.parent[r].value, i - 1, j - 1);
    }
  }

  lemma {:induction false} ClimbLive(t: Topo, r: Rank, k: nat)
    requires Linked(t) && r in t.parent && Climb(t, r, k).Some?
    ensures Climb(t, r, k).value in t.parent
    decreases k
  {
    if k > 0 {
      ClimbLive(t, t.parent[r].value, k - 1);
    }
  }

  /** On a grounded node no two steps of the climb meet the same rank. */
  lemma {:induction false} ClimbInjective(t: Topo, r: Rank, i: nat, j: nat)
    requires Grounded(t, r)
    requires Climb(t, r, i).Some? && Climb(t, r, i) == Climb(t, r, j)
    ensures i == j
  {
    if i != j {
      var lo, hi := if i < j then i else j, if i < j then j else i;
      assert Grounded(t, r);
      var k: nat :| Climb(t, r, k) == None;
      ClimbPeriodic(t, r, lo, hi, k);
      ClimbOut(t, r, k, lo + k * (hi - lo));
    }
  }

  lemma {:induction false} ClimbPeriodic(t: Topo, r: Rank, lo: nat, hi: nat, n: nat)
    requires lo < hi && Climb(t, r, lo).Some? && Climb(t, r, lo) == Climb(t, r, hi)
    ensures lo + n * (hi - lo) >= n
    ensures Climb(t, r, lo + n * (hi - lo)) == Climb(t, r, lo)
  {
    if n > 0 {
      ClimbPeriodic(t, r, lo, hi, n - 1);
      var d, m := hi - lo, lo + (n - 1) * (hi - lo);
      assert lo + n * d == m + d by { assert n * d == (n - 1) * d + d; }
      ClimbSum(t, r, m, d);
      ClimbSum(t, r, lo, d);
    }
  }

  lemma SubtreeSelf(t: Topo, r: Rank)
    ensures InSubtree(t, r, r)
  {
    assert Climb(t, r, 0) == Some(r);
  }

  lemma SubtreeBelow(t: Topo, a: Rank, r: Rank)
    requires r in t.parent && t.parent[r].Some? && InSubtree(t, a, t.parent[r].value)
    ensures InSubtree(t, a, r)
  {
    var i: nat :| Climb(t, t.parent[r].value, i) == Some(a);
    assert Climb(t, r, i + 1) == Some(a);
  }

  /** Being in a subtree is transitive. */
  lemma SubtreeTransitive(t: Topo, a: Rank, b: Rank, c: Rank)
    requires InSubtree(t, a, b) && InSubtree(t, b, c)
    ensures InSubtree(t, a, c)
  {
    var i: nat :| Climb(t, b, i) == Some(a);
    var j: nat :| Climb(t, c, j) == Some(b);
    ClimbSum(t, c, j, i);
  }

  lemma {:induction false} ClimbToTop(t: Topo, r: Rank, k: nat) returns (top: Rank)
    requires t.parent.Keys == t.kids.Keys && r in t.parent && Climb(t, r, k) == None
    requires forall c {:trigger t.parent[c]} :: c in t.parent && t.parent[c].Some? ==> t.parent[c].value in t.parent
    ensures InSubtree(t, top, r) && top in t.parent && t.parent[top] == None
    decreases k
  {
    if t.parent[r] == None {
      top := r;
      SubtreeSelf(t, r);
    } else {
      top := ClimbToTop(t, t.parent[r].value, k - 1);
      SubtreeBelow(t, top, r);
    }
  }

  /** Every live node has a topmost ancestor, and that is an orphan or the root. */
  lemma Topmost(t: Topo, r: Rank, k: nat) returns (top: Rank)
    requires Inv(t) && r in t.parent && Climb(t, r, k) == None
    ensures InSubtree(t, top, r) && top in t.parent && t.parent[top] == None
    ensures top in t.orphans || t.root == Some(top)
  {
    top := ClimbToTop(t, r, k);
  }

  /** A lone root is a well-formed topology. */
  lemma LoneRoot(t: Topo)
    requires t.root.Some? && t.parent == map[t.root.value := None] && t.kids == map[t.root.value := {}]
    requires t.orphans == {} && t.backends <= {t.root.value} && t.names.Keys == {t.root.value}
    ensures Inv(t)
  {
    forall r | r in t.parent ensures Grounded(t, r) {
      assert Climb(t, r, 1) == None;
    }
  }

  // ---------------------------------------------------------------- operations

  /** A fresh node under a live parent: allocation followed by set_Parent. */
  function AddNode(t: Topo, r: Rank, name: Name, p: Rank, isBackend: bool): Topo
    requires r !in t.parent && p in t.parent && p in t.kids
  {
    t.(names := t.names[r := name],
       parent := t.parent[r := Some(p)],
       kids := t.kids[r := {}][p := t.kids[p] + {r}],
       backends := (if isBackend then t.backends + {r} else t.backends) - {p})
  }

  /** NetworkTopology::set_Parent: the new state, and whether the call reports success. */
  function SetParent(t: Topo, c: Rank, p: Rank): (Topo, bool)
    requires Linked(t)
  {
    if c !in t.parent || p !in t.parent then (t, false)
    else if t.parent[c] == Some(p) then (t, true)
    else
      var cut := if t.parent[c].Some? then t.kids[t.parent[c].value := t.kids[t.parent[c].value] - {c}] else t.kids;
      (t.(parent := t.parent[c := Some(p)],
          kids := cut[p := cut[p] + {c}],
          orphans := t.orphans - {c},
          backends := t.backends - {p}), true)
  }

  /** NetworkTopology::remove_Node: the children of the removed node become orphans. */
  function RemoveNode(t: Topo, r: Rank): (Topo, bool)
    requires Linked(t)
  {
    if r !in t.parent then (t, false)
    else
      (Topo(if t.root == Some(r) then None else t.root,
            t.names - {r},
            map x | x in t.parent && x != r :: (if t.parent[x] == Some(r) then None else t.parent[x]),
            map x | x in t.kids && x != r :: t.kids[x] - {r},
            t.orphans - {r} + (t.kids[r] - {r}),
            t.backends - {r}), true)
  }

  lemma SetParentLinked(t: Topo, c: Rank, p: Rank)
    requires Linked(t)
    ensures Linked(SetParent(t, c, p).0)
  {
    if c in t.parent && p in t.parent && t.parent[c] != Some(p) {
      LinkDown(t, c, p);
      LinkUp(t, c, p);
    }
  }

  lemma LinkDown(t: Topo, c: Rank, p: Rank)
    requires Linked(t) && c in t.parent && p in t.parent && t.parent[c] != Some(p)
    ensures var u := SetParent(t, c, p).0;
      forall x {:trigger u.parent[x]} :: x in u.parent && u.parent[x].Some? ==>
        u.parent[x].value in u.kids && x in u.kids[u.parent[x].value]
  {
    var u := SetParent(t, c, p).0;
    forall x | x in u.parent && u.parent[x].Some? ensures u.parent[x].value in u.kids && x in u.kids[u.parent[x].value] {
      assert x in t.parent && (x != c ==> u.parent[x] == t.parent[x]);
    }
  }

  lemma LinkUp(t: Topo, c: Rank, p: Rank)
    requires Linked(t) && c in t.parent && p in t.parent && t.parent[c] != Some(p)
    ensures var u := SetParent(t, c, p).0;
      forall q, x :: q in u.kids && x in u.kids[q] ==> x in u.parent && u.parent[x] == Some(q)
  {
    var u := SetParent(t, c, p).0;
    forall q, x | q in u.kids && x in u.kids[q] ensures x in u.parent && u.parent[x] == Some(q) {
      assert x in t.kids[q] || (q == p && x == c);
    }
  }

  lemma RemoveLinked(t: Topo, r: Rank)
    requires Linked(t)
    ensures Linked(RemoveNode(t, r).0)
  {
    var u := RemoveNode(t, r).0;
    if r in t.parent {
      forall x | x in u.parent && u.parent[x].Some? ensures u.parent[x].value in u.kids && x in u.kids[u.parent[x].value] {
        assert u.parent[x] == t.parent[x];
      }
      forall q, x | q in u.kids && x in u.kids[q] ensures x in u.parent && u.parent[x] == Some(q) {
        assert x in t.kids[q];
      }
    }
  }

  datatype Op = Add(node: Rank, name: Name, under: Rank, isBackend: bool) | Move(child: Rank, newParent: Rank) | Remove(gone: Rank)

  /** What the callers keep to: additions go under a live node, and no node is moved into its own subtree. */
  ghost predicate Legal(t: Topo, op: Op) {
    match op
    case Add(r, _, p, _) => r !in t.parent && p in t.parent
    case Move(c, p) => !InSubtree(t, c, p)
    case Remove(_) => true
  }

  ghost function Apply(t: Topo, op: Op): Topo
    requires Linked(t) && Legal(t, op)
  {
    match op
    case Add(r, n, p, b) => AddNode(t, r, n, p, b)
    case Move(c, p) => SetParent(t, c, p).0
    case Remove(r) => RemoveNode(t, r).0
  }

  // ---------------------------------------------------------------- each operation keeps the invariant

  /** A climb that never uses the one link that changed is unaffected by the change. */
  lemma {:induction false} ClimbAvoiding(t: Topo, u: Topo, r: Rank, c: Rank, k: nat)
    requires forall x :: x in t.parent && x != c ==> x in u.parent && u.parent[x] == t.parent[x]
    requires forall x :: x in u.parent && x != c ==> x in t.parent
    requires !InSubtree(t, c, r)
    ensures Climb(u, r, k) == Climb(t, r, k)
    decreases k
  {
    assert r != c by { SubtreeSelf(t, r); }
    if k > 0 && r in t.parent && t.parent[r].Some? {
      var p := t.parent[r].value;
      assert !InSubtree(t, c, p) by {
        if InSubtree(t, c, p) { SubtreeBelow(t, c, r); }
      }
      ClimbAvoiding(t, u, p, c, k - 1);
    }
  }

  /** The moved node now climbs to p and then as p climbed before. */
  lemma MoveClimb(t: Topo, c: Rank, p: Rank, k: nat)
    requires Linked(t) && c in t.parent && p in t.parent && !InSubtree(t, c, p)
    ensures Climb(SetParent(t, c, p).0, p, k) == Climb(t, p, k)
    ensures Climb(SetParent(t, c, p).0, c, k + 1) == Climb(t, p, k)
  {
    ClimbAvoiding(t, SetParent(t, c, p).0, p, c, k);
  }

  lemma {:induction false} MoveGrounded(t: Topo, c: Rank, p: Rank, r: Rank, k: nat)
    requires Linked(t) && c in t.parent && p in t.parent && !InSubtree(t, c, p)
    requires Grounded(t, p) && Climb(t, r, k) == None
    ensures Grounded(SetParent(t, c, p).0, r)
    decreases k
  {
    var u := SetParent(t, c, p).0;
    if r == c {
      var i: nat :| Climb(t, p, i) == None;
      MoveClimb(t, c, p, i);
      assert Climb(u, c, i + 1) == None;
    } else if r in t.parent && t.parent[r].Some? {
      var q := t.parent[r].value;
      MoveGrounded(t, c, p, q, k - 1);
      var i: nat :| Climb(u, q, i) == None;
      assert Climb(u, r, i + 1) == None;
    } else {
      assert Climb(u, r, 1) == None;
    }
  }

  lemma MoveAccounted(t: Topo, c: Rank, p: Rank)
    requires Linked(t) && Accounted(t)
    ensures Accounted(SetParent(t, c, p).0)
  {
  }

  lemma MoveKeepsInv(t: Topo, c: Rank, p: Rank)
    requires Inv(t) && !InSubtree(t, c, p)
    ensures Inv(SetParent(t, c, p).0)
    ensures SetParent(t, c, p).0.parent.Keys == t.parent.Keys
  {
    SetParentLinked(t, c, p);
    MoveAccounted(t, c, p);
    MoveAcyclic(t, c, p);
  }

  lemma MoveAcyclic(t: Topo, c: Rank, p: Rank)
    requires Linked(t) && Acyclic(t) && !InSubtree(t, c, p)
    ensures Acyclic(SetParent(t, c, p).0)
  {
    var u := SetParent(t, c, p).0;
    forall r | r in u.parent ensures Grounded(u, r) {
      assert Grounded(t, r);
      var k: nat :| Climb(t, r, k) == None;
      if c in t.parent && p in t.parent {
        MoveGrounded(t, c, p, r, k);
      }
    }
  }

  /** Moving a node below itself is what the precondition of MoveKeepsInv rules out: it always closes a cycle. */
  lemma MoveIntoOwnSubtreeCycles(t: Topo, c: Rank, p: Rank)
    requires Inv(t) && c in t.parent && p in t.parent && InSubtree(t, c, p)
    ensures t.parent[c] != Some(p) && !Acyclic(SetParent(t, c, p).0)
  {
    if t.parent[c] == Some(p) {
      ParentNotBelow(t, p, c);
    } else {
      var i: nat :| Climb(t, p, i) == Some(c);
      LoopBack(t, c, p, i);
      LoopNotGrounded(SetParent(t, c, p).0, c, i + 1);
    }
  }

  lemma LoopNotGrounded(u: Topo, c: Rank, n: nat)
    requires n > 0 && c in u.parent && Climb(u, c, n) == Some(c)
    ensures !Acyclic(u)
  {
    if Acyclic(u) {
      assert Grounded(u, c);
      ClimbInjective(u, c, 0, n);
    }
  }

  lemma ParentNotBelow(t: Topo, p: Rank, c: Rank)
    requires Acyclic(t) && p in t.parent && c in t.parent && t.parent[c] == Some(p)
    ensures !InSubtree(t, c, p)
  {
    if InSubtree(t, c, p) {
      var k: nat :| Climb(t, p, k) == Some(c);
      ClimbSum(t, p, k, 1);
      assert Climb(t, c, 1) == Some(p) by { assert Climb(t, p, 0) == Some(p); }
      assert Grounded(t, p);
      ClimbInjective(t, p, 0, k + 1);
    }
  }

  lemma {:induction false} LoopBack(t: Topo, c: Rank, p: Rank, i: nat)
    requires Inv(t) && c in t.parent && p in t.parent && t.parent[c] != Some(p)
    requires Climb(t, p, i) == Some(c)
    ensures Climb(SetParent(t, c, p).0, c, i + 1) == Some(c)
  {
    var u := SetParent(t, c, p).0;
    FollowTo(t, u, p, c, i);
  }

  /** Two topologies that agree on the parent of everything but c climb alike up to the first meeting with c. */
  lemma {:induction false} FollowTo(t: Topo, u: Topo, r: Rank, c: Rank, i: nat)
    requires Acyclic(t) && r in t.parent && Linked(t)
    requires forall x :: x in t.parent && x != c ==> x in u.parent && u.parent[x] == t.parent[x]
    requires Climb(t, r, i) == Some(c)
    ensures Climb(u, r, i) == Some(c)
    decreases i
  {
    if i > 0 {
      if r == c {
        ClimbInjective(t, r, 0, i);
      }
      FollowTo(t, u, t.parent[r].value, c, i - 1);
    }
  }

  lemma {:induction false} RemoveGrounded(t: Topo, r: Rank, x: Rank, k: nat)
    requires Linked(t) && r in t.parent && x != r && Climb(t, x, k) == None
    ensures Grounded(RemoveNode(t, r).0, x)
    decreases k
  {
    var u := RemoveNode(t, r).0;
    if x in t.parent && t.parent[x].Some? && t.parent[x].value != r {
      var q := t.parent[x].value;
      RemoveGrounded(t, r, q, k - 1);
      var i: nat :| Climb(u, q, i) == None;
      assert x in u.parent && u.parent[x] == Some(q);
      assert Climb(u, x, i + 1) == None;
    } else {
      assert Climb(u, x, 1) == None;
    }
  }

  lemma NotOwnChild(t: Topo, r: Rank)
    requires Inv(t) && r in t.parent
    ensures r !in t.kids[r]
  {
    if r in t.kids[r] {
      assert Climb(t, r, 1) == Climb(t, r, 0);
      assert Grounded(t, r);
      ClimbInjective(t, r, 0, 1);
    }
  }

  lemma RemoveTops(t: Topo, r: Rank)
    requires Linked(t) && TopsKnown(t)
    ensures TopsKnown(RemoveNode(t, r).0)
  {
    var u := RemoveNode(t, r).0;
    if r in t.parent {
      forall x | x in u.parent && u.parent[x] == None ensures x in u.orphans || u.root == Some(x) {
        assert x in t.kids[r] || t.parent[x] == None;
      }
      forall x | x in u.orphans ensures x in u.parent && u.parent[x] == None {
        assert x in t.kids[r] || (x in t.orphans && t.parent[x] == None);
      }
    }
  }

  lemma RemoveBackends(t: Topo, r: Rank)
    requires Linked(t) && BackendsBare(t)
    ensures BackendsBare(RemoveNode(t, r).0)
  {
    var u := RemoveNode(t, r).0;
    forall b | b in u.backends && b in u.kids ensures u.kids[b] == {} {
      assert t.kids[b] == {};
    }
  }

  /** A removal deletes exactly one rank, and its children are the only new orphans. */
  lemma RemoveKeepsInv(t: Topo, r: Rank)
    requires Inv(t)
    ensures Inv(RemoveNode(t, r).0)
    ensures RemoveNode(t, r).0.parent.Keys == t.parent.Keys - {r}
    ensures r in t.parent ==> RemoveNode(t, r).0.orphans == t.orphans - {r} + t.kids[r]
  {
    RemoveLinked(t, r);
    RemoveTops(t, r);
    RemoveBackends(t, r);
    if r in t.parent {
      NotOwnChild(t, r);
      RemoveAcyclic(t, r);
    }
  }

  lemma RemoveAcyclic(t: Topo, r: Rank)
    requires Linked(t) && Acyclic(t) && r in t.parent
    ensures Acyclic(RemoveNode(t, r).0)
  {
    var u := RemoveNode(t, r).0;
    forall x | x in u.parent ensures Grounded(u, x) {
      assert Grounded(t, x);
      var k: nat :| Climb(t, x, k) == None;
      RemoveGrounded(t, r, x, k);
    }
  }

  lemma AddLinked(t: Topo, r: Rank, name: Name, p: Rank, isBackend: bool)
    requires Linked(t) && r !in t.parent && p in t.parent
    ensures Linked(AddNode(t, r, name, p, isBackend))
  {
  }

  lemma AddAccounted(t: Topo, r: Rank, name: Name, p: Rank, isBackend: bool)
    requires Linked(t) && Accounted(t) && r !in t.parent && p in t.parent
    ensures Accounted(AddNode(t, r, name, p, isBackend))
  {
  }

  lemma AddKeepsInv(t: Topo, r: Rank, name: Name, p: Rank, isBackend: bool)
    requires Inv(t) && r !in t.parent && p in t.parent
    ensures Inv(AddNode(t, r, name, p, isBackend))
  {
    AddLinked(t, r, name, p, isBackend);
    AddAccounted(t, r, name, p, isBackend);
    var u := AddNode(t, r, name, p, isBackend);
    forall x | x in u.parent ensures Grounded(u, x) {
      AddGrounded(t, r, name, p, isBackend, x);
    }
  }

  lemma AddGrounded(t: Topo, r: Rank, name: Name, p: Rank, isBackend: bool, x: Rank)
    requires Linked(t) && Acyclic(t) && r !in t.parent && p in t.parent && (x == r || x in t.parent)
    ensures Grounded(AddNode(t, r, name, p, isBackend), x)
  {
    var u := AddNode(t, r, name, p, isBackend);
    var y := if x == r then p else x;
    assert Grounded(t, y);
    var k: nat :| Climb(t, y, k) == None;
    NotBelowFresh(t, r, y);
    ClimbAvoiding(t, u, y, r, k);
    assert Climb(u, x, if x == r then k + 1 else k) == None;
  }

  lemma NotBelowFresh(t: Topo, r: Rank, x: Rank)
    requires Linked(t) && r !in t.parent && x in t.parent
    ensures !InSubtree(t, r, x)
  {
    if InSubtree(t, r, x) {
      var i: nat :| Climb(t, x, i) == Some(r);
      ClimbLive(t, x, i);
    }
  }

  // ---------------------------------------------------------------- runs

  ghost predicate LegalRun(t: Topo, ops: seq<Op>)
    decreases |ops|
  {
    ops == [] || (Linked(t) && Legal(t, ops[0]) && LegalRun(Apply(t, ops[0]), ops[1..]))
  }

  ghost function Run(t: Topo, ops: seq<Op>): Topo
    requires LegalRun(t, ops)
    decreases |ops|
  {
    if ops == [] then t else Run(Apply(t, ops[0]), ops[1..])
  }

  /**
   Over every legal run: links stay inverse, orphans stay live and parentless, no cycle
   appears, and every live node still hangs from the root or from an orphan.
   */
  lemma {:induction false} RunKeepsInv(t: Topo, ops: seq<Op>)
    requires Inv(t) && LegalRun(t, ops)
    ensures Inv(Run(t, ops))
    ensures forall r :: r in Run(t, ops).parent ==>
      exists top :: InSubtree(Run(t, ops), top, r) && (top in Run(t, ops).orphans || Run(t, ops).root == Some(top))
    decreases |ops|
  {
    if ops == [] {
      forall r | r in t.parent
        ensures exists top :: InSubtree(t, top, r) && (top in t.orphans || t.root == Some(top))
      {
        assert Grounded(t, r);
        var k: nat :| Climb(t, r, k) == None;
        var top := Topmost(t, r, k);
      }
    } else {
      match ops[0] {
        case Add(r, n, p, b) => AddKeepsInv(t, r, n, p, b);
        case Move(c, p) => MoveKeepsInv(t, c, p);
        case Remove(r) => RemoveKeepsInv(t, r);
      }
      RunKeepsInv(Apply(t, ops[0]), ops[1..]);
    }
  }

  // ---------------------------------------------------------------- the operations, link by link

  /** After a move exactly the child's own link has changed; it is no orphan, and its parent no back end, any more. */
  lemma MoveMeans(t: Topo, c: Rank, p: Rank)
    requires Linked(t)
    ensures var (u, ok) := SetParent(t, c, p);
      && Linked(u) && ok == (c in t.parent && p in t.parent)
      && u.root == t.root && u.names == t.names && u.parent.Keys == t.parent.Keys
      && (forall x :: x in t.parent ==> u.parent[x] == if ok && x == c then Some(p) else t.parent[x])
      && (ok && t.parent[c] != Some(p) ==> u.orphans == t.orphans - {c} && u.backends == t.backends - {p})
      && (!ok || t.parent[c] == Some(p) ==> u == t)
  {
    SetParentLinked(t, c, p);
  }

  /** A removal takes one rank away, makes its children parentless orphans, and leaves everything else alone. */
  lemma RemoveMeans(t: Topo, r: Rank)
    requires Inv(t)
    ensures var (u, ok) := RemoveNode(t, r);
      && Linked(u) && ok == (r in t.parent) && (!ok ==> u == t)
      && u.root == (if ok && t.root == Some(r) then None else t.root)
      && u.parent.Keys == t.parent.Keys - {r} && u.names.Keys == t.names.Keys - {r} && u.backends == t.backends - {r}
      && (forall x :: x in u.parent ==> u.parent[x] == if t.parent[x] == Some(r) then None else t.parent[x])
      && (forall x :: x in u.names ==> u.names[x] == t.names[x])
      && (forall x :: x in u.orphans <==> x != r && (x in t.orphans || (x in t.parent && t.parent[x] == Some(r))))
  {
    RemoveLinked(t, r);
  }

  /** An addition adds one leaf below the parent and changes no other link. */
  lemma AddMeans(t: Topo, r: Rank, name: Name, p: Rank, isBackend: bool)
    requires Inv(t) && r !in t.parent && p in t.parent
    ensures var u := AddNode(t, r, name, p, isBackend);
      && Linked(u) && u.root == t.root && u.orphans == t.orphans && u.parent.Keys == t.parent.Keys + {r}
      && u.parent[r] == Some(p) && u.kids[r] == {} && u.names[r] == name && (r in u.backends <==> isBackend)
      && (forall x :: x in t.parent ==> u.parent[x] == t.parent[x] && u.names[x] == t.names[x])
      && (forall x :: x in t.parent ==> (x in u.backends <==> x in t.backends && x != p))
  {
    AddLinked(t, r, name, p, isBackend);
  }
}
