/**
 * Stream creation when nodes fail. A node that gives up tells its parent, but a failure that is
 * processed before the parent has begun to wait is lost; here is exactly when a waiting parent can go on.
 */
module StreamFailures {
  import opened Prelude
  import Forest
  import opened Trees
  import opened StreamProtocol

  /** An aborting node drops the stream and sends its parent one failure; nothing else changes. */
  lemma AbortTells(t: Forest.Topo, w: Wave, n: Rank)
    requires Enabled(t, w, Abort(n))
    ensures var w' := Next(t, w, Abort(n));
      && n !in w'.registered && (forall x :: x != n ==> (x in w'.registered <==> x in w.registered))
      && PhaseOf(w', n) == Done(false) && (forall x :: x != n ==> PhaseOf(w', x) == PhaseOf(w, x))
      && w'.acks == w.acks + multiset{Ack(n, false)}
      && w'.requests == w.requests && w'.failing == w.failing && w'.heard == w.heard
  {
  }

  // ---------------------------------------------------------------- who holds the stream

  /** The run is of a proper topology. */
  ghost predicate Proper(t: Forest.Topo, steps: seq<Step>) {
    Forest.Inv(t) && (t.root.Some? ==> t.parent[t.root.value] == None) && Legal(t, steps)
  }

  /** The node took the request and made the stream, whether or not it could then pass the request on. */
  ghost predicate Made(steps: seq<Step>, n: Rank) {
    exists i :: 0 <= i < |steps| && Makes(steps[i], n)
  }

  predicate Makes(s: Step, n: Rank) {
    (s.Receive? || s.Break?) && s.n == n
  }

  lemma MadeNext(front: seq<Step>, s: Step, n: Rank)
    ensures Made(front + [s], n) <==> Made(front, n) || Makes(s, n)
    ensures Abort(n) in front + [s] <==> Abort(n) in front || s == Abort(n)
  {
    var all := front + [s];
    if Made(front, n) {
      var i :| 0 <= i < |front| && Makes(front[i], n);
      assert Makes(all[i], n);
    }
    assert all[|front|] == s;
  }

  lemma {:induction false} AbortedIsDone(t: Forest.Topo, steps: seq<Step>, n: Rank)
    requires Proper(t, steps) && Abort(n) in steps
    ensures PhaseOf(Run(t, steps), n) == Done(false)
  {
    var front, s := steps[..|steps| - 1], steps[|steps| - 1];
    assert steps == front + [s];
    RunSound(t, front);
    if Abort(n) in front {
      AbortedIsDone(t, front, n);
      PhasesAdvance(t, Run(t, front), s, n);
    }
  }

  /**
   * A node has the stream exactly when it has made it and not aborted. One that could not pass the request on
   * keeps it, although it never acknowledges.
   */
  lemma {:induction false} HoldsIff(t: Forest.Topo, steps: seq<Step>, n: Rank)
    requires Proper(t, steps)
    ensures n in Run(t, steps).registered <==> Made(steps, n) && Abort(n) !in steps
  {
    if steps != [] {
      var front, s := steps[..|steps| - 1], steps[|steps| - 1];
      assert steps == front + [s];
      HoldsIff(t, front, n);
      MadeNext(front, s, n);
      RunSound(t, front);
      if Abort(n) in front {
        AbortedIsDone(t, front, n);
      }
      HoldsNext(t, Run(t, front), s, n);
    }
  }

  lemma HoldsNext(t: Forest.Topo, w: Wave, s: Step, n: Rank)
    requires RequestsOnce(t, w) && Enabled(t, w, s)
    ensures n in Next(t, w, s).registered <==> (n in w.registered || Makes(s, n)) && s != Abort(n)
    ensures Makes(s, n) ==> PhaseOf(w, n) == Idle
  {
    RequestBefore(t, w, n);
  }

  // ---------------------------------------------------------------- what becomes of a failure

  /** The parent of c processed c's failure while it was waiting. */
  ghost predicate InTime(t: Forest.Topo, steps: seq<Step>, c: Rank)
    requires Legal(t, steps)
  {
    steps != [] &&
    var front := steps[..|steps| - 1];
    InTime(t, front, c)
    || (steps[|steps| - 1] == Hear(Ack(c, false)) && PhaseOf(Run(t, front), t.parent[c].value).Waiting?)
  }

  /** The parent of c processed c's failure when it was not waiting. */
  ghost predicate Lost(t: Forest.Topo, steps: seq<Step>, c: Rank)
    requires Legal(t, steps)
  {
    steps != [] &&
    var front := steps[..|steps| - 1];
    Lost(t, front, c)
    || (steps[|steps| - 1] == Hear(Ack(c, false)) && !PhaseOf(Run(t, front), t.parent[c].value).Waiting?)
  }

  function Count(b: bool): nat {
    if b then 1 else 0
  }

  /** The failure of a node is on its way, was processed in time or was lost: one of the three, and only if it failed. */
  lemma {:induction false} FailureReported(t: Forest.Topo, steps: seq<Step>, c: Rank)
    requires Proper(t, steps)
    ensures Run(t, steps).acks[Ack(c, false)] + Count(InTime(t, steps, c)) + Count(Lost(t, steps, c))
         == Count(PhaseOf(Run(t, steps), c) == Done(false))
  {
    if steps != [] {
      var front, s := steps[..|steps| - 1], steps[|steps| - 1];
      FailureReported(t, front, c);
      RunSound(t, front);
      FailureMoves(t, Run(t, front), s, c);
    }
  }

  lemma FailureMoves(t: Forest.Topo, w: Wave, s: Step, c: Rank)
    requires RequestsOnce(t, w) && Enabled(t, w, s)
    ensures var w' := Next(t, w, s);
            w'.acks[Ack(c, false)] + Count(s == Hear(Ack(c, false))) == w.acks[Ack(c, false)] + Count(s == Abort(c))
    ensures Count(PhaseOf(Next(t, w, s), c) == Done(false)) == Count(PhaseOf(w, c) == Done(false)) + Count(s == Abort(c))
  {
    PhasesAdvance(t, w, s, c);
  }

  lemma {:induction false} InTimeAfter(t: Forest.Topo, steps: seq<Step>, p: Rank, c: Rank)
    requires Proper(t, steps) && c in Kids(t, p) && InTime(t, steps, c)
    ensures PhaseOf(Run(t, steps), p).Waiting? || PhaseOf(Run(t, steps), p).Done?
  {
    var front, s := steps[..|steps| - 1], steps[|steps| - 1];
    KidLinked(t, p, c);
    if InTime(t, front, c) {
      InTimeAfter(t, front, p, c);
    }
    RunSound(t, front);
    PhasesAdvance(t, Run(t, front), s, p);
  }

  /** A waiting node knows of a failure exactly when one of its children's was processed in time. */
  lemma {:induction false} AbortedWhy(t: Forest.Topo, steps: seq<Step>, p: Rank)
    requires Proper(t, steps) && PhaseOf(Run(t, steps), p).Waiting?
    ensures PhaseOf(Run(t, steps), p).aborted <==> exists c :: c in Kids(t, p) && InTime(t, steps, c)
  {
    if steps != [] {
      var front, s := steps[..|steps| - 1], steps[|steps| - 1];
      var w := Run(t, front);
      RunSound(t, front);
      if PhaseOf(w, p).Waiting? {
        AbortedWhy(t, front, p);
        AbortedNext(t, w, s, p);
      } else {
        BeginsToWait(t, front, s, p);
      }
    }
  }

  lemma AbortedNext(t: Forest.Topo, w: Wave, s: Step, p: Rank)
    requires Forest.Linked(t) && RequestsOnce(t, w) && Enabled(t, w, s)
    requires PhaseOf(w, p).Waiting? && PhaseOf(Next(t, w, s), p).Waiting?
    ensures PhaseOf(Next(t, w, s), p).aborted
       <==> PhaseOf(w, p).aborted || (s.Hear? && !s.a.ok && s.a.sender in Kids(t, p))
  {
    RequestBefore(t, w, p);
    if s.Hear? && s.a.sender in Kids(t, p) {
      KidLinked(t, p, s.a.sender);
    }
  }

  lemma OnlyStartsToWait(t: Forest.Topo, w: Wave, s: Step, p: Rank)
    requires Enabled(t, w, s) && !PhaseOf(w, p).Waiting? && PhaseOf(Next(t, w, s), p).Waiting?
    ensures s == StartWait(p) && PhaseOf(w, p) == Starting && !PhaseOf(Next(t, w, s), p).aborted
  {
  }

  lemma BeginsToWait(t: Forest.Topo, front: seq<Step>, s: Step, p: Rank)
    requires Proper(t, front) && Enabled(t, Run(t, front), s)
    requires !PhaseOf(Run(t, front), p).Waiting? && PhaseOf(Next(t, Run(t, front), s), p).Waiting?
    ensures s == StartWait(p) && !PhaseOf(Next(t, Run(t, front), s), p).aborted
    ensures forall c :: c in Kids(t, p) ==> !InTime(t, front, c)
  {
    OnlyStartsToWait(t, Run(t, front), s, p);
    forall c | c in Kids(t, p) ensures !InTime(t, front, c) {
      if InTime(t, front, c) {
        InTimeAfter(t, front, p, c);
      }
    }
  }

  // ---------------------------------------------------------------- a waiting parent

  /** Neither p sees a failure itself nor another of its children gives up. */
  ghost predicate NoNews(t: Forest.Topo, p: Rank, s: Step) {
    s != ChildFails(p) && !(s.Abort? && s.n in Kids(t, p))
  }

  /** p can finish, whatever everyone does, with no more than it has been told or is being told. */
  ghost predicate CanPass(t: Forest.Topo, steps: seq<Step>, p: Rank) {
    exists more :: Passes(t, steps, more, p)
  }

  ghost predicate Passes(t: Forest.Topo, steps: seq<Step>, more: seq<Step>, p: Rank) {
    && Legal(t, steps + more) && (forall s :: s in more ==> NoNews(t, p, s))
    && PhaseOf(Run(t, steps + more), p).Done?
  }

  /** p waits for a child that has given up, and nothing tells it so. */
  ghost predicate Stranded(t: Forest.Topo, w: Wave, p: Rank, n: Rank) {
    && n in Kids(t, p) && PhaseOf(w, n) == Done(false)
    && PhaseOf(w, p).Waiting? && !PhaseOf(w, p).aborted && p !in w.failing
    && forall c :: c in Kids(t, p) ==> Ack(c, false) !in w.acks
  }

  /** With a child that has given up, the count stays short. */
  lemma NeverEnough(t: Forest.Topo, w: Wave, p: Rank, n: Rank)
    requires AcksOnce(w) && Counted(t, w) && n in Kids(t, p) && PhaseOf(w, n) == Done(false) && PhaseOf(w, p).Waiting?
    ensures PhaseOf(w, p).acked < |Kids(t, p)|
  {
    CountBefore(t, w, p);
    assert n !in w.heard by { assert !Succeeded(w, n); }
    SubsetSize(w.heard * Kids(t, p), Kids(t, p));
  }

  lemma StrandedNext(t: Forest.Topo, w: Wave, s: Step, p: Rank, n: Rank)
    requires Forest.Inv(t) && Sound(t, w) && Stranded(t, w, p, n) && Enabled(t, w, s) && NoNews(t, p, s)
    ensures Stranded(t, Next(t, w, s), p, n)
  {
    NeverEnough(t, w, p, n);
    PhasesAdvance(t, w, s, n);
    StillWaits(t, w, s, p);
    forall c | c in Kids(t, p) ensures Ack(c, false) !in Next(t, w, s).acks {
      FailureMoves(t, w, s, c);
    }
  }

  lemma StillWaits(t: Forest.Topo, w: Wave, s: Step, p: Rank)
    requires Forest.Linked(t) && RequestsOnce(t, w) && Enabled(t, w, s) && NoNews(t, p, s)
    requires PhaseOf(w, p).Waiting? && !PhaseOf(w, p).aborted && p !in w.failing
    requires PhaseOf(w, p).acked < |Kids(t, p)| && forall c :: c in Kids(t, p) ==> Ack(c, false) !in w.acks
    ensures var w' := Next(t, w, s); PhaseOf(w', p).Waiting? && !PhaseOf(w', p).aborted && p !in w'.failing
  {
    RequestBefore(t, w, p);
  }

  lemma {:induction false} StrandedStays(t: Forest.Topo, steps: seq<Step>, more: seq<Step>, p: Rank, n: Rank)
    requires Proper(t, steps) && Stranded(t, Run(t, steps), p, n)
    requires Legal(t, steps + more) && forall s :: s in more ==> NoNews(t, p, s)
    ensures Stranded(t, Run(t, steps + more), p, n)
    decreases |more|
  {
    if more == [] {
      assert steps + more == steps;
    } else {
      var front, s := more[..|more| - 1], more[|more| - 1];
      assert (steps + more)[..|steps + more| - 1] == steps + front;
      StrandedStays(t, steps, front, p, n);
      RunSound(t, steps + front);
      StrandedNext(t, Run(t, steps + front), s, p, n);
    }
  }

  lemma OneMoreStep(t: Forest.Topo, steps: seq<Step>, s: Step)
    requires Legal(t, steps) && Enabled(t, Run(t, steps), s)
    ensures Legal(t, steps + [s]) && Run(t, steps + [s]) == Next(t, Run(t, steps), s)
  {
    assert (steps + [s])[..|steps|] == steps;
  }

  /** A waiting node that knows of a failure, or is about to be told, drops the stream and tells its own parent. */
  lemma GivesUp(t: Forest.Topo, steps: seq<Step>, p: Rank, n: Rank) returns (more: seq<Step>)
    requires Proper(t, steps) && !Stranded(t, Run(t, steps), p, n)
    requires n in Kids(t, p) && PhaseOf(Run(t, steps), n) == Done(false) && PhaseOf(Run(t, steps), p).Waiting?
    ensures |more| <= 2 && Passes(t, steps, more, p)
    ensures var w := Run(t, steps + more);
            PhaseOf(w, p) == Done(false) && p !in w.registered && Ack(p, false) in w.acks
  {
    var w := Run(t, steps);
    RunSound(t, steps);
    NeverEnough(t, w, p, n);
    NotOwnParent(t, p);
    if PhaseOf(w, p).aborted || p in w.failing {
      Aborts(t, steps, p);
      more := [Abort(p)];
    } else {
      var c :| c in Kids(t, p) && Ack(c, false) in w.acks;
      KidLinked(t, p, c);
      HearsAndAborts(t, steps, p, c);
      more := [Hear(Ack(c, false)), Abort(p)];
    }
  }

  lemma HearsAndAborts(t: Forest.Topo, steps: seq<Step>, p: Rank, c: Rank)
    requires Legal(t, steps) && c in t.parent && t.parent[c] == Some(p) && Ack(c, false) in Run(t, steps).acks
    requires PhaseOf(Run(t, steps), p).Waiting? && PhaseOf(Run(t, steps), p).acked < |Kids(t, p)|
    ensures var whole := steps + [Hear(Ack(c, false)), Abort(p)];
      && Legal(t, whole) && PhaseOf(Run(t, whole), p) == Done(false)
      && p !in Run(t, whole).registered && Ack(p, false) in Run(t, whole).acks
  {
    HearsOfFailure(t, Run(t, steps), p, c);
    OneMoreStep(t, steps, Hear(Ack(c, false)));
    Aborts(t, steps + [Hear(Ack(c, false))], p);
    OneByOne(steps, Hear(Ack(c, false)), Abort(p));
  }

  lemma HearsOfFailure(t: Forest.Topo, w: Wave, p: Rank, c: Rank)
    requires c in t.parent && t.parent[c] == Some(p) && Ack(c, false) in w.acks
    requires PhaseOf(w, p).Waiting? && PhaseOf(w, p).acked < |Kids(t, p)|
    ensures Enabled(t, w, Hear(Ack(c, false))) && Enabled(t, Next(t, w, Hear(Ack(c, false))), Abort(p))
  {
  }

  lemma OneByOne<T>(xs: seq<T>, a: T, b: T)
    ensures xs + [a, b] == xs + [a] + [b]
  {
  }

  lemma Aborts(t: Forest.Topo, steps: seq<Step>, p: Rank)
    requires Legal(t, steps) && Enabled(t, Run(t, steps), Abort(p))
    ensures Legal(t, steps + [Abort(p)])
    ensures var w := Run(t, steps + [Abort(p)]);
            PhaseOf(w, p) == Done(false) && p !in w.registered && Ack(p, false) in w.acks
  {
    OneMoreStep(t, steps, Abort(p));
  }

  /**
   * A waiting parent of a node that has given up gets past its wait, without further failures of its own or of
   * other children, exactly when it has seen a child fail or some child's failure was not lost before the wait.
   */
  lemma ParentPassesIff(t: Forest.Topo, steps: seq<Step>, p: Rank, n: Rank)
    requires Proper(t, steps) && n in Kids(t, p)
    requires PhaseOf(Run(t, steps), n) == Done(false) && PhaseOf(Run(t, steps), p).Waiting?
    ensures CanPass(t, steps, p) <==>
            p in Run(t, steps).failing
            || exists c :: c in Kids(t, p) && PhaseOf(Run(t, steps), c) == Done(false) && !Lost(t, steps, c)
  {
    StrandedWhy(t, steps, p, n);
    if Stranded(t, Run(t, steps), p, n) {
      forall more ensures !Passes(t, steps, more, p) {
        if Passes(t, steps, more, p) {
          StrandedStays(t, steps, more, p, n);
        }
      }
    } else {
      var more := GivesUp(t, steps, p, n);
    }
  }

  lemma StrandedWhy(t: Forest.Topo, steps: seq<Step>, p: Rank, n: Rank)
    requires Proper(t, steps) && n in Kids(t, p)
    requires PhaseOf(Run(t, steps), n) == Done(false) && PhaseOf(Run(t, steps), p).Waiting?
    ensures Stranded(t, Run(t, steps), p, n) <==>
            p !in Run(t, steps).failing
            && forall c :: c in Kids(t, p) && PhaseOf(Run(t, steps), c) == Done(false) ==> Lost(t, steps, c)
  {
    AbortedWhy(t, steps, p);
    forall c | c in Kids(t, p)
      ensures (Ack(c, false) in Run(t, steps).acks || InTime(t, steps, c))
         <==> PhaseOf(Run(t, steps), c) == Done(false) && !Lost(t, steps, c)
    {
      FailureReported(t, steps, c);
    }
  }

  /** A node whose children all told it in time, or are still telling it, gets past its wait. */
  lemma NothingLostPasses(t: Forest.Topo, steps: seq<Step>, p: Rank, n: Rank)
    requires Proper(t, steps) && n in Kids(t, p)
    requires PhaseOf(Run(t, steps), n) == Done(false) && PhaseOf(Run(t, steps), p).Waiting? && !Lost(t, steps, n)
    ensures CanPass(t, steps, p)
  {
    ParentPassesIff(t, steps, p, n);
  }

  // ---------------------------------------------------------------- a lost failure

  /** 2 under 1 under the root 0. */
  function Chain(name: Forest.Name): Forest.Topo {
    var top := Forest.Topo(Some(0), map[0 := name], map[0 := None], map[0 := {}], {}, {});
    Forest.AddNode(Forest.AddNode(top, 1, name, 0, false), 2, name, 1, false)
  }

  lemma ChainIs(name: Forest.Name)
    ensures var t := Chain(name);
            && Forest.Inv(t) && t.root == Some(0) && t.backends == {}
            && t.parent == map[0 := None, 1 := Some(0), 2 := Some(1)] && t.kids == map[0 := {1}, 1 := {2}, 2 := {}]
  {
    var top := Forest.Topo(Some(0), map[0 := name], map[0 := None], map[0 := {}], {}, {});
    Forest.LoneRoot(top);
    Forest.AddKeepsInv(top, 1, name, 0, false);
    var two := Forest.AddNode(top, 1, name, 0, false);
    assert top.kids[0] + {1} == {1};
    assert two.kids == map[0 := {1}, 1 := {}];
    Forest.AddKeepsInv(two, 2, name, 1, false);
    assert two.kids[1] + {2} == {2};
  }

  /** 1 gives up while 0 has forwarded the request but not begun to wait. */
  function EarlyFailure(): seq<Step> {
    [] + [Receive(0)] + [Receive(1)] + [StartWait(1)] + [ChildFails(1)] + [Abort(1)] + [Hear(Ack(1, false))] + [StartWait(0)]
  }

  lemma Extends(t: Forest.Topo, steps: seq<Step>, s: Step, before: Wave, after: Wave)
    requires Legal(t, steps) && Run(t, steps) == before && Enabled(t, before, s) && Next(t, before, s) == after
    ensures Legal(t, steps + [s]) && Run(t, steps + [s]) == after
  {
    OneMoreStep(t, steps, s);
  }

  /** The states of that run, from step to step. */
  lemma RootBegins(t: Forest.Topo)
    requires t.root == Some(0) && t.backends == {}
    requires t.parent == map[0 := None, 1 := Some(0), 2 := Some(1)] && t.kids == map[0 := {1}, 1 := {2}, 2 := {}]
    ensures Enabled(t, Start(t), Receive(0))
    ensures Next(t, Start(t), Receive(0)) == Wave({0}, multiset{1}, map[0 := Starting], multiset{}, {}, {})
  {
    assert Kids(t, 0) == {1};
  }

  lemma ChildBegins(t: Forest.Topo, w: Wave)
    requires t.backends == {}
    requires t.parent == map[0 := None, 1 := Some(0), 2 := Some(1)] && t.kids == map[0 := {1}, 1 := {2}, 2 := {}]
    requires w == Wave({0}, multiset{1}, map[0 := Starting], multiset{}, {}, {})
    ensures Enabled(t, w, Receive(1))
    ensures Next(t, w, Receive(1)) == Wave({0, 1}, multiset{2}, map[0 := Starting, 1 := Starting], multiset{}, {}, {})
  {
    assert Kids(t, 1) == {2};
  }

  lemma ChildAborts(t: Forest.Topo, w: Wave)
    requires t.kids == map[0 := {1}, 1 := {2}, 2 := {}]
    requires w == Wave({0, 1}, multiset{2}, map[0 := Starting, 1 := Waiting(0, false)], multiset{}, {1}, {})
    ensures Enabled(t, w, Abort(1))
    ensures Next(t, w, Abort(1))
         == Wave({0}, multiset{2}, map[0 := Starting, 1 := Done(false)], multiset{Ack(1, false)}, {1}, {})
  {
    assert Kids(t, 1) == {2};
    assert {0, 1} - {1} == {0};
  }

  lemma RootHears(t: Forest.Topo, w: Wave)
    requires t.parent == map[0 := None, 1 := Some(0), 2 := Some(1)]
    requires w == Wave({0}, multiset{2}, map[0 := Starting, 1 := Done(false)], multiset{Ack(1, false)}, {1}, {})
    ensures Enabled(t, w, Hear(Ack(1, false)))
    ensures Next(t, w, Hear(Ack(1, false)))
         == Wave({0}, multiset{2}, map[0 := Starting, 1 := Done(false)], multiset{}, {1}, {})
  {
  }

  lemma BeginsEarly(t: Forest.Topo) returns (w: Wave)
    requires t.root == Some(0) && t.backends == {}
    requires t.parent == map[0 := None, 1 := Some(0), 2 := Some(1)] && t.kids == map[0 := {1}, 1 := {2}, 2 := {}]
    ensures w == Wave({0, 1}, multiset{2}, map[0 := Starting, 1 := Waiting(0, false)], multiset{}, {}, {})
    ensures var steps := [] + [Receive(0)] + [Receive(1)] + [StartWait(1)];
            Legal(t, steps) && Run(t, steps) == w
  {
    RootBegins(t);
    var w0 := Start(t);
    var w1 := Next(t, w0, Receive(0));
    ChildBegins(t, w1);
    var w2 := Next(t, w1, Receive(1));
    w := Next(t, w2, StartWait(1));
    Extends(t, [], Receive(0), w0, w1);
    Extends(t, [] + [Receive(0)], Receive(1), w1, w2);
    Extends(t, [] + [Receive(0)] + [Receive(1)], StartWait(1), w2, w);
  }

  lemma FailsEarly(t: Forest.Topo, steps: seq<Step>, w: Wave)
    requires t.parent == map[0 := None, 1 := Some(0), 2 := Some(1)] && t.kids == map[0 := {1}, 1 := {2}, 2 := {}]
    requires w == Wave({0, 1}, multiset{2}, map[0 := Starting, 1 := Waiting(0, false)], multiset{}, {}, {})
    requires Legal(t, steps) && Run(t, steps) == w
    ensures var all := steps + [ChildFails(1)] + [Abort(1)] + [Hear(Ack(1, false))];
      && Legal(t, all) && Lost(t, all, 1)
      && Run(t, all) == Wave({0}, multiset{2}, map[0 := Starting, 1 := Done(false)], multiset{}, {1}, {})
  {
    var w1 := Next(t, w, ChildFails(1));
    ChildAborts(t, w1);
    var w2 := Next(t, w1, Abort(1));
    RootHears(t, w2);
    var w3 := Next(t, w2, Hear(Ack(1, false)));
    Extends(t, steps, ChildFails(1), w, w1);
    Extends(t, steps + [ChildFails(1)], Abort(1), w1, w2);
    var front := steps + [ChildFails(1)] + [Abort(1)];
    Extends(t, front, Hear(Ack(1, false)), w2, w3);
    assert (front + [Hear(Ack(1, false))])[..|front|] == front;
  }

  /** Then 0 waits for good, unless it sees its own child fail. */
  lemma EarlyFailureIsLost(name: Forest.Name)
    ensures var t := Chain(name);
      && Proper(t, EarlyFailure()) && 1 in Kids(t, 0) && PhaseOf(Run(t, EarlyFailure()), 1) == Done(false)
      && PhaseOf(Run(t, EarlyFailure()), 0).Waiting? && !CanPass(t, EarlyFailure(), 0)
  {
    var t := Chain(name);
    ChainIs(name);
    var w := BeginsEarly(t);
    var begun := [] + [Receive(0)] + [Receive(1)] + [StartWait(1)];
    FailsEarly(t, begun, w);
    WaitsForGood(t, begun + [ChildFails(1)] + [Abort(1)] + [Hear(Ack(1, false))]);
  }

  lemma WaitsForGood(t: Forest.Topo, steps: seq<Step>)
    requires Proper(t, steps) && t.kids == map[0 := {1}, 1 := {2}, 2 := {}] && Lost(t, steps, 1)
    requires Run(t, steps) == Wave({0}, multiset{2}, map[0 := Starting, 1 := Done(false)], multiset{}, {1}, {})
    ensures var whole := steps + [StartWait(0)];
      && Proper(t, whole) && 1 in Kids(t, 0) && PhaseOf(Run(t, whole), 1) == Done(false)
      && PhaseOf(Run(t, whole), 0).Waiting? && !CanPass(t, whole, 0)
  {
    var whole := steps + [StartWait(0)];
    Extends(t, steps, StartWait(0), Run(t, steps), Next(t, Run(t, steps), StartWait(0)));
    assert whole[..|steps|] == steps;
    ParentPassesIff(t, whole, 0, 1);
  }
}
