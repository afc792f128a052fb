/**
 * Creating an internal stream: a request runs down the tree, every node registers the stream and
 * waits until each child has acknowledged, and acknowledgements run back up. Acknowledgements carry
 * no sender, so a waiting node only counts them.
 */
module StreamProtocol {
  import opened Prelude
  import opened Forest
  import opened Trees

  datatype Phase =
    | Idle                                // no request yet
    | Starting                            // registered and forwarded, not waiting yet
    | Waiting(acked: nat, aborted: bool)  // counting acknowledgements
    | Done(ok: bool)                      // acknowledged to the parent
    | Stuck                               // gave up on the request without acknowledging

  datatype Ack = Ack(sender: Rank, ok: bool)

  /**
   * A state of the wave. `requests` and `acks` are in flight; `failing` are the nodes that have seen a
   * child fail. `heard` is history: whose success acknowledgements have been counted.
   */
  datatype Wave = Wave(registered: set<Rank>, requests: multiset<Rank>, phases: map<Rank, Phase>,
                       acks: multiset<Ack>, failing: set<Rank>, heard: set<Rank>)

  function PhaseOf(w: Wave, n: Rank): Phase {
    if n in w.phases then w.phases[n] else Idle
  }

  function Kids(t: Topo, n: Rank): set<Rank> {
    if n in t.kids then t.kids[n] else {}
  }

  datatype Step =
    | Receive(n: Rank)                      // take the request, register, forward; a back end acknowledges
    | Refuse(n: Rank)                       // the request cannot be unpacked or names an impossible filter
    | Break(n: Rank, sent: set<Rank>)       // registered, but forwarding fails part way
    | StartWait(n: Rank)
    | Hear(a: Ack)                          // the parent of a.sender processes the acknowledgement
    | ChildFails(n: Rank)
    | Succeed(n: Rank)
    | Abort(n: Rank)

  ghost predicate Enabled(t: Topo, w: Wave, s: Step) {
    match s
    case Receive(n) => n in w.requests && n in t.parent
    case Refuse(n) => n in w.requests && n in t.parent
    case Break(n, sent) => n in w.requests && n in t.parent && n !in t.backends && sent <= Kids(t, n)
    case StartWait(n) => PhaseOf(w, n) == Starting
    case Hear(a) => a in w.acks && a.sender in t.parent && t.parent[a.sender].Some?
                    && (a.ok ==> var p := PhaseOf(w, t.parent[a.sender].value); p.Waiting? || p.Done?)
    case ChildFails(n) => true
    case Succeed(n) => var p := PhaseOf(w, n); p.Waiting? && p.acked >= |Kids(t, n)|
    case Abort(n) => var p := PhaseOf(w, n); p.Waiting? && p.acked < |Kids(t, n)| && (p.aborted || n in w.failing)
  }

  /** What the parent of an acknowledging node makes of it: a failure before the wait is lost. */
  function Heard(p: Phase, ok: bool): Phase {
    if !p.Waiting? then p
    else if ok then p.(acked := p.acked + 1)
    else p.(aborted := true)
  }

  ghost function Next(t: Topo, w: Wave, s: Step): Wave
    requires Enabled(t, w, s)
  {
    match s
    case Receive(n) =>
      if n in t.backends then
        w.(registered := w.registered + {n}, requests := w.requests - multiset{n},
           phases := w.phases[n := Done(true)], acks := w.acks + multiset{Ack(n, true)})
      else
        w.(registered := w.registered + {n}, requests := w.requests - multiset{n} + multiset(Kids(t, n)),
           phases := w.phases[n := Starting])
    case Refuse(n) => w.(requests := w.requests - multiset{n}, phases := w.phases[n := Stuck])
    case Break(n, sent) =>
      w.(registered := w.registered + {n}, requests := w.requests - multiset{n} + multiset(sent),
         phases := w.phases[n := Stuck])
    case StartWait(n) => w.(phases := w.phases[n := Waiting(0, false)])
    case Hear(a) =>
      var p := t.parent[a.sender].value;
      w.(acks := w.acks - multiset{a}, phases := w.phases[p := Heard(PhaseOf(w, p), a.ok)],
         heard := if a.ok then w.heard + {a.sender} else w.heard)
    case ChildFails(n) => w.(failing := w.failing + {n})
    case Succeed(n) => w.(phases := w.phases[n := Done(true)], acks := w.acks + multiset{Ack(n, true)})
    case Abort(n) =>
      w.(registered := w.registered - {n}, phases := w.phases[n := Done(false)],
         acks := w.acks + multiset{Ack(n, false)})
  }

  /** The front end has been asked for the stream. */
  function Start(t: Topo): Wave {
    Wave({}, if t.root.Some? then multiset{t.root.value} else multiset{}, map[], multiset{}, {}, {})
  }

  ghost predicate Legal(t: Topo, steps: seq<Step>)
    decreases |steps|, 0
  {
    steps == []
    || (var front := steps[..|steps| - 1]; Legal(t, front) && Enabled(t, Run(t, front), steps[|steps| - 1]))
  }

  ghost function Run(t: Topo, steps: seq<Step>): Wave
    requires Legal(t, steps)
    decreases |steps|, 1
  {
    if steps == [] then Start(t) else Next(t, Run(t, steps[..|steps| - 1]), steps[|steps| - 1])
  }

  // ---------------------------------------------------------------- the invariant

  ghost predicate Succeeded(w: Wave, n: Rank) {
    PhaseOf(w, n) == Done(true)
  }

  /** At most one request is under way to a node, an idle one, and a node begins only after its parent. */
  ghost predicate RequestsOnce(t: Topo, w: Wave) {
    && (forall n {:trigger w.requests[n]} :: w.requests[n] <= if PhaseOf(w, n) == Idle && AfterParent(t, w, n) then 1 else 0)
    && (forall n {:trigger PhaseOf(w, n)} :: PhaseOf(w, n) != Idle ==> AfterParent(t, w, n))
  }

  ghost predicate AfterParent(t: Topo, w: Wave, n: Rank) {
    n in t.parent && t.parent[n].Some? ==> PhaseOf(w, t.parent[n].value) != Idle
  }

  /** A success is acknowledged at most once, by a node that has succeeded. */
  ghost predicate AcksOnce(w: Wave) {
    && (forall n {:trigger w.acks[Ack(n, true)]} ::
          w.acks[Ack(n, true)] <= if Succeeded(w, n) && n !in w.heard then 1 else 0)
    && (forall n :: n in w.heard ==> Succeeded(w, n))
  }

  /** The count of a waiting node is the number of its children heard from. */
  ghost predicate Counted(t: Topo, w: Wave) {
    && (forall n {:trigger PhaseOf(w, n)} :: PhaseOf(w, n).Waiting? ==> PhaseOf(w, n).acked == |w.heard * Kids(t, n)|)
    && (forall n, c :: c in w.heard && c in Kids(t, n) ==> PhaseOf(w, n).Waiting? || PhaseOf(w, n).Done?)
  }

  /** A node under way or successful has the stream. */
  ghost predicate Holds(w: Wave, n: Rank) {
    Succeeded(w, n) || PhaseOf(w, n).Starting? || PhaseOf(w, n).Waiting? ==> n in w.registered
  }

  /** A node that has succeeded holds the stream, and so do all its children. */
  ghost predicate SuccessIsDeep(t: Topo, w: Wave) {
    && (forall n {:trigger Holds(w, n)} :: Holds(w, n))
    && (forall n, c {:trigger Succeeded(w, n), Succeeded(w, c)} ::
          Succeeded(w, n) && c in Kids(t, n) ==> Succeeded(w, c))
  }

  ghost predicate Sound(t: Topo, w: Wave) {
    RequestsOnce(t, w) && AcksOnce(w) && Counted(t, w) && SuccessIsDeep(t, w)
  }

  /** A phase only moves forward: nothing returns to idle, and a success is final. */
  lemma PhasesAdvance(t: Topo, w: Wave, s: Step, n: Rank)
    requires Enabled(t, w, s) && RequestsOnce(t, w)
    ensures PhaseOf(w, n) != Idle ==> PhaseOf(Next(t, w, s), n) != Idle
    ensures Succeeded(w, n) ==> Succeeded(Next(t, w, s), n)
    ensures PhaseOf(w, n).Done? ==> PhaseOf(Next(t, w, s), n) == PhaseOf(w, n)
    ensures PhaseOf(w, n).Waiting? ==> PhaseOf(Next(t, w, s), n).Waiting? || PhaseOf(Next(t, w, s), n).Done?
  {
    match s
    case Receive(m) => RequestBefore(t, w, m);
    case Refuse(m) => RequestBefore(t, w, m);
    case Break(m, sent) => RequestBefore(t, w, m);
    case StartWait(m) =>
    case Hear(a) =>
    case ChildFails(m) =>
    case Succeed(m) =>
    case Abort(m) =>
  }

  lemma NotOwnParent(t: Topo, n: Rank)
    requires Inv(t)
    ensures n !in Kids(t, n)
  {
    if n in Kids(t, n) {
      SubtreeSelf(t, n);
      ParentNotBelow(t, n, n);
    }
  }

  lemma StepRequests(t: Topo, w: Wave, s: Step)
    requires Inv(t) && RequestsOnce(t, w) && Enabled(t, w, s)
    ensures RequestsOnce(t, Next(t, w, s))
  {
    var w' := Next(t, w, s);
    forall m ensures PhaseOf(w', m) != Idle ==> AfterParent(t, w', m) {
      BeginsAfterParent(t, w, s, m);
    }
    forall m ensures w'.requests[m] <= if PhaseOf(w', m) == Idle && AfterParent(t, w', m) then 1 else 0 {
      RequestsAt(t, w, s, m);
    }
  }

  lemma BeginsAfterParent(t: Topo, w: Wave, s: Step, m: Rank)
    requires RequestsOnce(t, w) && Enabled(t, w, s)
    ensures PhaseOf(Next(t, w, s), m) != Idle ==> AfterParent(t, Next(t, w, s), m)
  {
    if m in t.parent && t.parent[m].Some? {
      PhasesAdvance(t, w, s, t.parent[m].value);
    }
    RequestBefore(t, w, m);
    assert PhaseOf(w, m) != Idle ==> AfterParent(t, w, m);
  }

  lemma RequestsAt(t: Topo, w: Wave, s: Step, m: Rank)
    requires Inv(t) && RequestsOnce(t, w) && Enabled(t, w, s)
    ensures var w' := Next(t, w, s);
            w'.requests[m] <= if PhaseOf(w', m) == Idle && AfterParent(t, w', m) then 1 else 0
  {
    RequestBefore(t, w, m);
    if AfterParent(t, w, m) {
      StillAfterParent(t, w, s, m);
    }
    RequestsChange(t, w, s, m);
    PhaseChange(t, w, s, m);
    if Forwards(t, s, m) {
      NotOwnParent(t, s.n);
      KidLinked(t, s.n, m);
      NewRequest(t, w, s.n, m);
      RequestBefore(t, w, s.n);
    }
  }

  /** The step passes the request on to m. */
  ghost predicate Forwards(t: Topo, s: Step, m: Rank) {
    (s.Receive? || s.Break?) && m in Kids(t, s.n)
  }

  ghost predicate Takes(s: Step, m: Rank) {
    (s.Receive? || s.Refuse? || s.Break?) && s.n == m
  }

  lemma RequestsChange(t: Topo, w: Wave, s: Step, m: Rank)
    requires Enabled(t, w, s)
    ensures Next(t, w, s).requests[m]
         == w.requests[m] - (if Takes(s, m) then 1 else 0) + RequestsFrom(t, s, m)
    ensures RequestsFrom(t, s, m) > 0 ==> Forwards(t, s, m)
  {
    match s
    case Receive(n) => Exchanged(w.requests, n, if n in t.backends then {} else Kids(t, n), m);
    case Refuse(n) => Exchanged(w.requests, n, {}, m);
    case Break(n, sent) => Exchanged(w.requests, n, sent, m);
    case StartWait(n) =>
    case Hear(a) =>
    case ChildFails(n) =>
    case Succeed(n) =>
    case Abort(n) =>
  }

  /** How many requests to m a step sends. */
  ghost function RequestsFrom(t: Topo, s: Step, m: Rank): nat {
    match s
    case Receive(n) => if n !in t.backends && m in Kids(t, n) then 1 else 0
    case Break(n, sent) => if m in sent && m in Kids(t, n) then 1 else 0
    case _ => 0
  }

  lemma Exchanged(requests: multiset<Rank>, n: Rank, sent: set<Rank>, m: Rank)
    requires n in requests
    ensures (requests - multiset{n} + multiset(sent))[m]
         == requests[m] - (if m == n then 1 else 0) + (if m in sent then 1 else 0)
    ensures requests - multiset{n} + multiset({}) == requests - multiset{n}
  {
  }

  lemma PhaseChange(t: Topo, w: Wave, s: Step, m: Rank)
    requires Enabled(t, w, s)
    ensures !Takes(s, m) && PhaseOf(w, m) == Idle ==> PhaseOf(Next(t, w, s), m) == Idle
    ensures Forwards(t, s, m) ==> PhaseOf(Next(t, w, s), s.n) != Idle
  {
  }

  lemma StillAfterParent(t: Topo, w: Wave, s: Step, m: Rank)
    requires RequestsOnce(t, w) && Enabled(t, w, s) && AfterParent(t, w, m)
    ensures AfterParent(t, Next(t, w, s), m)
  {
    if m in t.parent && t.parent[m].Some? {
      PhasesAdvance(t, w, s, t.parent[m].value);
    }
  }

  lemma RequestBefore(t: Topo, w: Wave, m: Rank)
    requires RequestsOnce(t, w)
    ensures w.requests[m] <= if PhaseOf(w, m) == Idle && AfterParent(t, w, m) then 1 else 0
  {
  }

  /** A child of a node that is just beginning has neither begun nor been asked. */
  lemma NewRequest(t: Topo, w: Wave, n: Rank, m: Rank)
    requires RequestsOnce(t, w) && n in w.requests && m in t.parent && t.parent[m] == Some(n)
    ensures PhaseOf(w, m) == Idle && w.requests[m] == 0
  {
    RequestBefore(t, w, n);
    RequestBefore(t, w, m);
  }

  lemma StepAcks(t: Topo, w: Wave, s: Step)
    requires RequestsOnce(t, w) && AcksOnce(w) && Enabled(t, w, s)
    ensures AcksOnce(Next(t, w, s))
  {
    var w' := Next(t, w, s);
    forall n ensures w'.acks[Ack(n, true)] <= if Succeeded(w', n) && n !in w'.heard then 1 else 0 {
      AcksAt(t, w, s, n);
    }
    forall n | n in w'.heard ensures Succeeded(w', n) {
      HeardSucceeded(t, w, s, n);
    }
  }

  lemma AcksAt(t: Topo, w: Wave, s: Step, n: Rank)
    requires RequestsOnce(t, w) && AcksOnce(w) && Enabled(t, w, s)
    ensures var w' := Next(t, w, s);
            w'.acks[Ack(n, true)] <= if Succeeded(w', n) && n !in w'.heard then 1 else 0
  {
    assert w.acks[Ack(n, true)] <= if Succeeded(w, n) && n !in w.heard then 1 else 0;
    assert n in w.heard ==> Succeeded(w, n);
    RequestBefore(t, w, n);
    PhasesAdvance(t, w, s, n);
  }

  lemma HeardSucceeded(t: Topo, w: Wave, s: Step, n: Rank)
    requires RequestsOnce(t, w) && AcksOnce(w) && Enabled(t, w, s) && n in Next(t, w, s).heard
    ensures Succeeded(Next(t, w, s), n)
  {
    PhasesAdvance(t, w, s, n);
    if s.Hear? && s.a.ok && n == s.a.sender {
      assert w.acks[Ack(n, true)] > 0;
    }
  }

  lemma StepCounted(t: Topo, w: Wave, s: Step)
    requires Inv(t) && RequestsOnce(t, w) && AcksOnce(w) && Counted(t, w) && Enabled(t, w, s)
    ensures Counted(t, Next(t, w, s))
  {
    var w' := Next(t, w, s);
    forall n ensures PhaseOf(w', n).Waiting? ==> PhaseOf(w', n).acked == |w'.heard * Kids(t, n)| {
      CountAt(t, w, s, n);
    }
    forall n, c | c in w'.heard && c in Kids(t, n) ensures PhaseOf(w', n).Waiting? || PhaseOf(w', n).Done? {
      ParentListens(t, w, s, n, c);
    }
  }

  lemma ParentListens(t: Topo, w: Wave, s: Step, n: Rank, c: Rank)
    requires Linked(t) && RequestsOnce(t, w) && Counted(t, w) && Enabled(t, w, s)
    requires c in Next(t, w, s).heard && c in Kids(t, n)
    ensures PhaseOf(Next(t, w, s), n).Waiting? || PhaseOf(Next(t, w, s), n).Done?
  {
    PhasesAdvance(t, w, s, n);
    if c !in w.heard {
      KidLinked(t, n, c);
    }
  }

  lemma CountAt(t: Topo, w: Wave, s: Step, n: Rank)
    requires Inv(t) && AcksOnce(w) && Counted(t, w) && Enabled(t, w, s)
    ensures var p := PhaseOf(Next(t, w, s), n); p.Waiting? ==> p.acked == |Next(t, w, s).heard * Kids(t, n)|
  {
    if s.Hear? && s.a.ok {
      CountHearing(t, w, s.a.sender, n);
    } else {
      CountKept(t, w, s, n);
    }
  }

  lemma CountHearing(t: Topo, w: Wave, c: Rank, n: Rank)
    requires Linked(t) && AcksOnce(w) && Counted(t, w) && Enabled(t, w, Hear(Ack(c, true)))
    ensures var w' := Next(t, w, Hear(Ack(c, true)));
            PhaseOf(w', n).Waiting? ==> PhaseOf(w', n).acked == |w'.heard * Kids(t, n)|
  {
    HearingAdvances(t, w, c, n);
    CountOnSuccess(t, w, c, t.parent[c].value, n);
    if PhaseOf(w, n).Waiting? {
      CountBefore(t, w, n);
    }
  }

  lemma CountBefore(t: Topo, w: Wave, n: Rank)
    requires Counted(t, w) && PhaseOf(w, n).Waiting?
    ensures PhaseOf(w, n).acked == |w.heard * Kids(t, n)|
  {
  }

  lemma HearingAdvances(t: Topo, w: Wave, c: Rank, n: Rank)
    requires Enabled(t, w, Hear(Ack(c, true)))
    ensures w.acks[Ack(c, true)] > 0 && Next(t, w, Hear(Ack(c, true))).heard == w.heard + {c}
    ensures var p, p' := PhaseOf(w, n), PhaseOf(Next(t, w, Hear(Ack(c, true))), n);
            p'.Waiting? ==> p.Waiting? && p'.acked == p.acked + if n == t.parent[c].value then 1 else 0
  {
  }

  lemma CountOnSuccess(t: Topo, w: Wave, c: Rank, p: Rank, n: Rank)
    requires Linked(t) && AcksOnce(w)
    requires w.acks[Ack(c, true)] > 0 && c in t.parent && t.parent[c] == Some(p)
    ensures |(w.heard + {c}) * Kids(t, n)| == |w.heard * Kids(t, n)| + if n == p then 1 else 0
  {
    KidOfOne(t, c, p, n);
    NotHeardYet(w, c);
    HeardMore(w.heard, Kids(t, n), c);
  }

  lemma KidOfOne(t: Topo, c: Rank, p: Rank, n: Rank)
    requires Linked(t) && c in t.parent && t.parent[c] == Some(p)
    ensures c in Kids(t, n) <==> n == p
  {
  }

  lemma NotHeardYet(w: Wave, c: Rank)
    requires AcksOnce(w) && w.acks[Ack(c, true)] > 0
    ensures c !in w.heard
  {
  }

  /** The phase a step other than a success acknowledgement can leave a node waiting in. */
  lemma CountKept(t: Topo, w: Wave, s: Step, n: Rank)
    requires Counted(t, w) && Enabled(t, w, s) && !(s.Hear? && s.a.ok)
    ensures var p := PhaseOf(Next(t, w, s), n); p.Waiting? ==> p.acked == |w.heard * Kids(t, n)|
  {
    assert PhaseOf(w, n).Waiting? ==> PhaseOf(w, n).acked == |w.heard * Kids(t, n)|;
    if s.StartWait? && s.n == n {
      NoneHeard(t, w, n);
    } else {
      StillWaiting(t, w, s, n);
    }
  }

  lemma StillWaiting(t: Topo, w: Wave, s: Step, n: Rank)
    requires Enabled(t, w, s) && !(s.Hear? && s.a.ok) && !(s.StartWait? && s.n == n)
    ensures var p, p' := PhaseOf(w, n), PhaseOf(Next(t, w, s), n); p'.Waiting? ==> p.Waiting? && p.acked == p'.acked
  {
    match s
    case Receive(m) =>
    case Refuse(m) =>
    case Break(m, sent) =>
    case StartWait(m) =>
    case Hear(a) =>
    case ChildFails(m) =>
    case Succeed(m) =>
    case Abort(m) =>
  }

  lemma HeardMore(heard: set<Rank>, kids: set<Rank>, c: Rank)
    requires c !in heard
    ensures |(heard + {c}) * kids| == |heard * kids| + if c in kids then 1 else 0
  {
    if c in kids {
      assert (heard + {c}) * kids == heard * kids + {c};
    } else {
      assert (heard + {c}) * kids == heard * kids;
    }
  }

  lemma NoneHeard(t: Topo, w: Wave, n: Rank)
    requires Counted(t, w) && PhaseOf(w, n) == Starting
    ensures |w.heard * Kids(t, n)| == 0
  {
    assert forall c :: c in w.heard ==> c !in Kids(t, n);
    assert w.heard * Kids(t, n) == {};
  }

  lemma AllHeard(heard: set<Rank>, kids: set<Rank>)
    requires |heard * kids| >= |kids|
    ensures kids <= heard
  {
    var missing := kids - heard;
    assert kids == heard * kids + missing;
    assert |kids| == |heard * kids| + |missing|;
  }

  lemma StepDeep(t: Topo, w: Wave, s: Step)
    requires Inv(t) && Sound(t, w) && Enabled(t, w, s)
    ensures SuccessIsDeep(t, Next(t, w, s))
  {
    var w' := Next(t, w, s);
    forall n, c | Succeeded(w', n) && c in Kids(t, n) ensures Succeeded(w', c) {
      ChildrenSucceeded(t, w, s, n, c);
    }
    forall n ensures Holds(w', n) {
      assert Holds(w, n);
      StillRegistered(t, w, s, n);
    }
  }

  lemma StillRegistered(t: Topo, w: Wave, s: Step, n: Rank)
    requires Holds(w, n) && Enabled(t, w, s)
    ensures Holds(Next(t, w, s), n)
  {
    match s
    case Receive(m) =>
    case Refuse(m) =>
    case Break(m, sent) =>
    case StartWait(m) =>
    case Hear(a) =>
    case ChildFails(m) =>
    case Succeed(m) =>
    case Abort(m) =>
  }

  lemma ChildrenSucceeded(t: Topo, w: Wave, s: Step, n: Rank, c: Rank)
    requires Inv(t) && Sound(t, w) && Enabled(t, w, s)
    requires Succeeded(Next(t, w, s), n) && c in Kids(t, n)
    ensures Succeeded(Next(t, w, s), c)
  {
    PhasesAdvance(t, w, s, c);
    SucceededAlready(t, w, s, n, c);
  }

  lemma ChildOfSuccess(t: Topo, w: Wave, n: Rank, c: Rank)
    requires SuccessIsDeep(t, w) && Succeeded(w, n) && c in Kids(t, n)
    ensures Succeeded(w, c)
  {
  }

  lemma SucceededAlready(t: Topo, w: Wave, s: Step, n: Rank, c: Rank)
    requires BackendsBare(t) && AcksOnce(w) && Counted(t, w) && SuccessIsDeep(t, w) && Enabled(t, w, s)
    requires Succeeded(Next(t, w, s), n) && c in Kids(t, n)
    ensures Succeeded(w, c)
  {
    if Succeeded(w, n) {
      ChildOfSuccess(t, w, n, c);
    } else if s.Succeed? && s.n == n {
      CountBefore(t, w, n);
      AllHeard(w.heard, Kids(t, n));
    }
  }

  lemma StartSound(t: Topo)
    requires Inv(t) && (t.root.Some? ==> t.parent[t.root.value] == None)
    ensures Sound(t, Start(t))
  {
    forall n ensures Start(t).requests[n] <= if AfterParent(t, Start(t), n) then 1 else 0 {
    }
  }

  lemma {:induction false} RunSound(t: Topo, steps: seq<Step>)
    requires Inv(t) && (t.root.Some? ==> t.parent[t.root.value] == None) && Legal(t, steps)
    ensures Sound(t, Run(t, steps))
  {
    if steps == [] {
      StartSound(t);
    } else {
      var front, s := steps[..|steps| - 1], steps[|steps| - 1];
      RunSound(t, front);
      StepRequests(t, Run(t, front), s);
      StepAcks(t, Run(t, front), s);
      StepCounted(t, Run(t, front), s);
      StepDeep(t, Run(t, front), s);
    }
  }

  // ---------------------------------------------------------------- safety

  lemma {:induction false} SuccessDescends(t: Topo, w: Wave, n: Rank, x: Rank, k: nat)
    requires Linked(t) && SuccessIsDeep(t, w) && Succeeded(w, n)
    requires x in t.parent && Climb(t, x, k) == Some(n)
    ensures Succeeded(w, x) && x in w.registered
    decreases k
  {
    assert Holds(w, x);
    if k > 0 {
      var y := ClimbStop(t, x, k - 1);
      ChildOfSuccess(t, w, n, y);
      SuccessDescends(t, w, y, x, k - 1);
    }
  }

  /**
   * However requests, waits, acknowledgements and failures interleave, a node that has succeeded, or
   * whose success is on its way up, has the stream registered throughout its subtree.
   */
  lemma SuccessCoversSubtree(t: Topo, steps: seq<Step>, n: Rank, x: Rank)
    requires Inv(t) && (t.root.Some? ==> t.parent[t.root.value] == None) && Legal(t, steps)
    requires Succeeded(Run(t, steps), n) || Ack(n, true) in Run(t, steps).acks
    requires x in t.parent && InSubtree(t, n, x)
    ensures x in Run(t, steps).registered
  {
    var w := Run(t, steps);
    RunSound(t, steps);
    assert Ack(n, true) in w.acks ==> w.acks[Ack(n, true)] > 0;
    var k: nat :| Climb(t, x, k) == Some(n);
    SuccessDescends(t, w, n, x, k);
  }

  /** If creation succeeds at the front end, every node of the tree has the stream. */
  lemma FrontEndSuccess(t: Topo, steps: seq<Step>, x: Rank)
    requires SingleTree(t) && Legal(t, steps) && Succeeded(Run(t, steps), t.root.value) && x in t.parent
    ensures x in Run(t, steps).registered
  {
    assert InSubtree(t, t.root.value, x);
    SuccessCoversSubtree(t, steps, t.root.value, x);
  }

  // ---------------------------------------------------------------- progress without failures

  ghost predicate Smooth(s: Step) {
    s.Receive? || s.StartWait? || s.Hear? || s.Succeed?
  }

  /** A node that should have begun has been asked to. */
  ghost predicate Asked(t: Topo, w: Wave, n: Rank) {
    && n in t.parent && PhaseOf(w, n) == Idle
    && (if t.parent[n].Some? then PhaseOf(w, t.parent[n].value) != Idle else t.root == Some(n))
    ==> n in w.requests
  }

  predicate Healthy(p: Phase) {
    !p.Stuck? && (p.Done? ==> p.ok)
  }

  /** No node is stuck or has failed, and no success is forgotten. */
  ghost predicate OnTrack(t: Topo, w: Wave) {
    && (forall n {:trigger Asked(t, w, n)} :: Asked(t, w, n))
    && (forall n {:trigger PhaseOf(w, n)} :: Healthy(PhaseOf(w, n)))
    && (forall n {:trigger Ack(n, true)} :: Succeeded(w, n) ==> n in w.heard || Ack(n, true) in w.acks)
    && (forall a :: a in w.acks ==> a.ok)
  }

  lemma AskedNext(t: Topo, w: Wave, s: Step, n: Rank)
    requires Inv(t) && RequestsOnce(t, w) && OnTrack(t, w) && Enabled(t, w, s) && Smooth(s)
    ensures Asked(t, Next(t, w, s), n)
  {
    assert Asked(t, w, n);
    PhasesAdvance(t, w, s, n);
    if n in t.parent && t.parent[n].Some? {
      PhasesAdvance(t, w, s, t.parent[n].value);
    }
    if s.Receive? && s.n in t.backends {
      assert s.n in t.kids ==> t.kids[s.n] == {};
    }
  }

  lemma NoFailureNext(t: Topo, w: Wave, s: Step, n: Rank)
    requires Healthy(PhaseOf(w, n)) && Enabled(t, w, s) && Smooth(s)
    ensures Healthy(PhaseOf(Next(t, w, s), n))
  {
    match s
    case Receive(m) =>
    case StartWait(m) =>
    case Hear(a) =>
    case Succeed(m) =>
    case _ =>
  }

  lemma NotForgotten(t: Topo, w: Wave, s: Step, n: Rank)
    requires Succeeded(w, n) ==> n in w.heard || Ack(n, true) in w.acks
    requires Enabled(t, w, s) && Smooth(s)
    ensures Succeeded(Next(t, w, s), n) ==> n in Next(t, w, s).heard || Ack(n, true) in Next(t, w, s).acks
  {
    match s
    case Receive(m) =>
    case StartWait(m) =>
    case Hear(a) =>
    case Succeed(m) =>
    case _ =>
  }

  lemma StepOnTrack(t: Topo, w: Wave, s: Step)
    requires Inv(t) && RequestsOnce(t, w) && OnTrack(t, w) && Enabled(t, w, s) && Smooth(s)
    ensures OnTrack(t, Next(t, w, s))
  {
    var w' := Next(t, w, s);
    forall n ensures Asked(t, w', n) {
      AskedNext(t, w, s, n);
    }
    forall n ensures Healthy(PhaseOf(w', n)) {
      NoFailureNext(t, w, s, n);
    }
    forall n ensures Succeeded(w', n) ==> n in w'.heard || Ack(n, true) in w'.acks {
      NotForgotten(t, w, s, n);
    }
    AcksStayGood(t, w, s);
  }

  lemma AcksStayGood(t: Topo, w: Wave, s: Step)
    requires (forall a :: a in w.acks ==> a.ok) && Enabled(t, w, s) && Smooth(s)
    ensures forall a :: a in Next(t, w, s).acks ==> a.ok
  {
  }

  lemma {:induction false} RunOnTrack(t: Topo, steps: seq<Step>)
    requires SingleTree(t) && Legal(t, steps) && forall s :: s in steps ==> Smooth(s)
    ensures OnTrack(t, Run(t, steps))
  {
    if steps != [] {
      var front := steps[..|steps| - 1];
      RunOnTrack(t, front);
      RunSound(t, front);
      StepOnTrack(t, Run(t, front), steps[|steps| - 1]);
    }
  }

  /** Nothing is left to do. */
  ghost predicate Quiet(t: Topo, w: Wave) {
    forall s :: Smooth(s) ==> !Enabled(t, w, s)
  }

  lemma NextToBegin(t: Topo, w: Wave, x: Rank)
    requires OnTrack(t, w) && Quiet(t, w) && x in t.parent
    requires if t.parent[x].Some? then PhaseOf(w, t.parent[x].value) != Idle else t.root == Some(x)
    ensures PhaseOf(w, x) != Idle
  {
    assert Asked(t, w, x);
    assert !Enabled(t, w, Receive(x));
  }

  lemma {:induction false} AllBegun(t: Topo, w: Wave, r: Rank, x: Rank, k: nat)
    requires Linked(t) && t.root == Some(r) && r in t.parent && t.parent[r] == None && OnTrack(t, w) && Quiet(t, w)
    requires x in t.parent && Climb(t, x, k) == Some(r)
    ensures PhaseOf(w, x) != Idle
    decreases k
  {
    if k > 0 {
      ParentClimbs(t, x, k);
      AllBegun(t, w, r, t.parent[x].value, k - 1);
    }
    NextToBegin(t, w, x);
  }

  lemma ParentClimbs(t: Topo, x: Rank, k: nat)
    requires Linked(t) && x in t.parent && k > 0 && Climb(t, x, k).Some?
    ensures t.parent[x].Some? && t.parent[x].value in t.parent
    ensures Climb(t, t.parent[x].value, k - 1) == Climb(t, x, k)
  {
  }

  lemma ChildHeard(t: Topo, w: Wave, n: Rank, c: Rank)
    requires Linked(t) && OnTrack(t, w) && Quiet(t, w)
    requires PhaseOf(w, n).Waiting? && c in Kids(t, n) && Succeeded(w, c)
    ensures c in w.heard
  {
    assert !Enabled(t, w, Hear(Ack(c, true)));
    assert c in w.heard || Ack(c, true) in w.acks;
  }

  lemma NodeFinishes(t: Topo, w: Wave, n: Rank)
    requires Counted(t, w) && OnTrack(t, w) && Quiet(t, w) && PhaseOf(w, n) != Idle
    requires PhaseOf(w, n).Waiting? ==> Kids(t, n) <= w.heard
    ensures Succeeded(w, n)
  {
    assert !Enabled(t, w, StartWait(n)) && !Enabled(t, w, Succeed(n));
    assert Kids(t, n) <= w.heard ==> w.heard * Kids(t, n) == Kids(t, n);
  }

  lemma Begun(t: Topo, w: Wave, n: Rank)
    requires SingleTree(t) && OnTrack(t, w) && Quiet(t, w) && n in t.parent
    ensures PhaseOf(w, n) != Idle
  {
    assert InSubtree(t, t.root.value, n);
    var k: nat :| Climb(t, n, k) == Some(t.root.value);
    AllBegun(t, w, t.root.value, n, k);
  }

  lemma {:induction false} NodeSucceeds(t: Topo, w: Wave, tr: Tree)
    requires SingleTree(t) && Counted(t, w) && OnTrack(t, w) && Quiet(t, w) && Represents(t, tr)
    ensures Succeeded(w, tr.rank)
    decreases tr
  {
    var n := tr.rank;
    Begun(t, w, n);
    if PhaseOf(w, n).Waiting? {
      forall c | c in Kids(t, n) ensures c in w.heard {
        var i := KidAt(tr.kids, c);
        KidFacts(t, tr.kids, i);
        NodeSucceeds(t, w, tr.kids[i]);
        ChildHeard(t, w, n, c);
      }
    }
    NodeFinishes(t, w, n);
  }

  /** Without failures, when nothing is left to do, creation has succeeded at the front end. */
  lemma QuietMeansCreated(t: Topo, steps: seq<Step>)
    requires SingleTree(t) && Legal(t, steps) && forall s :: s in steps ==> Smooth(s)
    requires Quiet(t, Run(t, steps))
    ensures Succeeded(Run(t, steps), t.root.value)
  {
    RunSound(t, steps);
    RunOnTrack(t, steps);
    var tr := TreeAt(t, t.root.value, {});
    NodeSucceeds(t, Run(t, steps), tr);
  }

  // ---------------------------------------------------------------- a run without failures is short

  ghost predicate SmoothRun(t: Topo, steps: seq<Step>) {
    Legal(t, steps) && forall s :: s in steps ==> Smooth(s)
  }

  /** Only nodes of the tree take part. */
  ghost predicate TakesPart(t: Topo, w: Wave, n: Rank) {
    PhaseOf(w, n) != Idle ==> n in t.parent
  }

  /** How far a node is: one for each of beginning, waiting, succeeding and being heard. */
  ghost function Began(t: Topo, w: Wave): set<Rank> {
    set n | n in t.parent && PhaseOf(w, n) != Idle
  }

  ghost function Waited(t: Topo, w: Wave): set<Rank> {
    set n | n in t.parent && (PhaseOf(w, n).Waiting? || PhaseOf(w, n).Done?)
  }

  ghost function Finished(t: Topo, w: Wave): set<Rank> {
    set n | n in t.parent && PhaseOf(w, n).Done?
  }

  ghost function HeardFrom(t: Topo, w: Wave): set<Rank> {
    set n | n in t.parent && n in w.heard
  }

  ghost function Progress(t: Topo, w: Wave): nat {
    |Began(t, w)| + |Waited(t, w)| + |Finished(t, w)| + |HeardFrom(t, w)|
  }

  lemma SubsetSize(a: set<Rank>, b: set<Rank>)
    requires a <= b
    ensures |a| <= |b| && (a != b ==> |a| < |b|)
  {
    assert b == a + (b - a);
  }

  lemma TakesPartNext(t: Topo, w: Wave, s: Step, n: Rank)
    requires Linked(t) && TakesPart(t, w, n) && Enabled(t, w, s) && Smooth(s)
    ensures TakesPart(t, Next(t, w, s), n)
  {
  }

  lemma StagesGrow(t: Topo, w: Wave, s: Step)
    requires RequestsOnce(t, w) && Enabled(t, w, s) && Smooth(s)
    ensures var w' := Next(t, w, s);
      && Began(t, w) <= Began(t, w') && Waited(t, w) <= Waited(t, w')
      && Finished(t, w) <= Finished(t, w') && HeardFrom(t, w) <= HeardFrom(t, w')
  {
    forall n ensures PhaseOf(w, n) != Idle ==> PhaseOf(Next(t, w, s), n) != Idle {
      PhasesAdvance(t, w, s, n);
    }
    forall n | PhaseOf(w, n).Waiting? || PhaseOf(w, n).Done?
      ensures PhaseOf(Next(t, w, s), n).Waiting? || PhaseOf(Next(t, w, s), n).Done?
    {
      PhasesAdvance(t, w, s, n);
    }
    forall n | PhaseOf(w, n).Done? ensures PhaseOf(Next(t, w, s), n).Done? {
      PhasesAdvance(t, w, s, n);
    }
  }

  /** The node a step is about gets one stage further. */
  lemma SomeStageGrows(t: Topo, w: Wave, s: Step)
    requires RequestsOnce(t, w) && AcksOnce(w) && Enabled(t, w, s) && Smooth(s)
    requires s.Hear? ==> s.a.ok
    requires !s.Hear? ==> TakesPart(t, w, s.n)
    ensures var w' := Next(t, w, s);
      match s
      case Receive(n) => n in Began(t, w') && n !in Began(t, w)
      case StartWait(n) => n in Waited(t, w') && n !in Waited(t, w)
      case Succeed(n) => n in Finished(t, w') && n !in Finished(t, w)
      case Hear(a) => a.sender in HeardFrom(t, w') && a.sender !in HeardFrom(t, w)
      case _ => true
  {
    match s
    case Receive(n) => RequestBefore(t, w, n);
    case Hear(a) => NotHeardYet(w, a.sender);
    case _ =>
  }

  lemma EachStepCounts(t: Topo, w: Wave, s: Step)
    requires RequestsOnce(t, w) && AcksOnce(w) && Enabled(t, w, s) && Smooth(s)
    requires s.Hear? ==> s.a.ok
    requires !s.Hear? ==> TakesPart(t, w, s.n)
    ensures Progress(t, w) < Progress(t, Next(t, w, s))
  {
    var w' := Next(t, w, s);
    StagesGrow(t, w, s);
    SomeStageGrows(t, w, s);
    SubsetSize(Began(t, w), Began(t, w'));
    SubsetSize(Waited(t, w), Waited(t, w'));
    SubsetSize(Finished(t, w), Finished(t, w'));
    SubsetSize(HeardFrom(t, w), HeardFrom(t, w'));
  }

  lemma {:induction false} StepsCounted(t: Topo, steps: seq<Step>)
    requires SingleTree(t) && SmoothRun(t, steps)
    ensures |steps| <= Progress(t, Run(t, steps))
    ensures forall n :: TakesPart(t, Run(t, steps), n)
  {
    if steps != [] {
      var front, s := steps[..|steps| - 1], steps[|steps| - 1];
      StepsCounted(t, front);
      RunSound(t, front);
      RunOnTrack(t, front);
      OneMoreCounted(t, Run(t, front), s);
    }
  }

  lemma OneMoreCounted(t: Topo, w: Wave, s: Step)
    requires Linked(t) && RequestsOnce(t, w) && AcksOnce(w) && OnTrack(t, w) && Enabled(t, w, s) && Smooth(s)
    requires forall n :: TakesPart(t, w, n)
    ensures Progress(t, w) < Progress(t, Next(t, w, s))
    ensures forall n :: TakesPart(t, Next(t, w, s), n)
  {
    EachStepCounts(t, w, s);
    forall n ensures TakesPart(t, Next(t, w, s), n) {
      TakesPartNext(t, w, s, n);
    }
  }

  /** A run without failures takes at most four steps for each node of the tree. */
  lemma SmoothRunsEnd(t: Topo, steps: seq<Step>)
    requires SingleTree(t) && SmoothRun(t, steps)
    ensures |steps| <= 4 * |t.parent.Keys|
  {
    var w := Run(t, steps);
    StepsCounted(t, steps);
    SubsetSize(Began(t, w), t.parent.Keys);
    SubsetSize(Waited(t, w), t.parent.Keys);
    SubsetSize(Finished(t, w), t.parent.Keys);
    SubsetSize(HeardFrom(t, w), t.parent.Keys);
  }

  /** However far a run without failures has come, it can go on, and where it ends the stream is created. */
  lemma {:induction false} CreationCompletes(t: Topo, steps: seq<Step>) returns (whole: seq<Step>)
    requires SingleTree(t) && SmoothRun(t, steps)
    ensures steps <= whole && SmoothRun(t, whole) && Succeeded(Run(t, whole), t.root.value)
    decreases 4 * |t.parent.Keys| - |steps|
  {
    if Quiet(t, Run(t, steps)) {
      QuietMeansCreated(t, steps);
      whole := steps;
    } else {
      var s :| Smooth(s) && Enabled(t, Run(t, steps), s);
      assert (steps + [s])[..|steps|] == steps;
      SmoothRunsEnd(t, steps + [s]);
      whole := CreationCompletes(t, steps + [s]);
    }
  }
}
