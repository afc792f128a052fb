/**
 * A reducing stream over a whole tree: every node runs the wait-for-all filter and the same
 * reduction, and passes each result to its parent. Back ends send and links deliver in any order.
 */
module EndToEnd {
  import opened Prelude
  import opened Forest
  import opened Trees
  import opened Packets
  import opened WaitForAll
  import opened Waves
  import opened Transposition
  import opened Algebra
  import opened Delivery

  // The fixed surroundings of a run: the tree, the stream's end points and its upstream filter.
  datatype Scene<!P, !M> = Scene(t: Topo, endPoints: set<Rank>, red: Reduction<P, M>)

  /** The end points are leaves of a well-formed topology. */
  ghost predicate ValidPlace<P, M>(sc: Scene<P, M>) {
    && Inv(sc.t)
    && UNKNOWN_RANK !in sc.t.parent
    && (forall e :: e in sc.endPoints ==> e in sc.t.kids && sc.t.kids[e] == {})
  }

  ghost predicate ValidScene<P(!new), M(!new)>(sc: Scene<P, M>) {
    ValidPlace(sc) && Lawful(sc.red)
  }

  /** A node that takes part in the stream without being an end point. */
  ghost predicate Relay<P, M>(sc: Scene<P, M>, n: Rank) {
    n !in sc.endPoints && Wanted(sc.t, sc.endPoints, n)
  }

  /** The stream's peers at n: the children it has end points below. */
  ghost function Peers<P, M>(sc: Scene<P, M>, n: Rank): set<Rank> {
    if n in sc.t.kids then set c | c in sc.t.kids[n] && Wanted(sc.t, sc.endPoints, c) else {}
  }

  ghost function EndsBelow<P, M>(sc: Scene<P, M>, n: Rank): set<Rank> {
    set e | e in sc.endPoints && e in sc.t.parent && InSubtree(sc.t, n, e)
  }

  // ---------------------------------------------------------------- runs of the network

  // Per node, the calls of its synchronization filter so far; per end point, the payloads its tool has sent.
  datatype Net<P> = Net(calls: map<Rank, seq<Call<P>>>, sent: map<Rank, seq<P>>)

  function CallsOf<P>(net: Net<P>, n: Rank): seq<Call<P>> {
    if n in net.calls then net.calls[n] else []
  }

  function SentBy<P>(net: Net<P>, b: Rank): seq<P> {
    if b in net.sent then net.sent[b] else []
  }

  /** What a node's upstream filter makes of what its synchronization filter lets through. */
  ghost function Results<P, M>(red: Reduction<P, M>, waves: seq<seq<Packet<P>>>): seq<P> {
    seq(|waves|, i requires 0 <= i < |waves| => red.combine(Payloads(waves[i])))
  }

  /** Everything n has passed up so far; at the front end, what the tool can receive. */
  ghost function History<P, M>(sc: Scene<P, M>, net: Net<P>, n: Rank): seq<P> {
    Results(sc.red, WavesOf(CallsOf(net, n)))
  }

  /** What n has taken in so far from its child c. */
  ghost function TakenFrom<P>(net: Net<P>, n: Rank, c: Rank): seq<P> {
    Payloads(From(Arrivals(CallsOf(net, n)), c))
  }

  // A tool's packet goes through its own node's filters like any other, with no inlet and no children to wait for.
  datatype Event<P> = Send(b: Rank, p: P, alive: set<Rank>) | Deliver(n: Rank, c: Rank, alive: set<Rank>)

  ghost predicate Enabled<P, M>(sc: Scene<P, M>, net: Net<P>, e: Event<P>) {
    match e
    case Send(b, p, _) => b in sc.endPoints && sc.red.ok(p)
    case Deliver(n, c, alive) =>
      && Relay(sc, n) && c in Peers(sc, n) && Peers(sc, n) <= alive
      && |TakenFrom(net, n, c)| < |History(sc, net, c)|
  }

  ghost function Next<P, M>(sc: Scene<P, M>, net: Net<P>, e: Event<P>): Net<P>
    requires Enabled(sc, net, e)
  {
    match e
    case Send(b, p, alive) =>
      net.(sent := net.sent[b := SentBy(net, b) + [p]],
           calls := net.calls[b := CallsOf(net, b) + [Call([Packet(UNKNOWN_RANK, p)], alive, Some({}))]])
    case Deliver(n, c, alive) =>
      var p := Packet(c, History(sc, net, c)[|TakenFrom(net, n, c)|]);
      net.(calls := net.calls[n := CallsOf(net, n) + [Call([p], alive, Some(Peers(sc, n)))]])
  }

  ghost predicate Legal<P, M>(sc: Scene<P, M>, events: seq<Event<P>>)
    decreases |events|, 0
  {
    events == []
    || (var front := events[..|events| - 1];
        Legal(sc, front) && Enabled(sc, Run(sc, front), events[|events| - 1]))
  }

  ghost function Run<P, M>(sc: Scene<P, M>, events: seq<Event<P>>): Net<P>
    requires Legal(sc, events)
    decreases |events|, 1
  {
    if events == [] then Net(map[], map[])
    else Next(sc, Run(sc, events[..|events| - 1]), events[|events| - 1])
  }

  // ---------------------------------------------------------------- the invariant of every run

  ghost predicate RelaySteady<P, M>(sc: Scene<P, M>, net: Net<P>, n: Rank) {
    Steady(CallsOf(net, n), Peers(sc, n))
  }

  ghost predicate Follows<P, M>(sc: Scene<P, M>, net: Net<P>, n: Rank, c: Rank) {
    TakenFrom(net, n, c) <= History(sc, net, c)
  }

  ghost predicate Sound<P, M>(sc: Scene<P, M>, net: Net<P>) {
    && (forall n :: Relay(sc, n) ==> RelaySteady(sc, net, n))
    && (forall n, c :: Relay(sc, n) && c in Peers(sc, n) ==> Follows(sc, net, n, c))
    && (forall b :: b in sc.endPoints ==> AllOk(sc.red, SentBy(net, b)))
    && (forall b :: b in sc.endPoints ==> Passing(net, b))
  }

  /** Each packet of an end point's tool has come out of its synchronization filter alone, in order. */
  ghost predicate Passing<P>(net: Net<P>, b: Rank) {
    OneByOne(WavesOf(CallsOf(net, b)), SentBy(net, b))
  }

  ghost predicate OneByOne<P>(waves: seq<seq<Packet<P>>>, sent: seq<P>) {
    |waves| == |sent| && forall i :: 0 <= i < |sent| ==> waves[i] == [Packet(UNKNOWN_RANK, sent[i])]
  }

  lemma {:induction false} RelayHasPeers<P, M>(sc: Scene<P, M>, n: Rank)
    requires Linked(sc.t) && Relay(sc, n)
    ensures Peers(sc, n) != {}
  {
    var e :| e in sc.endPoints && e in sc.t.parent && InSubtree(sc.t, n, e);
    var c := TowardsEnd(sc, n, e);
  }

  /** The child of n on the way to an end point below it. */
  lemma TowardsEnd<P, M>(sc: Scene<P, M>, n: Rank, e: Rank) returns (c: Rank)
    requires Linked(sc.t) && n != e && e in sc.endPoints && e in sc.t.parent && InSubtree(sc.t, n, e)
    ensures c in Peers(sc, n) && InSubtree(sc.t, c, e)
  {
    var k: nat :| Climb(sc.t, e, k) == Some(n);
    c := ClimbStop(sc.t, e, k - 1);
    assert InSubtree(sc.t, c, e);
  }

  lemma ResultsGrow<P, M>(red: Reduction<P, M>, waves: seq<seq<Packet<P>>>, out: seq<Packet<P>>)
    ensures Results(red, waves) <= Results(red, waves + [out])
  {
  }

  lemma HistoryGrows<P, M>(sc: Scene<P, M>, net: Net<P>, e: Event<P>, n: Rank)
    requires Enabled(sc, net, e)
    ensures History(sc, net, n) <= History(sc, Next(sc, net, e), n)
  {
    var calls, calls' := CallsOf(net, n), CallsOf(Next(sc, net, e), n);
    if calls' != calls {
      assert calls' == calls + [calls'[|calls|]];
      RunSnoc(calls, calls'[|calls|]);
      ResultsGrow(sc.red, WavesOf(calls), Step(After(calls), calls'[|calls|]).1);
    }
  }

  /** A tool's packet comes straight out of its node's synchronization filter. */
  lemma PassingNext<P, M>(sc: Scene<P, M>, net: Net<P>, e: Event<P>, b: Rank)
    requires Enabled(sc, net, e) && b in sc.endPoints && Passing(net, b)
    ensures Passing(Next(sc, net, e), b)
  {
    var calls, sent := CallsOf(net, b), SentBy(net, b);
    if e.Send? && e.b == b {
      OneMorePasses(calls, e.p, e.alive);
      OneMore(WavesOf(calls), sent, e.p);
      AfterSend(sc, net, b, e.p, e.alive);
    } else {
      NoSend(sc, net, e, b);
    }
  }

  lemma OneMore<P>(waves: seq<seq<Packet<P>>>, sent: seq<P>, p: P)
    requires OneByOne(waves, sent)
    ensures OneByOne(waves + [[Packet(UNKNOWN_RANK, p)]], sent + [p])
  {
  }

  lemma AfterSend<P, M>(sc: Scene<P, M>, net: Net<P>, b: Rank, p: P, alive: set<Rank>)
    requires Enabled(sc, net, Send(b, p, alive))
    ensures var net' := Next(sc, net, Send(b, p, alive));
      && SentBy(net', b) == SentBy(net, b) + [p]
      && CallsOf(net', b) == CallsOf(net, b) + [Call([Packet(UNKNOWN_RANK, p)], alive, Some({}))]
  {
  }

  lemma NoSend<P, M>(sc: Scene<P, M>, net: Net<P>, e: Event<P>, b: Rank)
    requires Enabled(sc, net, e) && b in sc.endPoints && !(e.Send? && e.b == b)
    ensures SentBy(Next(sc, net, e), b) == SentBy(net, b) && CallsOf(Next(sc, net, e), b) == CallsOf(net, b)
  {
  }

  lemma OneMorePasses<P>(calls: seq<Call<P>>, p: P, alive: set<Rank>)
    ensures WavesOf(calls + [Call([Packet(UNKNOWN_RANK, p)], alive, Some({}))])
         == WavesOf(calls) + [[Packet(UNKNOWN_RANK, p)]]
  {
    var c := Call([Packet(UNKNOWN_RANK, p)], alive, Some({}));
    RunSnoc(calls, c);
    assert Step(After(calls), c).1 == [Packet(UNKNOWN_RANK, p)];
  }

  lemma {:induction false} EmptySound<P, M>(sc: Scene<P, M>)
    requires Linked(sc.t) && UNKNOWN_RANK !in sc.t.parent
    ensures Sound(sc, Net(map[], map[]))
  {
    forall n | Relay(sc, n) ensures RelaySteady(sc, Net(map[], map[]), n) {
      RelayHasPeers(sc, n);
    }
  }

  lemma DeliverSteady<P, M>(sc: Scene<P, M>, net: Net<P>, e: Event<P>)
    requires e.Deliver? && Enabled(sc, net, e) && RelaySteady(sc, net, e.n)
    ensures RelaySteady(sc, Next(sc, net, e), e.n)
  {
  }

  lemma PayloadsSum<P>(a: seq<Packet<P>>, b: seq<Packet<P>>)
    ensures Payloads(a + b) == Payloads(a) + Payloads(b)
  {
  }

  lemma TakenSnoc<P>(arrivals: seq<Packet<P>>, p: Packet<P>, c: Rank)
    ensures Payloads(From(arrivals + [p], c)) == Payloads(From(arrivals, c)) + if p.inlet == c then [p.payload] else []
  {
    FromSnoc(arrivals, p, c);
    PayloadsSum(From(arrivals, c), if p.inlet == c then [p] else []);
  }

  lemma PrefixGrows<T>(a: seq<T>, h: seq<T>)
    requires a <= h && |a| < |h|
    ensures a + [h[|a|]] <= h
  {
  }

  lemma DeliverArrivals<P, M>(sc: Scene<P, M>, net: Net<P>, e: Event<P>)
    requires e.Deliver? && Enabled(sc, net, e)
    ensures Arrivals(CallsOf(Next(sc, net, e), e.n))
         == Arrivals(CallsOf(net, e.n)) + [Packet(e.c, History(sc, net, e.c)[|TakenFrom(net, e.n, e.c)|])]
  {
    var calls := CallsOf(net, e.n);
    var calls' := CallsOf(Next(sc, net, e), e.n);
    RunSnoc(calls, calls'[|calls|]);
    assert calls' == calls + [calls'[|calls|]];
  }

  lemma DeliverFollows<P, M>(sc: Scene<P, M>, net: Net<P>, e: Event<P>, c: Rank)
    requires e.Deliver? && Enabled(sc, net, e) && Follows(sc, net, e.n, c)
    ensures TakenFrom(Next(sc, net, e), e.n, c) <= History(sc, net, c)
  {
    var taken, h := TakenFrom(net, e.n, e.c), History(sc, net, e.c);
    DeliverArrivals(sc, net, e);
    TakenSnoc(Arrivals(CallsOf(net, e.n)), Packet(e.c, h[|taken|]), c);
    if c == e.c {
      PrefixGrows(taken, h);
    } else {
      assert TakenFrom(net, e.n, c) + [] == TakenFrom(net, e.n, c);
    }
  }

  lemma SteadyNext<P, M>(sc: Scene<P, M>, net: Net<P>, e: Event<P>, n: Rank)
    requires Enabled(sc, net, e) && n !in sc.endPoints && RelaySteady(sc, net, n)
    ensures RelaySteady(sc, Next(sc, net, e), n)
  {
    if e.Deliver? && e.n == n {
      DeliverSteady(sc, net, e);
    }
  }

  lemma FollowsNext<P, M>(sc: Scene<P, M>, net: Net<P>, e: Event<P>, n: Rank, c: Rank)
    requires Enabled(sc, net, e) && n !in sc.endPoints && Follows(sc, net, n, c)
    ensures Follows(sc, Next(sc, net, e), n, c)
  {
    HistoryGrows(sc, net, e, c);
    if e.Deliver? && e.n == n {
      DeliverFollows(sc, net, e, c);
    }
  }

  lemma SentOkNext<P, M>(sc: Scene<P, M>, net: Net<P>, e: Event<P>, b: Rank)
    requires Enabled(sc, net, e) && AllOk(sc.red, SentBy(net, b))
    ensures AllOk(sc.red, SentBy(Next(sc, net, e), b))
  {
  }

  lemma NextSound<P, M>(sc: Scene<P, M>, net: Net<P>, e: Event<P>)
    requires Sound(sc, net) && Enabled(sc, net, e)
    ensures Sound(sc, Next(sc, net, e))
  {
    var net' := Next(sc, net, e);
    forall n | Relay(sc, n) ensures RelaySteady(sc, net', n) {
      SteadyNext(sc, net, e, n);
    }
    forall n, c | Relay(sc, n) && c in Peers(sc, n) ensures Follows(sc, net', n, c) {
      FollowsNext(sc, net, e, n, c);
    }
    forall b | b in sc.endPoints ensures AllOk(sc.red, SentBy(net', b)) && Passing(net', b) {
      SentOkNext(sc, net, e, b);
      PassingNext(sc, net, e, b);
    }
  }

  lemma {:induction false} RunSound<P, M>(sc: Scene<P, M>, events: seq<Event<P>>)
    requires Linked(sc.t) && UNKNOWN_RANK !in sc.t.parent && Legal(sc, events)
    ensures Sound(sc, Run(sc, events))
  {
    if events == [] {
      EmptySound(sc);
    } else {
      var front := events[..|events| - 1];
      RunSound(sc, front);
      NextSound(sc, Run(sc, front), events[|events| - 1]);
    }
  }

  // ---------------------------------------------------------------- the k-th result

  /** The abstract values of every end point's k-th packet. */
  ghost function Kth<P, M>(sc: Scene<P, M>, net: Net<P>, k: nat): map<Rank, M> {
    map b | b in sc.endPoints && k < |SentBy(net, b)| :: sc.red.value(SentBy(net, b)[k])
  }

  /** n's k-th result exists only if every end point below has sent that far, and is the fold of what they sent. */
  ghost predicate FlatFold<P, M>(sc: Scene<P, M>, net: Net<P>, n: Rank, k: nat)
    requires k < |History(sc, net, n)|
  {
    && EndsBelow(sc, n) != {} && EndsBelow(sc, n) <= Kth(sc, net, k).Keys
    && sc.red.ok(History(sc, net, n)[k])
    && sc.red.value(History(sc, net, n)[k]) == FoldSet(sc.red.op, Kth(sc, net, k), EndsBelow(sc, n))
  }

  lemma LeafAlone<P(!new), M(!new)>(sc: Scene<P, M>, b: Rank)
    requires ValidScene(sc) && b in sc.endPoints
    ensures EndsBelow(sc, b) == {b}
  {
    SubtreeSelf(sc.t, b);
    forall e | e in EndsBelow(sc, b) ensures e == b {
      if e != b {
        var c := TowardsEnd(sc, b, e);
      }
    }
  }

  /** An end point has passed up one result for each packet its tool has sent. */
  lemma EndHistory<P, M>(sc: Scene<P, M>, net: Net<P>, b: Rank)
    requires Passing(net, b)
    ensures |History(sc, net, b)| == |SentBy(net, b)|
    ensures forall i :: 0 <= i < |SentBy(net, b)| ==> History(sc, net, b)[i] == sc.red.combine([SentBy(net, b)[i]])
  {
    forall i | 0 <= i < |SentBy(net, b)| ensures History(sc, net, b)[i] == sc.red.combine([SentBy(net, b)[i]]) {
      assert Payloads([Packet(UNKNOWN_RANK, SentBy(net, b)[i])]) == [SentBy(net, b)[i]];
    }
  }

  lemma EndPointFold<P(!new), M(!new)>(sc: Scene<P, M>, net: Net<P>, b: Rank, k: nat)
    requires ValidScene(sc) && Sound(sc, net) && b in sc.endPoints && k < |History(sc, net, b)|
    ensures FlatFold(sc, net, b, k)
  {
    LeafAlone(sc, b);
    EndHistory(sc, net, b);
    var p := SentBy(net, b)[k];
    assert p in SentBy(net, b) && sc.red.ok(p);
    assert AllOk(sc.red, [p]) && Combines(sc.red, [p]);
    assert Values(sc.red, [p]) == [sc.red.value(p)];
    assert sc.red.value(sc.red.combine([p])) == sc.red.value(p);
  }

  /** End points below any of the listed children. */
  ghost function EndsBelowAll<P, M>(sc: Scene<P, M>, slots: seq<Rank>): set<Rank> {
    if slots == [] then {} else EndsBelowAll(sc, slots[..|slots| - 1]) + EndsBelow(sc, slots[|slots| - 1])
  }

  lemma {:induction false} EndsBelowSome<P, M>(sc: Scene<P, M>, slots: seq<Rank>, e: Rank)
    ensures e in EndsBelowAll(sc, slots) <==> exists i :: 0 <= i < |slots| && e in EndsBelow(sc, slots[i])
  {
    if slots != [] {
      EndsBelowSome(sc, slots[..|slots| - 1], e);
    }
  }

  lemma OneWayDown<P(!new), M(!new)>(sc: Scene<P, M>, n: Rank, a: Rank, b: Rank, e: Rank)
    requires ValidScene(sc) && n in sc.t.kids && a in sc.t.kids[n] && b in sc.t.kids[n]
    requires e in EndsBelow(sc, a) && e in EndsBelow(sc, b)
    ensures a == b
  {
    KidLinked(sc.t, n, a);
    KidLinked(sc.t, n, b);
    EndIsBelow(sc, a, e);
    EndIsBelow(sc, b, e);
    SiblingsApart(sc.t, n, a, b, e);
  }

  lemma EndIsBelow<P, M>(sc: Scene<P, M>, n: Rank, e: Rank)
    requires e in EndsBelow(sc, n)
    ensures e in sc.t.parent && InSubtree(sc.t, n, e)
  {
  }

  lemma SiblingEndsApart<P(!new), M(!new)>(sc: Scene<P, M>, n: Rank, front: seq<Rank>, last: Rank)
    requires ValidScene(sc) && n in sc.t.kids && last in sc.t.kids[n] && last !in front
    requires forall c :: c in front ==> c in sc.t.kids[n]
    ensures EndsBelowAll(sc, front) !! EndsBelow(sc, last)
  {
    forall e | e in EndsBelowAll(sc, front) ensures e !in EndsBelow(sc, last) {
      EndsBelowSome(sc, front, e);
      var i :| 0 <= i < |front| && e in EndsBelow(sc, front[i]);
      if e in EndsBelow(sc, last) {
        OneWayDown(sc, n, front[i], last, e);
      }
    }
  }

  ghost predicate ChildrenFold<P, M>(sc: Scene<P, M>, vals: map<Rank, M>, slots: seq<Rank>, folded: seq<M>) {
    && |folded| == |slots|
    && forall i :: 0 <= i < |slots| ==>
         && EndsBelow(sc, slots[i]) != {} && EndsBelow(sc, slots[i]) <= vals.Keys
         && folded[i] == FoldSet(sc.red.op, vals, EndsBelow(sc, slots[i]))
  }

  /** Folding the children's folds is folding over all end points below them. */
  lemma {:induction false} FoldOfFolds<P(!new), M(!new)>(sc: Scene<P, M>, n: Rank, vals: map<Rank, M>, slots: seq<Rank>, folded: seq<M>)
    requires ValidScene(sc) && n in sc.t.kids && slots != [] && Sorted(slots)
    requires forall c :: c in slots ==> c in sc.t.kids[n]
    requires ChildrenFold(sc, vals, slots, folded)
    ensures EndsBelowAll(sc, slots) != {} && EndsBelowAll(sc, slots) <= vals.Keys
    ensures Fold(sc.red.op, folded) == FoldSet(sc.red.op, vals, EndsBelowAll(sc, slots))
  {
    var front, last := slots[..|slots| - 1], slots[|slots| - 1];
    if front == [] {
      assert EndsBelowAll(sc, front) == {};
      assert EndsBelowAll(sc, slots) == EndsBelow(sc, last);
    } else {
      FoldOfFolds(sc, n, vals, front, folded[..|slots| - 1]);
      SiblingEndsApart(sc, n, front, last);
      FoldSetUnion(sc.red.op, vals, EndsBelowAll(sc, front), EndsBelow(sc, last));
    }
  }

  lemma BelowSomeChild<P, M>(sc: Scene<P, M>, n: Rank, slots: seq<Rank>, e: Rank)
    requires Linked(sc.t) && n !in sc.endPoints && e in EndsBelow(sc, n)
    requires forall c :: c in Peers(sc, n) ==> c in slots
    ensures e in EndsBelowAll(sc, slots)
  {
    var c := TowardsEnd(sc, n, e);
    EndsBelowSome(sc, slots, e);
    assert c in slots;
  }

  lemma BelowThroughChild<P, M>(sc: Scene<P, M>, n: Rank, c: Rank, e: Rank)
    requires Linked(sc.t) && c in Peers(sc, n) && e in EndsBelow(sc, c)
    ensures e in EndsBelow(sc, n)
  {
    SubtreeSelf(sc.t, n);
    SubtreeBelow(sc.t, n, c);
    SubtreeTransitive(sc.t, n, c, e);
  }

  lemma ChildrenCoverEnds<P, M>(sc: Scene<P, M>, n: Rank)
    requires Linked(sc.t) && n !in sc.endPoints
    ensures EndsBelowAll(sc, Ascending(Peers(sc, n))) == EndsBelow(sc, n)
  {
    var slots := Ascending(Peers(sc, n));
    AscendingIsSet(Peers(sc, n));
    forall e | e in EndsBelow(sc, n) ensures e in EndsBelowAll(sc, slots) {
      BelowSomeChild(sc, n, slots, e);
    }
    forall e | e in EndsBelowAll(sc, slots) ensures e in EndsBelow(sc, n) {
      EndsBelowSome(sc, slots, e);
      var i :| 0 <= i < |slots| && e in EndsBelow(sc, slots[i]);
      BelowThroughChild(sc, n, slots[i], e);
    }
  }

  /** The k-th results of the given children. */
  ghost function ChildResults<P, M>(sc: Scene<P, M>, net: Net<P>, slots: seq<Rank>, k: nat): seq<P>
    requires forall c :: c in slots ==> k < |History(sc, net, c)|
  {
    seq(|slots|, i requires 0 <= i < |slots| => History(sc, net, slots[i])[k])
  }

  /** The k-th packet that came from c is c's k-th result. */
  ghost predicate TookKth<P, M>(sc: Scene<P, M>, net: Net<P>, arrivals: seq<Packet<P>>, c: Rank, k: nat) {
    && k < |From(arrivals, c)| && k < |History(sc, net, c)|
    && From(arrivals, c)[k].payload == History(sc, net, c)[k]
  }

  lemma WavePayloads<P, M>(sc: Scene<P, M>, net: Net<P>, arrivals: seq<Packet<P>>, slots: seq<Rank>, k: nat)
    requires forall c {:trigger TookKth(sc, net, arrivals, c, k)} :: c in slots ==> TookKth(sc, net, arrivals, c, k)
    ensures forall c :: c in slots ==> k < |From(arrivals, c)| && k < |History(sc, net, c)|
    ensures Payloads(Wave(slots, arrivals, k)) == ChildResults(sc, net, slots, k)
  {
    forall c | c in slots ensures k < |From(arrivals, c)| && k < |History(sc, net, c)| {
      assert TookKth(sc, net, arrivals, c, k);
    }
    WaveLength(slots, arrivals, k);
    forall j | 0 <= j < |slots| ensures Wave(slots, arrivals, k)[j].payload == History(sc, net, slots[j])[k] {
      WaveAt(slots, arrivals, k, j);
      assert TookKth(sc, net, arrivals, slots[j], k);
    }
  }

  /** A relay's k-th result combines its children's k-th results. */
  lemma RelayCombines<P(!new), M(!new)>(sc: Scene<P, M>, net: Net<P>, n: Rank, k: nat)
    requires ValidScene(sc) && Sound(sc, net) && Relay(sc, n) && k < |History(sc, net, n)|
    ensures forall c :: c in Ascending(Peers(sc, n)) <==> c in Peers(sc, n)
    ensures forall c :: c in Peers(sc, n) ==> k < |History(sc, net, c)|
    ensures History(sc, net, n)[k] == sc.red.combine(ChildResults(sc, net, Ascending(Peers(sc, n)), k))
  {
    var slots, arrivals := Ascending(Peers(sc, n)), Arrivals(CallsOf(net, n));
    assert RelaySteady(sc, net, n);
    Transposes(CallsOf(net, n), Peers(sc, n));
    forall c | c in slots ensures TookKth(sc, net, arrivals, c, k) {
      TakesKth(sc, net, n, c, k);
    }
    WavePayloads(sc, net, arrivals, slots, k);
  }

  lemma TakesKth<P, M>(sc: Scene<P, M>, net: Net<P>, n: Rank, c: Rank, k: nat)
    requires Follows(sc, net, n, c) && k < |TakenFrom(net, n, c)|
    ensures TookKth(sc, net, Arrivals(CallsOf(net, n)), c, k)
  {
    assert TakenFrom(net, n, c)[k] == History(sc, net, c)[k];
  }

  lemma ChildrenAreFolds<P(!new), M(!new)>(sc: Scene<P, M>, net: Net<P>, slots: seq<Rank>, k: nat)
    requires forall c :: c in slots ==> k < |History(sc, net, c)| && FlatFold(sc, net, c, k)
    ensures AllOk(sc.red, ChildResults(sc, net, slots, k))
    ensures ChildrenFold(sc, Kth(sc, net, k), slots, Values(sc.red, ChildResults(sc, net, slots, k)))
  {
    forall i | 0 <= i < |slots| ensures FlatFold(sc, net, slots[i], k) {
      assert slots[i] in slots;
    }
  }

  lemma RelayFold<P(!new), M(!new)>(sc: Scene<P, M>, net: Net<P>, n: Rank, k: nat)
    requires ValidScene(sc) && Sound(sc, net) && Relay(sc, n) && k < |History(sc, net, n)|
    requires forall c :: c in Peers(sc, n) && k < |History(sc, net, c)| ==> FlatFold(sc, net, c, k)
    ensures FlatFold(sc, net, n, k)
  {
    var slots := Ascending(Peers(sc, n));
    RelayCombines(sc, net, n, k);
    RelayHasPeers(sc, n);
    AscendingIsSet(Peers(sc, n));
    ChildrenAreFolds(sc, net, slots, k);
    ChildrenCoverEnds(sc, n);
    CombineFolds(sc, net, n, slots, k);
  }

  lemma CombineFolds<P(!new), M(!new)>(sc: Scene<P, M>, net: Net<P>, n: Rank, slots: seq<Rank>, k: nat)
    requires ValidScene(sc) && n in sc.t.kids && slots != [] && Sorted(slots)
    requires forall c :: c in slots ==> c in sc.t.kids[n] && k < |History(sc, net, c)|
    requires AllOk(sc.red, ChildResults(sc, net, slots, k))
    requires ChildrenFold(sc, Kth(sc, net, k), slots, Values(sc.red, ChildResults(sc, net, slots, k)))
    ensures var result := sc.red.combine(ChildResults(sc, net, slots, k));
            && EndsBelowAll(sc, slots) != {} && EndsBelowAll(sc, slots) <= Kth(sc, net, k).Keys
            && sc.red.ok(result)
            && sc.red.value(result) == FoldSet(sc.red.op, Kth(sc, net, k), EndsBelowAll(sc, slots))
  {
    assert Combines(sc.red, ChildResults(sc, net, slots, k));
    FoldOfFolds(sc, n, Kth(sc, net, k), slots, Values(sc.red, ChildResults(sc, net, slots, k)));
  }

  lemma {:induction false} NodeFold<P(!new), M(!new)>(sc: Scene<P, M>, net: Net<P>, tr: Tree, k: nat)
    requires ValidScene(sc) && Sound(sc, net)
    requires Represents(sc.t, tr) && Wanted(sc.t, sc.endPoints, tr.rank) && k < |History(sc, net, tr.rank)|
    ensures FlatFold(sc, net, tr.rank, k)
    decreases tr
  {
    if tr.rank in sc.endPoints {
      EndPointFold(sc, net, tr.rank, k);
    } else {
      forall c | c in Peers(sc, tr.rank) && k < |History(sc, net, c)| ensures FlatFold(sc, net, c, k) {
        var i := KidAt(tr.kids, c);
        KidFacts(sc.t, tr.kids, i);
        NodeFold(sc, net, tr.kids[i], k);
      }
      RelayFold(sc, net, tr.rank, k);
    }
  }

  /**
   * Whatever the shape of the tree and however sends and deliveries interleave, the k-th result any
   * node passes up stands for the flat fold of the k-th packets of all end points below it.
   */
  lemma ResultIsFlatFold<P(!new), M(!new)>(sc: Scene<P, M>, events: seq<Event<P>>, n: Rank, k: nat)
    requires ValidScene(sc) && Legal(sc, events) && Wanted(sc.t, sc.endPoints, n)
    requires k < |History(sc, Run(sc, events), n)|
    ensures FlatFold(sc, Run(sc, events), n, k)
  {
    RunSound(sc, events);
    var tr := TreeAt(sc.t, n, {});
    NodeFold(sc, Run(sc, events), tr, k);
  }

  // ---------------------------------------------------------------- nothing is held back

  /** Every link has been drained. */
  ghost predicate Drained<P, M>(sc: Scene<P, M>, net: Net<P>) {
    forall n, c :: Relay(sc, n) && c in Peers(sc, n) ==> |TakenFrom(net, n, c)| == |History(sc, net, c)|
  }

  ghost predicate SlowestEnd<P, M>(sc: Scene<P, M>, net: Net<P>, n: Rank, b: Rank) {
    && b in EndsBelow(sc, n) && |SentBy(net, b)| == |History(sc, net, n)|
  }

  lemma SlowestChild<P(!new), M(!new)>(sc: Scene<P, M>, net: Net<P>, n: Rank) returns (c: Rank)
    requires Sound(sc, net) && Drained(sc, net) && Relay(sc, n)
    ensures c in Peers(sc, n) && |History(sc, net, c)| == |History(sc, net, n)|
  {
    assert RelaySteady(sc, net, n);
    Transposes(CallsOf(net, n), Peers(sc, n));
    c :| c in Peers(sc, n) && |From(Arrivals(CallsOf(net, n)), c)| == |WavesOf(CallsOf(net, n))|;
    assert |TakenFrom(net, n, c)| == |History(sc, net, c)|;
  }

  lemma {:induction false} NodeDrained<P(!new), M(!new)>(sc: Scene<P, M>, net: Net<P>, tr: Tree) returns (b: Rank)
    requires ValidScene(sc) && Sound(sc, net) && Drained(sc, net)
    requires Represents(sc.t, tr) && Wanted(sc.t, sc.endPoints, tr.rank)
    ensures SlowestEnd(sc, net, tr.rank, b)
    decreases tr
  {
    if tr.rank in sc.endPoints {
      LeafAlone(sc, tr.rank);
      EndHistory(sc, net, tr.rank);
      b := tr.rank;
    } else {
      var c := SlowestChild(sc, net, tr.rank);
      var i := KidAt(tr.kids, c);
      KidFacts(sc.t, tr.kids, i);
      b := NodeDrained(sc, net, tr.kids[i]);
      BelowThroughChild(sc, tr.rank, c, b);
    }
  }

  /** Once the links are drained, a node has as many results as its slowest end point has sent packets. */
  lemma NothingHeldBack<P(!new), M(!new)>(sc: Scene<P, M>, events: seq<Event<P>>, n: Rank)
    requires ValidScene(sc) && Legal(sc, events) && Wanted(sc.t, sc.endPoints, n)
    requires Drained(sc, Run(sc, events))
    ensures exists b :: SlowestEnd(sc, Run(sc, events), n, b)
    ensures forall b :: b in EndsBelow(sc, n) ==> |History(sc, Run(sc, events), n)| <= |SentBy(Run(sc, events), b)|
  {
    var net := Run(sc, events);
    RunSound(sc, events);
    var tr := TreeAt(sc.t, n, {});
    var slowest := NodeDrained(sc, net, tr);
    var count := |History(sc, net, n)|;
    if count > 0 {
      ResultIsFlatFold(sc, events, n, count - 1);
      forall b | b in EndsBelow(sc, n) ensures count <= |SentBy(net, b)| {
        assert b in Kth(sc, net, count - 1);
      }
    }
  }
}
