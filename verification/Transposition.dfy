/**
 * Over a fixed, non-empty set of children that stay alive, with one packet a call, the wait-for-all
 * filter transposes: its i-th output is the i-th packet of every child, and it never sits on a
 * complete wave.
 */
module Transposition {
  import opened Prelude
  import opened Packets
  import opened WaitForAll
  import opened Waves

  ghost predicate SteadyCall<P>(c: Call<P>, peers: set<Rank>) {
    && |c.inputs| == 1
    && c.inputs[0].inlet in peers
    && peers <= c.alive
    && c.peers == Some(peers)
  }

  /** One packet a call, always from one of the same children, all of them alive throughout. */
  ghost predicate Steady<P>(calls: seq<Call<P>>, peers: set<Rank>) {
    && peers != {}
    && UNKNOWN_RANK !in peers
    && forall c :: c in calls ==> SteadyCall(c, peers)
  }

  /** The packets in the order they came in. */
  function Arrivals<P>(calls: seq<Call<P>>): seq<Packet<P>> {
    if calls == [] then [] else Arrivals(calls[..|calls| - 1]) + calls[|calls| - 1].inputs
  }

  /** The non-empty outputs, call by call. */
  ghost function WavesOf<P>(calls: seq<Call<P>>): seq<seq<Packet<P>>> {
    if calls == [] then []
    else
      var front := calls[..|calls| - 1];
      var out := Step(After(front), calls[|calls| - 1]).1;
      if out == [] then WavesOf(front) else WavesOf(front) + [out]
  }

  /** The i-th packet of every child, children in the given order. */
  function Wave<P>(slots: seq<Rank>, arrivals: seq<Packet<P>>, i: nat): seq<Packet<P>>
    requires forall r :: r in slots ==> i < |From(arrivals, r)|
  {
    if slots == [] then []
    else Wave(slots[..|slots| - 1], arrivals, i) + [From(arrivals, slots[|slots| - 1])[i]]
  }

  ghost predicate AllHave<P>(peers: set<Rank>, arrivals: seq<Packet<P>>, n: nat) {
    forall r :: r in peers ==> n <= |From(arrivals, r)|
  }

  ghost predicate SomeHasJust<P>(peers: set<Rank>, arrivals: seq<Packet<P>>, n: nat) {
    exists r :: r in peers && |From(arrivals, r)| == n
  }

  // ---------------------------------------------------------------- the state between calls

  /** The queues hold what each child has sent beyond its first n packets. */
  ghost predicate Lined<P>(s: State<P>, peers: set<Rank>, arrivals: seq<Packet<P>>, n: nat) {
    && Exact(s)
    && s.queues.Keys <= peers
    && AllHave(peers, arrivals, n)
    && forall r :: r in peers ==> QueueOf(s.queues, r) == From(arrivals, r)[n..]
  }

  lemma FromSnoc<P>(arrivals: seq<Packet<P>>, p: Packet<P>, r: Rank)
    ensures From(arrivals + [p], r) == From(arrivals, r) + if p.inlet == r then [p] else []
  {
    assert (arrivals + [p])[..|arrivals|] == arrivals;
  }

  lemma PlacedOneExact<P>(s: State<P>, p: Packet<P>, alive: set<Rank>)
    requires Exact(s)
    ensures Exact(PlacedOne(s, p, alive))
  {
  }

  lemma DropAppended<T>(a: seq<T>, b: seq<T>, n: nat)
    requires n <= |a|
    ensures (a + b)[n..] == a[n..] + b
  {
  }

  lemma PlacedQueueOf<P>(s: State<P>, arrivals: seq<Packet<P>>, n: nat, p: Packet<P>, alive: set<Rank>, r: Rank)
    requires n <= |From(arrivals, r)| && QueueOf(s.queues, r) == From(arrivals, r)[n..] && p.inlet in alive
    ensures n <= |From(arrivals + [p], r)|
    ensures QueueOf(PlacedOne(s, p, alive).queues, r) == From(arrivals + [p], r)[n..]
  {
    FromSnoc(arrivals, p, r);
    PlacedQueue(s, p, alive, r);
    DropAppended(From(arrivals, r), if p.inlet == r then [p] else [], n);
  }

  lemma PlacedQueue<P>(s: State<P>, p: Packet<P>, alive: set<Rank>, r: Rank)
    requires p.inlet in alive
    ensures QueueOf(PlacedOne(s, p, alive).queues, r) == QueueOf(s.queues, r) + if p.inlet == r then [p] else []
  {
    assert QueueOf(s.queues, r) + [] == QueueOf(s.queues, r);
  }

  lemma PlacedLined<P>(s: State<P>, peers: set<Rank>, arrivals: seq<Packet<P>>, n: nat, p: Packet<P>, alive: set<Rank>)
    requires Lined(s, peers, arrivals, n) && p.inlet in peers && peers <= alive
    ensures Lined(PlacedOne(s, p, alive), peers, arrivals + [p], n)
  {
    PlacedOneExact(s, p, alive);
    forall r | r in peers
      ensures n <= |From(arrivals + [p], r)|
      ensures QueueOf(PlacedOne(s, p, alive).queues, r) == From(arrivals + [p], r)[n..]
    {
      PlacedQueueOf(s, arrivals, n, p, alive, r);
    }
  }

  lemma {:induction false} HeadsAreWave<P>(queues: map<Rank, seq<Packet<P>>>, slots: seq<Rank>,
                                           arrivals: seq<Packet<P>>, n: nat)
    requires forall r :: r in slots ==> n < |From(arrivals, r)| && QueueOf(queues, r) == From(arrivals, r)[n..]
    ensures Heads(queues, slots) == Wave(slots, arrivals, n)
  {
    if slots != [] {
      HeadsAreWave(queues, slots[..|slots| - 1], arrivals, n);
    }
  }

  lemma PoppedLined<P>(s: State<P>, peers: set<Rank>, arrivals: seq<Packet<P>>, n: nat)
    requires Lined(s, peers, arrivals, n) && AllHave(peers, arrivals, n + 1)
    ensures Lined(Popped(s), peers, arrivals, n + 1)
    ensures (forall r :: r in Ascending(peers) <==> r in peers) && s.queues.Keys == peers
    ensures Heads(s.queues, Ascending(s.queues.Keys)) == Wave(Ascending(peers), arrivals, n)
  {
    PoppedExact(s);
    AscendingIsSet(peers);
    forall r | r in peers ensures r in s.queues && Tail(s.queues[r]) == From(arrivals, r)[n + 1..] {
      assert QueueOf(s.queues, r) == From(arrivals, r)[n..];
    }
    HeadsAreWave(s.queues, Ascending(peers), arrivals, n);
  }

  /** Every child ready is the same as a full count of ready children. */
  lemma CompleteIff<P>(s: State<P>, peers: set<Rank>, arrivals: seq<Packet<P>>, n: nat)
    requires Lined(s, peers, arrivals, n)
    ensures WaveComplete(s, peers) <==> AllHave(peers, arrivals, n + 1)
  {
    assert s.ready <= peers;
    assert forall r :: r in peers ==> (r in s.ready <==> n + 1 <= |From(arrivals, r)|) by {
      forall r | r in peers ensures r in s.ready <==> n + 1 <= |From(arrivals, r)| {
        assert QueueOf(s.queues, r) == From(arrivals, r)[n..];
      }
    }
    if AllHave(peers, arrivals, n + 1) {
      assert s.ready == peers;
    } else if WaveComplete(s, peers) {
      SubsetOfSameSize(s.ready, peers);
    }
  }

  lemma SubsetOfSameSize(a: set<Rank>, b: set<Rank>)
    requires a <= b && |a| >= |b|
    ensures a == b
  {
    var rest := b - a;
    assert b == a + rest;
    assert |b| == |a| + |rest|;
  }

  // ---------------------------------------------------------------- one call

  lemma SteadyStep<P>(s: State<P>, c: Call<P>, peers: set<Rank>)
    requires SteadyCall(c, peers) && UNKNOWN_RANK !in peers
    requires Exact(s) && s.queues.Keys <= peers
    ensures Step(s, c) == var filled := PlacedOne(s, c.inputs[0], c.alive);
                          if WaveComplete(filled, peers)
                          then (Popped(filled), Heads(filled.queues, Ascending(filled.queues.Keys)))
                          else (filled, [])
  {
    assert Discarded(s, c.alive).queues == s.queues;
    assert Discarded(s, c.alive).ready == s.ready;
    assert c.inputs[..0] == [];
    assert Placed(s, c.inputs, c.alive) == PlacedOne(Placed(s, c.inputs[..0], c.alive), c.inputs[0], c.alive);
  }

  lemma StepLined<P>(s: State<P>, c: Call<P>, peers: set<Rank>, arrivals: seq<Packet<P>>, n: nat)
    requires SteadyCall(c, peers) && UNKNOWN_RANK !in peers && peers != {}
    requires Lined(s, peers, arrivals, n) && SomeHasJust(peers, arrivals, n)
    ensures var m := if AllHave(peers, arrivals + c.inputs, n + 1) then n + 1 else n;
            Lined(Step(s, c).0, peers, arrivals + c.inputs, m) && SomeHasJust(peers, arrivals + c.inputs, m)
    ensures !AllHave(peers, arrivals + c.inputs, n + 1) ==> Step(s, c).1 == []
    ensures forall r :: r in Ascending(peers) <==> r in peers
    ensures AllHave(peers, arrivals + c.inputs, n + 1) ==>
              Step(s, c).1 == Wave(Ascending(peers), arrivals + c.inputs, n)
  {
    var p := c.inputs[0];
    assert c.inputs == [p];
    var now := arrivals + c.inputs;
    var filled := PlacedOne(s, p, c.alive);
    AscendingIsSet(peers);
    SteadyStep(s, c, peers);
    PlacedLined(s, peers, arrivals, n, p, c.alive);
    CompleteIff(filled, peers, now, n);
    var short :| short in peers && |From(arrivals, short)| == n;
    FromSnoc(arrivals, p, short);
    if AllHave(peers, now, n + 1) {
      PoppedLined(filled, peers, now, n);
      assert |From(now, short)| == n + 1;
    } else {
      var r :| r in peers && |From(now, r)| < n + 1;
      assert |From(now, r)| == n;
    }
  }

  // ---------------------------------------------------------------- every run

  lemma WaveStable<P>(slots: seq<Rank>, arrivals: seq<Packet<P>>, more: seq<Packet<P>>, i: nat)
    requires forall r :: r in slots ==> i < |From(arrivals, r)|
    ensures forall r :: r in slots ==> i < |From(arrivals + more, r)|
    ensures Wave(slots, arrivals + more, i) == Wave(slots, arrivals, i)
  {
    forall r | r in slots
      ensures i < |From(arrivals + more, r)| && From(arrivals + more, r)[i] == From(arrivals, r)[i]
    {
      FromSum(arrivals, more, r);
    }
    WaveAgrees(slots, arrivals, arrivals + more, i);
  }

  lemma {:induction false} WaveAgrees<P>(slots: seq<Rank>, a: seq<Packet<P>>, b: seq<Packet<P>>, i: nat)
    requires forall r :: r in slots ==> i < |From(a, r)| && i < |From(b, r)| && From(a, r)[i] == From(b, r)[i]
    ensures Wave(slots, a, i) == Wave(slots, b, i)
  {
    if slots != [] {
      WaveAgrees(slots[..|slots| - 1], a, b, i);
    }
  }

  lemma {:induction false} WaveLength<P>(slots: seq<Rank>, arrivals: seq<Packet<P>>, i: nat)
    requires forall r :: r in slots ==> i < |From(arrivals, r)|
    ensures |Wave(slots, arrivals, i)| == |slots|
  {
    if slots != [] {
      WaveLength(slots[..|slots| - 1], arrivals, i);
    }
  }

  lemma {:induction false} WaveAt<P>(slots: seq<Rank>, arrivals: seq<Packet<P>>, i: nat, j: nat)
    requires forall r :: r in slots ==> i < |From(arrivals, r)|
    requires j < |slots|
    ensures j < |Wave(slots, arrivals, i)| && Wave(slots, arrivals, i)[j] == From(arrivals, slots[j])[i]
  {
    WaveLength(slots[..|slots| - 1], arrivals, i);
    if j < |slots| - 1 {
      WaveAt(slots[..|slots| - 1], arrivals, i, j);
    }
  }

  ghost predicate AreWaves<P>(waves: seq<seq<Packet<P>>>, slots: seq<Rank>, arrivals: seq<Packet<P>>)
    requires forall r :: r in slots ==> |waves| <= |From(arrivals, r)|
  {
    forall i :: 0 <= i < |waves| ==> waves[i] == Wave(slots, arrivals, i)
  }

  lemma WavesGrow<P>(waves: seq<seq<Packet<P>>>, out: seq<Packet<P>>, slots: seq<Rank>, arrivals: seq<Packet<P>>,
                     more: seq<Packet<P>>, fired: bool)
    requires forall r :: r in slots ==> |waves| <= |From(arrivals, r)|
    requires AreWaves(waves, slots, arrivals)
    requires forall r :: r in slots ==> |waves| + (if fired then 1 else 0) <= |From(arrivals + more, r)|
    requires fired ==> out == Wave(slots, arrivals + more, |waves|)
    ensures AreWaves(if fired then waves + [out] else waves, slots, arrivals + more)
  {
    forall i | 0 <= i < |waves| ensures waves[i] == Wave(slots, arrivals + more, i) {
      WaveStable(slots, arrivals, more, i);
    }
  }

  /**
   * The i-th wave is the i-th packet of each child in rank order; there are as many waves as the
   * slowest child has packets; and everything beyond that is still queued, in order.
   */
  lemma {:induction false} Transposes<P>(calls: seq<Call<P>>, peers: set<Rank>)
    requires Steady(calls, peers)
    ensures Lined(After(calls), peers, Arrivals(calls), |WavesOf(calls)|)
    ensures SomeHasJust(peers, Arrivals(calls), |WavesOf(calls)|)
    ensures forall r :: r in Ascending(peers) <==> r in peers
    ensures AreWaves(WavesOf(calls), Ascending(peers), Arrivals(calls))
  {
    AscendingIsSet(peers);
    if calls == [] {
      var r :| r in peers;
      assert |From(Arrivals(calls), r)| == 0;
    } else {
      var front, c := calls[..|calls| - 1], calls[|calls| - 1];
      Transposes(front, peers);
      NextWave(front, c, peers);
    }
  }

  lemma RunSnoc<P>(front: seq<Call<P>>, c: Call<P>)
    ensures After(front + [c]) == Step(After(front), c).0
    ensures Arrivals(front + [c]) == Arrivals(front) + c.inputs
    ensures WavesOf(front + [c])
         == if Step(After(front), c).1 == [] then WavesOf(front) else WavesOf(front) + [Step(After(front), c).1]
  {
    assert (front + [c])[..|front|] == front;
  }

  lemma NextWave<P>(front: seq<Call<P>>, c: Call<P>, peers: set<Rank>)
    requires SteadyCall(c, peers) && UNKNOWN_RANK !in peers && peers != {}
    requires forall r :: r in Ascending(peers) <==> r in peers
    requires Lined(After(front), peers, Arrivals(front), |WavesOf(front)|)
    requires SomeHasJust(peers, Arrivals(front), |WavesOf(front)|)
    requires AreWaves(WavesOf(front), Ascending(peers), Arrivals(front))
    ensures Lined(After(front + [c]), peers, Arrivals(front + [c]), |WavesOf(front + [c])|)
    ensures SomeHasJust(peers, Arrivals(front + [c]), |WavesOf(front + [c])|)
    ensures AreWaves(WavesOf(front + [c]), Ascending(peers), Arrivals(front + [c]))
  {
    RunSnoc(front, c);
    NextState(After(front), Arrivals(front), WavesOf(front), c, peers);
  }

  lemma NextState<P>(s: State<P>, before: seq<Packet<P>>, waves: seq<seq<Packet<P>>>, c: Call<P>, peers: set<Rank>)
    requires SteadyCall(c, peers) && UNKNOWN_RANK !in peers && peers != {}
    requires forall r :: r in Ascending(peers) <==> r in peers
    requires Lined(s, peers, before, |waves|) && SomeHasJust(peers, before, |waves|)
    requires AreWaves(waves, Ascending(peers), before)
    ensures var (after, out) := Step(s, c);
            var now := if out == [] then waves else waves + [out];
            && Lined(after, peers, before + c.inputs, |now|)
            && SomeHasJust(peers, before + c.inputs, |now|)
            && AreWaves(now, Ascending(peers), before + c.inputs)
  {
    StepLined(s, c, peers, before, |waves|);
    StepFires(s, c, peers, before, |waves|);
    NextWaves(s, before, waves, c, peers);
  }

  lemma NextWaves<P>(s: State<P>, before: seq<Packet<P>>, waves: seq<seq<Packet<P>>>, c: Call<P>, peers: set<Rank>)
    requires SteadyCall(c, peers) && UNKNOWN_RANK !in peers && peers != {}
    requires forall r :: r in Ascending(peers) <==> r in peers
    requires Lined(s, peers, before, |waves|) && SomeHasJust(peers, before, |waves|)
    requires AreWaves(waves, Ascending(peers), before)
    ensures var out := Step(s, c).1;
            var now := if out == [] then waves else waves + [out];
            && (forall r :: r in Ascending(peers) ==> |now| <= |From(before + c.inputs, r)|)
            && AreWaves(now, Ascending(peers), before + c.inputs)
  {
    var fired := AllHave(peers, before + c.inputs, |waves| + 1);
    StepLined(s, c, peers, before, |waves|);
    StepFires(s, c, peers, before, |waves|);
    WavesGrow(waves, Step(s, c).1, Ascending(peers), before, c.inputs, fired);
  }

  /** A call sends something on exactly when every child has one packet more. */
  lemma StepFires<P>(s: State<P>, c: Call<P>, peers: set<Rank>, arrivals: seq<Packet<P>>, n: nat)
    requires SteadyCall(c, peers) && UNKNOWN_RANK !in peers && peers != {}
    requires Lined(s, peers, arrivals, n) && SomeHasJust(peers, arrivals, n)
    ensures Step(s, c).1 != [] <==> AllHave(peers, arrivals + c.inputs, n + 1)
  {
    StepLined(s, c, peers, arrivals, n);
    if AllHave(peers, arrivals + c.inputs, n + 1) {
      WaveNotEmpty(peers, arrivals + c.inputs, n);
    }
  }

  lemma WaveNotEmpty<P>(peers: set<Rank>, arrivals: seq<Packet<P>>, k: nat)
    requires peers != {} && (forall r :: r in Ascending(peers) <==> r in peers) && AllHave(peers, arrivals, k + 1)
    ensures (forall c :: c in Ascending(peers) ==> k < |From(arrivals, c)|) && Wave(Ascending(peers), arrivals, k) != []
  {
    WaveLength(Ascending(peers), arrivals, k);
    var r :| r in peers;
    assert r in Ascending(peers);
  }

  /** The waves depend on what each child sent, not on how the children's packets interleaved. */
  lemma InterleavingIsIrrelevant<P>(a: seq<Call<P>>, b: seq<Call<P>>, peers: set<Rank>)
    requires Steady(a, peers) && Steady(b, peers)
    requires forall r :: r in peers ==> From(Arrivals(a), r) == From(Arrivals(b), r)
    ensures WavesOf(a) == WavesOf(b)
  {
    Transposes(a, peers);
    Transposes(b, peers);
    var i, j := |WavesOf(a)|, |WavesOf(b)|;
    var r :| r in peers && |From(Arrivals(a), r)| == i;
    var q :| q in peers && |From(Arrivals(b), q)| == j;
    forall k | 0 <= k < i ensures WavesOf(a)[k] == WavesOf(b)[k] {
      WaveAgrees(Ascending(peers), Arrivals(a), Arrivals(b), k);
    }
  }
}
