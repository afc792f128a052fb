/**
 * Runs of the wait-for-all filter. Over any calls and failures no packet is duplicated, reordered or
 * lost except with its failed sender; over a fixed set of children the filter is a transposition of
 * the children's streams into waves.
 */
module Waves {
  import opened Prelude
  import opened Packets
  import opened WaitForAll

  // ---------------------------------------------------------------- runs

  function Fresh<P>(): State<P> {
    State(map[], {})
  }

  ghost function After<P>(calls: seq<Call<P>>): State<P> {
    if calls == [] then Fresh() else Step(After(calls[..|calls| - 1]), calls[|calls| - 1]).0
  }

  /** What call c sends on out of the queues; a bypassing packet never enters them. */
  ghost function Released<P>(s: State<P>, c: Call<P>): seq<Packet<P>> {
    if Bypasses(c) then [] else Step(s, c).1
  }

  ghost function AllReleased<P>(calls: seq<Call<P>>): seq<Packet<P>> {
    if calls == [] then []
    else AllReleased(calls[..|calls| - 1]) + Released(After(calls[..|calls| - 1]), calls[|calls| - 1])
  }

  /** The packets of rank r that call c accepts into the queues. */
  function Accepted<P>(c: Call<P>, r: Rank): seq<Packet<P>> {
    if c.peers.None? || Bypasses(c) || r !in c.alive then [] else From(c.inputs, r)
  }

  function AllAccepted<P>(calls: seq<Call<P>>, r: Rank): seq<Packet<P>> {
    if calls == [] then [] else AllAccepted(calls[..|calls| - 1], r) + Accepted(calls[|calls| - 1], r)
  }

  /** The packets of rank r that call c finds queued although r has failed. */
  function Dropped<P>(s: State<P>, c: Call<P>, r: Rank): seq<Packet<P>> {
    if c.peers.None? || r in c.alive then [] else QueueOf(s.queues, r)
  }

  // What became of a packet that left its queue.
  datatype Fate<P> = Fate(packet: Packet<P>, released: bool)

  function Sentence<P>(ps: seq<Packet<P>>, released: bool): seq<Fate<P>> {
    if ps == [] then [] else Sentence(ps[..|ps| - 1], released) + [Fate(ps[|ps| - 1], released)]
  }

  /** The fates of rank r's packets, in the order they left the queue. */
  ghost function Fates<P>(calls: seq<Call<P>>, r: Rank): seq<Fate<P>> {
    if calls == [] then []
    else
      var s, c := After(calls[..|calls| - 1]), calls[|calls| - 1];
      Fates(calls[..|calls| - 1], r) + Sentence(Dropped(s, c, r), false) + Sentence(From(Released(s, c), r), true)
  }

  function Everything<P>(fates: seq<Fate<P>>): seq<Packet<P>> {
    if fates == [] then [] else Everything(fates[..|fates| - 1]) + [fates[|fates| - 1].packet]
  }

  function OnlyReleased<P>(fates: seq<Fate<P>>): seq<Packet<P>> {
    if fates == [] then []
    else
      var front, last := OnlyReleased(fates[..|fates| - 1]), fates[|fates| - 1];
      if last.released then front + [last.packet] else front
  }

  lemma FateSnoc<P>(fates: seq<Fate<P>>, f: Fate<P>)
    ensures Everything(fates + [f]) == Everything(fates) + [f.packet]
    ensures OnlyReleased(fates + [f]) == OnlyReleased(fates) + if f.released then [f.packet] else []
  {
    assert (fates + [f])[..|fates|] == fates;
  }

  lemma {:induction false} Sentences<P>(fates: seq<Fate<P>>, ps: seq<Packet<P>>, released: bool)
    ensures Everything(fates + Sentence(ps, released)) == Everything(fates) + ps
    ensures OnlyReleased(fates + Sentence(ps, released)) == OnlyReleased(fates) + if released then ps else []
    decreases |ps|
  {
    if ps == [] {
      assert fates + [] == fates;
    } else {
      var front, last := ps[..|ps| - 1], Fate(ps[|ps| - 1], released);
      Sentences(fates, front, released);
      FateSnoc(fates + Sentence(front, released), last);
      Append(fates, Sentence(front, released), last);
      Append(Everything(fates), front, last.packet);
      Append(OnlyReleased(fates), front, last.packet);
      assert ps == front + [last.packet];
    }
  }

  lemma Append<T>(a: seq<T>, b: seq<T>, x: T)
    ensures a + b + [x] == a + (b + [x])
  {
  }

  // ---------------------------------------------------------------- the invariant of every run

  /** The ready set is exact, and every packet is queued under its own inlet. */
  ghost predicate Exact<P>(s: State<P>) {
    && (forall r {:trigger r in s.ready} {:trigger r in s.queues} ::
          r in s.ready <==> r in s.queues && s.queues[r] != [])
    && (forall r :: r in s.queues ==> OwnInlet(s.queues[r], r))
  }

  ghost predicate OwnInlet<P>(q: seq<Packet<P>>, r: Rank) {
    forall p :: p in q ==> p.inlet == r
  }

  lemma {:induction false} PlacedExact<P>(s: State<P>, ps: seq<Packet<P>>, alive: set<Rank>)
    requires Exact(s)
    ensures Exact(Placed(s, ps, alive))
  {
    if ps != [] {
      PlacedExact(s, ps[..|ps| - 1], alive);
    }
  }

  lemma PoppedExact<P>(s: State<P>)
    requires Exact(s)
    ensures Exact(Popped(s))
  {
  }

  lemma DiscardedExact<P>(s: State<P>, alive: set<Rank>)
    requires Exact(s)
    ensures Exact(Discarded(s, alive))
  {
  }

  lemma StepExact<P>(s: State<P>, c: Call<P>)
    requires Exact(s)
    ensures Exact(Step(s, c).0)
  {
    DiscardedExact(s, c.alive);
    var filled := Placed(Discarded(s, c.alive), c.inputs, c.alive);
    PlacedExact(Discarded(s, c.alive), c.inputs, c.alive);
    PoppedExact(filled);
  }

  lemma {:induction false} ReadyIsExact<P>(calls: seq<Call<P>>)
    ensures Exact(After(calls))
  {
    if calls != [] {
      ReadyIsExact(calls[..|calls| - 1]);
      StepExact(After(calls[..|calls| - 1]), calls[|calls| - 1]);
    }
  }

  // ---------------------------------------------------------------- one call, seen from one child

  lemma {:induction false} PlacedQueue<P>(s: State<P>, ps: seq<Packet<P>>, alive: set<Rank>, r: Rank)
    ensures QueueOf(Placed(s, ps, alive).queues, r)
         == QueueOf(s.queues, r) + if r in alive then From(ps, r) else []
  {
    if ps != [] {
      PlacedQueue(s, ps[..|ps| - 1], alive, r);
    }
  }

  lemma HeadsLast<P>(queues: map<Rank, seq<Packet<P>>>, front: seq<Rank>, last: Rank, r: Rank)
    requires OwnInlet(QueueOf(queues, last), last)
    ensures From(Heads(queues, front + [last]), r)
         == From(Heads(queues, front), r) + if last == r then Head(QueueOf(queues, r)) else []
  {
    HeadsNext(queues, front, last);
    FromSum(Heads(queues, front), Head(QueueOf(queues, last)), r);
    FromAll(Head(QueueOf(queues, last)), last, r);
  }

  lemma {:induction false} HeadsFrom<P>(queues: map<Rank, seq<Packet<P>>>, slots: seq<Rank>, r: Rank)
    requires forall x :: x in queues ==> OwnInlet(queues[x], x)
    requires Sorted(slots)
    ensures From(Heads(queues, slots), r) == if r in slots then Head(QueueOf(queues, r)) else []
  {
    if slots != [] {
      var front, last := slots[..|slots| - 1], slots[|slots| - 1];
      SortedInit(slots, r);
      HeadsFrom(queues, front, r);
      HeadsLast(queues, front, last, r);
      assert [] + Head(QueueOf(queues, r)) == Head(QueueOf(queues, r));
    }
  }

  lemma PoppedQueue<P>(s: State<P>, r: Rank)
    requires Exact(s)
    ensures From(Heads(s.queues, Ascending(s.queues.Keys)), r) + QueueOf(Popped(s).queues, r) == QueueOf(s.queues, r)
  {
    AscendingIsSet(s.queues.Keys);
    HeadsFrom(s.queues, Ascending(s.queues.Keys), r);
    HeadAndTail(s, r);
  }

  lemma HeadAndTail<P>(s: State<P>, r: Rank)
    ensures r in s.queues ==> Head(QueueOf(s.queues, r)) + QueueOf(Popped(s).queues, r) == QueueOf(s.queues, r)
    ensures r !in s.queues ==> QueueOf(Popped(s).queues, r) == []
  {
  }

  lemma DiscardedQueue<P>(s: State<P>, alive: set<Rank>, r: Rank)
    ensures QueueOf(Discarded(s, alive).queues, r) == if r in alive then QueueOf(s.queues, r) else []
  {
  }

  lemma QueuedNow<P>(s: State<P>, c: Call<P>, r: Rank)
    requires Exact(s)
    ensures var filled := Placed(Discarded(s, c.alive), c.inputs, c.alive);
            Exact(filled) && QueueOf(filled.queues, r) == if r in c.alive then QueueOf(s.queues, r) + From(c.inputs, r) else []
  {
    DiscardedQueue(s, c.alive, r);
    DiscardedExact(s, c.alive);
    PlacedExact(Discarded(s, c.alive), c.inputs, c.alive);
    PlacedQueue(Discarded(s, c.alive), c.inputs, c.alive, r);
  }

  lemma ReleasedAndLeft<P>(s: State<P>, c: Call<P>, r: Rank)
    requires Exact(s) && c.peers.Some? && !Bypasses(c)
    ensures From(Released(s, c), r) + QueueOf(Step(s, c).0.queues, r)
         == if r in c.alive then QueueOf(s.queues, r) + From(c.inputs, r) else []
  {
    var filled := Placed(Discarded(s, c.alive), c.inputs, c.alive);
    QueuedNow(s, c, r);
    if WaveComplete(filled, c.peers.value) {
      PoppedQueue(filled, r);
    } else {
      assert [] + QueueOf(filled.queues, r) == QueueOf(filled.queues, r);
    }
  }

  /** One child's balance: a failed child's queue is dropped and its packets refused. */
  lemma Settle<T>(queue: seq<T>, arrived: seq<T>, dropped: seq<T>, released: seq<T>, rest: seq<T>, failed: bool)
    requires released + rest == if failed then [] else queue + arrived
    requires dropped == if failed then queue else []
    ensures queue + (if failed then [] else arrived) == dropped + released + rest
  {
    assert dropped + released + rest == dropped + (released + rest);
  }

  /** One call neither loses, repeats nor reorders what it holds of a child that is alive. */
  lemma StepQueue<P>(s: State<P>, c: Call<P>, r: Rank)
    requires Exact(s)
    ensures QueueOf(s.queues, r) + Accepted(c, r)
         == Dropped(s, c, r) + From(Released(s, c), r) + QueueOf(Step(s, c).0.queues, r)
  {
    var q := QueueOf(s.queues, r);
    if c.peers.None? || Bypasses(c) {
      DiscardedQueue(s, c.alive, r);
      assert [] + q == q + [] == q;
    } else {
      ReleasedAndLeft(s, c, r);
      Settle(q, From(c.inputs, r), Dropped(s, c, r), From(Released(s, c), r), QueueOf(Step(s, c).0.queues, r),
             r !in c.alive);
    }
  }

  lemma {:induction false} HeadsAscend<P>(queues: map<Rank, seq<Packet<P>>>, slots: seq<Rank>)
    requires Sorted(slots) && forall x :: x in queues ==> OwnInlet(queues[x], x)
    ensures forall i, j :: 0 <= i < j < |Heads(queues, slots)| ==> Heads(queues, slots)[i].inlet < Heads(queues, slots)[j].inlet
    ensures forall p :: p in Heads(queues, slots) ==> p.inlet in slots
  {
    if slots != [] {
      var front, last := slots[..|slots| - 1], slots[|slots| - 1];
      SortedInit(slots, last);
      HeadsAscend(queues, front);
      var a: seq<Packet<P>>, b: seq<Packet<P>> := Heads(queues, front), Head(QueueOf(queues, last));
      forall i, j | 0 <= i < j < |a + b| ensures (a + b)[i].inlet < (a + b)[j].inlet {
        assert i < |a| ==> a[i] in a;
        assert j == |a| ==> b[0] in QueueOf(queues, last);
      }
      forall p | p in a + b ensures p.inlet in slots {
        assert p in b ==> p in QueueOf(queues, last);
      }
    }
  }

  /** The filter once a call's packets are in and the failed ranks are out. */
  function Filled<P>(s: State<P>, c: Call<P>): State<P> {
    Placed(Discarded(s, c.alive), c.inputs, c.alive)
  }

  lemma StepOf<P>(s: State<P>, c: Call<P>)
    requires c.peers.Some? && !(|c.inputs| == 1 && c.inputs[0].inlet == UNKNOWN_RANK)
    ensures var filled := Filled(s, c);
            Step(s, c) == if |filled.ready| >= |c.peers.value|
                          then (Popped(filled), Heads(filled.queues, Ascending(filled.queues.Keys))) else (filled, [])
  {
  }

  lemma PopsAt<P>(s: State<P>, r: Rank)
    requires Exact(s)
    ensures From(Heads(s.queues, Ascending(s.queues.Keys)), r) == Head(QueueOf(s.queues, r))
    ensures QueueOf(Popped(s).queues, r) == Tail(QueueOf(s.queues, r))
    ensures r in s.ready <==> QueueOf(s.queues, r) != []
  {
    AscendingIsSet(s.queues.Keys);
    HeadsFrom(s.queues, Ascending(s.queues.Keys), r);
  }

  lemma StepMeansAt<P>(s: State<P>, c: Call<P>, r: Rank)
    requires Exact(s) && c.peers.Some? && !(|c.inputs| == 1 && c.inputs[0].inlet == UNKNOWN_RANK)
    ensures var (after, out) := Step(s, c);
            var held := if r in c.alive then QueueOf(s.queues, r) + From(c.inputs, r) else [];
            var fires := |Filled(s, c).ready| >= |c.peers.value|;
      && (r in Filled(s, c).ready <==> held != [])
      && From(out, r) == (if fires && held != [] then [held[0]] else [])
      && QueueOf(after.queues, r) == if fires && held != [] then held[1..] else held
  {
    QueuedNow(s, c, r);
    StepOf(s, c);
    PopsAt(Filled(s, c), r);
  }

  lemma StepAscends<P>(s: State<P>, c: Call<P>)
    requires Exact(s) && c.peers.Some? && !(|c.inputs| == 1 && c.inputs[0].inlet == UNKNOWN_RANK)
    ensures forall i, j :: 0 <= i < j < |Step(s, c).1| ==> Step(s, c).1[i].inlet < Step(s, c).1[j].inlet
  {
    var filled := Filled(s, c);
    QueuedNow(s, c, UNKNOWN_RANK);
    StepOf(s, c);
    AscendingIsSet(filled.queues.Keys);
    HeadsAscend(filled.queues, Ascending(filled.queues.Keys));
  }

  /**
   * A call that is no bypass, for a known stream.  What a living rank holds is what it had queued and what it sends now;
   * a failed rank holds nothing.  When at least as many ranks hold something as the stream has children, the first packet
   * of each goes out, in rank order, and stays behind otherwise.
   */
  lemma StepMeans<P>(s: State<P>, c: Call<P>) returns (waiting: set<Rank>)
    requires Exact(s) && c.peers.Some? && !(|c.inputs| == 1 && c.inputs[0].inlet == UNKNOWN_RANK)
    ensures forall r :: r in waiting <==> r in c.alive && QueueOf(s.queues, r) + From(c.inputs, r) != []
    ensures var (after, out) := Step(s, c);
            var fires := |waiting| >= |c.peers.value|;
      && Exact(after)
      && (forall i, j :: 0 <= i < j < |out| ==> out[i].inlet < out[j].inlet)
      && forall r ::
           var held := if r in c.alive then QueueOf(s.queues, r) + From(c.inputs, r) else [];
           && From(out, r) == (if fires && held != [] then [held[0]] else [])
           && QueueOf(after.queues, r) == if fires && held != [] then held[1..] else held
  {
    waiting := Filled(s, c).ready;
    StepExact(s, c);
    StepAscends(s, c);
    forall r
      ensures var held := if r in c.alive then QueueOf(s.queues, r) + From(c.inputs, r) else [];
        && (r in waiting <==> held != [])
        && From(Step(s, c).1, r) == (if |waiting| >= |c.peers.value| && held != [] then [held[0]] else [])
        && QueueOf(Step(s, c).0.queues, r) == if |waiting| >= |c.peers.value| && held != [] then held[1..] else held
    {
      StepMeansAt(s, c, r);
    }
  }

  // ---------------------------------------------------------------- conservation over every run

  ghost function Outputs<P>(calls: seq<Call<P>>): seq<Packet<P>> {
    if calls == [] then []
    else Outputs(calls[..|calls| - 1]) + Step(After(calls[..|calls| - 1]), calls[|calls| - 1]).1
  }

  /** The packets that went straight through: the node's own, each alone in its call. */
  function Passed<P>(calls: seq<Call<P>>): seq<Packet<P>> {
    if calls == [] then []
    else
      var c := calls[|calls| - 1];
      Passed(calls[..|calls| - 1]) + if c.peers.Some? && Bypasses(c) then c.inputs else []
  }

  lemma StepOutput<P>(s: State<P>, c: Call<P>, r: Rank)
    ensures From(Step(s, c).1, r)
         == From(Released(s, c), r) + if r == UNKNOWN_RANK && c.peers.Some? && Bypasses(c) then c.inputs else []
  {
    if c.peers.Some? && Bypasses(c) {
      assert c.inputs == [c.inputs[0]];
      FromAll(c.inputs, UNKNOWN_RANK, r);
      assert [] + c.inputs == c.inputs;
    } else {
      assert From(Released(s, c), r) + [] == From(Released(s, c), r);
    }
  }

  lemma {:induction false} OutputsAre<P>(calls: seq<Call<P>>, r: Rank)
    ensures r != UNKNOWN_RANK ==> From(Outputs(calls), r) == From(AllReleased(calls), r)
    ensures r == UNKNOWN_RANK ==>
              multiset(From(Outputs(calls), r)) == multiset(From(AllReleased(calls), r)) + multiset(Passed(calls))
  {
    if calls != [] {
      var front, c := calls[..|calls| - 1], calls[|calls| - 1];
      OutputsAre(front, r);
      FromSum(Outputs(front), Step(After(front), c).1, r);
      FromSum(AllReleased(front), Released(After(front), c), r);
      StepOutput(After(front), c, r);
    }
  }

  /**
   * Every packet a run accepts from a child is released, dropped because the child has failed, or
   * still queued, each exactly once and in the order of arrival. What comes out is what is released and,
   * in any order with what a child of unknown rank had queued, the node's own packets that went straight through.
   */
  lemma {:induction false} Conservation<P>(calls: seq<Call<P>>, r: Rank)
    ensures AllAccepted(calls, r) == Everything(Fates(calls, r)) + QueueOf(After(calls).queues, r)
    ensures From(AllReleased(calls), r) == OnlyReleased(Fates(calls, r))
    ensures r != UNKNOWN_RANK ==> From(Outputs(calls), r) == OnlyReleased(Fates(calls, r))
    ensures r == UNKNOWN_RANK ==>
              multiset(From(Outputs(calls), r)) == multiset(OnlyReleased(Fates(calls, r))) + multiset(Passed(calls))
  {
    OutputsAre(calls, r);
    if calls != [] {
      var front, c := calls[..|calls| - 1], calls[|calls| - 1];
      var s, fates := After(front), Fates(front, r);
      Conservation(front, r);
      ReadyIsExact(front);
      StepQueue(s, c, r);
      FromSum(AllReleased(front), Released(s, c), r);
      Extend(fates, Dropped(s, c, r), From(Released(s, c), r));
      Regroup(Everything(fates), QueueOf(s.queues, r), Accepted(c, r), Dropped(s, c, r),
              From(Released(s, c), r), QueueOf(Step(s, c).0.queues, r));
    }
  }

  lemma Extend<P>(fates: seq<Fate<P>>, dropped: seq<Packet<P>>, released: seq<Packet<P>>)
    ensures Everything(fates + Sentence(dropped, false) + Sentence(released, true))
         == Everything(fates) + dropped + released
    ensures OnlyReleased(fates + Sentence(dropped, false) + Sentence(released, true))
         == OnlyReleased(fates) + released
  {
    var left := fates + Sentence(dropped, false);
    Sentences(left, released, true);
    assert Everything(left) == Everything(fates) + dropped && OnlyReleased(left) == OnlyReleased(fates) by {
      Sentences(fates, dropped, false);
      assert OnlyReleased(fates) + [] == OnlyReleased(fates);
    }
  }

  lemma Regroup<T>(gone: seq<T>, queue: seq<T>, accepted: seq<T>, dropped: seq<T>, released: seq<T>, rest: seq<T>)
    requires queue + accepted == dropped + released + rest
    ensures gone + queue + accepted == gone + dropped + released + rest
  {
    assert gone + queue + accepted == gone + (queue + accepted);
    assert gone + dropped + released + rest == gone + (dropped + released + rest);
  }

  /** A child that never fails loses nothing: what it sent is what came out followed by what is queued. */
  lemma {:induction false} NothingLost<P>(calls: seq<Call<P>>, r: Rank)
    requires forall c :: c in calls ==> r in c.alive
    ensures AllAccepted(calls, r) == From(AllReleased(calls), r) + QueueOf(After(calls).queues, r)
  {
    Conservation(calls, r);
    NoneDropped(calls, r);
  }

  lemma {:induction false} NoneDropped<P>(calls: seq<Call<P>>, r: Rank)
    requires forall c :: c in calls ==> r in c.alive
    ensures Everything(Fates(calls, r)) == OnlyReleased(Fates(calls, r))
  {
    if calls != [] {
      var front, c := calls[..|calls| - 1], calls[|calls| - 1];
      NoneDropped(front, r);
      var released := From(Released(After(front), c), r);
      Sentences(Fates(front, r), released, true);
      assert Fates(front, r) + [] == Fates(front, r);
      assert Fates(calls, r) == Fates(front, r) + Sentence(released, true);
    }
  }

  /** Nothing of a failed child is sent on, whatever is still queued or arriving. */
  lemma FailedChildIsSilent<P>(s: State<P>, c: Call<P>, r: Rank)
    requires Exact(s) && r !in c.alive
    ensures From(Released(s, c), r) == []
    ensures c.peers.Some? ==> QueueOf(Step(s, c).0.queues, r) == []
  {
    StepQueue(s, c, r);
  }
}
