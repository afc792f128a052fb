/**
 * A stream with a fixed, positive time-out over any run of arrivals, failures, clock ticks, expiries
 * and other streams' timers. Buffered packets are always under a running timer, so every packet is
 * out by the time the clock has advanced by the time-out, unless its sender failed.
 */
module TimedRuns {
  import opened Prelude
  import opened Packets
  import opened WaitForAll
  import opened Waves
  import opened TimeKeeping
  import opened TimedSync

  // The stream in question, its time-out, and the timer service's default wait.
  datatype Setting = Setting(id: nat, ms: Word, defaultMs: int)

  // due: the timer has run out and the filter has not been called for it yet.
  datatype World<P> = World(filter: Timed<P>, timers: Timers, due: bool)

  datatype Event<P> =
    | Arrive(ps: seq<Packet<P>>, failed: set<Rank>, peers: Option<set<Rank>>)
    | Tick(elapsed: Word)
    | Expire(failed: set<Rank>)
    | OtherStream(op: Op)

  ghost predicate Enabled<P>(st: Setting, w: World<P>, e: Event<P>) {
    match e
    case Arrive(ps, _, _) => ps != []
    case Tick(_) => true
    case Expire(_) => w.due
    case OtherStream(op) => !op.Elapse? && op.s != st.id
  }

  ghost function Next<P>(st: Setting, w: World<P>, e: Event<P>): World<P> {
    match e
    case Arrive(ps, failed, peers) =>
      var (filter, timers, _) := Arrived(w.filter, w.timers, st.id, st.ms, ps, failed, peers);
      World(filter, timers, w.due)
    case Tick(elapsed) => World(w.filter, Left(w.timers, elapsed), w.due || st.id in Expired(w.timers, elapsed))
    case Expire(failed) => World(Fired(w.filter, failed).0, w.timers, false)
    case OtherStream(op) => w.(timers := Apply(w.timers, Low(st.defaultMs, w.timers), op))
  }

  /** What an event sends on out of the queues. */
  ghost function ReleasedBy<P>(st: Setting, w: World<P>, e: Event<P>): seq<Packet<P>> {
    match e
    case Arrive(ps, failed, peers) =>
      if IsBypass(ps) then [] else Arrived(w.filter, w.timers, st.id, st.ms, ps, failed, peers).2
    case Expire(failed) => Fired(w.filter, failed).1
    case _ => []
  }

  /** The packets of rank r an event takes into the queues. */
  function AcceptedBy<P>(e: Event<P>, r: Rank): seq<Packet<P>> {
    if e.Arrive? && e.peers.Some? && !IsBypass(e.ps) && r !in e.failed then From(e.ps, r) else []
  }

  /** The packets of rank r an event discards, r having failed. */
  function DroppedBy<P>(w: World<P>, e: Event<P>, r: Rank): seq<Packet<P>> {
    if (e.Arrive? || e.Expire?) && r in e.failed then QueueOf(w.filter.slots.queues, r) else []
  }

  ghost predicate Legal<P>(st: Setting, events: seq<Event<P>>) {
    events == []
    || (Legal(st, events[..|events| - 1]) && Enabled(st, Run(st, events[..|events| - 1]), events[|events| - 1]))
  }

  ghost function Run<P>(st: Setting, events: seq<Event<P>>): World<P> {
    if events == [] then World(Timed(Waves.Fresh(), false), map[], false)
    else Next(st, Run(st, events[..|events| - 1]), events[|events| - 1])
  }

  ghost function AllAccepted<P>(events: seq<Event<P>>, r: Rank): seq<Packet<P>> {
    if events == [] then [] else AllAccepted(events[..|events| - 1], r) + AcceptedBy(events[|events| - 1], r)
  }

  ghost function AllReleased<P>(st: Setting, events: seq<Event<P>>): seq<Packet<P>> {
    if events == [] then []
    else
      var front := events[..|events| - 1];
      AllReleased(st, front) + ReleasedBy(st, Run(st, front), events[|events| - 1])
  }

  /** The fates of rank r's packets, in the order they left the queue. */
  ghost function Gone<P>(st: Setting, events: seq<Event<P>>, r: Rank): seq<Fate<P>> {
    if events == [] then []
    else
      var front, e := events[..|events| - 1], events[|events| - 1];
      var w := Run(st, front);
      Gone(st, front, r) + Sentence(DroppedBy(w, e, r), false) + Sentence(From(ReleasedBy(st, w, e), r), true)
  }

  function Elapsed<P>(events: seq<Event<P>>): nat {
    if events == [] then 0
    else
      var last := events[|events| - 1];
      Elapsed(events[..|events| - 1]) + if last.Tick? then last.elapsed as nat else 0
  }

  // ---------------------------------------------------------------- queues, one event at a time

  lemma ArriveExact<P>(st: Setting, w: World<P>, e: Event<P>)
    requires e.Arrive? && Exact(w.filter.slots)
    ensures Exact(Next(st, w, e).filter.slots)
  {
    var living := Living(w.filter.slots, e.ps, e.failed);
    var kept := Discarded(w.filter.slots, living);
    DiscardedExact(w.filter.slots, living);
    PlacedExact(kept, e.ps, living);
    PoppedExact(Placed(kept, e.ps, living));
  }

  lemma QueuedOnArrival<P>(s: State<P>, ps: seq<Packet<P>>, failed: set<Rank>, r: Rank)
    requires Exact(s)
    ensures var living := Living(s, ps, failed);
            var filled := Placed(Discarded(s, living), ps, living);
            Exact(filled)
            && QueueOf(filled.queues, r) == if r in failed then [] else QueueOf(s.queues, r) + From(ps, r)
  {
    var living := Living(s, ps, failed);
    LivingIs(s, ps, failed, r);
    DiscardedExact(s, living);
    PlacedExact(Discarded(s, living), ps, living);
    PlacedQueue(Discarded(s, living), ps, living, r);
  }

  lemma ArriveReleases<P>(st: Setting, w: World<P>, e: Event<P>, r: Rank)
    requires e.Arrive? && e.peers.Some? && !IsBypass(e.ps) && Exact(w.filter.slots)
    ensures From(ReleasedBy(st, w, e), r) + QueueOf(Next(st, w, e).filter.slots.queues, r)
         == if r in e.failed then [] else QueueOf(w.filter.slots.queues, r) + From(e.ps, r)
  {
    var s := w.filter.slots;
    var living := Living(s, e.ps, e.failed);
    var filled := Placed(Discarded(s, living), e.ps, living);
    QueuedOnArrival(s, e.ps, e.failed, r);
    if WaveComplete(filled, e.peers.value) {
      PoppedQueue(filled, r);
    } else {
      assert [] + QueueOf(filled.queues, r) == QueueOf(filled.queues, r);
    }
  }

  lemma ArriveKeeps<P>(st: Setting, w: World<P>, e: Event<P>, r: Rank)
    requires e.Arrive? && Exact(w.filter.slots)
    ensures QueueOf(w.filter.slots.queues, r) + AcceptedBy(e, r)
         == DroppedBy(w, e, r) + From(ReleasedBy(st, w, e), r) + QueueOf(Next(st, w, e).filter.slots.queues, r)
  {
    var q, dropped := QueueOf(w.filter.slots.queues, r), DroppedBy(w, e, r);
    if e.peers.Some? && !IsBypass(e.ps) {
      ArriveReleases(st, w, e, r);
      Settle(q, From(e.ps, r), dropped, From(ReleasedBy(st, w, e), r),
             QueueOf(Next(st, w, e).filter.slots.queues, r), r in e.failed);
    } else {
      LivingIs(w.filter.slots, e.ps, e.failed, r);
      assert q + [] == [] + q == q;
    }
  }

  lemma ExpireKeeps<P>(st: Setting, w: World<P>, e: Event<P>, r: Rank)
    requires e.Expire? && Exact(w.filter.slots)
    ensures Exact(Next(st, w, e).filter.slots) && QueueOf(Next(st, w, e).filter.slots.queues, r) == []
    ensures QueueOf(w.filter.slots.queues, r) == DroppedBy(w, e, r) + From(ReleasedBy(st, w, e), r)
  {
    var s := w.filter.slots;
    var living := Living(s, [], e.failed);
    var kept := Discarded(s, living);
    LivingIs(s, [], e.failed, r);
    DiscardedExact(s, living);
    FlushedExact(kept);
    AscendingIsSet(kept.queues.Keys);
    FlushedFrom(kept.queues, Ascending(kept.queues.Keys), r);
    var q := QueueOf(s.queues, r);
    assert q + [] == q && [] + q == q;
  }

  lemma EventKeeps<P>(st: Setting, w: World<P>, e: Event<P>, r: Rank)
    requires Exact(w.filter.slots)
    ensures Exact(Next(st, w, e).filter.slots)
    ensures QueueOf(w.filter.slots.queues, r) + AcceptedBy(e, r)
         == DroppedBy(w, e, r) + From(ReleasedBy(st, w, e), r) + QueueOf(Next(st, w, e).filter.slots.queues, r)
  {
    var q := QueueOf(w.filter.slots.queues, r);
    assert q + [] == q && [] + q == q;
    if e.Arrive? {
      ArriveExact(st, w, e);
      ArriveKeeps(st, w, e, r);
    } else if e.Expire? {
      ExpireKeeps(st, w, e, r);
    }
  }

  /**
   * Every packet taken in is released, dropped with its failed sender, or still queued; once each, in
   * the order its sender sent it.
   */
  lemma {:induction false} TimedConservation<P>(st: Setting, events: seq<Event<P>>, r: Rank)
    ensures Exact(Run(st, events).filter.slots)
    ensures AllAccepted(events, r) == Everything(Gone(st, events, r)) + QueueOf(Run(st, events).filter.slots.queues, r)
    ensures From(AllReleased(st, events), r) == OnlyReleased(Gone(st, events, r))
  {
    if events != [] {
      var front, e := events[..|events| - 1], events[|events| - 1];
      var w, gone := Run(st, front), Gone(st, front, r);
      TimedConservation(st, front, r);
      EventKeeps(st, w, e, r);
      var dropped, released := DroppedBy(w, e, r), From(ReleasedBy(st, w, e), r);
      FromSum(AllReleased(st, front), ReleasedBy(st, w, e), r);
      Extend(gone, dropped, released);
      Regroup(Everything(gone), QueueOf(w.filter.slots.queues, r), AcceptedBy(e, r), dropped, released,
              QueueOf(Next(st, w, e).filter.slots.queues, r));
    }
  }

  // ---------------------------------------------------------------- the timer and the queues

  /** Whatever is buffered is under a running timer or an expiry on its way. */
  ghost predicate Watched<P>(st: Setting, w: World<P>) {
    && (w.filter.slots.ready != {} || w.filter.active ==> Armed(st, w))
    && (st.id in w.timers ==> 0 < w.timers[st.id] <= st.ms)
  }

  ghost predicate Armed<P>(st: Setting, w: World<P>) {
    st.id in w.timers || w.due
  }

  lemma OthersSpareTimer(st: Setting, timers: Timers, op: Op)
    requires !op.Elapse? && op.s != st.id
    requires st.id in timers ==> timers[st.id] > 0
    ensures st.id in Apply(timers, Low(st.defaultMs, timers), op) <==> st.id in timers
    ensures st.id in timers ==> Apply(timers, Low(st.defaultMs, timers), op)[st.id] == timers[st.id]
  {
  }

  lemma DiscardedReady<P>(s: State<P>, living: set<Rank>)
    requires Exact(s) && s.ready == {}
    ensures Discarded(s, living).ready == {}
  {
  }

  lemma EventWatched<P>(st: Setting, w: World<P>, e: Event<P>)
    requires st.ms > 0 && Enabled(st, w, e) && Exact(w.filter.slots) && Watched(st, w)
    ensures Watched(st, Next(st, w, e))
  {
    match e
    case Arrive(ps, failed, peers) =>
      if w.filter.slots.ready == {} {
        DiscardedReady(w.filter.slots, Living(w.filter.slots, ps, failed));
      }
    case Tick(elapsed) =>
    case Expire(failed) =>
      var kept := Discarded(w.filter.slots, Living(w.filter.slots, [], failed));
      DiscardedExact(w.filter.slots, Living(w.filter.slots, [], failed));
      FlushedExact(kept);
      NothingReady(Flushed(kept));
    case OtherStream(op) =>
      OthersSpareTimer(st, w.timers, op);
  }

  lemma {:induction false} AlwaysWatched<P>(st: Setting, events: seq<Event<P>>)
    requires st.ms > 0 && Legal(st, events)
    ensures Watched(st, Run(st, events))
  {
    if events != [] {
      var front := events[..|events| - 1];
      AlwaysWatched(st, front);
      TimedConservation(st, front, 0);
      EventWatched(st, Run(st, front), events[|events| - 1]);
    }
  }

  // ---------------------------------------------------------------- no packet waits longer than the time-out

  /** An armed timer runs down with the clock until it is due, and only an expiry call ends that. */
  lemma EventRunsDown<P>(st: Setting, w: World<P>, e: Event<P>)
    requires Enabled(st, w, e) && Watched(st, w) && Armed(st, w) && !e.Expire?
    ensures var w' := Next(st, w, e);
            w'.due || (st.id in w.timers && st.id in w'.timers
                       && w.timers[st.id] as int == w'.timers[st.id] as int + if e.Tick? then e.elapsed as int else 0)
  {
    if e.OtherStream? {
      OthersSpareTimer(st, w.timers, e.op);
    }
  }

  lemma {:induction false} RunsDown<P>(st: Setting, front: seq<Event<P>>, rest: seq<Event<P>>)
    requires st.ms > 0 && Legal(st, front + rest) && Armed(st, Run(st, front))
    requires forall e :: e in rest ==> !e.Expire?
    ensures var w := Run(st, front + rest);
            w.due || (st.id in w.timers && w.timers[st.id] as int + Elapsed(rest) <= st.ms as int)
    decreases |rest|
  {
    if rest == [] {
      assert front + rest == front;
      AlwaysWatched(st, front);
    } else {
      var all, before, e := front + rest, front + rest[..|rest| - 1], rest[|rest| - 1];
      assert all[..|all| - 1] == before;
      RunsDown(st, front, rest[..|rest| - 1]);
      AlwaysWatched(st, before);
      EventRunsDown(st, Run(st, before), e);
    }
  }

  lemma {:induction false} GoneGrows<P>(st: Setting, front: seq<Event<P>>, rest: seq<Event<P>>, r: Rank)
    ensures Everything(Gone(st, front, r)) <= Everything(Gone(st, front + rest, r))
    decreases |rest|
  {
    if rest == [] {
      assert front + rest == front;
    } else {
      var before, e := front + rest[..|rest| - 1], rest[|rest| - 1];
      assert front + rest == before + [e];
      GoneGrows(st, front, rest[..|rest| - 1], r);
      GoneSnoc(st, before, e, r);
    }
  }

  lemma GoneSnoc<P>(st: Setting, before: seq<Event<P>>, e: Event<P>, r: Rank)
    ensures Everything(Gone(st, before, r)) <= Everything(Gone(st, before + [e], r))
  {
    assert (before + [e])[..|before|] == before;
    var w := Run(st, before);
    Extend(Gone(st, before, r), DroppedBy(w, e, r), From(ReleasedBy(st, w, e), r));
  }

  lemma {:induction false} AcceptedGrows<P>(front: seq<Event<P>>, rest: seq<Event<P>>, r: Rank)
    ensures AllAccepted(front, r) <= AllAccepted(front + rest, r)
    decreases |rest|
  {
    if rest == [] {
      assert front + rest == front;
    } else {
      var all := front + rest;
      assert all[..|all| - 1] == front + rest[..|rest| - 1];
      AcceptedGrows(front, rest[..|rest| - 1], r);
    }
  }

  lemma LegalPrefix<P>(st: Setting, front: seq<Event<P>>, rest: seq<Event<P>>)
    requires Legal(st, front + rest)
    ensures Legal(st, front)
    decreases |rest|
  {
    if rest == [] {
      assert front + rest == front;
    } else {
      var all := front + rest;
      assert all[..|all| - 1] == front + rest[..|rest| - 1];
      LegalPrefix(st, front, rest[..|rest| - 1]);
    }
  }

  /** At an expiry call everything taken in before it is gone. */
  lemma GoneAtExpiry<P>(st: Setting, front: seq<Event<P>>, e: Event<P>, r: Rank)
    requires e.Expire?
    ensures AllAccepted(front, r) == Everything(Gone(st, front + [e], r))
  {
    assert (front + [e])[..|front|] == front;
    TimedConservation(st, front, r);
    TimedConservation(st, front + [e], r);
    ExpireKeeps(st, Run(st, front), e, r);
    assert AllAccepted(front, r) + [] == AllAccepted(front, r);
  }

  lemma GoneSinceExpiry<P>(st: Setting, front: seq<Event<P>>, rest: seq<Event<P>>, i: nat, r: Rank)
    requires i < |rest| && rest[i].Expire?
    ensures AllAccepted(front, r) <= Everything(Gone(st, front + rest, r))
  {
    var before := front + rest[..i];
    assert front + rest == before + [rest[i]] + rest[i + 1..];
    AcceptedGrows(front, rest[..i], r);
    GoneAtExpiry(st, before, rest[i], r);
    GoneGrows(st, before + [rest[i]], rest[i + 1..], r);
  }

  lemma GoneAlready<P>(st: Setting, front: seq<Event<P>>, rest: seq<Event<P>>, r: Rank)
    requires QueueOf(Run(st, front).filter.slots.queues, r) == []
    ensures AllAccepted(front, r) <= Everything(Gone(st, front + rest, r))
  {
    TimedConservation(st, front, r);
    GoneGrows(st, front, rest, r);
  }

  /**
   * By the time the clock has advanced by the time-out, and no expiry is left to handle, everything
   * taken in beforehand is gone: released, or dropped with its failed sender.
   */
  lemma NoPacketWaitsLonger<P>(st: Setting, front: seq<Event<P>>, rest: seq<Event<P>>, r: Rank)
    requires st.ms > 0 && Legal(st, front + rest)
    requires Elapsed(rest) >= st.ms as int && !Run(st, front + rest).due
    ensures AllAccepted(front, r) <= Everything(Gone(st, front + rest, r))
  {
    TimedConservation(st, front, r);
    LegalPrefix(st, front, rest);
    AlwaysWatched(st, front);
    if QueueOf(Run(st, front).filter.slots.queues, r) == [] {
      GoneAlready(st, front, rest, r);
    } else if i :| 0 <= i < |rest| && rest[i].Expire? {
      GoneSinceExpiry(st, front, rest, i, r);
    } else {
      assert r in Run(st, front).filter.slots.ready;
      RunsDown(st, front, rest);
      AlwaysWatched(st, front + rest);
    }
  }
}
