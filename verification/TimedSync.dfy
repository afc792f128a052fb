/**
 * The time-out synchronization filter with the timer service behind it. The filter registers a timer
 * when packets come in and never clears it; the event loop counts it down and, when it has run out,
 * calls the filter with no packets.
 */
module TimedSync {
  import opened Prelude
  import opened Packets
  import opened WaitForAll
  import opened Waves
  import opened TimeKeeping

  datatype Timed<P> = Timed(slots: State<P>, active: bool)

  function Inlets<P>(ps: seq<Packet<P>>): set<Rank> {
    set i | 0 <= i < |ps| :: ps[i].inlet
  }

  /** A single packet from the node itself goes straight through. */
  predicate IsBypass<P>(ps: seq<Packet<P>>) {
    |ps| == 1 && ps[0].inlet == UNKNOWN_RANK
  }

  /** This filter drops only what it knows to have failed; these are the ranks it would keep. */
  function Living<P>(s: State<P>, ps: seq<Packet<P>>, failed: set<Rank>): set<Rank> {
    s.queues.Keys + Inlets(ps) - failed
  }

  function AllQueued<P>(queues: map<Rank, seq<Packet<P>>>, slots: seq<Rank>): seq<Packet<P>> {
    if slots == [] then []
    else AllQueued(queues, slots[..|slots| - 1]) + QueueOf(queues, slots[|slots| - 1])
  }

  function NonEmpty<P>(queues: map<Rank, seq<Packet<P>>>): set<Rank> {
    set r | r in queues && queues[r] != []
  }

  function Flushed<P>(s: State<P>): State<P> {
    State(map r | r in s.queues :: [], s.ready - NonEmpty(s.queues))
  }

  // ---------------------------------------------------------------- one call, on values

  /** A call with packets, for a stream with the given children, None if the stream is unknown. */
  ghost function Arrived<P>(f: Timed<P>, timers: Timers, id: nat, ms: Word, ps: seq<Packet<P>>, failed: set<Rank>,
                            peers: Option<set<Rank>>): (Timed<P>, Timers, seq<Packet<P>>)
  {
    var living := Living(f.slots, ps, failed);
    var kept := Discarded(f.slots, living);
    if peers.None? then (Timed(kept, f.active), timers, [])
    else if IsBypass(ps) then (Timed(kept, f.active), timers, ps)
    else Collected(Timed(kept, f.active), timers, id, ms, ps, living, peers.value)
  }

  /** Placing the packets, arming the timer, and popping a wave if there is one. */
  ghost function Collected<P>(f: Timed<P>, timers: Timers, id: nat, ms: Word, ps: seq<Packet<P>>, living: set<Rank>,
                              peers: set<Rank>): (Timed<P>, Timers, seq<Packet<P>>)
  {
    var filled := Placed(f.slots, ps, living);
    var armed := if f.active then timers else Registered(timers, id, ms);
    if WaveComplete(filled, peers)
    then (Timed(Popped(filled), false), armed, Heads(filled.queues, Ascending(filled.queues.Keys)))
    else (Timed(filled, f.active || id !in timers), armed, [])
  }

  /** The topology-update stream takes every sender of a call for a peer. */
  function PeersSeen<P>(peers: Option<set<Rank>>, isTopology: bool, ps: seq<Packet<P>>): Option<set<Rank>> {
    if peers.Some? && isTopology then Some(peers.value + Inlets(ps)) else peers
  }

  /** A call without packets: the timer has run out and everything goes. */
  ghost function Fired<P>(f: Timed<P>, failed: set<Rank>): (Timed<P>, seq<Packet<P>>) {
    var kept := Discarded(f.slots, Living(f.slots, [], failed));
    (Timed(Flushed(kept), false), AllQueued(kept.queues, Ascending(kept.queues.Keys)))
  }

  /** What a call leaves and sends on; a node without a timer service has no timers. */
  datatype Outcome<P> = Outcome(filter: Timed<P>, timers: Option<Timers>, out: seq<Packet<P>>)

  /** Without a timer service the filter does as if a timer for its stream were running already. */
  ghost function Watched(timers: Option<Timers>, id: nat, ms: Word): Timers {
    if timers.Some? then timers.value else map[id := ms]
  }

  ghost function Pushed<P>(f: Timed<P>, timers: Option<Timers>, id: nat, ms: Word, ps: seq<Packet<P>>, failed: set<Rank>,
                           peers: Option<set<Rank>>): Outcome<P>
  {
    if ms == 0 then Outcome(f, timers, ps)
    else if ps == [] then Outcome(Fired(f, failed).0, timers, Fired(f, failed).1)
    else
      var (g, now, out) := Arrived(f, Watched(timers, id, ms), id, ms, ps, failed, peers);
      Outcome(g, if timers.Some? then Some(now) else None, out)
  }

  /** What is left of a call once the packets of failed nodes are gone. */
  ghost function Synchronized<P>(f: Timed<P>, timers: Option<Timers>, id: nat, ms: Word, ps: seq<Packet<P>>,
                                 living: set<Rank>, peers: Option<set<Rank>>): Outcome<P>
  {
    if ps == [] then
      Outcome(Timed(Flushed(f.slots), false), timers, AllQueued(f.slots.queues, Ascending(f.slots.queues.Keys)))
    else if peers.None? then Outcome(f, timers, [])
    else if IsBypass(ps) then Outcome(f, timers, ps)
    else
      var (g, now, out) := Collected(f, Watched(timers, id, ms), id, ms, ps, living, peers.value);
      Outcome(g, if timers.Some? then Some(now) else None, out)
  }

  lemma PushedInSteps<P>(f: Timed<P>, timers: Option<Timers>, id: nat, ms: Word, ps: seq<Packet<P>>, failed: set<Rank>,
                         peers: Option<set<Rank>>)
    requires ms != 0
    ensures var living := Living(f.slots, ps, failed);
            Pushed(f, timers, id, ms, ps, failed, peers)
              == Synchronized(Timed(Discarded(f.slots, living), f.active), timers, id, ms, ps, living, peers)
  {
  }

  lemma NothingToAsk<P>(ps: seq<Packet<P>>, peers: Option<set<Rank>>)
    requires ps == []
    ensures peers.Some? ==> Inlets(ps) - peers.value == {}
  {
  }

  ghost function TimersOf(keeper: TimeKeeper?): Option<Timers>
    reads keeper
  {
    if keeper == null then None else Some(keeper.timers)
  }

  ghost function HalfFlushed<P>(queues: map<Rank, seq<Packet<P>>>, left: set<Rank>): map<Rank, seq<Packet<P>>> {
    map r | r in queues :: if r in left then queues[r] else []
  }

  lemma HalfFlushedNext<P>(queues: map<Rank, seq<Packet<P>>>, left: set<Rank>, r: Rank)
    requires r in queues && r in left
    ensures HalfFlushed(queues, left - {r}) == HalfFlushed(queues, left)[r := []]
    ensures HalfFlushed(queues, left)[r] == queues[r]
  {
  }

  /** Half way through a flush: the slots in done have been emptied, in order, those in left not yet. */
  ghost predicate Flushing<P>(before: State<P>, left: set<Rank>, done: seq<Rank>, now: State<P>, out: seq<Packet<P>>) {
    && done + Ascending(left) == Ascending(before.queues.Keys)
    && out == AllQueued(before.queues, done)
    && now.queues == HalfFlushed(before.queues, left)
    && now.ready == HalfReady(before.ready, NonEmpty(before.queues), left)
  }

  lemma FlushNext<P>(before: State<P>, left: set<Rank>, done: seq<Rank>, now: State<P>, out: seq<Packet<P>>, r: Rank)
    requires Flushing(before, left, done, now, out) && IsLeast(r, left) && r in before.queues
    ensures r in now.queues && now.queues[r] == before.queues[r]
    ensures var all := now.queues[r];
            Flushing(before, left - {r}, done + [r],
                     State(now.queues[r := []], if all != [] then now.ready - {r} else now.ready), out + all)
  {
    AscendingNext(left, r, done);
    AllQueuedNext(before.queues, done, r);
    HalfReadyNext(before.ready, NonEmpty(before.queues), left, r);
    HalfFlushedNext(before.queues, left, r);
  }

  lemma AllQueuedNext<P>(queues: map<Rank, seq<Packet<P>>>, done: seq<Rank>, r: Rank)
    ensures AllQueued(queues, done + [r]) == AllQueued(queues, done) + QueueOf(queues, r)
  {
    assert (done + [r])[..|done|] == done;
  }

  lemma LivingIs<P>(s: State<P>, ps: seq<Packet<P>>, failed: set<Rank>, r: Rank)
    ensures QueueOf(Discarded(s, Living(s, ps, failed)).queues, r) == if r in failed then [] else QueueOf(s.queues, r)
    ensures (if r in Living(s, ps, failed) then From(ps, r) else []) == if r in failed then [] else From(ps, r)
  {
    if r !in Living(s, ps, failed) && r !in failed {
      NoneFrom(ps, r);
    }
  }

  lemma {:induction false} NoneFrom<P>(ps: seq<Packet<P>>, r: Rank)
    requires forall i :: 0 <= i < |ps| ==> ps[i].inlet != r
    ensures From(ps, r) == []
  {
    if ps != [] {
      NoneFrom(ps[..|ps| - 1], r);
    }
  }

  lemma RanksLeft<P>(s: State<P>, ps: seq<Packet<P>>, failed: set<Rank>)
    ensures forall r ::
      QueueOf(Discarded(s, Living(s, ps, failed)).queues, r) == if r in failed then [] else QueueOf(s.queues, r)
  {
    forall r ensures QueueOf(Discarded(s, Living(s, ps, failed)).queues, r) == if r in failed then [] else QueueOf(s.queues, r) {
      LivingIs(s, ps, failed, r);
    }
  }

  lemma FlushedExact<P>(s: State<P>)
    requires Exact(s)
    ensures Exact(Flushed(s)) && forall r :: QueueOf(Flushed(s).queues, r) == []
  {
  }

  lemma {:induction false} FlushedFrom<P>(queues: map<Rank, seq<Packet<P>>>, slots: seq<Rank>, r: Rank)
    requires forall x :: x in queues ==> OwnInlet(queues[x], x)
    requires Sorted(slots)
    ensures From(AllQueued(queues, slots), r) == if r in slots then QueueOf(queues, r) else []
  {
    if slots != [] {
      var front, last := slots[..|slots| - 1], slots[|slots| - 1];
      SortedInit(slots, r);
      FlushedFrom(queues, front, r);
      FlushedLast(queues, front, last, r);
      NothingAdded(QueueOf(queues, r));
    }
  }

  lemma NothingAdded<T>(s: seq<T>)
    ensures s + [] == s && [] + s == s
  {
  }

  lemma FlushedLast<P>(queues: map<Rank, seq<Packet<P>>>, front: seq<Rank>, last: Rank, r: Rank)
    requires OwnInlet(QueueOf(queues, last), last)
    ensures From(AllQueued(queues, front + [last]), r)
         == From(AllQueued(queues, front), r) + if last == r then QueueOf(queues, r) else []
  {
    AllQueuedNext(queues, front, last);
    FromSum(AllQueued(queues, front), QueueOf(queues, last), r);
    FromAll(QueueOf(queues, last), last, r);
  }

  // ---------------------------------------------------------------- what a call means

  lemma NothingReady<P>(s: State<P>)
    requires Exact(s) && forall r :: QueueOf(s.queues, r) == []
    ensures s.ready == {}
  {
    forall r ensures r !in s.ready {
      assert QueueOf(s.queues, r) == [];
    }
  }
  lemma CollectedIsStep<P>(f: Timed<P>, timers: Timers, id: nat, ms: Word, ps: seq<Packet<P>>, living: set<Rank>,
                           peers: set<Rank>)
    requires !(|ps| == 1 && ps[0].inlet == UNKNOWN_RANK)
    ensures var c := Call(ps, living, Some(peers));
            var (g, now, out) := Collected(Timed(Discarded(f.slots, living), f.active), timers, id, ms, ps, living, peers);
            var fires := |Filled(f.slots, c).ready| >= |peers|;
            && (g.slots, out) == Step(f.slots, c)
            && g.active == (!fires && (f.active || id !in timers))
            && now == if f.active || id in timers then timers else timers[id := ms]
  {
    StepOf(f.slots, Call(ps, living, Some(peers)));
  }

  /** The ranks a call waits for: the topology-update stream counts every sender as one of them. */
  ghost function Awaited<P>(peers: set<Rank>, isTopology: bool, ps: seq<Packet<P>>): set<Rank> {
    if isTopology then peers + (set i | 0 <= i < |ps| :: ps[i].inlet) else peers
  }

  /**
   * A call with packets, other than a single one of the node's own, for a known stream.  It is a wait-for-all call over
   * the ranks that have not failed; the timer is armed unless one is thought to be running, and thought to be running
   * until a wave goes out.
   */
  lemma ArrivalMeans<P>(f: Timed<P>, timers: Option<Timers>, id: nat, ms: Word, ps: seq<Packet<P>>, failed: set<Rank>,
                        peers: set<Rank>, isTopology: bool) returns (waiting: set<Rank>)
    requires ms != 0 && ps != [] && !(|ps| == 1 && ps[0].inlet == UNKNOWN_RANK) && Exact(f.slots)
    ensures forall r :: r in waiting <==> r !in failed && QueueOf(f.slots.queues, r) + From(ps, r) != []
    ensures var o := Pushed(f, timers, id, ms, ps, failed, PeersSeen(Some(peers), isTopology, ps));
            var fires := |waiting| >= |Awaited(peers, isTopology, ps)|;
      && Exact(o.filter.slots)
      && (forall i, j :: 0 <= i < j < |o.out| ==> o.out[i].inlet < o.out[j].inlet)
      && (forall r ::
            var held := if r in failed then [] else QueueOf(f.slots.queues, r) + From(ps, r);
            && From(o.out, r) == (if fires && held != [] then [held[0]] else [])
            && QueueOf(o.filter.slots.queues, r) == if fires && held != [] then held[1..] else held)
      && o.filter.active == (!fires && (f.active || (timers.Some? && id !in timers.value)))
      && (timers.None? ==> o.timers == None)
      && (timers.Some? ==>
            o.timers == Some(if f.active || id in timers.value then timers.value else timers.value[id := ms]))
  {
    var seen := Awaited(peers, isTopology, ps);
    assert PeersSeen(Some(peers), isTopology, ps) == Some(seen);
    var c := Call(ps, Living(f.slots, ps, failed), Some(seen));
    waiting := Filled(f.slots, c).ready;
    ArrivalIsStep(f, timers, id, ms, ps, failed, seen);
    StepExact(f.slots, c);
    StepAscends(f.slots, c);
    ArrivalAt(f.slots, ps, failed, seen);
  }

  lemma ArrivalIsStep<P>(f: Timed<P>, timers: Option<Timers>, id: nat, ms: Word, ps: seq<Packet<P>>, failed: set<Rank>,
                         seen: set<Rank>)
    requires ms != 0 && ps != [] && !(|ps| == 1 && ps[0].inlet == UNKNOWN_RANK)
    ensures var c := Call(ps, Living(f.slots, ps, failed), Some(seen));
            var o := Pushed(f, timers, id, ms, ps, failed, Some(seen));
            var fires := |Filled(f.slots, c).ready| >= |seen|;
            && (o.filter.slots, o.out) == Step(f.slots, c)
            && o.filter.active == (!fires && (f.active || (timers.Some? && id !in timers.value)))
            && (timers.None? ==> o.timers == None)
            && (timers.Some? ==>
                  o.timers == Some(if f.active || id in timers.value then timers.value else timers.value[id := ms]))
  {
    PushedInSteps(f, timers, id, ms, ps, failed, Some(seen));
    CollectedIsStep(f, Watched(timers, id, ms), id, ms, ps, Living(f.slots, ps, failed), seen);
  }

  lemma ArrivalAt<P>(s: State<P>, ps: seq<Packet<P>>, failed: set<Rank>, seen: set<Rank>)
    requires Exact(s) && !(|ps| == 1 && ps[0].inlet == UNKNOWN_RANK)
    ensures var c := Call(ps, Living(s, ps, failed), Some(seen));
            var (after, out) := Step(s, c);
            var waiting := Filled(s, c).ready;
            var fires := |waiting| >= |seen|;
            forall r ::
              var held := if r in failed then [] else QueueOf(s.queues, r) + From(ps, r);
              && (r in waiting <==> held != [])
              && From(out, r) == (if fires && held != [] then [held[0]] else [])
              && QueueOf(after.queues, r) == if fires && held != [] then held[1..] else held
  {
    var c := Call(ps, Living(s, ps, failed), Some(seen));
    var waiting := Filled(s, c).ready;
    forall r
      ensures var held := if r in failed then [] else QueueOf(s.queues, r) + From(ps, r);
        && (r in waiting <==> held != [])
        && From(Step(s, c).1, r) == (if |waiting| >= |seen| && held != [] then [held[0]] else [])
        && QueueOf(Step(s, c).0.queues, r) == if |waiting| >= |seen| && held != [] then held[1..] else held
    {
      HeldIs(s, ps, failed, r);
      StepMeansAt(s, c, r);
    }
  }

  lemma HeldIs<P>(s: State<P>, ps: seq<Packet<P>>, failed: set<Rank>, r: Rank)
    ensures (if r in Living(s, ps, failed) then QueueOf(s.queues, r) + From(ps, r) else [])
         == if r in failed then [] else QueueOf(s.queues, r) + From(ps, r)
  {
    LivingIs(s, ps, failed, r);
  }

  /** A call without packets: everything of the ranks that have not failed goes, and the timer is forgotten. */
  lemma ExpiryMeans<P>(f: Timed<P>, timers: Option<Timers>, id: nat, ms: Word, failed: set<Rank>, peers: Option<set<Rank>>)
    requires ms != 0 && Exact(f.slots)
    ensures var o := Pushed(f, timers, id, ms, [], failed, peers);
      && Exact(o.filter.slots) && o.filter.slots.ready == {} && !o.filter.active && o.timers == timers
      && (forall r ::
            && From(o.out, r) == (if r in failed then [] else QueueOf(f.slots.queues, r))
            && QueueOf(o.filter.slots.queues, r) == [])
      && (forall i, j :: 0 <= i < j < |o.out| ==> o.out[i].inlet <= o.out[j].inlet)
  {
    var kept := Discarded(f.slots, Living(f.slots, [], failed));
    DiscardedExact(f.slots, Living(f.slots, [], failed));
    FlushedExact(kept);
    NothingReady(Flushed(kept));
    AscendingIsSet(kept.queues.Keys);
    QueuedAscend(kept.queues, Ascending(kept.queues.Keys));
    forall r ensures From(AllQueued(kept.queues, Ascending(kept.queues.Keys)), r)
                  == if r in failed then [] else QueueOf(f.slots.queues, r)
    {
      LivingIs(f.slots, [], failed, r);
      FlushedFrom(kept.queues, Ascending(kept.queues.Keys), r);
    }
  }

  lemma {:induction false} QueuedAscend<P>(queues: map<Rank, seq<Packet<P>>>, slots: seq<Rank>)
    requires Sorted(slots) && forall x :: x in queues ==> OwnInlet(queues[x], x)
    ensures forall i, j :: 0 <= i < j < |AllQueued(queues, slots)| ==>
              AllQueued(queues, slots)[i].inlet <= AllQueued(queues, slots)[j].inlet
    ensures forall p :: p in AllQueued(queues, slots) ==> p.inlet in slots
  {
    if slots != [] {
      var front, last := slots[..|slots| - 1], slots[|slots| - 1];
      SortedInit(slots, last);
      QueuedAscend(queues, front);
      var a: seq<Packet<P>>, b: seq<Packet<P>> := AllQueued(queues, front), QueueOf(queues, last);
      assert forall p :: p in b ==> p.inlet == last;
      forall i, j | 0 <= i < j < |a + b| ensures (a + b)[i].inlet <= (a + b)[j].inlet {
        assert i < |a| ==> a[i] in a;
        assert j < |a| ==> a[j] in a;
      }
    }
  }

  // ---------------------------------------------------------------- the filter

  class TimeOutFilter<P> {
    const slots: Filter<P>
    var active: bool

    ghost function View(): Timed<P>
      reads this, slots
    {
      Timed(slots.View(), active)
    }

    constructor ()
      ensures View() == Timed(State(map[], {}), false) && fresh(slots)
    {
      slots := new Filter();
      active := false;
    }

    method FlushOne(r: Rank) returns (all: seq<Packet<P>>)
      requires r in slots.queues
      modifies slots
      ensures all == old(slots.queues)[r] && slots.queues == old(slots.queues)[r := []]
      ensures slots.ready == if all != [] then old(slots.ready) - {r} else old(slots.ready)
    {
      all := slots.queues[r];
      if all == [] {
        assert slots.queues[r := []] == slots.queues;
      } else {
        slots.queues := slots.queues[r := []];
        slots.ready := slots.ready - {r};
      }
    }

    method Flush() returns (opackets: seq<Packet<P>>)
      modifies slots
      ensures slots.View() == Flushed(old(slots.View()))
      ensures opackets == AllQueued(old(slots.queues), Ascending(old(slots.queues.Keys)))
    {
      opackets := [];
      var left := slots.queues.Keys;
      ghost var done: seq<Rank> := [];
      while left != {}
        invariant left <= old(slots.queues.Keys)
        invariant Flushing(old(slots.View()), left, done, slots.View(), opackets)
        decreases |left|
      {
        LeastExists(left);
        assert exists m :: IsLeast(m, left);
        var r :| r in left && forall x :: x in left ==> r <= x;
        SmallerWithout(left, r);
        FlushNext(old(slots.View()), left, done, slots.View(), opackets, r);
        var all := FlushOne(r);
        opackets := opackets + all;
        done := done + [r];
        left := left - {r};
      }
      assert done + [] == done;
    }

    method PlaceAll(ps: seq<Packet<P>>, living: set<Rank>)
      modifies slots
      ensures slots.View() == Placed(old(slots.View()), ps, living)
    {
      for i := 0 to |ps|
        invariant slots.View() == Placed(old(slots.View()), ps[..i], living)
      {
        slots.Place(ps[i], living);
        assert ps[..i + 1][..i] == ps[..i];
      }
      assert ps[..|ps|] == ps;
    }

    /** One call; `asked` are the ranks it asks the topology-update stream to take for peers. */
    method Push(ipackets: seq<Packet<P>>, id: nat, ms: Word, failed: set<Rank>, peers: Option<set<Rank>>,
                isTopology: bool, keeper: TimeKeeper?) returns (opackets: seq<Packet<P>>, asked: set<Rank>)
      requires keeper != null ==> keeper.Valid()
      modifies this, slots, keeper
      ensures keeper != null ==> keeper.Valid()
      ensures Outcome(View(), TimersOf(keeper), opackets)
        == Pushed(old(View()), old(TimersOf(keeper)), id, ms, ipackets, failed, PeersSeen(peers, isTopology, ipackets))
      ensures ms == 0 ==> opackets == ipackets && View() == old(View()) && TimersOf(keeper) == old(TimersOf(keeper))
      ensures ms != 0 && ipackets != [] && (peers.None? || (|ipackets| == 1 && ipackets[0].inlet == UNKNOWN_RANK)) ==>
        && opackets == (if peers.None? then [] else ipackets)
        && active == old(active) && TimersOf(keeper) == old(TimersOf(keeper))
        && forall r :: QueueOf(slots.queues, r) == if r in failed then [] else QueueOf(old(slots.queues), r)
      ensures asked == if isTopology && ms != 0 && peers.Some? && !IsBypass(ipackets)
                       then Inlets(ipackets) - peers.value else {}
    {
      asked := {};
      if ms == 0 {
        return ipackets, asked;
      }
      var living := Living(State(slots.queues, slots.ready), ipackets, failed);
      PushedInSteps(View(), TimersOf(keeper), id, ms, ipackets, failed, PeersSeen(peers, isTopology, ipackets));
      RanksLeft(View().slots, ipackets, failed);
      slots.DiscardFailed(living);
      opackets, asked := Synchronize(ipackets, id, ms, living, peers, isTopology, keeper);
    }

    /** The rest of a call, once the packets of failed nodes are gone. */
    method Synchronize(ipackets: seq<Packet<P>>, id: nat, ms: Word, living: set<Rank>, peers: Option<set<Rank>>,
                       isTopology: bool, keeper: TimeKeeper?) returns (opackets: seq<Packet<P>>, asked: set<Rank>)
      requires keeper != null ==> keeper.Valid()
      modifies this, slots, keeper
      ensures keeper != null ==> keeper.Valid()
      ensures Outcome(View(), TimersOf(keeper), opackets)
        == Synchronized(old(View()), old(TimersOf(keeper)), id, ms, ipackets, living, PeersSeen(peers, isTopology, ipackets))
      ensures asked == if isTopology && peers.Some? && !IsBypass(ipackets) then Inlets(ipackets) - peers.value else {}
    {
      opackets, asked := [], {};
      if ipackets == [] {
        active := false;
        opackets := Flush();
        NothingToAsk(ipackets, peers);
      } else if peers.Some? && IsBypass(ipackets) {
        opackets := ipackets;
      } else if peers.Some? {
        if isTopology {
          asked := Inlets(ipackets) - peers.value;
        }
        SeenTogether(peers, isTopology, ipackets, asked);
        opackets := Collect(ipackets, id, ms, living, peers.value + asked, keeper);
      }
    }

    /** The part of a call that takes packets in. */
    method Collect(ipackets: seq<Packet<P>>, id: nat, ms: Word, living: set<Rank>, seen: set<Rank>, keeper: TimeKeeper?)
      returns (opackets: seq<Packet<P>>)
      requires keeper != null ==> keeper.Valid()
      modifies this, slots, keeper
      ensures keeper != null ==> keeper.Valid()
      ensures var (g, now, out) :=
                Collected(old(View()), Watched(old(TimersOf(keeper)), id, ms), id, ms, ipackets, living, seen);
              View() == g && opackets == out && TimersOf(keeper) == if keeper == null then None else Some(now)
    {
      PlaceAll(ipackets, living);
      Arm(id, ms, keeper);
      if |slots.ready| < |seen| {
        return [];
      }
      active := false;
      opackets := slots.PopHeads();
    }

    /** Registers the stream's timer unless one is thought to be running. */
    method Arm(id: nat, ms: Word, keeper: TimeKeeper?)
      requires keeper != null ==> keeper.Valid()
      modifies `active, keeper
      ensures keeper != null ==> keeper.Valid()
      ensures active == (old(active) || id !in Watched(old(TimersOf(keeper)), id, ms))
      ensures keeper != null ==>
        keeper.timers == if old(active) then old(keeper.timers) else Registered(old(keeper.timers), id, ms)
    {
      if !active && keeper != null {
        var registered := keeper.RegisterTimeout(id, ms);
        active := registered;
      }
    }
  }

  lemma SmallerWithout(left: set<Rank>, r: Rank)
    requires r in left
    ensures |left - {r}| < |left|
  {
  }

  lemma SeenTogether<P>(peers: Option<set<Rank>>, isTopology: bool, ps: seq<Packet<P>>, asked: set<Rank>)
    requires peers.Some? && asked == if isTopology then Inlets(ps) - peers.value else {}
    ensures PeersSeen(peers, isTopology, ps) == Some(peers.value + asked)
  {
    assert peers.value + asked == if isTopology then peers.value + Inlets(ps) else peers.value;
  }
}
