/**
 * The wait-for-all synchronization filter: one queue per child and a set of children that have
 * something queued. A wave goes out when as many children are ready as the stream has peers.
 */
module WaitForAll {
  import opened Prelude
  import opened Packets

  datatype State<P> = State(queues: map<Rank, seq<Packet<P>>>, ready: set<Rank>)

  // What one call sees: its packets, the nodes known and not failed, and the stream's child ranks,
  // or None when the stream lookup fails.
  datatype Call<P> = Call(inputs: seq<Packet<P>>, alive: set<Rank>, peers: Option<set<Rank>>)

  // ---------------------------------------------------------------- the specification of one call

  function QueueOf<P>(queues: map<Rank, seq<Packet<P>>>, r: Rank): seq<Packet<P>> {
    if r in queues then queues[r] else []
  }

  function Discarded<P>(s: State<P>, alive: set<Rank>): State<P> {
    State(map r | r in s.queues && r in alive :: s.queues[r], s.ready - (s.queues.Keys - alive))
  }

  function PlacedOne<P>(s: State<P>, p: Packet<P>, alive: set<Rank>): State<P> {
    if p.inlet !in alive then s
    else State(s.queues[p.inlet := QueueOf(s.queues, p.inlet) + [p]], s.ready + {p.inlet})
  }

  function Placed<P>(s: State<P>, ps: seq<Packet<P>>, alive: set<Rank>): State<P> {
    if ps == [] then s else PlacedOne(Placed(s, ps[..|ps| - 1], alive), ps[|ps| - 1], alive)
  }

  function Head<P>(q: seq<Packet<P>>): seq<Packet<P>> {
    if q == [] then [] else [q[0]]
  }

  function Tail<P>(q: seq<Packet<P>>): seq<Packet<P>> {
    if q == [] then [] else q[1..]
  }

  /** The head of every non-empty queue among the given slots, slot by slot. */
  function Heads<P>(queues: map<Rank, seq<Packet<P>>>, slots: seq<Rank>): seq<Packet<P>> {
    if slots == [] then []
    else Heads(queues, slots[..|slots| - 1]) + Head(QueueOf(queues, slots[|slots| - 1]))
  }

  function Emptied<P>(queues: map<Rank, seq<Packet<P>>>): set<Rank> {
    set r | r in queues && |queues[r]| == 1
  }

  function Popped<P>(s: State<P>): State<P> {
    State(map r | r in s.queues :: Tail(s.queues[r]), s.ready - Emptied(s.queues))
  }

  predicate Bypasses<P>(c: Call<P>) {
    |c.inputs| == 1 && c.inputs[0].inlet == UNKNOWN_RANK
  }

  predicate WaveComplete<P>(s: State<P>, peers: set<Rank>) {
    |s.ready| >= |peers|
  }

  ghost function Step<P>(s: State<P>, c: Call<P>): (State<P>, seq<Packet<P>>) {
    if c.peers.None? then (s, [])
    else if Bypasses(c) then (Discarded(s, c.alive), c.inputs)
    else
      var filled := Placed(Discarded(s, c.alive), c.inputs, c.alive);
      if WaveComplete(filled, c.peers.value)
      then (Popped(filled), Heads(filled.queues, Ascending(filled.queues.Keys)))
      else (filled, [])
  }

  /** The queues once the slots outside `left` have been popped. */
  ghost function HalfPopped<P>(queues: map<Rank, seq<Packet<P>>>, left: set<Rank>): map<Rank, seq<Packet<P>>> {
    map r | r in queues :: if r in left then queues[r] else Tail(queues[r])
  }

  lemma HalfPoppedNext<P>(queues: map<Rank, seq<Packet<P>>>, left: set<Rank>, r: Rank)
    requires r in queues && r in left
    ensures HalfPopped(queues, left - {r}) == HalfPopped(queues, left)[r := Tail(queues[r])]
    ensures HalfPopped(queues, left)[r] == queues[r]
  {
  }

  function HalfReady(ready: set<Rank>, emptied: set<Rank>, left: set<Rank>): set<Rank> {
    ready - (emptied - left)
  }

  lemma HalfReadyNext(ready: set<Rank>, emptied: set<Rank>, left: set<Rank>, r: Rank)
    requires r in left
    ensures HalfReady(ready, emptied, left - {r})
         == if r in emptied then HalfReady(ready, emptied, left) - {r} else HalfReady(ready, emptied, left)
  {
  }

  lemma HeadsNext<P>(queues: map<Rank, seq<Packet<P>>>, done: seq<Rank>, r: Rank)
    ensures Heads(queues, done + [r]) == Heads(queues, done) + Head(QueueOf(queues, r))
  {
    assert (done + [r])[..|done|] == done;
  }

  /** Half way through a wave: the slots in done have been popped, in order, those in left not yet. */
  ghost predicate Popping<P>(before: State<P>, left: set<Rank>, done: seq<Rank>, now: State<P>, out: seq<Packet<P>>) {
    && done + Ascending(left) == Ascending(before.queues.Keys)
    && out == Heads(before.queues, done)
    && now.queues == HalfPopped(before.queues, left)
    && now.ready == HalfReady(before.ready, Emptied(before.queues), left)
  }

  lemma PopNext<P>(before: State<P>, left: set<Rank>, done: seq<Rank>, now: State<P>, out: seq<Packet<P>>, r: Rank)
    requires Popping(before, left, done, now, out) && IsLeast(r, left) && r in before.queues
    ensures r in now.queues && now.queues[r] == before.queues[r]
    ensures var q := now.queues[r];
            Popping(before, left - {r}, done + [r],
                    State(now.queues[r := Tail(q)], if |q| == 1 then now.ready - {r} else now.ready), out + Head(q))
  {
    AscendingNext(left, r, done);
    HeadsNext(before.queues, done, r);
    HalfPoppedNext(before.queues, left, r);
    HalfReadyNext(before.ready, Emptied(before.queues), left, r);
  }

  // ---------------------------------------------------------------- the filter

  class Filter<P> {
    var queues: map<Rank, seq<Packet<P>>>
    var ready: set<Rank>

    ghost function View(): State<P>
      reads this
    {
      State(queues, ready)
    }

    constructor ()
      ensures View() == State(map[], {})
    {
      queues, ready := map[], {};
    }

    method DiscardFailed(alive: set<Rank>)
      modifies this
      ensures View() == Discarded(old(View()), alive)
    {
      var left := queues.Keys;
      while left != {}
        invariant left <= old(queues.Keys)
        invariant queues == map r | r in old(queues) && (r in left || r in alive) :: old(queues)[r]
        invariant ready == old(ready) - (old(queues.Keys) - left - alive)
        decreases |left|
      {
        var r :| r in left;
        if r !in alive {
          queues := queues - {r};
          ready := ready - {r};
        }
        left := left - {r};
      }
    }

    method Place(p: Packet<P>, alive: set<Rank>)
      modifies this
      ensures View() == PlacedOne(old(View()), p, alive)
    {
      if p.inlet !in alive {
        return;
      }
      if p.inlet !in queues {
        queues := queues[p.inlet := []];
      }
      queues := queues[p.inlet := queues[p.inlet] + [p]];
      ready := ready + {p.inlet};
    }

    method PopHead(r: Rank) returns (head: seq<Packet<P>>)
      requires r in queues
      modifies this
      ensures head == Head(old(queues)[r]) && queues == old(queues)[r := Tail(old(queues)[r])]
      ensures ready == if |old(queues)[r]| == 1 then old(ready) - {r} else old(ready)
    {
      if queues[r] == [] {
        assert queues[r := []] == queues;
        return [];
      }
      head := [queues[r][0]];
      queues := queues[r := queues[r][1..]];
      if queues[r] == [] {
        ready := ready - {r};
      }
    }

    method PopHeads() returns (opackets: seq<Packet<P>>)
      modifies this
      ensures View() == Popped(old(View()))
      ensures opackets == Heads(old(queues), Ascending(old(queues.Keys)))
    {
      opackets := [];
      var left := queues.Keys;
      ghost var done: seq<Rank> := [];
      while left != {}
        invariant left <= old(queues.Keys)
        invariant Popping(old(View()), left, done, View(), opackets)
        decreases |left|
      {
        LeastExists(left);
        assert exists m :: IsLeast(m, left);
        var r :| r in left && forall x :: x in left ==> r <= x;
        PopNext(old(View()), left, done, View(), opackets, r);
        var head := PopHead(r);
        opackets := opackets + head;
        done := done + [r];
        left := left - {r};
      }
      assert done + [] == done;
      assert queues == Popped(old(View())).queues;
    }

    /** One call.  A single packet from the node itself goes straight through; its queues are left alone but for failures. */
    method Push(ipackets: seq<Packet<P>>, alive: set<Rank>, peers: Option<set<Rank>>)
        returns (opackets: seq<Packet<P>>)
      requires ipackets != []
      modifies this
      ensures (View(), opackets) == Step(old(View()), Call(ipackets, alive, peers))
      ensures peers.None? ==> opackets == [] && queues == old(queues) && ready == old(ready)
      ensures peers.Some? && |ipackets| == 1 && ipackets[0].inlet == UNKNOWN_RANK ==>
        && opackets == ipackets
        && forall r :: QueueOf(queues, r) == if r in alive then QueueOf(old(queues), r) else []
    {
      opackets := [];
      if peers.None? {
        return;
      }
      DiscardFailed(alive);
      ghost var kept := View();
      var i := 0;
      while i < |ipackets|
        invariant i <= |ipackets|
        invariant View() == Placed(kept, ipackets[..i], alive)
        invariant i > 0 ==> !Bypasses(Call(ipackets, alive, peers))
      {
        if ipackets[i].inlet == UNKNOWN_RANK && |ipackets| == 1 {
          opackets := [ipackets[i]];
          assert ipackets[..0] == [];
          assert ipackets == opackets;
          return;
        }
        Place(ipackets[i], alive);
        SeqSnoc(ipackets, i);
        assert ipackets[..i + 1][..i] == ipackets[..i];
        i := i + 1;
      }
      assert ipackets[..i] == ipackets;
      if |ready| < |peers.value| {
        return;
      }
      opackets := PopHeads();
    }
  }
}
