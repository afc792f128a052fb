/** Timers of the local streams: how long each has left, and the shortest wait among them. */
module TimeKeeping {

  // unsigned int
  newtype Word = x | 0 <= x < 0x1_0000_0000

  /** The source's (int) conversion of an unsigned value. */
  function AsInt(w: Word): int {
    if w as int < 0x8000_0000 then w as int else w as int - 0x1_0000_0000
  }

  type Timers = map<nat, Word>

  /** low is the least of the default and all timers, compared as ints. */
  ghost predicate Shortest(low: int, defaultMs: int, timers: Timers) {
    && low <= defaultMs
    && (forall s :: s in timers ==> low <= AsInt(timers[s]))
    && (low == defaultMs || exists s :: s in timers && AsInt(timers[s]) == low)
  }

  // ---------------------------------------------------------------- the operations, on values

  function Left(timers: Timers, elapsed: Word): Timers {
    map s | s in timers && elapsed < timers[s] :: timers[s] - elapsed
  }

  function Expired(timers: Timers, elapsed: Word): set<nat> {
    set s | s in timers && timers[s] <= elapsed
  }

  function Registered(timers: Timers, s: nat, ms: Word): Timers {
    if s in timers then timers else timers[s := ms]
  }

  function Cleared(timers: Timers, low: int, s: nat): Timers {
    if s in timers && low == AsInt(timers[s]) then Left(timers - {s}, 0) else timers - {s}
  }

  // ---------------------------------------------------------------- the object

  class TimeKeeper {
    const defaultMs: int
    var minTimeout: int
    var timers: Timers

    /** The stored minimum is the shortest wait. */
    ghost predicate Valid()
      reads this
    {
      Shortest(minTimeout, defaultMs, timers)
    }

    constructor (defaultMs: int)
      ensures Valid() && timers == map[] && this.defaultMs == defaultMs
    {
      this.defaultMs := defaultMs;
      minTimeout := defaultMs;
      timers := map[];
    }

    method GetTimeout() returns (ms: int)
      requires Valid()
      ensures Shortest(ms, defaultMs, timers)
      ensures ms <= defaultMs
      ensures forall s :: s in timers ==>
        ms <= if timers[s] as int < 0x8000_0000 then timers[s] as int else timers[s] as int - 0x1_0000_0000
      ensures ms == defaultMs || exists s :: s in timers && ms % 0x1_0000_0000 == timers[s] as int
    {
      ms := minTimeout;
    }

    /** One stream's turn: drop its timer if it has run out, else subtract and keep the least. */
    method Tick(s: nat, elapsed: Word, low: int) returns (gone: bool, least: int)
      requires s in timers
      modifies this`timers
      ensures gone == (old(timers)[s] <= elapsed)
      ensures gone ==> timers == old(timers) - {s} && least == low
      ensures !gone ==> timers == old(timers)[s := old(timers)[s] - elapsed]
      ensures !gone ==> least == if AsInt(timers[s]) < low then AsInt(timers[s]) else low
    {
      gone, least := timers[s] <= elapsed, low;
      if gone {
        timers := timers - {s};
      } else {
        timers := timers[s := timers[s] - elapsed];
        if AsInt(timers[s]) < least {
          least := AsInt(timers[s]);
        }
      }
    }

    /** The body of the countdown's loop. */
    method TickOne(s: nat, elapsed: Word, expired: set<nat>, low: int, ghost before: Timers, ghost todo: set<nat>)
      returns (more: set<nat>, least: int)
      requires s in todo && s in before && Ticking(before, todo, elapsed, defaultMs, timers, expired, low)
      modifies this`timers
      ensures Ticking(before, todo - {s}, elapsed, defaultMs, timers, more, least)
    {
      TickNext(before, todo, elapsed, defaultMs, timers, expired, low, s);
      var gone;
      gone, least := Tick(s, elapsed, low);
      more := if gone then expired + {s} else expired;
    }

    method NotifyElapsed(elapsed: Word) returns (expired: set<nat>)
      modifies this
      ensures Valid()
      ensures timers == Left(old(timers), elapsed)
      ensures expired == Expired(old(timers), elapsed)
      ensures forall s :: s in expired <==> s in old(timers) && old(timers)[s] <= elapsed
      ensures timers.Keys == old(timers).Keys - expired
      ensures forall s :: s in timers ==> timers[s] == old(timers)[s] - elapsed
    {
      expired := {};
      var low := defaultMs;
      var todo := timers.Keys;
      while todo != {}
        invariant todo <= old(timers.Keys)
        invariant Ticking(old(timers), todo, elapsed, defaultMs, timers, expired, low)
        decreases |todo|
      {
        var s :| s in todo;
        expired, low := TickOne(s, elapsed, expired, low, old(timers), todo);
        todo := todo - {s};
      }
      TickingDone(old(timers), elapsed, defaultMs, timers, expired, low);
      minTimeout := low;
    }

    method RegisterTimeout(s: nat, ms: Word) returns (rc: bool)
      requires Valid()
      modifies this
      ensures Valid()
      ensures rc == (s !in old(timers)) && timers == Registered(old(timers), s, ms)
      ensures timers == if rc then old(timers)[s := ms] else old(timers)
    {
      rc := s !in timers;
      if rc {
        RegisterShortest(minTimeout, defaultMs, timers, s, ms);
        timers := timers[s := ms];
        if AsInt(ms) < minTimeout {
          minTimeout := AsInt(ms);
        }
      }
    }

    method ClearTimeout(s: nat) returns (rc: bool)
      requires Valid()
      modifies this
      ensures Valid()
      ensures rc == (s in old(timers)) && timers == Cleared(old(timers), old(minTimeout), s)
      ensures s !in timers && forall x :: x in timers ==> x in old(timers) && timers[x] == old(timers)[x]
      ensures forall x :: x in old(timers) && x != s && x !in timers ==> rc && old(timers)[x] == 0
    {
      rc := s in timers;
      if rc {
        var ms := timers[s];
        RemoveShortest(minTimeout, defaultMs, timers, s);
        timers := timers - {s};
        if minTimeout == AsInt(ms) {
          var dummy := NotifyElapsed(0);
        }
      }
    }
  }

  /** The timers once every stream outside todo has been brought up to date. */
  ghost function Halfway(timers: Timers, todo: set<nat>, elapsed: Word): Timers {
    map s | s in timers && (s in todo || elapsed < timers[s]) :: if s in todo then timers[s] else timers[s] - elapsed
  }

  lemma HalfwayNext(timers: Timers, todo: set<nat>, s: nat, elapsed: Word)
    requires s in timers && s in todo
    ensures s in Halfway(timers, todo, elapsed) && Halfway(timers, todo, elapsed)[s] == timers[s]
    ensures Halfway(timers, todo - {s}, elapsed)
         == if timers[s] <= elapsed then Halfway(timers, todo, elapsed) - {s}
            else Halfway(timers, todo, elapsed)[s := timers[s] - elapsed]
  {
  }

  /** Part way through a countdown: the streams in todo are still as they were. */
  ghost predicate Ticking(before: Timers, todo: set<nat>, elapsed: Word, defaultMs: int,
                          now: Timers, expired: set<nat>, low: int) {
    && now == Halfway(before, todo, elapsed)
    && expired == Expired(before, elapsed) - todo
    && Shortest(low, defaultMs, Left(before, elapsed) - todo)
  }

  lemma TickNext(before: Timers, todo: set<nat>, elapsed: Word, defaultMs: int,
                 now: Timers, expired: set<nat>, low: int, s: nat)
    requires Ticking(before, todo, elapsed, defaultMs, now, expired, low) && s in todo && s in before
    ensures s in now && now[s] == before[s]
    ensures now[s] <= elapsed ==>
              Ticking(before, todo - {s}, elapsed, defaultMs, now - {s}, expired + {s}, low)
    ensures now[s] > elapsed ==>
              var left := now[s] - elapsed;
              var least := if AsInt(left) < low then AsInt(left) else low;
              Ticking(before, todo - {s}, elapsed, defaultMs, now[s := left], expired, least)
  {
    HalfwayNext(before, todo, s, elapsed);
    ShortestNext(low, defaultMs, Left(before, elapsed), todo, s);
    ExpiredNext(before, todo, s, elapsed);
  }

  lemma TickingDone(before: Timers, elapsed: Word, defaultMs: int, now: Timers, expired: set<nat>, low: int)
    requires Ticking(before, {}, elapsed, defaultMs, now, expired, low)
    ensures now == Left(before, elapsed) && expired == Expired(before, elapsed) && Shortest(low, defaultMs, now)
    ensures now.Keys == before.Keys - expired
  {
    assert Left(before, elapsed) - {} == Left(before, elapsed);
  }

  lemma ExpiredNext(timers: Timers, todo: set<nat>, s: nat, elapsed: Word)
    requires s in timers && s in todo
    ensures Expired(timers, elapsed) - (todo - {s})
         == if timers[s] <= elapsed then Expired(timers, elapsed) - todo + {s} else Expired(timers, elapsed) - todo
  {
  }

  lemma ShortestNext(low: int, defaultMs: int, left: Timers, todo: set<nat>, s: nat)
    requires Shortest(low, defaultMs, left - todo) && s in todo
    ensures s !in left ==> Shortest(low, defaultMs, left - (todo - {s}))
    ensures s in left && AsInt(left[s]) < low ==> Shortest(AsInt(left[s]), defaultMs, left - (todo - {s}))
    ensures s in left && AsInt(left[s]) >= low ==> Shortest(low, defaultMs, left - (todo - {s}))
  {
    var before, after := left - todo, left - (todo - {s});
    assert forall x :: x in after <==> x in before || (x == s && s in left);
    if low != defaultMs {
      var x :| x in before && AsInt(before[x]) == low;
      assert x in after && AsInt(after[x]) == low;
    }
    if s in left {
      assert s in after && after[s] == left[s];
    }
  }

  lemma RegisterShortest(low: int, defaultMs: int, timers: Timers, s: nat, ms: Word)
    requires Shortest(low, defaultMs, timers) && s !in timers
    ensures Shortest(if AsInt(ms) < low then AsInt(ms) else low, defaultMs, timers[s := ms])
  {
    var after := timers[s := ms];
    assert after[s] == ms;
    if low != defaultMs {
      var x :| x in timers && AsInt(timers[x]) == low;
      assert AsInt(after[x]) == low;
    }
  }

  lemma RemoveShortest(low: int, defaultMs: int, timers: Timers, s: nat)
    requires Shortest(low, defaultMs, timers) && s in timers
    ensures low != AsInt(timers[s]) ==> Shortest(low, defaultMs, timers - {s})
  {
    if low != AsInt(timers[s]) && low != defaultMs {
      var x :| x in timers && AsInt(timers[x]) == low;
      assert x in timers - {s};
    }
  }

  // ---------------------------------------------------------------- clearing and other streams' timers

  /** Clearing leaves the other timers alone unless it recomputes while another timer stands at zero. */
  lemma ClearSparesOthersIff(timers: Timers, low: int, defaultMs: int, s: nat)
    requires Shortest(low, defaultMs, timers)
    ensures Cleared(timers, low, s) == timers - {s}
       <==> !(s in timers && low == AsInt(timers[s]) && exists x :: x in timers && x != s && timers[x] == 0)
  {
    var rest := timers - {s};
    if s in timers && low == AsInt(timers[s]) {
      if x :| x in timers && x != s && timers[x] == 0 {
        assert x in rest && x !in Left(rest, 0);
      } else {
        assert forall x :: x in rest ==> x in timers && x != s && timers[x] != 0;
        assert Left(rest, 0) == rest;
      }
    }
  }

  /** Two streams registered with nothing left to wait: clearing one silently forgets the other. */
  lemma ClearLosesAnExpiry()
    ensures var timers := Registered(Registered(map[], 1, 0), 2, 0);
            Shortest(0, 100, timers) && 2 in timers && 2 !in Cleared(timers, 0, 1)
  {
    var timers := Registered(Registered(map[], 1, 0), 2, 0);
    assert AsInt(timers[1]) == 0;
  }

  datatype Op = Elapse(ms: Word) | Register(s: nat, ms: Word) | Clear(s: nat)

  /** The effect of one operation, low being the shortest wait before it. */
  ghost function Apply(timers: Timers, low: int, op: Op): Timers {
    match op
    case Elapse(ms) => Left(timers, ms)
    case Register(s, ms) => Registered(timers, s, ms)
    case Clear(s) => Cleared(timers, low, s)
  }

  ghost function Low(defaultMs: int, timers: Timers): (low: int)
    ensures Shortest(low, defaultMs, timers)
  {
    LowExists(defaultMs, timers);
    var low :| Shortest(low, defaultMs, timers);
    low
  }

  lemma {:induction false} LowExists(defaultMs: int, timers: Timers)
    ensures exists low :: Shortest(low, defaultMs, timers)
    decreases |timers.Keys|
  {
    if timers == map[] {
      assert Shortest(defaultMs, defaultMs, timers);
    } else {
      var s :| s in timers;
      assert (timers - {s}).Keys == timers.Keys - {s};
      LowExists(defaultMs, timers - {s});
      var low :| Shortest(low, defaultMs, timers - {s});
      ShortestNext(low, defaultMs, timers, {s}, s);
      assert timers - ({s} - {s}) == timers;
    }
  }

  ghost function Run(defaultMs: int, ops: seq<Op>): Timers {
    if ops == [] then map[]
    else
      var before := Run(defaultMs, ops[..|ops| - 1]);
      Apply(before, Low(defaultMs, before), ops[|ops| - 1])
  }

  /** With only positive timeouts registered, no run leaves a timer at zero, so clearing never loses one. */
  lemma {:induction false} PositiveTimersStayPositive(defaultMs: int, ops: seq<Op>)
    requires forall op :: op in ops && op.Register? ==> op.ms > 0
    ensures forall s :: s in Run(defaultMs, ops) ==> Run(defaultMs, ops)[s] > 0
    ensures forall s :: Cleared(Run(defaultMs, ops), Low(defaultMs, Run(defaultMs, ops)), s) == Run(defaultMs, ops) - {s}
  {
    if ops != [] {
      PositiveTimersStayPositive(defaultMs, ops[..|ops| - 1]);
      assert ops[|ops| - 1] in ops;
    }
    var timers := Run(defaultMs, ops);
    forall s ensures Cleared(timers, Low(defaultMs, timers), s) == timers - {s} {
      ClearSparesOthersIff(timers, Low(defaultMs, timers), defaultMs, s);
    }
  }
}
