/** Packets as the filters see them, and the rank order in which a filter walks its slots. */
module Packets {
  import opened Prelude

  // The inlet of a packet that was sourced locally.
  const UNKNOWN_RANK: Rank := 0xFFFF_FFFF

  datatype Packet<P> = Packet(inlet: Rank, payload: P)

  function Payloads<P>(ps: seq<Packet<P>>): seq<P> {
    seq(|ps|, i requires 0 <= i < |ps| => ps[i].payload)
  }

  /** The packets that came in from one rank, in order. */
  function From<P>(ps: seq<Packet<P>>, r: Rank): seq<Packet<P>> {
    if ps == [] then []
    else From(ps[..|ps| - 1], r) + (if ps[|ps| - 1].inlet == r then [ps[|ps| - 1]] else [])
  }

  lemma {:induction false} FromSum<P>(a: seq<Packet<P>>, b: seq<Packet<P>>, r: Rank)
    ensures From(a + b, r) == From(a, r) + From(b, r)
    decreases |b|
  {
    if b == [] {
      assert a + b == a;
    } else {
      assert (a + b)[..|a + b| - 1] == a + b[..|b| - 1];
      FromSum(a, b[..|b| - 1], r);
    }
  }

  lemma {:induction false} FromOnly<P>(ps: seq<Packet<P>>, r: Rank)
    ensures forall p :: p in From(ps, r) ==> p in ps && p.inlet == r
  {
    if ps != [] {
      FromOnly(ps[..|ps| - 1], r);
    }
  }

  lemma {:induction false} FromAll<P>(ps: seq<Packet<P>>, q: Rank, r: Rank)
    requires forall p :: p in ps ==> p.inlet == q
    ensures From(ps, r) == if q == r then ps else []
  {
    if ps != [] {
      FromAll(ps[..|ps| - 1], q, r);
      assert ps == ps[..|ps| - 1] + [ps[|ps| - 1]];
    }
  }

  // ---------------------------------------------------------------- ascending rank order

  ghost predicate IsLeast(m: Rank, s: set<Rank>) {
    m in s && forall x :: x in s ==> m <= x
  }

  ghost function Least(s: set<Rank>): (m: Rank)
    requires s != {}
    ensures IsLeast(m, s)
  {
    LeastExists(s);
    var m :| IsLeast(m, s);
    m
  }

  lemma {:induction false} LeastExists(s: set<Rank>)
    requires s != {}
    ensures exists m :: IsLeast(m, s)
  {
    var a :| a in s;
    var rest := s - {a};
    if rest == {} {
      assert forall x :: x in s ==> x == a || x in rest;
      assert IsLeast(a, s);
    } else {
      LeastExists(rest);
      var b :| IsLeast(b, rest);
      assert forall x :: x in s ==> x == a || x in rest;
      assert IsLeast(if a < b then a else b, s);
    }
  }

  /** The ranks of a set in ascending order, the order of a std::map keyed by rank. */
  ghost function Ascending(s: set<Rank>): seq<Rank> {
    if s == {} then [] else [Least(s)] + Ascending(s - {Least(s)})
  }

  lemma AscendingNext(left: set<Rank>, r: Rank, done: seq<Rank>)
    requires IsLeast(r, left)
    ensures done + Ascending(left) == done + [r] + Ascending(left - {r})
  {
    assert r == Least(left);
  }

  ghost predicate Sorted(q: seq<Rank>) {
    forall i, j :: 0 <= i < j < |q| ==> q[i] < q[j]
  }

  /** Taking the last slot off an ascending list. */
  lemma SortedInit(q: seq<Rank>, r: Rank)
    requires q != [] && Sorted(q)
    ensures Sorted(q[..|q| - 1]) && q == q[..|q| - 1] + [q[|q| - 1]]
    ensures r in q <==> r in q[..|q| - 1] || r == q[|q| - 1]
    ensures q[|q| - 1] !in q[..|q| - 1]
  {
  }

  lemma SortedCons(m: Rank, q: seq<Rank>)
    requires Sorted(q) && forall x :: x in q ==> m < x
    ensures Sorted([m] + q)
  {
    var all := [m] + q;
    forall i, j | 0 <= i < j < |all| ensures all[i] < all[j] {
      assert all[j] == q[j - 1] && q[j - 1] in q;
    }
  }

  lemma {:induction false} AscendingMembers(s: set<Rank>, r: Rank)
    ensures r in Ascending(s) <==> r in s
  {
    if s != {} && r != Least(s) {
      AscendingMembers(s - {Least(s)}, r);
    }
  }

  lemma {:induction false} AscendingIsSet(s: set<Rank>)
    ensures Sorted(Ascending(s)) && |Ascending(s)| == |s|
    ensures forall r :: r in Ascending(s) <==> r in s
  {
    forall r ensures r in Ascending(s) <==> r in s {
      AscendingMembers(s, r);
    }
    AscendingSorted(s);
  }

  lemma {:induction false} AscendingSorted(s: set<Rank>)
    ensures Sorted(Ascending(s)) && |Ascending(s)| == |s|
  {
    if s != {} {
      var m := Least(s);
      AscendingSorted(s - {m});
      forall x | x in Ascending(s - {m}) ensures m < x {
        AscendingMembers(s - {m}, x);
      }
      SortedCons(m, Ascending(s - {m}));
    }
  }
}
