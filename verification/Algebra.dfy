/** Commutative folds over non-empty sequences and sets, and what makes a filter a reduction. */
module Algebra {
  import opened Prelude
  import opened Packets

  ghost predicate Commutes<M>(op: (M, M) -> M, a: M, b: M) {
    op(a, b) == op(b, a)
  }

  ghost predicate Associates<M>(op: (M, M) -> M, a: M, b: M, c: M) {
    op(op(a, b), c) == op(a, op(b, c))
  }

  ghost predicate CommutativeSemigroup<M(!new)>(op: (M, M) -> M) {
    && (forall a, b :: Commutes(op, a, b))
    && (forall a, b, c :: Associates(op, a, b, c))
  }

  function Fold<M>(op: (M, M) -> M, s: seq<M>): M
    requires s != []
  {
    if |s| == 1 then s[0] else op(Fold(op, s[..|s| - 1]), s[|s| - 1])
  }

  /** Fold of the values of a set of ranks, in ascending rank order. */
  ghost function FoldSet<M>(op: (M, M) -> M, vals: map<Rank, M>, s: set<Rank>): M
    requires s != {} && s <= vals.Keys
  {
    var m := Least(s);
    if s == {m} then vals[m] else RestNotEmpty(s, m); op(vals[m], FoldSet(op, vals, s - {m}))
  }

  lemma RestNotEmpty(s: set<Rank>, m: Rank)
    requires m in s && s != {m}
    ensures s - {m} != {}
  {
    assert s == (s - {m}) + {m};
  }

  /** Any member may be folded in last. */
  lemma {:induction false} FoldSetSplit<M(!new)>(op: (M, M) -> M, vals: map<Rank, M>, s: set<Rank>, x: Rank)
    requires CommutativeSemigroup(op)
    requires x in s && s != {x} && s <= vals.Keys
    ensures s - {x} != {} && FoldSet(op, vals, s) == op(vals[x], FoldSet(op, vals, s - {x}))
  {
    RestNotEmpty(s, x);
    var m := Least(s);
    if m != x {
      RestNotEmpty(s, m);
      var rest := s - {m};
      assert s - {x} - {m} == rest - {x};
      LeastOfRest(s, x);
      if rest == {x} {
        assert s == rest + {m};
        assert s - {x} == {m};
        assert Commutes(op, vals[m], vals[x]);
      } else {
        FoldSetSplit(op, vals, rest, x);
        assert s - {x} != {m} by {
          var y :| y in rest - {x};
          assert y in s - {x} && y != m;
        }
        Exchange(op, vals[m], vals[x], FoldSet(op, vals, rest - {x}));
      }
    }
  }

  lemma Exchange<M(!new)>(op: (M, M) -> M, a: M, b: M, c: M)
    requires CommutativeSemigroup(op)
    ensures op(a, op(b, c)) == op(b, op(a, c))
  {
    assert Associates(op, a, b, c) && Associates(op, b, a, c) && Commutes(op, a, b);
  }

  lemma LeastOfRest(s: set<Rank>, x: Rank)
    requires s != {} && Least(s) != x && s - {x} != {}
    ensures Least(s - {x}) == Least(s)
  {
    assert Least(s) in s - {x} && Least(s - {x}) in s;
    assert IsLeast(Least(s), s) && IsLeast(Least(s - {x}), s - {x});
  }

  lemma {:induction false} FoldSetUnion<M(!new)>(op: (M, M) -> M, vals: map<Rank, M>, a: set<Rank>, b: set<Rank>)
    requires CommutativeSemigroup(op)
    requires a != {} && b != {} && a !! b && a + b <= vals.Keys
    ensures FoldSet(op, vals, a + b) == op(FoldSet(op, vals, a), FoldSet(op, vals, b))
  {
    var m := Least(a);
    var rest := a - {m};
    assert a + b - {m} == rest + b;
    FoldSetSplit(op, vals, a + b, m);
    if a == {m} {
      assert rest + b == b;
    } else {
      RestNotEmpty(a, m);
      FoldSetUnion(op, vals, rest, b);
      assert Associates(op, vals[m], FoldSet(op, vals, rest), FoldSet(op, vals, b));
    }
  }

  /**
   * A filter that turns packets into one packet, with the abstract value each packet stands for.
   * `ok` says which packets the filter accepts.
   */
  datatype Reduction<!P, !M> = Reduction(ok: P -> bool, combine: seq<P> -> P, value: P -> M, op: (M, M) -> M)

  function Values<P, M>(red: Reduction<P, M>, ps: seq<P>): seq<M> {
    seq(|ps|, i requires 0 <= i < |ps| => red.value(ps[i]))
  }

  ghost predicate AllOk<P, M>(red: Reduction<P, M>, ps: seq<P>) {
    forall p :: p in ps ==> red.ok(p)
  }

  /** The combined packet is acceptable and stands for the fold of what its inputs stand for. */
  ghost predicate Combines<P, M>(red: Reduction<P, M>, ps: seq<P>) {
    ps != [] && AllOk(red, ps) ==>
      red.ok(red.combine(ps)) && red.value(red.combine(ps)) == Fold(red.op, Values(red, ps))
  }

  ghost predicate Lawful<P(!new), M(!new)>(red: Reduction<P, M>) {
    CommutativeSemigroup(red.op) && forall ps :: Combines(red, ps)
  }
}
