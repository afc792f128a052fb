/** What the tool receives at the front end from the built-in reductions. */
module FrontEndResults {
  import opened Prelude
  import opened Packets
  import opened Algebra
  import opened Reductions
  import opened EquivalenceClasses
  import opened EndToEnd
  import Delivery
  import Transposition

  ghost function TotalOver(vals: map<Rank, int>, s: set<Rank>): int
    requires s <= vals.Keys
  {
    if s == {} then 0 else vals[Least(s)] + TotalOver(vals, s - {Least(s)})
  }

  lemma {:induction false} FoldOfSums(ty: NumType, vals: map<Rank, int>, s: set<Rank>)
    requires s != {} && s <= vals.Keys && forall r :: r in s ==> InRange(ty, vals[r])
    ensures FoldSet(SumReduction(ty).op, vals, s) == Wrap(ty, TotalOver(vals, s))
  {
    var m := Least(s);
    if s == {m} {
      assert s - {m} == {};
      assert TotalOver(vals, s - {m}) == 0;
      WrapInRange(ty, vals[m]);
    } else {
      RestNotEmpty(s, m);
      FoldOfSums(ty, vals, s - {m});
      WrapSum(ty, TotalOver(vals, s - {m}), vals[m]);
    }
  }

  ghost predicate IsLowest(v: int, vals: map<Rank, int>, s: set<Rank>)
    requires s <= vals.Keys
  {
    (exists r :: r in s && vals[r] == v) && forall r :: r in s ==> v <= vals[r]
  }

  ghost predicate IsHighest(v: int, vals: map<Rank, int>, s: set<Rank>)
    requires s <= vals.Keys
  {
    (exists r :: r in s && vals[r] == v) && forall r :: r in s ==> vals[r] <= v
  }

  lemma {:induction false} FoldOfExtremes(ty: NumType, least: bool, vals: map<Rank, int>, s: set<Rank>)
    requires s != {} && s <= vals.Keys
    ensures var v := FoldSet(ExtremeReduction(ty, least).op, vals, s);
            if least then IsLowest(v, vals, s) else IsHighest(v, vals, s)
  {
    var m := Least(s);
    if s != {m} {
      RestNotEmpty(s, m);
      FoldOfExtremes(ty, least, vals, s - {m});
      assert forall r :: r in s ==> r == m || r in s - {m};
      assert m in s;
    }
  }

  lemma SumIsWrapped(sc: Scene<Item, int>, events: seq<Event<Item>>, n: Rank, k: nat, ty: NumType)
    requires sc.red == SumReduction(ty)
    requires ValidPlace(sc) && Legal(sc, events) && Delivery.Wanted(sc.t, sc.endPoints, n)
    requires k < |History(sc, Run(sc, events), n)|
    ensures EndsBelow(sc, n) <= Kth(sc, Run(sc, events), k).Keys
    ensures IsNumber(ty, History(sc, Run(sc, events), n)[k])
    ensures NumberOf(History(sc, Run(sc, events), n)[k])
         == Wrap(ty, TotalOver(Kth(sc, Run(sc, events), k), EndsBelow(sc, n)))
  {
    var net := Run(sc, events);
    SumIsLawful(ty);
    ResultIsFlatFold(sc, events, n, k);
    RunSound(sc, events);
    forall b | b in EndsBelow(sc, n) ensures InRange(ty, Kth(sc, net, k)[b]) {
      KthOk(sc, net, b, k);
    }
    FoldOfSums(ty, Kth(sc, net, k), EndsBelow(sc, n));
  }

  /** Sum: the machine-width total of every back end's k-th number, which is the plain total when that fits the type. */
  lemma SumAtFrontEnd(sc: Scene<Item, int>, events: seq<Event<Item>>, n: Rank, k: nat, ty: NumType)
    requires sc.red == SumReduction(ty)
    requires ValidPlace(sc) && Legal(sc, events) && Delivery.Wanted(sc.t, sc.endPoints, n)
    requires k < |History(sc, Run(sc, events), n)|
    ensures EndsBelow(sc, n) <= Kth(sc, Run(sc, events), k).Keys
    ensures IsNumber(ty, History(sc, Run(sc, events), n)[k])
    ensures NumberOf(History(sc, Run(sc, events), n)[k])
         == Wrap(ty, TotalOver(Kth(sc, Run(sc, events), k), EndsBelow(sc, n)))
    ensures IsMachineTotal(ty, TotalOver(Kth(sc, Run(sc, events), k), EndsBelow(sc, n)),
                           NumberOf(History(sc, Run(sc, events), n)[k]))
  {
    SumIsWrapped(sc, events, n, k, ty);
    WrapMeans(ty, TotalOver(Kth(sc, Run(sc, events), k), EndsBelow(sc, n)));
  }

  lemma KthOk<M>(sc: Scene<Item, M>, net: Net<Item>, b: Rank, k: nat)
    requires Sound(sc, net) && b in Kth(sc, net, k)
    ensures sc.red.ok(SentBy(net, b)[k])
  {
    assert SentBy(net, b)[k] in SentBy(net, b);
  }

  /** Minimum and maximum: the lowest, or highest, of every back end's k-th number. */
  lemma ExtremeAtFrontEnd(sc: Scene<Item, int>, events: seq<Event<Item>>, n: Rank, k: nat, ty: NumType, least: bool)
    requires sc.red == ExtremeReduction(ty, least)
    requires ValidPlace(sc) && Legal(sc, events) && Delivery.Wanted(sc.t, sc.endPoints, n)
    requires k < |History(sc, Run(sc, events), n)|
    ensures EndsBelow(sc, n) <= Kth(sc, Run(sc, events), k).Keys
    ensures IsNumber(ty, History(sc, Run(sc, events), n)[k])
    ensures var v := NumberOf(History(sc, Run(sc, events), n)[k]);
            if least then IsLowest(v, Kth(sc, Run(sc, events), k), EndsBelow(sc, n))
            else IsHighest(v, Kth(sc, Run(sc, events), k), EndsBelow(sc, n))
  {
    ExtremeIsLawful(ty, least);
    ResultIsFlatFold(sc, events, n, k);
    FoldOfExtremes(ty, least, Kth(sc, Run(sc, events), k), EndsBelow(sc, n));
  }

  ghost function UnionOver(vals: map<Rank, multiset<(nat, nat)>>, s: set<Rank>): multiset<(nat, nat)>
    requires s <= vals.Keys
  {
    if s == {} then multiset{} else vals[Least(s)] + UnionOver(vals, s - {Least(s)})
  }

  lemma {:induction false} FoldOfClasses(vals: map<Rank, multiset<(nat, nat)>>, s: set<Rank>)
    requires s != {} && s <= vals.Keys
    ensures FoldSet(ClassReduction().op, vals, s) == UnionOver(vals, s)
  {
    var m := Least(s);
    if s == {m} {
      assert s - {m} == {};
    } else {
      RestNotEmpty(s, m);
      FoldOfClasses(vals, s - {m});
    }
  }

  /** Whatever a node passes up, its filter has made. */
  lemma HistoryIsCombined<M>(sc: Scene<Item, M>, net: Net<Item>, n: Rank, k: nat) returns (items: seq<Item>)
    requires k < |History(sc, net, n)|
    ensures History(sc, net, n)[k] == sc.red.combine(items)
  {
    items := Payloads(Transposition.WavesOf(CallsOf(net, n))[k]);
  }

  /**
   Equivalence classes: the k-th result lists each value once, and under every value at once all
   members the back ends listed under it, with multiplicity.
   */
  lemma ClassesAtFrontEnd(sc: Scene<Item, multiset<(nat, nat)>>, events: seq<Event<Item>>, n: Rank, k: nat)
    requires sc.red == ClassReduction()
    requires ValidPlace(sc) && Legal(sc, events) && Delivery.Wanted(sc.t, sc.endPoints, n)
    requires k < |History(sc, Run(sc, events), n)|
    ensures EndsBelow(sc, n) <= Kth(sc, Run(sc, events), k).Keys
    ensures OnePerValue(History(sc, Run(sc, events), n)[k].datum)
    ensures var d, all := History(sc, Run(sc, events), n)[k].datum, UnionOver(Kth(sc, Run(sc, events), k), EndsBelow(sc, n));
            forall v, m :: Members(d, v)[m] == all[(v, m)]
  {
    var net := Run(sc, events);
    ClassesAreLawful();
    ResultIsFlatFold(sc, events, n, k);
    FoldOfClasses(Kth(sc, net, k), EndsBelow(sc, n));
    var items := HistoryIsCombined(sc, net, n, k);
    OneClassPerValue(items);
    forall v, m ensures Members(History(sc, net, n)[k].datum, v)[m] == UnionOver(Kth(sc, net, k), EndsBelow(sc, n))[(v, m)] {
      ListedMeans(History(sc, net, n)[k].datum, v, m);
    }
  }
}
