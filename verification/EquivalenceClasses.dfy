/** The integer equivalence-class filter: classes by value, merged level by level. */
module EquivalenceClasses {
  import opened Packets
  import opened Algebra
  import opened Reductions

  // ---------------------------------------------------------------- what three arrays mean

  /** Where the members of class j start. */
  function Offset(counts: seq<nat>, j: nat): nat
    requires j <= |counts|
  {
    if j == 0 then 0 else Offset(counts, j - 1) + counts[j - 1]
  }

  /** The arrays fit together; the filter reads out of bounds otherwise. */
  predicate WellFormed(d: Datum) {
    && d.Classes?
    && |d.values| == |d.counts|
    && Offset(d.counts, |d.counts|) <= |d.members|
  }

  lemma {:induction false} OffsetMonotone(counts: seq<nat>, i: nat, j: nat)
    requires i <= j <= |counts|
    ensures Offset(counts, i) <= Offset(counts, j)
  {
    if i < j {
      OffsetMonotone(counts, i, j - 1);
    }
  }

  function Slice(d: Datum, j: nat): seq<nat>
    requires WellFormed(d) && j < |d.values|
  {
    OffsetMonotone(d.counts, j + 1, |d.counts|);
    d.members[Offset(d.counts, j)..Offset(d.counts, j + 1)]
  }

  /** Every class's members, class by class. */
  function SlicesOf(d: Datum): seq<seq<nat>>
    requires WellFormed(d)
  {
    seq(|d.values|, j requires 0 <= j < |d.values| => Slice(d, j))
  }

  /** The members the first j classes list under value v, with multiplicity. */
  function MembersUpTo(values: seq<nat>, slices: seq<seq<nat>>, v: nat, j: nat): multiset<nat>
    requires j <= |values| == |slices|
  {
    if j == 0 then multiset{} else MembersUpTo(values, slices, v, j - 1) + Share(values[j - 1], slices[j - 1], v)
  }

  /** What a class of the given value contributes under value v. */
  function Share(value: nat, members: seq<nat>, v: nat): multiset<nat> {
    if value == v then multiset(members) else multiset{}
  }

  function Members(d: Datum, v: nat): multiset<nat> {
    if WellFormed(d) then MembersUpTo(d.values, SlicesOf(d), v, |d.values|) else multiset{}
  }

  /** Every (value, member) pair the classes list, with multiplicity. */
  function Listed(d: Datum): multiset<(nat, nat)> {
    if WellFormed(d) then ListedUpTo(d.values, SlicesOf(d), |d.values|) else multiset{}
  }

  function ListedUpTo(values: seq<nat>, slices: seq<seq<nat>>, j: nat): multiset<(nat, nat)>
    requires j <= |values| == |slices|
  {
    if j == 0 then multiset{} else ListedUpTo(values, slices, j - 1) + Tagged(values[j - 1], slices[j - 1])
  }

  function Tagged(v: nat, members: seq<nat>): multiset<(nat, nat)> {
    if members == [] then multiset{} else Tagged(v, members[..|members| - 1]) + multiset{(v, members[|members| - 1])}
  }

  lemma {:induction false} TaggedAt(v: nat, members: seq<nat>, w: nat, m: nat)
    ensures Tagged(v, members)[(w, m)] == Share(v, members, w)[m]
  {
    if members != [] {
      var front, last := members[..|members| - 1], members[|members| - 1];
      TaggedAt(v, front, w, m);
      SumAt(Tagged(v, front), multiset{(v, last)}, (w, m));
      ShareSnoc(v, members, w);
      SumAt(Share(v, front, w), Share(v, [last], w), m);
    }
  }

  lemma ShareSnoc(v: nat, ms: seq<nat>, w: nat)
    requires ms != []
    ensures Share(v, ms, w) == Share(v, ms[..|ms| - 1], w) + Share(v, [ms[|ms| - 1]], w)
  {
    assert ms == ms[..|ms| - 1] + [ms[|ms| - 1]];
  }

  lemma SumAt<T>(a: multiset<T>, b: multiset<T>, x: T)
    ensures (a + b)[x] == a[x] + b[x]
  {
  }

  lemma {:induction false} ListedAt(values: seq<nat>, slices: seq<seq<nat>>, j: nat, pair: (nat, nat))
    requires j <= |values| == |slices|
    ensures ListedUpTo(values, slices, j)[pair] == MembersUpTo(values, slices, pair.0, j)[pair.1]
  {
    if j > 0 {
      var i := j - 1;
      ListedAt(values, slices, i, pair);
      TaggedAt(values[i], slices[i], pair.0, pair.1);
      SumAt(ListedUpTo(values, slices, i), Tagged(values[i], slices[i]), pair);
      SumAt(MembersUpTo(values, slices, pair.0, i), Share(values[i], slices[i], pair.0), pair.1);
    }
  }

  /** A pair is listed as often as the member is listed under the value. */
  lemma ListedMeans(d: Datum, w: nat, m: nat)
    ensures Listed(d)[(w, m)] == Members(d, w)[m]
  {
    if WellFormed(d) {
      ListedAt(d.values, SlicesOf(d), |d.values|, (w, m));
    }
  }

  // ---------------------------------------------------------------- gathering classes by value

  function ListOf(classes: map<nat, seq<nat>>, v: nat): seq<nat> {
    if v in classes then classes[v] else []
  }

  function PushOne(classes: map<nat, seq<nat>>, v: nat, m: nat): map<nat, seq<nat>> {
    classes[v := ListOf(classes, v) + [m]]
  }

  function PushAll(classes: map<nat, seq<nat>>, v: nat, ms: seq<nat>): map<nat, seq<nat>> {
    if ms == [] then classes else PushOne(PushAll(classes, v, ms[..|ms| - 1]), v, ms[|ms| - 1])
  }

  function GatherUpTo(classes: map<nat, seq<nat>>, values: seq<nat>, slices: seq<seq<nat>>, j: nat): map<nat, seq<nat>>
    requires j <= |values| == |slices|
  {
    if j == 0 then classes else PushAll(GatherUpTo(classes, values, slices, j - 1), values[j - 1], slices[j - 1])
  }

  function Gathered(items: seq<Item>): map<nat, seq<nat>> {
    if items == [] then map[]
    else
      var before, d := Gathered(items[..|items| - 1]), items[|items| - 1].datum;
      if WellFormed(d) then GatherUpTo(before, d.values, SlicesOf(d), |d.values|) else before
  }

  // ---------------------------------------------------------------- writing the classes out again

  /** The arrays for the classes of the given values, in the given order. */
  function Rendered(classes: map<nat, seq<nat>>, slots: seq<nat>): Datum {
    Classes(slots, CountsOf(classes, slots), MembersOf(classes, slots))
  }

  function CountsOf(classes: map<nat, seq<nat>>, slots: seq<nat>): seq<nat> {
    if slots == [] then []
    else CountsOf(classes, slots[..|slots| - 1]) + [|ListOf(classes, slots[|slots| - 1])|]
  }

  function MembersOf(classes: map<nat, seq<nat>>, slots: seq<nat>): seq<nat> {
    if slots == [] then []
    else MembersOf(classes, slots[..|slots| - 1]) + ListOf(classes, slots[|slots| - 1])
  }

  ghost function ClassReduction(): Reduction<Item, multiset<(nat, nat)>> {
    Reduction((item: Item) => WellFormed(item.datum),
              items => Combined(items, Rendered(Gathered(items), Ascending(Gathered(items).Keys))),
              (item: Item) => Listed(item.datum),
              (a, b) => a + b)
  }

  lemma RenderNext(classes: map<nat, seq<nat>>, done: seq<nat>, v: nat)
    ensures CountsOf(classes, done + [v]) == CountsOf(classes, done) + [|ListOf(classes, v)|]
    ensures MembersOf(classes, done + [v]) == MembersOf(classes, done) + ListOf(classes, v)
  {
    assert (done + [v])[..|done|] == done;
  }

  method PushMembers(classes: map<nat, seq<nat>>, v: nat, ms: seq<nat>) returns (out: map<nat, seq<nat>>)
    ensures out == PushAll(classes, v, ms)
  {
    out := classes;
    for k := 0 to |ms|
      invariant out == PushAll(classes, v, ms[..k])
    {
      assert ms[..k + 1][..k] == ms[..k];
      out := PushOne(out, v, ms[k]);
    }
    assert ms[..|ms|] == ms;
  }

  method Gather(ipackets: seq<Packet<Item>>) returns (classes: map<nat, seq<nat>>)
    requires forall p :: p in ipackets ==> WellFormed(p.payload.datum)
    ensures classes == Gathered(Payloads(ipackets))
  {
    classes := map[];
    ghost var items := Payloads(ipackets);
    for i := 0 to |ipackets|
      invariant classes == Gathered(items[..i])
    {
      assert ipackets[i] in ipackets;
      classes := GatherOne(classes, ipackets[i].payload.datum);
      assert items[..i + 1][..i] == items[..i];
    }
    assert items[..|ipackets|] == items;
  }

  /** The inner loop: the classes of one packet. */
  method GatherOne(before: map<nat, seq<nat>>, d: Datum) returns (classes: map<nat, seq<nat>>)
    requires WellFormed(d)
    ensures classes == GatherUpTo(before, d.values, SlicesOf(d), |d.values|)
  {
    classes := before;
    var first: nat := 0;
    for j := 0 to |d.values|
      invariant Gathering(before, d, j, first, classes)
    {
      SliceStands(d, j, first);
      ghost var was := classes;
      classes := PushMembers(classes, d.values[j], d.members[first..first + d.counts[j]]);
      GatheringNext(before, d, j, first, was, classes);
      first := first + d.counts[j];
    }
  }

  /** The first j classes of d have been added, and the next one's members start at first. */
  ghost predicate Gathering(before: map<nat, seq<nat>>, d: Datum, j: nat, first: nat, classes: map<nat, seq<nat>>) {
    && WellFormed(d) && j <= |d.values| && first == Offset(d.counts, j)
    && classes == GatherUpTo(before, d.values, SlicesOf(d), j)
  }

  lemma GatheringNext(before: map<nat, seq<nat>>, d: Datum, j: nat, first: nat, classes: map<nat, seq<nat>>,
                      after: map<nat, seq<nat>>)
    requires Gathering(before, d, j, first, classes) && j < |d.values| && first + d.counts[j] <= |d.members|
    requires after == PushAll(classes, d.values[j], d.members[first..first + d.counts[j]])
    ensures Gathering(before, d, j + 1, first + d.counts[j], after)
  {
    SliceStands(d, j, first);
  }

  lemma SliceStands(d: Datum, j: nat, first: nat)
    requires WellFormed(d) && j < |d.values| && first == Offset(d.counts, j)
    ensures first + d.counts[j] == Offset(d.counts, j + 1) <= |d.members|
    ensures SlicesOf(d)[j] == d.members[first..first + d.counts[j]]
  {
    OffsetMonotone(d.counts, j + 1, |d.counts|);
  }

  /** Both output passes walk the map in value order; the source makes the same two. */
  method Render(classes: map<nat, seq<nat>>) returns (d: Datum)
    ensures d == Rendered(classes, Ascending(classes.Keys))
  {
    var values, counts := RenderCounts(classes);
    var members := RenderMembers(classes);
    d := Classes(values, counts, members);
  }

  method RenderCounts(classes: map<nat, seq<nat>>) returns (values: seq<nat>, counts: seq<nat>)
    ensures values == Ascending(classes.Keys) && counts == CountsOf(classes, values)
  {
    values, counts := [], [];
    var left := classes.Keys;
    while left != {}
      invariant left <= classes.Keys
      invariant values + Ascending(left) == Ascending(classes.Keys)
      invariant counts == CountsOf(classes, values)
      decreases |left|
    {
      LeastExists(left);
      assert exists m :: IsLeast(m, left);
      var v :| v in left && forall x :: x in left ==> v <= x;
      AscendingNext(left, v, values);
      RenderNext(classes, values, v);
      values, counts := values + [v], counts + [|classes[v]|];
      left := left - {v};
    }
    assert values + [] == values;
  }

  method RenderMembers(classes: map<nat, seq<nat>>) returns (members: seq<nat>)
    ensures members == MembersOf(classes, Ascending(classes.Keys))
  {
    members := [];
    var left := classes.Keys;
    ghost var done: seq<nat> := [];
    while left != {}
      invariant left <= classes.Keys
      invariant done + Ascending(left) == Ascending(classes.Keys)
      invariant members == MembersOf(classes, done)
      decreases |left|
    {
      LeastExists(left);
      assert exists m :: IsLeast(m, left);
      var v :| v in left && forall x :: x in left ==> v <= x;
      AscendingNext(left, v, done);
      RenderNext(classes, done, v);
      members := members + classes[v];
      done := done + [v];
      left := left - {v};
    }
    assert done + [] == done;
  }

  method IntEqClass(ipackets: seq<Packet<Item>>) returns (opackets: seq<Packet<Item>>)
    requires ipackets != [] && forall p :: p in ipackets ==> WellFormed(p.payload.datum)
    ensures |opackets| == 1 && opackets[0].inlet == UNKNOWN_RANK
    ensures opackets[0].payload.stream == ipackets[0].payload.stream && opackets[0].payload.tag == ipackets[0].payload.tag
    ensures opackets[0].payload == ClassReduction().combine(Payloads(ipackets))
  {
    var classes := Gather(ipackets);
    var d := Render(classes);
    opackets := [Reply(ipackets, d)];
  }

  // ---------------------------------------------------------------- nothing is lost or moved between classes

  lemma {:induction false} PushAllMembers(classes: map<nat, seq<nat>>, v: nat, ms: seq<nat>, w: nat)
    ensures HoldsMore(PushAll(classes, v, ms), classes, Share(v, ms, w), w)
  {
    if ms != [] {
      var front, last := ms[..|ms| - 1], ms[|ms| - 1];
      PushAllMembers(classes, v, front, w);
      PushOneMembers(PushAll(classes, v, front), v, last, w);
      HoldsBoth(classes, PushAll(classes, v, front), PushAll(classes, v, ms), Share(v, front, w), Share(v, [last], w), w);
      ShareSnoc(v, ms, w);
    }
  }

  lemma PushOneMembers(classes: map<nat, seq<nat>>, v: nat, m: nat, w: nat)
    ensures HoldsMore(PushOne(classes, v, m), classes, Share(v, [m], w), w)
  {
  }

  /** The later classes hold under w what the earlier ones do, and `more`. */
  ghost predicate HoldsMore(later: map<nat, seq<nat>>, earlier: map<nat, seq<nat>>, more: multiset<nat>, w: nat) {
    multiset(ListOf(later, w)) == multiset(ListOf(earlier, w)) + more
  }

  lemma HoldsBoth(a: map<nat, seq<nat>>, b: map<nat, seq<nat>>, c: map<nat, seq<nat>>, x: multiset<nat>, y: multiset<nat>, w: nat)
    requires HoldsMore(b, a, x, w) && HoldsMore(c, b, y, w)
    ensures HoldsMore(c, a, x + y, w)
  {
  }

  lemma {:induction false} GatherMembers(classes: map<nat, seq<nat>>, values: seq<nat>, slices: seq<seq<nat>>, j: nat, w: nat)
    requires j <= |values| == |slices|
    ensures HoldsMore(GatherUpTo(classes, values, slices, j), classes, MembersUpTo(values, slices, w, j), w)
  {
    if j > 0 {
      var before := GatherUpTo(classes, values, slices, j - 1);
      GatherMembers(classes, values, slices, j - 1, w);
      PushAllMembers(before, values[j - 1], slices[j - 1], w);
      HoldsBoth(classes, before, PushAll(before, values[j - 1], slices[j - 1]),
                MembersUpTo(values, slices, w, j - 1), Share(values[j - 1], slices[j - 1], w), w);
    }
  }

  /** What all the items list under v together. */
  function Together(items: seq<Item>, v: nat): multiset<nat> {
    if items == [] then multiset{}
    else Together(items[..|items| - 1], v) + Members(items[|items| - 1].datum, v)
  }

  lemma {:induction false} GatheredMembers(items: seq<Item>, v: nat)
    ensures multiset(ListOf(Gathered(items), v)) == Together(items, v)
  {
    if items != [] {
      var front, d := items[..|items| - 1], items[|items| - 1].datum;
      GatheredMembers(front, v);
      if WellFormed(d) {
        GatherMembers(Gathered(front), d.values, SlicesOf(d), |d.values|, v);
      }
    }
  }

  lemma {:induction false} FoldAt(items: seq<Item>, v: nat, m: nat)
    requires items != []
    ensures Fold(ClassReduction().op, Values(ClassReduction(), items))[(v, m)] == Together(items, v)[m]
  {
    var front, last := items[..|items| - 1], items[|items| - 1];
    ListedMeans(last.datum, v, m);
    if front != [] {
      FoldAt(front, v, m);
      assert Values(ClassReduction(), items)[..|items| - 1] == Values(ClassReduction(), front);
    }
  }

  lemma {:induction false} OffsetOfCounts(classes: map<nat, seq<nat>>, slots: seq<nat>)
    ensures |CountsOf(classes, slots)| == |slots|
    ensures Offset(CountsOf(classes, slots), |slots|) == |MembersOf(classes, slots)|
  {
    if slots != [] {
      var front := slots[..|slots| - 1];
      OffsetOfCounts(classes, front);
      OffsetPrefix(CountsOf(classes, front), [|ListOf(classes, slots[|slots| - 1])|], |front|);
    }
  }

  lemma {:induction false} OffsetPrefix(counts: seq<nat>, more: seq<nat>, j: nat)
    requires j <= |counts|
    ensures Offset(counts + more, j) == Offset(counts, j)
  {
    if j > 0 {
      OffsetPrefix(counts, more, j - 1);
    }
  }

  lemma {:induction false} MembersSnoc(values: seq<nat>, slices: seq<seq<nat>>, x: nat, ms: seq<nat>, v: nat, j: nat)
    requires j <= |values| == |slices|
    ensures MembersUpTo(values + [x], slices + [ms], v, j) == MembersUpTo(values, slices, v, j)
    ensures MembersUpTo(values + [x], slices + [ms], v, |values| + 1)
         == MembersUpTo(values + [x], slices + [ms], v, |values|) + Share(x, ms, v)
  {
    if j > 0 {
      MembersSnoc(values, slices, x, ms, v, j - 1);
    }
  }

  lemma SlicePrefix(a: Datum, b: Datum, j: nat)
    requires WellFormed(a) && WellFormed(b) && j < |a.values|
    requires a.values <= b.values && a.counts <= b.counts && a.members <= b.members
    ensures Slice(b, j) == Slice(a, j)
  {
    assert b.counts == a.counts + b.counts[|a.counts|..];
    OffsetPrefix(a.counts, b.counts[|a.counts|..], j);
    OffsetPrefix(a.counts, b.counts[|a.counts|..], j + 1);
    OffsetMonotone(a.counts, j + 1, |a.counts|);
  }

  lemma RenderedWellFormed(classes: map<nat, seq<nat>>, slots: seq<nat>)
    ensures WellFormed(Rendered(classes, slots))
  {
    OffsetOfCounts(classes, slots);
  }

  lemma TailOf(a: seq<nat>, b: seq<nat>)
    ensures (a + b)[|a|..|a| + |b|] == b
  {
  }

  lemma LastSlice(classes: map<nat, seq<nat>>, front: seq<nat>, last: nat)
    requires WellFormed(Rendered(classes, front + [last]))
    ensures Slice(Rendered(classes, front + [last]), |front|) == ListOf(classes, last)
  {
    var counts, ms := CountsOf(classes, front), ListOf(classes, last);
    RenderNext(classes, front, last);
    OffsetOfCounts(classes, front);
    OffsetPrefix(counts, [|ms|], |front|);
    assert Offset(counts + [|ms|], |front| + 1) == |MembersOf(classes, front)| + |ms|;
    TailOf(MembersOf(classes, front), ms);
  }

  lemma RenderedSlices(classes: map<nat, seq<nat>>, front: seq<nat>, last: nat)
    requires WellFormed(Rendered(classes, front)) && WellFormed(Rendered(classes, front + [last]))
    ensures SlicesOf(Rendered(classes, front + [last])) == SlicesOf(Rendered(classes, front)) + [ListOf(classes, last)]
  {
    var a, b := Rendered(classes, front), Rendered(classes, front + [last]);
    RenderNext(classes, front, last);
    LastSlice(classes, front, last);
    SlicesGrow(a, b, ListOf(classes, last));
  }

  lemma SlicesGrow(a: Datum, b: Datum, last: seq<nat>)
    requires WellFormed(a) && WellFormed(b) && |b.values| == |a.values| + 1
    requires a.values <= b.values && a.counts <= b.counts && a.members <= b.members
    requires Slice(b, |a.values|) == last
    ensures SlicesOf(b) == SlicesOf(a) + [last]
  {
    forall j | 0 <= j < |a.values| ensures SlicesOf(b)[j] == SlicesOf(a)[j] {
      SlicePrefix(a, b, j);
    }
  }

  lemma RenderedLast(classes: map<nat, seq<nat>>, front: seq<nat>, last: nat, v: nat)
    requires WellFormed(Rendered(classes, front)) && WellFormed(Rendered(classes, front + [last]))
    ensures Members(Rendered(classes, front + [last]), v)
         == Members(Rendered(classes, front), v) + Share(last, ListOf(classes, last), v)
  {
    RenderedSlices(classes, front, last);
    MembersSnoc(front, SlicesOf(Rendered(classes, front)), last, ListOf(classes, last), v, |front|);
  }

  /** What is written out under a value is what was gathered under it. */
  lemma {:induction false} RenderedMembers(classes: map<nat, seq<nat>>, slots: seq<nat>, v: nat)
    requires Sorted(slots)
    ensures WellFormed(Rendered(classes, slots))
    ensures Members(Rendered(classes, slots), v)
         == if v in slots then multiset(ListOf(classes, v)) else multiset{}
  {
    RenderedWellFormed(classes, slots);
    if slots != [] {
      var front, last := slots[..|slots| - 1], slots[|slots| - 1];
      RenderedMembers(classes, front, v);
      assert slots == front + [last];
      RenderedLast(classes, front, last, v);
    }
  }

  /** Under every value the output lists what the inputs list there, with multiplicity. */
  lemma CombinedMembers(items: seq<Item>, v: nat)
    ensures WellFormed(ClassReduction().combine(items).datum)
    ensures Members(ClassReduction().combine(items).datum, v) == Together(items, v)
  {
    var classes := Gathered(items);
    AscendingIsSet(classes.Keys);
    RenderedMembers(classes, Ascending(classes.Keys), v);
    GatheredMembers(items, v);
  }

  lemma CombinesClasses(items: seq<Item>)
    requires items != []
    ensures WellFormed(ClassReduction().combine(items).datum)
    ensures Listed(ClassReduction().combine(items).datum) == Fold(ClassReduction().op, Values(ClassReduction(), items))
  {
    var d, all := ClassReduction().combine(items).datum, Fold(ClassReduction().op, Values(ClassReduction(), items));
    CombinedMembers(items, 0);
    forall pair: (nat, nat) ensures Listed(d)[pair] == all[pair] {
      ListedMeans(d, pair.0, pair.1);
      CombinedMembers(items, pair.0);
      FoldAt(items, pair.0, pair.1);
    }
  }

  /** Merging classes merges what is listed under every value at once, with multiplicity. */
  lemma ClassesAreLawful()
    ensures Lawful(ClassReduction())
  {
    var red := ClassReduction();
    forall a, b ensures Commutes(red.op, a, b) {
      assert a + b == b + a;
    }
    forall a, b, c ensures Associates(red.op, a, b, c) {
      assert a + b + c == a + (b + c);
    }
    forall items ensures Combines(red, items) {
      if items != [] && AllOk(red, items) {
        CombinesClasses(items);
      }
    }
  }

  /** Each value stands once, in ascending order, with at least one member, and no member is left over. */
  ghost predicate OnePerValue(d: Datum) {
    && WellFormed(d) && Sorted(d.values)
    && Offset(d.counts, |d.counts|) == |d.members|
    && forall j :: 0 <= j < |d.counts| ==> d.counts[j] > 0
  }

  lemma OneClassPerValue(items: seq<Item>)
    ensures OnePerValue(ClassReduction().combine(items).datum)
  {
    var classes := Gathered(items);
    var slots := Ascending(classes.Keys);
    AscendingIsSet(classes.Keys);
    OffsetOfCounts(classes, slots);
    GatheredNonEmpty(items);
    CountsPositive(classes, slots);
  }

  lemma {:induction false} CountsPositive(classes: map<nat, seq<nat>>, slots: seq<nat>)
    requires forall v :: v in slots ==> v in classes && classes[v] != []
    ensures forall j :: 0 <= j < |CountsOf(classes, slots)| ==> CountsOf(classes, slots)[j] > 0
  {
    if slots != [] {
      CountsPositive(classes, slots[..|slots| - 1]);
    }
  }

  lemma {:induction false} GatheredNonEmpty(items: seq<Item>)
    ensures forall v :: v in Gathered(items) ==> Gathered(items)[v] != []
  {
    if items != [] {
      GatheredNonEmpty(items[..|items| - 1]);
      var d := items[|items| - 1].datum;
      if WellFormed(d) {
        GatherNonEmpty(Gathered(items[..|items| - 1]), d.values, SlicesOf(d), |d.values|);
      }
    }
  }

  lemma {:induction false} GatherNonEmpty(classes: map<nat, seq<nat>>, values: seq<nat>, slices: seq<seq<nat>>, j: nat)
    requires j <= |values| == |slices|
    requires forall v :: v in classes ==> classes[v] != []
    ensures forall v :: v in GatherUpTo(classes, values, slices, j) ==> GatherUpTo(classes, values, slices, j)[v] != []
  {
    if j > 0 {
      GatherNonEmpty(classes, values, slices, j - 1);
      PushNonEmpty(GatherUpTo(classes, values, slices, j - 1), values[j - 1], slices[j - 1]);
    }
  }

  lemma {:induction false} PushNonEmpty(classes: map<nat, seq<nat>>, v: nat, ms: seq<nat>)
    requires forall w :: w in classes ==> classes[w] != []
    ensures forall w :: w in PushAll(classes, v, ms) ==> PushAll(classes, v, ms)[w] != []
  {
    if ms != [] {
      PushNonEmpty(classes, v, ms[..|ms| - 1]);
    }
  }

  // ---------------------------------------------------------------- the order within a class

  /** The members the first j classes list under value v, in order. */
  function LineUpTo(values: seq<nat>, slices: seq<seq<nat>>, v: nat, j: nat): seq<nat>
    requires j <= |values| == |slices|
  {
    if j == 0 then [] else LineUpTo(values, slices, v, j - 1) + (if values[j - 1] == v then slices[j - 1] else [])
  }

  function Line(d: Datum, v: nat): seq<nat> {
    if WellFormed(d) then LineUpTo(d.values, SlicesOf(d), v, |d.values|) else []
  }

  /** What the items list under v, one item after another. */
  function Lines(items: seq<Item>, v: nat): seq<nat> {
    if items == [] then [] else Lines(items[..|items| - 1], v) + Line(items[|items| - 1].datum, v)
  }

  lemma {:induction false} PushAllLine(classes: map<nat, seq<nat>>, v: nat, ms: seq<nat>, w: nat)
    ensures ListOf(PushAll(classes, v, ms), w) == ListOf(classes, w) + (if v == w then ms else [])
  {
    if ms != [] {
      PushAllLine(classes, v, ms[..|ms| - 1], w);
      assert ms == ms[..|ms| - 1] + [ms[|ms| - 1]];
    }
  }

  lemma {:induction false} GatherLine(classes: map<nat, seq<nat>>, values: seq<nat>, slices: seq<seq<nat>>, j: nat, w: nat)
    requires j <= |values| == |slices|
    ensures ListOf(GatherUpTo(classes, values, slices, j), w) == ListOf(classes, w) + LineUpTo(values, slices, w, j)
  {
    if j > 0 {
      GatherLine(classes, values, slices, j - 1, w);
      PushAllLine(GatherUpTo(classes, values, slices, j - 1), values[j - 1], slices[j - 1], w);
    }
  }

  lemma {:induction false} GatheredLine(items: seq<Item>, v: nat)
    ensures ListOf(Gathered(items), v) == Lines(items, v)
  {
    if items != [] {
      var front, d := items[..|items| - 1], items[|items| - 1].datum;
      GatheredLine(front, v);
      if WellFormed(d) {
        GatherLine(Gathered(front), d.values, SlicesOf(d), |d.values|, v);
      }
    }
  }

  lemma {:induction false} LineSnoc(values: seq<nat>, slices: seq<seq<nat>>, x: nat, ms: seq<nat>, v: nat, j: nat)
    requires j <= |values| == |slices|
    ensures LineUpTo(values + [x], slices + [ms], v, j) == LineUpTo(values, slices, v, j)
  {
    if j > 0 {
      LineSnoc(values, slices, x, ms, v, j - 1);
    }
  }

  lemma LineLast(classes: map<nat, seq<nat>>, front: seq<nat>, last: nat, v: nat)
    requires WellFormed(Rendered(classes, front)) && WellFormed(Rendered(classes, front + [last]))
    ensures Line(Rendered(classes, front + [last]), v)
         == Line(Rendered(classes, front), v) + (if last == v then ListOf(classes, last) else [])
  {
    RenderedSlices(classes, front, last);
    LineSnoc(front, SlicesOf(Rendered(classes, front)), last, ListOf(classes, last), v, |front|);
  }

  lemma {:induction false} RenderedLine(classes: map<nat, seq<nat>>, slots: seq<nat>, v: nat)
    requires Sorted(slots)
    ensures Line(Rendered(classes, slots), v) == if v in slots then ListOf(classes, v) else []
  {
    RenderedWellFormed(classes, slots);
    if slots != [] {
      var front, last := slots[..|slots| - 1], slots[|slots| - 1];
      SortedInit(slots, v);
      RenderedWellFormed(classes, front);
      RenderedLine(classes, front, v);
      assert slots == front + [last];
      LineLast(classes, front, last, v);
    }
  }

  /** Under every value the members stand in the order of the packets, and in each packet's own order. */
  lemma ClassesKeepOrder(items: seq<Item>, v: nat)
    ensures Line(ClassReduction().combine(items).datum, v) == Lines(items, v)
  {
    var classes := Gathered(items);
    AscendingIsSet(classes.Keys);
    RenderedLine(classes, Ascending(classes.Keys), v);
    GatheredLine(items, v);
  }
}
