/** The built-in reductions: sum, minimum, maximum and equivalence classes. */
module Reductions {
  import opened Packets
  import opened Algebra

  datatype NumType = CharT | UCharT | Int16T | UInt16T | Int32T | UInt32T | Int64T | UInt64T

  // Classes are three parallel arrays: a value per class, a member count per class, and all members,
  // class after class. Other stands for any payload the filter at hand does not understand.
  datatype Datum =
    | Number(ty: NumType, n: int)
    | Classes(values: seq<nat>, counts: seq<nat>, members: seq<nat>)
    | Other

  datatype Item = Item(stream: nat, tag: int, datum: Datum)

  /** What a filter makes: the stream and tag of its first input, no inlet yet. */
  function Reply(ps: seq<Packet<Item>>, d: Datum): Packet<Item>
    requires ps != []
  {
    Packet(UNKNOWN_RANK, Item(ps[0].payload.stream, ps[0].payload.tag, d))
  }

  // ---------------------------------------------------------------- machine arithmetic

  function Modulus(ty: NumType): int {
    match ty
    case CharT | UCharT => 0x100
    case Int16T | UInt16T => 0x1_0000
    case Int32T | UInt32T => 0x1_0000_0000
    case Int64T | UInt64T => 0x1_0000_0000_0000_0000
  }

  predicate Signed(ty: NumType) {
    ty.CharT? || ty.Int16T? || ty.Int32T? || ty.Int64T?
  }

  predicate InRange(ty: NumType, n: int) {
    if Signed(ty) then -Modulus(ty) <= 2 * n < Modulus(ty) else 0 <= n < Modulus(ty)
  }

  /** Keep the low bits of n and read them as a value of the type. */
  function Wrap(ty: NumType, n: int): (w: int)
    ensures InRange(ty, w)
  {
    var low := n % Modulus(ty);
    if Signed(ty) && 2 * low >= Modulus(ty) then low - Modulus(ty) else low
  }

  /**
   * What a sum of the type comes to, in numbers: v fits the type, differs from the total by a multiple of two to the
   * type's width, and is the total itself whenever that fits.
   */
  predicate IsMachineTotal(ty: NumType, total: int, v: int) {
    var (low, high, step) :=
      match ty
      case CharT => (-0x80, 0x7F, 0x100)
      case UCharT => (0, 0xFF, 0x100)
      case Int16T => (-0x8000, 0x7FFF, 0x1_0000)
      case UInt16T => (0, 0xFFFF, 0x1_0000)
      case Int32T => (-0x8000_0000, 0x7FFF_FFFF, 0x1_0000_0000)
      case UInt32T => (0, 0xFFFF_FFFF, 0x1_0000_0000)
      case Int64T => (-0x8000_0000_0000_0000, 0x7FFF_FFFF_FFFF_FFFF, 0x1_0000_0000_0000_0000)
      case UInt64T => (0, 0xFFFF_FFFF_FFFF_FFFF, 0x1_0000_0000_0000_0000);
    low <= v <= high && (total - v) % step == 0 && (low <= total <= high ==> v == total)
  }

  /** What the machine makes of a total. */
  lemma WrapMeans(ty: NumType, n: int)
    ensures IsMachineTotal(ty, n, Wrap(ty, n))
  {
    if InRange(ty, n) {
      WrapInRange(ty, n);
    }
    WrapDiffers(ty, n);
  }

  /** The numbers each type holds. */
  lemma TypeRanges(n: int)
    ensures InRange(CharT, n) <==> -0x80 <= n <= 0x7F
    ensures InRange(UCharT, n) <==> 0 <= n <= 0xFF
    ensures InRange(Int16T, n) <==> -0x8000 <= n <= 0x7FFF
    ensures InRange(UInt16T, n) <==> 0 <= n <= 0xFFFF
    ensures InRange(Int32T, n) <==> -0x8000_0000 <= n <= 0x7FFF_FFFF
    ensures InRange(UInt32T, n) <==> 0 <= n <= 0xFFFF_FFFF
    ensures InRange(Int64T, n) <==> -0x8000_0000_0000_0000 <= n <= 0x7FFF_FFFF_FFFF_FFFF
    ensures InRange(UInt64T, n) <==> 0 <= n <= 0xFFFF_FFFF_FFFF_FFFF
  {
  }

  lemma WrapDiffers(ty: NumType, n: int)
    ensures (n - Wrap(ty, n)) % Modulus(ty) == 0
  {
    var m := Modulus(ty);
    var k := if Signed(ty) && 2 * (n % m) >= m then n / m + 1 else n / m;
    assert n == (n / m) * m + n % m;
    assert n - Wrap(ty, n) == k * m + 0;
    ModUnique(k, 0, m);
  }

  lemma ModShift(a: int, m: int, k: int)
    requires m > 0
    ensures (a + k * m) % m == a % m
  {
    var q, r := a / m, a % m;
    assert a + k * m == (q + k) * m + r;
    ModUnique(q + k, r, m);
  }

  lemma ModUnique(q: int, r: int, m: int)
    requires 0 <= r < m
    ensures (q * m + r) % m == r
  {
    var x := q * m + r;
    var d := x / m;
    assert (d - q) * m == r - x % m;
    if d > q {
      MulAtLeast(d - q, m);
    } else if d < q {
      MulAtLeast(q - d, m);
    }
  }

  lemma MulAtLeast(k: int, m: int)
    requires k >= 1 && m > 0
    ensures k * m >= m
  {
  }

  /** Wrapping part of a sum early does not change the wrapped sum. */
  lemma WrapSum(ty: NumType, a: int, b: int)
    ensures Wrap(ty, Wrap(ty, a) + b) == Wrap(ty, a + b)
  {
    var m := Modulus(ty);
    var k := if Wrap(ty, a) < 0 then -1 - a / m else -(a / m);
    var low := a % m;
    assert a == (a / m) * m + low;
    assert Wrap(ty, a) + b == (a + b) + k * m by {
      if Signed(ty) && 2 * low >= m {
        assert k == -1 - a / m;
      } else {
        assert k == -(a / m);
      }
    }
    ModShift(a + b, m, k);
  }

  lemma WrapInRange(ty: NumType, n: int)
    requires InRange(ty, n)
    ensures Wrap(ty, n) == n
  {
    if n < 0 {
      ModUnique(-1, n + Modulus(ty), Modulus(ty));
    }
  }

  // ---------------------------------------------------------------- numbers

  predicate IsNumber(ty: NumType, item: Item) {
    item.datum.Number? && item.datum.ty == ty && InRange(ty, item.datum.n)
  }

  function NumberOf(item: Item): int {
    if item.datum.Number? then item.datum.n else 0
  }

  function NumbersOf(items: seq<Item>): seq<int> {
    seq(|items|, i requires 0 <= i < |items| => NumberOf(items[i]))
  }

  function Total(ns: seq<int>): int {
    if ns == [] then 0 else Total(ns[..|ns| - 1]) + ns[|ns| - 1]
  }

  predicate IsMinimum(m: int, ns: seq<int>) {
    m in ns && forall n :: n in ns ==> m <= n
  }

  predicate IsMaximum(m: int, ns: seq<int>) {
    m in ns && forall n :: n in ns ==> n <= m
  }

  /** The filters compare formats with strcmp and stop the program on a mismatch. */
  predicate Alike(ps: seq<Packet<Item>>) {
    && ps != []
    && (ps[0].payload.datum.Number? ==>
          forall i :: 0 <= i < |ps| ==> IsNumber(ps[0].payload.datum.ty, ps[i].payload))
  }

  method Sum(ipackets: seq<Packet<Item>>) returns (opackets: seq<Packet<Item>>)
    requires Alike(ipackets)
    ensures !ipackets[0].payload.datum.Number? ==> opackets == []
    ensures ipackets[0].payload.datum.Number? ==>
              var ty := ipackets[0].payload.datum.ty;
              opackets == [Reply(ipackets, Number(ty, Wrap(ty, Total(NumbersOf(Payloads(ipackets))))))]
    ensures opackets != [] ==>
              && opackets[0].inlet == UNKNOWN_RANK
              && opackets[0].payload.stream == ipackets[0].payload.stream && opackets[0].payload.tag == ipackets[0].payload.tag
    ensures ipackets[0].payload.datum.Number? ==>
              var ty, d := ipackets[0].payload.datum.ty, opackets[0].payload.datum;
              d.Number? && d.ty == ty && IsMachineTotal(ty, Total(NumbersOf(Payloads(ipackets))), d.n)
  {
    if !ipackets[0].payload.datum.Number? {
      return [];
    }
    var ty := ipackets[0].payload.datum.ty;
    var result := 0;
    ghost var ns := NumbersOf(Payloads(ipackets));
    for i := 0 to |ipackets|
      invariant result == Wrap(ty, Total(ns[..i]))
    {
      assert ns[..i + 1][..i] == ns[..i];
      WrapSum(ty, Total(ns[..i]), ns[i]);
      result := Wrap(ty, result + ipackets[i].payload.datum.n);
    }
    assert ns[..|ipackets|] == ns;
    WrapMeans(ty, Total(ns));
    opackets := [Reply(ipackets, Number(ty, result))];
  }

  method Min(ipackets: seq<Packet<Item>>) returns (opackets: seq<Packet<Item>>)
    requires Alike(ipackets)
    ensures !ipackets[0].payload.datum.Number? ==> opackets == []
    ensures ipackets[0].payload.datum.Number? ==>
              exists m :: IsMinimum(m, NumbersOf(Payloads(ipackets)))
                       && opackets == [Reply(ipackets, Number(ipackets[0].payload.datum.ty, m))]
    ensures opackets != [] ==>
              && opackets[0].inlet == UNKNOWN_RANK
              && opackets[0].payload.stream == ipackets[0].payload.stream && opackets[0].payload.tag == ipackets[0].payload.tag
  {
    if !ipackets[0].payload.datum.Number? {
      return [];
    }
    ghost var ns := NumbersOf(Payloads(ipackets));
    var result := ipackets[0].payload.datum.n;
    assert ns[..1] == [result];
    for i := 1 to |ipackets|
      invariant IsMinimum(result, ns[..i])
    {
      var n := ipackets[i].payload.datum.n;
      assert ns[..i + 1] == ns[..i] + [n];
      result := if result < n then result else n;
    }
    assert ns[..|ipackets|] == ns;
    opackets := [Reply(ipackets, Number(ipackets[0].payload.datum.ty, result))];
  }

  method Max(ipackets: seq<Packet<Item>>) returns (opackets: seq<Packet<Item>>)
    requires Alike(ipackets)
    ensures !ipackets[0].payload.datum.Number? ==> opackets == []
    ensures ipackets[0].payload.datum.Number? ==>
              exists m :: IsMaximum(m, NumbersOf(Payloads(ipackets)))
                       && opackets == [Reply(ipackets, Number(ipackets[0].payload.datum.ty, m))]
    ensures opackets != [] ==>
              && opackets[0].inlet == UNKNOWN_RANK
              && opackets[0].payload.stream == ipackets[0].payload.stream && opackets[0].payload.tag == ipackets[0].payload.tag
  {
    if !ipackets[0].payload.datum.Number? {
      return [];
    }
    ghost var ns := NumbersOf(Payloads(ipackets));
    var result := ipackets[0].payload.datum.n;
    assert ns[..1] == [result];
    for i := 1 to |ipackets|
      invariant IsMaximum(result, ns[..i])
    {
      var n := ipackets[i].payload.datum.n;
      assert ns[..i + 1] == ns[..i] + [n];
      result := if result > n then result else n;
    }
    assert ns[..|ipackets|] == ns;
    opackets := [Reply(ipackets, Number(ipackets[0].payload.datum.ty, result))];
  }

  // ---------------------------------------------------------------- the numeric reductions are lawful

  function Combined(items: seq<Item>, d: Datum): Item {
    if items == [] then Item(0, 0, d) else Item(items[0].stream, items[0].tag, d)
  }

  function Extreme(least: bool, ns: seq<int>): int {
    if ns == [] then 0 else Fold((a, b) => Pick(least, a, b), ns)
  }

  function Pick(least: bool, a: int, b: int): int {
    if least then (if a < b then a else b) else (if a > b then a else b)
  }

  function SumReduction(ty: NumType): Reduction<Item, int> {
    Reduction(item => IsNumber(ty, item),
              items => Combined(items, Number(ty, Wrap(ty, Total(NumbersOf(items))))),
              NumberOf,
              (a, b) => Wrap(ty, a + b))
  }

  /** The minimum filter when least, else the maximum filter. */
  function ExtremeReduction(ty: NumType, least: bool): Reduction<Item, int> {
    Reduction(item => IsNumber(ty, item),
              items => Combined(items, Number(ty, Extreme(least, NumbersOf(items)))),
              NumberOf,
              (a, b) => Pick(least, a, b))
  }

  lemma {:induction false} SumIsFold(ty: NumType, ns: seq<int>)
    requires ns != [] && forall n :: n in ns ==> InRange(ty, n)
    ensures Fold(SumReduction(ty).op, ns) == Wrap(ty, Total(ns))
  {
    if |ns| == 1 {
      assert ns[..0] == [];
      assert Total(ns) == ns[0];
      WrapInRange(ty, ns[0]);
    } else {
      SumIsFold(ty, ns[..|ns| - 1]);
      WrapSum(ty, Total(ns[..|ns| - 1]), ns[|ns| - 1]);
    }
  }

  lemma WrapAssociates(ty: NumType, a: int, b: int, c: int)
    ensures Wrap(ty, Wrap(ty, a + b) + c) == Wrap(ty, a + Wrap(ty, b + c))
  {
    WrapSum(ty, a + b, c);
    WrapSum(ty, b + c, a);
  }

  lemma SumCombines(ty: NumType, items: seq<Item>)
    requires items != [] && AllOk(SumReduction(ty), items)
    ensures SumReduction(ty).ok(SumReduction(ty).combine(items))
    ensures SumReduction(ty).value(SumReduction(ty).combine(items))
         == Fold(SumReduction(ty).op, Values(SumReduction(ty), items))
  {
    assert Values(SumReduction(ty), items) == NumbersOf(items);
    forall i | 0 <= i < |items| ensures InRange(ty, NumbersOf(items)[i]) {
      assert items[i] in items && SumReduction(ty).ok(items[i]);
    }
    SumIsFold(ty, NumbersOf(items));
  }

  lemma SumIsLawful(ty: NumType)
    ensures Lawful(SumReduction(ty))
  {
    var red := SumReduction(ty);
    forall a, b ensures Commutes(red.op, a, b) {
    }
    forall a, b, c ensures Associates(red.op, a, b, c) {
      WrapAssociates(ty, a, b, c);
    }
    forall items ensures Combines(red, items) {
      if items != [] && AllOk(red, items) {
        SumCombines(ty, items);
      }
    }
  }

  lemma {:induction false} ExtremeIsExtreme(least: bool, ns: seq<int>)
    requires ns != []
    ensures if least then IsMinimum(Extreme(least, ns), ns) else IsMaximum(Extreme(least, ns), ns)
  {
    if |ns| > 1 {
      ExtremeIsExtreme(least, ns[..|ns| - 1]);
      assert ns == ns[..|ns| - 1] + [ns[|ns| - 1]];
    }
  }

  /** What the minimum and maximum filters return is the value the reductions below combine to. */
  lemma ExtremeIsUnique(ns: seq<int>, m: int)
    requires ns != []
    ensures IsMinimum(m, ns) <==> m == Extreme(true, ns)
    ensures IsMaximum(m, ns) <==> m == Extreme(false, ns)
  {
    ExtremeIsExtreme(true, ns);
    ExtremeIsExtreme(false, ns);
  }

  lemma ExtremeCombines(ty: NumType, least: bool, items: seq<Item>)
    requires items != [] && AllOk(ExtremeReduction(ty, least), items)
    ensures ExtremeReduction(ty, least).ok(ExtremeReduction(ty, least).combine(items))
    ensures ExtremeReduction(ty, least).value(ExtremeReduction(ty, least).combine(items))
         == Fold(ExtremeReduction(ty, least).op, Values(ExtremeReduction(ty, least), items))
  {
    var ns := NumbersOf(items);
    assert Values(ExtremeReduction(ty, least), items) == ns;
    ExtremeIsExtreme(least, ns);
    var i :| 0 <= i < |ns| && ns[i] == Extreme(least, ns);
    assert items[i] in items && ExtremeReduction(ty, least).ok(items[i]);
  }

  lemma ExtremeIsLawful(ty: NumType, least: bool)
    ensures Lawful(ExtremeReduction(ty, least))
  {
    var red := ExtremeReduction(ty, least);
    forall items ensures Combines(red, items) {
      if items != [] && AllOk(red, items) {
        ExtremeCombines(ty, least, items);
      }
    }
  }
}
