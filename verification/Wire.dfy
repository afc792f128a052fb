/**
 * The byte form of packets: numbers in the sender's byte order, counted arrays and strings, no padding.
 * A decoder knows its own byte order and whether the sender's was different.
 */
module Wire {
  import opened Prelude

  type Byte = x: nat | x < 256

  const INT32_MAX: nat := 0x7FFF_FFFF
  const UINT32_MAX: nat := 0xFFFF_FFFF
  const UINT64_MAX: nat := 0xFFFF_FFFF_FFFF_FFFF

  // ---------------------------------------------------------------- numbers

  function Reverse(s: seq<Byte>): (r: seq<Byte>)
    ensures |r| == |s|
  {
    if s == [] then [] else [s[|s| - 1]] + Reverse(s[..|s| - 1])
  }

  function Pow256(w: nat): (p: nat)
    ensures p > 0
  {
    if w == 0 then 1 else 256 * Pow256(w - 1)
  }

  /** w bytes, least significant first. */
  function Little(n: nat, w: nat): (s: seq<Byte>)
    ensures |s| == w
  {
    if w == 0 then [] else [n % 256] + Little(n / 256, w - 1)
  }

  function FromLittle(s: seq<Byte>): (n: nat)
    ensures n < Pow256(|s|)
  {
    if s == [] then 0 else s[0] + 256 * FromLittle(s[1..])
  }

  /** What a machine of the given byte order stores for n in w bytes. */
  function Store(n: nat, w: nat, big: bool): (s: seq<Byte>)
    ensures |s| == w
  {
    if big then Reverse(Little(n, w)) else Little(n, w)
  }

  /** What a machine of the given byte order reads back from these bytes. */
  function Load(s: seq<Byte>, big: bool): (n: nat)
    ensures n < Pow256(|s|)
  {
    FromLittle(if big then Reverse(s) else s)
  }

  lemma {:induction false} LittleRoundTrip(n: nat, w: nat)
    requires n < Pow256(w)
    ensures FromLittle(Little(n, w)) == n
  {
    if w > 0 {
      LittleRoundTrip(n / 256, w - 1);
    }
  }

  lemma {:induction false} LittleOfLoad(s: seq<Byte>)
    ensures Little(FromLittle(s), |s|) == s
  {
    if s != [] {
      LittleOfLoad(s[1..]);
      Digits(s[0], FromLittle(s[1..]));
    }
  }

  lemma Digits(low: nat, high: nat)
    requires low < 256
    ensures (low + 256 * high) % 256 == low && (low + 256 * high) / 256 == high
  {
  }

  lemma {:induction false} ReverseSnoc(s: seq<Byte>, x: Byte)
    ensures Reverse([x] + s) == Reverse(s) + [x]
  {
    if s != [] {
      var all := [x] + s;
      assert all[..|all| - 1] == [x] + s[..|s| - 1];
      ReverseSnoc(s[..|s| - 1], x);
    }
  }

  lemma {:induction false} ReverseTwice(s: seq<Byte>)
    ensures Reverse(Reverse(s)) == s
  {
    if s != [] {
      ReverseTwice(s[..|s| - 1]);
      ReverseSnoc(Reverse(s[..|s| - 1]), s[|s| - 1]);
    }
  }

  lemma {:induction false} ReverseAt(s: seq<Byte>, j: nat)
    requires j < |s|
    ensures Reverse(s)[j] == s[|s| - 1 - j]
  {
    if j > 0 {
      ReverseAt(s[..|s| - 1], j - 1);
    }
  }

  /** A number survives between any two byte orders when the reader reverses the bytes of a foreign one. */
  lemma NumberRoundTrip(n: nat, w: nat, sender: bool, reader: bool)
    requires n < Pow256(w)
    ensures Load(if sender != reader then Reverse(Store(n, w, sender)) else Store(n, w, sender), reader) == n
  {
    LittleRoundTrip(n, w);
    ReverseTwice(Little(n, w));
  }

  // ---------------------------------------------------------------- element types

  datatype Base = CharB | UCharB | Int16B | UInt16B | Int32B | UInt32B | Int64B | UInt64B | FloatB | DoubleB | StringB

  datatype DataType = UnknownT | One(base: Base) | Array(base: Base) | Large(base: Base)

  /** The type a format token stands for. */
  function Fmt2Type(token: string): DataType {
    if token == "" then UnknownT
    else if token[0] == 'a' then (var b := BaseOf(token[1..]); if b.Some? then Array(b.value) else UnknownT)
    else if token[0] == 'A' then (var b := BaseOf(token[1..]); if b.Some? then Large(b.value) else UnknownT)
    else (var b := BaseOf(token); if b.Some? then One(b.value) else UnknownT)
  }

  function BaseOf(s: string): Option<Base> {
    if s == "c" then Some(CharB) else if s == "uc" then Some(UCharB)
    else if s == "hd" then Some(Int16B) else if s == "uhd" then Some(UInt16B)
    else if s == "d" then Some(Int32B) else if s == "ud" then Some(UInt32B)
    else if s == "ld" then Some(Int64B) else if s == "uld" then Some(UInt64B)
    else if s == "f" then Some(FloatB) else if s == "lf" then Some(DoubleB)
    else if s == "s" then Some(StringB) else None
  }

  predicate IsDelimiter(c: char) {
    c == ' ' || c == '\t' || c == '\n' || c == '%'
  }

  /** Where the run of characters starting at i ends that all are, or all are not, delimiters. */
  function RunEnd(s: string, i: nat, delimiters: bool): (j: nat)
    requires i <= |s|
    ensures i <= j <= |s|
    ensures forall k :: i <= k < j ==> IsDelimiter(s[k]) == delimiters
    ensures j < |s| ==> IsDelimiter(s[j]) != delimiters
    decreases |s| - i
  {
    if i < |s| && IsDelimiter(s[i]) == delimiters then RunEnd(s, i + 1, delimiters) else i
  }

  /** The tokens of a format: the maximal runs of other characters between delimiters. */
  function Tokens(s: string): seq<string>
    decreases |s|
  {
    var i := RunEnd(s, 0, true);
    if i == |s| then []
    else
      var j := RunEnd(s, i, false);
      [s[i..j]] + Tokens(s[j..])
  }

  /** A format as applications write it: every token behind a percent sign, spaces between. */
  function Format(tokens: seq<string>): string {
    if tokens == [] then "" else "%" + tokens[0] + " " + Format(tokens[1..])
  }

  predicate IsToken(t: string) {
    t != "" && forall k :: 0 <= k < |t| ==> !IsDelimiter(t[k])
  }

  lemma {:induction false} RunEndIs(s: string, i: nat, j: nat, delimiters: bool)
    requires i <= j <= |s|
    requires forall k :: i <= k < j ==> IsDelimiter(s[k]) == delimiters
    requires j < |s| ==> IsDelimiter(s[j]) != delimiters
    ensures RunEnd(s, i, delimiters) == j
    decreases j - i
  {
    if i < j {
      RunEndIs(s, i + 1, j, delimiters);
    }
  }

  /** The first token and the rest. */
  lemma FirstToken(s: string, i: nat, j: nat)
    requires i < |s| && RunEnd(s, 0, true) == i && RunEnd(s, i, false) == j
    ensures Tokens(s) == [s[i..j]] + Tokens(s[j..])
  {
  }

  lemma Shifted(d: char, s: string, i: nat, j: nat)
    requires i <= j <= |s|
    ensures ([d] + s)[i + 1..j + 1] == s[i..j] && ([d] + s)[j + 1..] == s[j..]
  {
  }

  lemma SkipDelimiter(d: char, s: string)
    requires IsDelimiter(d)
    ensures Tokens([d] + s) == Tokens(s)
  {
    var i := RunEnd(s, 0, true);
    RunEndIs([d] + s, 0, i + 1, true);
    if i < |s| {
      var j := RunEnd(s, i, false);
      RunEndIs([d] + s, i + 1, j + 1, false);
      FirstToken(s, i, j);
      FirstToken([d] + s, i + 1, j + 1);
      Shifted(d, s, i, j);
    }
  }

  lemma TokenThen(t: string, s: string)
    requires IsToken(t) && s != "" && IsDelimiter(s[0])
    ensures Tokens(t + s) == [t] + Tokens(s)
  {
    var all := t + s;
    RunEndIs(all, 0, 0, true);
    RunEndIs(all, 0, |t|, false);
    assert all[0..|t|] == t && all[|t|..] == s;
  }

  lemma TokenBetween(d: char, t: string, e: char, rest: string)
    requires IsDelimiter(d) && IsDelimiter(e) && IsToken(t)
    ensures Tokens([d] + t + [e] + rest) == [t] + Tokens(rest)
  {
    SkipDelimiter(e, rest);
    TokenThen(t, [e] + rest);
    SkipDelimiter(d, t + ([e] + rest));
    Chain([d], t, [e], rest);
  }

  lemma Chain(a: string, b: string, c: string, d: string)
    ensures a + b + c + d == a + (b + (c + d))
  {
  }

  lemma NoTokens(s: string)
    requires s == ""
    ensures Tokens(s) == []
  {
  }

  /** Every list of tokens can be written as a format, and the format is cut into just those tokens. */
  lemma {:induction false} TokensBack(tokens: seq<string>)
    requires forall i :: 0 <= i < |tokens| ==> IsToken(tokens[i])
    ensures Tokens(Format(tokens)) == tokens
  {
    if tokens == [] {
      NoTokens(Format(tokens));
    } else {
      TokensBack(tokens[1..]);
      TokenBetween('%', tokens[0], ' ', Format(tokens[1..]));
    }
  }

  function TokenTypes(tokens: seq<string>): seq<DataType> {
    seq(|tokens|, i requires 0 <= i < |tokens| => Fmt2Type(tokens[i]))
  }

  function Types(fmt: string): seq<DataType> {
    TokenTypes(Tokens(fmt))
  }

  /** Bytes of one element; strings are counted instead. */
  function Width(b: Base): (w: nat)
    ensures w > 0
  {
    match b
    case CharB | UCharB => 1
    case Int16B | UInt16B => 2
    case Int32B | UInt32B | FloatB => 4
    case Int64B | UInt64B | DoubleB => 8
    case StringB => 4
  }

  /** The most elements an array of this type may have. */
  function Limit(ty: DataType): nat {
    if ty.Large? then UINT64_MAX else INT32_MAX
  }

  // ---------------------------------------------------------------- values

  // Numbers of every type, floating point included, are their bit patterns read as unsigned.
  datatype Value = Num(n: nat) | Text(s: seq<Byte>) | Nums(ns: seq<nat>) | Texts(ss: seq<seq<Byte>>)

  /** A C string, short enough to be counted with its terminator. */
  predicate TextOk(s: seq<Byte>) {
    0 !in s && |s| + 1 <= UINT32_MAX - 1
  }

  /** The value is one of the type, within the limits the encoder checks. */
  predicate Fits(ty: DataType, v: Value) {
    match ty
    case UnknownT => false
    case One(b) => if b.StringB? then v.Text? && TextOk(v.s) else v.Num? && v.n < Pow256(Width(b))
    case _ =>
      if ty.base.StringB? then v.Texts? && |v.ss| <= Limit(ty) && forall s :: s in v.ss ==> TextOk(s)
      else v.Nums? && |v.ns| <= Limit(ty) && forall n :: n in v.ns ==> n < Pow256(Width(ty.base))
  }

  predicate AllFit(types: seq<DataType>, vals: seq<Value>) {
    |vals| == |types| && forall i :: 0 <= i < |types| ==> Fits(types[i], vals[i])
  }

  // ---------------------------------------------------------------- encoding

  function TextBytes(s: seq<Byte>, big: bool): seq<Byte> {
    Store(|s| + 1, 4, big) + (s + [0])
  }

  function NumsBytes(ns: seq<nat>, w: nat, big: bool): seq<Byte> {
    if ns == [] then [] else NumsBytes(ns[..|ns| - 1], w, big) + Store(ns[|ns| - 1], w, big)
  }

  function TextsBytes(ss: seq<seq<Byte>>, big: bool): seq<Byte> {
    if ss == [] then [] else TextsBytes(ss[..|ss| - 1], big) + TextBytes(ss[|ss| - 1], big)
  }

  function ValueBytes(ty: DataType, v: Value, big: bool): seq<Byte>
    requires Fits(ty, v)
  {
    match v
    case Num(n) => Store(n, Width(ty.base), big)
    case Text(s) => TextBytes(s, big)
    case Nums(ns) => Store(|ns|, 8, big) + NumsBytes(ns, Width(ty.base), big)
    case Texts(ss) => Store(|ss|, 8, big) + TextsBytes(ss, big)
  }

  function DataBytes(types: seq<DataType>, vals: seq<Value>, big: bool): seq<Byte>
    requires AllFit(types, vals)
  {
    if types == [] then []
    else
      var n := |types| - 1;
      DataBytes(types[..n], vals[..n], big) + ValueBytes(types[n], vals[n], big)
  }

  // ---------------------------------------------------------------- decoding

  datatype Parsed<T> = Parsed(value: T, rest: seq<Byte>) | Malformed

  // A reading machine: its own byte order and whether the bytes come from one of the other order.
  datatype Reader = Reader(big: bool, swap: bool)

  function Number(s: seq<Byte>, w: nat, m: Reader): Parsed<nat> {
    if |s| < w then Malformed
    else Parsed(Load(if m.swap then Reverse(s[..w]) else s[..w], m.big), s[w..])
  }

  /** What a C program sees of these bytes as a string. */
  function UpToNul(s: seq<Byte>): (x: seq<Byte>)
    ensures x <= s && 0 !in x && (|x| < |s| ==> s[|x|] == 0)
  {
    if s == [] || s[0] == 0 then [] else [s[0]] + UpToNul(s[1..])
  }

  function String(s: seq<Byte>, m: Reader): Parsed<seq<Byte>> {
    match Number(s, 4, m)
    case Malformed => Malformed
    case Parsed(count, rest) =>
      if count == 0 || |rest| < count then Malformed else Parsed(UpToNul(rest[..count]), rest[count..])
  }

  function Numbers(s: seq<Byte>, count: nat, w: nat, m: Reader): (p: Parsed<seq<nat>>)
    ensures p.Parsed? ==> |p.value| == count
  {
    if count == 0 then Parsed([], s)
    else
      match Numbers(s, count - 1, w, m)
      case Malformed => Malformed
      case Parsed(ns, rest) =>
        match Number(rest, w, m)
        case Malformed => Malformed
        case Parsed(n, rest') => Parsed(ns + [n], rest')
  }

  function Strings(s: seq<Byte>, count: nat, m: Reader): Parsed<seq<seq<Byte>>> {
    if count == 0 then Parsed([], s)
    else
      match Strings(s, count - 1, m)
      case Malformed => Malformed
      case Parsed(ss, rest) =>
        match String(rest, m)
        case Malformed => Malformed
        case Parsed(x, rest') => Parsed(ss + [x], rest')
  }

  /** An array preceded by its element count, which must not exceed the limit. */
  function CountedNumbers(s: seq<Byte>, w: nat, limit: nat, m: Reader): Parsed<seq<nat>> {
    match Number(s, 8, m)
    case Malformed => Malformed
    case Parsed(count, rest) => if count > limit then Malformed else Numbers(rest, count, w, m)
  }

  function CountedStrings(s: seq<Byte>, limit: nat, m: Reader): Parsed<seq<seq<Byte>>> {
    match Number(s, 8, m)
    case Malformed => Malformed
    case Parsed(count, rest) => if count > limit then Malformed else Strings(rest, count, m)
  }

  function ParseValue(ty: DataType, s: seq<Byte>, m: Reader): Parsed<Value>
    requires !ty.UnknownT?
  {
    if ty.One? then
      if ty.base.StringB? then
        match String(s, m) case Malformed => Malformed case Parsed(x, rest) => Parsed(Text(x), rest)
      else
        match Number(s, Width(ty.base), m) case Malformed => Malformed case Parsed(n, rest) => Parsed(Num(n), rest)
    else
      if ty.base.StringB? then
        match CountedStrings(s, Limit(ty), m) case Malformed => Malformed case Parsed(ss, rest) => Parsed(Texts(ss), rest)
      else
        match CountedNumbers(s, Width(ty.base), Limit(ty), m)
        case Malformed => Malformed
        case Parsed(ns, rest) => Parsed(Nums(ns), rest)
  }

  predicate AllKnown(types: seq<DataType>) {
    forall ty :: ty in types ==> !ty.UnknownT?
  }

  function ParseData(types: seq<DataType>, s: seq<Byte>, m: Reader): Parsed<seq<Value>>
    requires AllKnown(types)
  {
    if types == [] then Parsed([], s)
    else
      match ParseData(types[..|types| - 1], s, m)
      case Malformed => Malformed
      case Parsed(vals, rest) =>
        match ParseValue(types[|types| - 1], rest, m)
        case Malformed => Malformed
        case Parsed(v, rest') => Parsed(vals + [v], rest')
  }

  // ---------------------------------------------------------------- round trips

  /** The reader for packets of a given sender. */
  function ReaderFor(sender: bool, reader: bool): Reader {
    Reader(reader, sender != reader)
  }

  lemma NumberBack(n: nat, w: nat, sender: bool, reader: bool, rest: seq<Byte>)
    requires n < Pow256(w)
    ensures Number(Store(n, w, sender) + rest, w, ReaderFor(sender, reader)) == Parsed(n, rest)
  {
    var s := Store(n, w, sender) + rest;
    assert s[..w] == Store(n, w, sender) && s[w..] == rest;
    NumberRoundTrip(n, w, sender, reader);
  }

  lemma {:induction false} UpToNulBack(s: seq<Byte>)
    requires 0 !in s
    ensures UpToNul(s + [0]) == s
  {
    if s != [] {
      assert (s + [0])[1..] == s[1..] + [0];
      UpToNulBack(s[1..]);
    }
  }

  lemma Powers()
    ensures Pow256(1) == 0x100 && Pow256(2) == 0x1_0000 && Pow256(4) == UINT32_MAX + 1 && Pow256(8) == UINT64_MAX + 1
  {
    assert Pow256(3) == 0x100_0000;
    assert Pow256(6) == 0x1_0000_0000_0000;
  }

  lemma StringBack(x: seq<Byte>, sender: bool, reader: bool, rest: seq<Byte>)
    requires TextOk(x)
    ensures String(TextBytes(x, sender) + rest, ReaderFor(sender, reader)) == Parsed(x, rest)
  {
    var head, tail := Store(|x| + 1, 4, sender), x + [0];
    Powers();
    NumberBack(|x| + 1, 4, sender, reader, tail + rest);
    assert TextBytes(x, sender) + rest == head + (tail + rest);
    assert (tail + rest)[..|x| + 1] == tail && (tail + rest)[|x| + 1..] == rest;
    UpToNulBack(x);
  }

  lemma Reassociate(a: seq<Byte>, b: seq<Byte>, c: seq<Byte>)
    ensures a + b + c == a + (b + c)
  {
  }

  lemma {:induction false} NumbersBack(ns: seq<nat>, w: nat, sender: bool, reader: bool, rest: seq<Byte>)
    requires forall i :: 0 <= i < |ns| ==> ns[i] < Pow256(w)
    ensures Numbers(NumsBytes(ns, w, sender) + rest, |ns|, w, ReaderFor(sender, reader)) == Parsed(ns, rest)
  {
    if ns == [] {
      assert NumsBytes(ns, w, sender) + rest == rest;
    } else {
      var front, last := ns[..|ns| - 1], ns[|ns| - 1];
      Reassociate(NumsBytes(front, w, sender), Store(last, w, sender), rest);
      NumbersBack(front, w, sender, reader, Store(last, w, sender) + rest);
      NumberBack(last, w, sender, reader, rest);
      assert ns == front + [last];
    }
  }

  lemma {:induction false} StringsBack(ss: seq<seq<Byte>>, sender: bool, reader: bool, rest: seq<Byte>)
    requires forall i :: 0 <= i < |ss| ==> TextOk(ss[i])
    ensures Strings(TextsBytes(ss, sender) + rest, |ss|, ReaderFor(sender, reader)) == Parsed(ss, rest)
  {
    if ss == [] {
      assert TextsBytes(ss, sender) + rest == rest;
    } else {
      var front, last := ss[..|ss| - 1], ss[|ss| - 1];
      Reassociate(TextsBytes(front, sender), TextBytes(last, sender), rest);
      StringsBack(front, sender, reader, TextBytes(last, sender) + rest);
      StringBack(last, sender, reader, rest);
      StringsStep(TextsBytes(ss, sender) + rest, front, last, TextBytes(last, sender) + rest, rest, ReaderFor(sender, reader));
      LastApart(ss);
    }
  }

  lemma LastApart<T>(s: seq<T>)
    requires s != []
    ensures s == s[..|s| - 1] + [s[|s| - 1]]
  {
  }

  lemma StringsStep(s: seq<Byte>, front: seq<seq<Byte>>, last: seq<Byte>, middle: seq<Byte>, rest: seq<Byte>, m: Reader)
    requires Strings(s, |front|, m) == Parsed(front, middle) && String(middle, m) == Parsed(last, rest)
    ensures Strings(s, |front| + 1, m) == Parsed(front + [last], rest)
  {
  }

  lemma NumsBack(ty: DataType, ns: seq<nat>, sender: bool, reader: bool, rest: seq<Byte>)
    requires Fits(ty, Nums(ns))
    ensures ParseValue(ty, ValueBytes(ty, Nums(ns), sender) + rest, ReaderFor(sender, reader)) == Parsed(Nums(ns), rest)
  {
    var w := Width(ty.base);
    Powers();
    Reassociate(Store(|ns|, 8, sender), NumsBytes(ns, w, sender), rest);
    NumberBack(|ns|, 8, sender, reader, NumsBytes(ns, w, sender) + rest);
    EachFits(ty, ns);
    NumbersBack(ns, w, sender, reader, rest);
  }

  lemma TextsBack(ty: DataType, ss: seq<seq<Byte>>, sender: bool, reader: bool, rest: seq<Byte>)
    requires Fits(ty, Texts(ss))
    ensures ParseValue(ty, ValueBytes(ty, Texts(ss), sender) + rest, ReaderFor(sender, reader)) == Parsed(Texts(ss), rest)
  {
    Powers();
    Reassociate(Store(|ss|, 8, sender), TextsBytes(ss, sender), rest);
    NumberBack(|ss|, 8, sender, reader, TextsBytes(ss, sender) + rest);
    EachTextFits(ty, ss);
    StringsBack(ss, sender, reader, rest);
  }

  lemma EachFits(ty: DataType, ns: seq<nat>)
    requires Fits(ty, Nums(ns))
    ensures forall i :: 0 <= i < |ns| ==> ns[i] < Pow256(Width(ty.base))
  {
    forall i | 0 <= i < |ns| ensures ns[i] < Pow256(Width(ty.base)) {
      assert ns[i] in ns;
    }
  }

  lemma EachTextFits(ty: DataType, ss: seq<seq<Byte>>)
    requires Fits(ty, Texts(ss))
    ensures forall i :: 0 <= i < |ss| ==> TextOk(ss[i])
  {
  }

  lemma ValueBack(ty: DataType, v: Value, sender: bool, reader: bool, rest: seq<Byte>)
    requires Fits(ty, v)
    ensures ParseValue(ty, ValueBytes(ty, v, sender) + rest, ReaderFor(sender, reader)) == Parsed(v, rest)
  {
    match v
    case Num(n) => NumberBack(n, Width(ty.base), sender, reader, rest);
    case Text(s) => StringBack(s, sender, reader, rest);
    case Nums(ns) => NumsBack(ty, ns, sender, reader, rest);
    case Texts(ss) => TextsBack(ty, ss, sender, reader, rest);
  }

  lemma DataStep(types: seq<DataType>, s: seq<Byte>, front: seq<Value>, last: Value, middle: seq<Byte>, rest: seq<Byte>, m: Reader)
    requires types != [] && AllKnown(types)
    requires ParseData(types[..|types| - 1], s, m) == Parsed(front, middle)
    requires ParseValue(types[|types| - 1], middle, m) == Parsed(last, rest)
    ensures ParseData(types, s, m) == Parsed(front + [last], rest)
  {
  }

  lemma DataSplit(types: seq<DataType>, vals: seq<Value>, big: bool, rest: seq<Byte>)
    requires AllFit(types, vals) && types != []
    ensures var n := |types| - 1;
            && AllFit(types[..n], vals[..n]) && vals == vals[..n] + [vals[n]]
            && DataBytes(types, vals, big) + rest
            == DataBytes(types[..n], vals[..n], big) + (ValueBytes(types[n], vals[n], big) + rest)
  {
    var n := |types| - 1;
    Reassociate(DataBytes(types[..n], vals[..n], big), ValueBytes(types[n], vals[n], big), rest);
  }

  lemma FittingTypesAreKnown(types: seq<DataType>, vals: seq<Value>)
    requires AllFit(types, vals)
    ensures AllKnown(types)
  {
    forall ty | ty in types ensures !ty.UnknownT? {
      var i :| 0 <= i < |types| && types[i] == ty;
      assert Fits(types[i], vals[i]);
    }
  }

  /** Every list of values survives between any two byte orders, leaving what follows it untouched. */
  lemma {:induction false} DataBack(types: seq<DataType>, vals: seq<Value>, sender: bool, reader: bool, rest: seq<Byte>)
    requires AllFit(types, vals)
    ensures AllKnown(types)
    ensures ParseData(types, DataBytes(types, vals, sender) + rest, ReaderFor(sender, reader)) == Parsed(vals, rest)
  {
    FittingTypesAreKnown(types, vals);
    if types == [] {
      assert DataBytes(types, vals, sender) + rest == rest;
    } else {
      var n := |types| - 1;
      var last := ValueBytes(types[n], vals[n], sender);
      DataSplit(types, vals, sender, rest);
      DataBack(types[..n], vals[..n], sender, reader, last + rest);
      ValueBack(types[n], vals[n], sender, reader, rest);
      DataStep(types, DataBytes(types, vals, sender) + rest, vals[..n], vals[n], last + rest, rest, ReaderFor(sender, reader));
    }
  }

  // ---------------------------------------------------------------- packet headers

  // The tag is signed; like every number here it is carried as its bit pattern.
  datatype Header = Header(stream: nat, tag: nat, src: nat, fmt: seq<Byte>, dest: seq<nat>, order: Byte)

  /** The flag a machine puts into its packets: 0 for little-endian, 1 for big-endian. */
  function OrderByte(big: bool): Byte {
    if big then 1 else 0
  }

  predicate HeaderFits(h: Header) {
    && h.stream <= UINT32_MAX && h.tag <= UINT32_MAX && h.src <= UINT32_MAX
    && TextOk(h.fmt) && |h.dest| <= UINT64_MAX
    && forall i :: 0 <= i < |h.dest| ==> h.dest[i] <= UINT32_MAX
  }

  /** The stream, tag and source rank. */
  function FieldsBytes(stream: nat, tag: nat, src: nat, big: bool): seq<Byte> {
    Store(stream, 4, big) + (Store(tag, 4, big) + Store(src, 4, big))
  }

  /** The destinations and, last of all, the sender's byte order. */
  function TailBytes(dest: seq<nat>, order: Byte, big: bool): seq<Byte> {
    Store(|dest|, 8, big) + NumsBytes(dest, 4, big) + [order]
  }

  function RestBytes(fmt: seq<Byte>, dest: seq<nat>, order: Byte, big: bool): seq<Byte> {
    TextBytes(fmt, big) + TailBytes(dest, order, big)
  }

  function HeaderBytes(h: Header, big: bool): seq<Byte> {
    FieldsBytes(h.stream, h.tag, h.src, big) + RestBytes(h.fmt, h.dest, h.order, big)
  }

  function ParseTwo(s: seq<Byte>, m: Reader): Parsed<(nat, nat)> {
    var tag := Number(s, 4, m);
    if tag.Malformed? then Malformed else
    var src := Number(tag.rest, 4, m);
    if src.Malformed? then Malformed else Parsed((tag.value, src.value), src.rest)
  }

  function ParseFields(s: seq<Byte>, m: Reader): Parsed<(nat, nat, nat)> {
    var stream := Number(s, 4, m);
    if stream.Malformed? then Malformed else
    var more := ParseTwo(stream.rest, m);
    if more.Malformed? then Malformed else Parsed((stream.value, more.value.0, more.value.1), more.rest)
  }

  /** The last field: one byte, the same in every order. */
  function ParseByte(s: seq<Byte>): Parsed<Byte> {
    if s == [] then Malformed else Parsed(s[0], s[1..])
  }

  function ParseTail(s: seq<Byte>, m: Reader): Parsed<(seq<nat>, Byte)> {
    var dest := CountedNumbers(s, 4, UINT64_MAX, m);
    if dest.Malformed? then Malformed else
    var order := ParseByte(dest.rest);
    if order.Malformed? then Malformed else Parsed((dest.value, order.value), order.rest)
  }

  function ParseRest(s: seq<Byte>, m: Reader): Parsed<(seq<Byte>, seq<nat>, Byte)> {
    var fmt := String(s, m);
    if fmt.Malformed? then Malformed else
    var tail := ParseTail(fmt.rest, m);
    if tail.Malformed? then Malformed else Parsed((fmt.value, tail.value.0, tail.value.1), tail.rest)
  }

  function ParseHeader(s: seq<Byte>, m: Reader): Parsed<Header> {
    var fields := ParseFields(s, m);
    if fields.Malformed? then Malformed else
    var rest := ParseRest(fields.rest, m);
    if rest.Malformed? then Malformed else
    Parsed(Header(fields.value.0, fields.value.1, fields.value.2, rest.value.0, rest.value.1, rest.value.2), rest.rest)
  }

  /** How a machine of the given order reads a received header: its last byte says who wrote it. */
  function HeaderReader(hdr: seq<Byte>, big: bool): Reader
    requires hdr != []
  {
    Reader(big, hdr[|hdr| - 1] != OrderByte(big))
  }

  lemma LastByte(h: Header, big: bool)
    ensures HeaderBytes(h, big) != [] && HeaderBytes(h, big)[|HeaderBytes(h, big)| - 1] == h.order
  {
  }

  lemma FieldsBack(h: Header, sender: bool, reader: bool, rest: seq<Byte>)
    requires HeaderFits(h)
    ensures ParseFields(FieldsBytes(h.stream, h.tag, h.src, sender) + rest, ReaderFor(sender, reader))
         == Parsed((h.stream, h.tag, h.src), rest)
  {
    var src := Store(h.src, 4, sender) + rest;
    var tag := Store(h.tag, 4, sender) + src;
    Powers();
    NumberBack(h.stream, 4, sender, reader, tag);
    NumberBack(h.tag, 4, sender, reader, src);
    NumberBack(h.src, 4, sender, reader, rest);
    assert FieldsBytes(h.stream, h.tag, h.src, sender) + rest == Store(h.stream, 4, sender) + tag;
  }

  lemma CountedBack(ns: seq<nat>, sender: bool, reader: bool, rest: seq<Byte>)
    requires |ns| <= UINT64_MAX && forall i :: 0 <= i < |ns| ==> ns[i] <= UINT32_MAX
    ensures CountedNumbers(Store(|ns|, 8, sender) + NumsBytes(ns, 4, sender) + rest, 4, UINT64_MAX, ReaderFor(sender, reader))
         == Parsed(ns, rest)
  {
    Powers();
    Reassociate(Store(|ns|, 8, sender), NumsBytes(ns, 4, sender), rest);
    NumberBack(|ns|, 8, sender, reader, NumsBytes(ns, 4, sender) + rest);
    NumbersBack(ns, 4, sender, reader, rest);
  }

  lemma RestBack(h: Header, sender: bool, reader: bool)
    requires HeaderFits(h)
    ensures ParseRest(RestBytes(h.fmt, h.dest, h.order, sender), ReaderFor(sender, reader))
         == Parsed((h.fmt, h.dest, h.order), [])
  {
    StringBack(h.fmt, sender, reader, TailBytes(h.dest, h.order, sender));
    TailBack(h.dest, h.order, sender, reader);
  }

  lemma TailBack(dest: seq<nat>, order: Byte, sender: bool, reader: bool)
    requires |dest| <= UINT64_MAX && forall i :: 0 <= i < |dest| ==> dest[i] <= UINT32_MAX
    ensures ParseTail(TailBytes(dest, order, sender), ReaderFor(sender, reader)) == Parsed((dest, order), [])
  {
    CountedBack(dest, sender, reader, [order]);
  }

  /** Any header survives between any two byte orders, and its own last byte tells the reader which. */
  lemma HeaderBack(h: Header, sender: bool, reader: bool)
    requires HeaderFits(h) && h.order == OrderByte(sender)
    ensures HeaderBytes(h, sender) != []
    ensures HeaderReader(HeaderBytes(h, sender), reader) == ReaderFor(sender, reader)
    ensures ParseHeader(HeaderBytes(h, sender), ReaderFor(sender, reader)) == Parsed(h, [])
  {
    LastByte(h, sender);
    FieldsBack(h, sender, reader, RestBytes(h.fmt, h.dest, h.order, sender));
    RestBack(h, sender, reader);
  }
}
