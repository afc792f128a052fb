/**
 * Where every byte of a packet's buffers stands. Each rule here is stated by token, position and digit
 * alone; the lemmas show that what the encoder writes obeys it.
 */
module Layout {
  import opened Prelude
  import opened Wire

  // ---------------------------------------------------------------- the rules

  /** Bytes that one number of this kind takes; 0 where there is no such kind of number. */
  function NumberWidth(kind: string): (w: nat)
    ensures w == 0 || w == 1 || w == 2 || w == 4 || w == 8
  {
    if kind == "c" || kind == "uc" then 1
    else if kind == "hd" || kind == "uhd" then 2
    else if kind == "d" || kind == "ud" || kind == "f" then 4
    else if kind == "ld" || kind == "uld" || kind == "lf" then 8
    else 0
  }

  /** The k-th of eight base-256 digits, the lowest first. */
  function Digit(n: nat, k: nat): Byte {
    if k == 0 then n % 256
    else if k == 1 then (n / 0x100) % 256
    else if k == 2 then (n / 0x1_0000) % 256
    else if k == 3 then (n / 0x100_0000) % 256
    else if k == 4 then (n / 0x1_0000_0000) % 256
    else if k == 5 then (n / 0x100_0000_0000) % 256
    else if k == 6 then (n / 0x1_0000_0000_0000) % 256
    else if k == 7 then (n / 0x100_0000_0000_0000) % 256
    else 0
  }

  /** The w lowest digits of n: the lowest first, or last on a big-endian machine. */
  function Digits(n: nat, w: nat, big: bool): seq<Byte> {
    seq(w, i requires 0 <= i < w => Digit(n, if big then w - 1 - i else i))
  }

  /** These bytes stand in the buffer from `at` on. */
  ghost predicate BytesAt(s: seq<Byte>, at: nat, bytes: seq<Byte>) {
    at + |bytes| <= |s| && s[at..at + |bytes|] == bytes
  }

  ghost predicate NumberAt(s: seq<Byte>, at: nat, n: nat, w: nat, big: bool) {
    BytesAt(s, at, Digits(n, w, big))
  }

  /** A string stands there: its length with the terminator in four bytes, its bytes, a zero byte. */
  ghost predicate TextAt(s: seq<Byte>, at: nat, x: seq<Byte>, big: bool) {
    NumberAt(s, at, |x| + 1, 4, big) && BytesAt(s, at + 4, x + [0])
  }

  function TextsLength(ss: seq<seq<Byte>>): nat {
    if ss == [] then 0 else TextsLength(ss[..|ss| - 1]) + (5 + |ss[|ss| - 1]|)
  }

  /** Numbers of w bytes stand there one after another. */
  ghost predicate NumbersAt(s: seq<Byte>, at: nat, ns: seq<nat>, w: nat, big: bool) {
    && at + |ns| * w <= |s|
    && forall i :: 0 <= i < |ns| ==> NumberAt(s, at + i * w, ns[i], w, big)
  }

  ghost predicate TextsAt(s: seq<Byte>, at: nat, ss: seq<seq<Byte>>, big: bool) {
    && at + TextsLength(ss) <= |s|
    && forall i :: 0 <= i < |ss| ==> TextAfter(s, at, ss[..i], ss[i], big)
  }

  /** A string stands there behind others. */
  ghost predicate TextAfter(s: seq<Byte>, at: nat, others: seq<seq<Byte>>, x: seq<Byte>, big: bool) {
    TextAt(s, at + TextsLength(others), x, big)
  }

  /** Bytes that the value of one token takes: arrays have their element count before them in eight. */
  function ValueLength(token: string, v: Value): nat {
    match v
    case Num(n) => NumberWidth(token)
    case Text(x) => 5 + |x|
    case Nums(ns) => 8 + |ns| * (if token == "" then 0 else NumberWidth(token[1..]))
    case Texts(ss) => 8 + TextsLength(ss)
  }

  /** The value of one token stands there. */
  ghost predicate ValueAt(s: seq<Byte>, at: nat, token: string, v: Value, big: bool) {
    match v
    case Num(n) => NumberWidth(token) > 0 && NumberAt(s, at, n, NumberWidth(token), big)
    case Text(x) => token == "s" && TextAt(s, at, x, big)
    case Nums(ns) =>
      && token != "" && (token[0] == 'a' || token[0] == 'A') && NumberWidth(token[1..]) > 0
      && NumberAt(s, at, |ns|, 8, big) && NumbersAt(s, at + 8, ns, NumberWidth(token[1..]), big)
    case Texts(ss) =>
      && (token == "as" || token == "As")
      && NumberAt(s, at, |ss|, 8, big) && TextsAt(s, at + 8, ss, big)
  }

  function DataLength(tokens: seq<string>, vals: seq<Value>): nat
    requires |tokens| == |vals|
  {
    if tokens == [] then 0
    else
      var n := |tokens| - 1;
      DataLength(tokens[..n], vals[..n]) + ValueLength(tokens[n], vals[n])
  }

  /** The values of the tokens stand one right after another. */
  ghost predicate ValuesAt(s: seq<Byte>, tokens: seq<string>, vals: seq<Value>, big: bool) {
    && |tokens| == |vals|
    && forall i :: 0 <= i < |tokens| ==> ValueAt(s, DataLength(tokens[..i], vals[..i]), tokens[i], vals[i], big)
  }

  ghost predicate DataLaidOut(s: seq<Byte>, tokens: seq<string>, vals: seq<Value>, big: bool) {
    ValuesAt(s, tokens, vals, big) && |s| == DataLength(tokens, vals)
  }

  /** Stream, tag, source, format, counted destinations, and last the byte that names the order. */
  ghost predicate HeaderLaidOut(s: seq<Byte>, h: Header, big: bool) {
    && |s| == 26 + |h.fmt| + 4 * |h.dest|
    && NumberAt(s, 0, h.stream, 4, big) && NumberAt(s, 4, h.tag, 4, big) && NumberAt(s, 8, h.src, 4, big)
    && TextAt(s, 12, h.fmt, big)
    && NumberAt(s, 17 + |h.fmt|, |h.dest|, 8, big)
    && NumbersAt(s, 25 + |h.fmt|, h.dest, 4, big)
    && s[|s| - 1] == h.order
  }

  // ---------------------------------------------------------------- tokens

  /** These are the maximal stretches of the format between white space and percent signs, in order. */
  ghost predicate CutAt(s: string, tokens: seq<string>, at: seq<nat>) {
    && |at| == |tokens|
    && (forall i :: 0 <= i < |at| ==> StretchAt(s, at[i], tokens[i]))
    && (forall i, j :: 0 <= i < j < |at| ==> at[i] + |tokens[i]| < at[j])
    && (forall k :: 0 <= k < |s| && s[k] !in " \t\n%" ==> Covered(tokens, at, k))
  }

  ghost predicate StretchAt(s: string, at: nat, token: string) {
    && token != "" && at + |token| <= |s| && s[at..at + |token|] == token
    && forall c :: c in token ==> c !in " \t\n%"
  }

  ghost predicate Covered(tokens: seq<string>, at: seq<nat>, k: nat)
    requires |at| == |tokens|
  {
    exists i :: 0 <= i < |at| && at[i] <= k < at[i] + |tokens[i]|
  }

  /** Every format is cut just so. */
  lemma {:induction false} TokensAre(s: string) returns (at: seq<nat>)
    ensures CutAt(s, Tokens(s), at)
    decreases |s|
  {
    var i := RunEnd(s, 0, true);
    if i == |s| {
      at := [];
    } else {
      var j := RunEnd(s, i, false);
      var later := TokensAre(s[j..]);
      at := [i] + Later(later, j);
      CutFirst(s, i, j, Tokens(s[j..]), later);
    }
  }

  function Later(at: seq<nat>, j: nat): (r: seq<nat>)
    ensures |r| == |at| && forall i :: 0 <= i < |r| ==> r[i] == at[i] + j
  {
    seq(|at|, i requires 0 <= i < |at| => at[i] + j)
  }

  lemma CutFirst(s: string, i: nat, j: nat, tokens: seq<string>, later: seq<nat>)
    requires i < j <= |s| && (j < |s| ==> s[j] in " \t\n%") && CutAt(s[j..], tokens, later)
    requires forall k :: 0 <= k < i ==> s[k] in " \t\n%"
    requires forall k :: i <= k < j ==> s[k] !in " \t\n%"
    ensures CutAt(s, [s[i..j]] + tokens, [i] + Later(later, j))
  {
    var all, at := [s[i..j]] + tokens, [i] + Later(later, j);
    forall n | 0 <= n < |at| ensures StretchAt(s, at[n], all[n]) && (n > 0 ==> at[n] > j) {
      if n > 0 {
        StretchLater(s, j, later[n - 1], tokens[n - 1]);
      }
    }
    forall n, m | 0 <= n < m < |at| ensures at[n] + |all[n]| < at[m] {
    }
    forall k | 0 <= k < |s| && s[k] !in " \t\n%" ensures Covered(all, at, k) {
      CoveredLater(s, i, j, tokens, later, k);
    }
  }

  lemma StretchLater(s: string, j: nat, at: nat, token: string)
    requires j <= |s| && StretchAt(s[j..], at, token) && (j < |s| ==> s[j] in " \t\n%")
    ensures StretchAt(s, at + j, token) && at > 0
  {
    assert s[j..][at..at + |token|] == s[at + j..at + j + |token|];
    assert s[j..][at] == token[0];
  }

  lemma CoveredLater(s: string, i: nat, j: nat, tokens: seq<string>, later: seq<nat>, k: nat)
    requires i < j <= |s| && CutAt(s[j..], tokens, later)
    requires forall n :: 0 <= n < i ==> s[n] in " \t\n%"
    requires k < |s| && s[k] !in " \t\n%"
    ensures Covered([s[i..j]] + tokens, [i] + Later(later, j), k)
  {
    var all, at := [s[i..j]] + tokens, [i] + Later(later, j);
    if k < j {
      assert at[0] <= k < at[0] + |all[0]|;
    } else {
      assert s[j..][k - j] == s[k];
      assert Covered(tokens, later, k - j);
      var n :| 0 <= n < |later| && later[n] <= k - j < later[n] + |tokens[n]|;
      assert at[n + 1] <= k < at[n + 1] + |all[n + 1]|;
    }
  }

  /** What values a token stands for and how large they may be. */
  ghost predicate Stands(token: string, v: Value) {
    match v
    case Num(n) =>
      || (NumberWidth(token) == 1 && n < 0x100)
      || (NumberWidth(token) == 2 && n < 0x1_0000)
      || (NumberWidth(token) == 4 && n < 0x1_0000_0000)
      || (NumberWidth(token) == 8 && n < 0x1_0000_0000_0000_0000)
    case Text(x) => token == "s" && ShortText(x)
    case Nums(ns) =>
      && token != "" && Countable(token[0], |ns|) && NumberWidth(token[1..]) > 0
      && forall n :: n in ns ==> Stands(token[1..], Num(n))
    case Texts(ss) =>
      && (token == "as" || token == "As") && Countable(token[0], |ss|)
      && forall x :: x in ss ==> ShortText(x)
  }

  predicate ShortText(x: seq<Byte>) {
    0 !in x && |x| <= 0xFFFF_FFFD
  }

  /** A small array has at most 2^31 - 1 elements, a large one at most 2^64 - 1. */
  predicate Countable(marker: char, count: nat) {
    (marker == 'a' && count <= 0x7FFF_FFFF) || (marker == 'A' && count <= 0xFFFF_FFFF_FFFF_FFFF)
  }

  lemma KindWidth(kind: string)
    ensures BaseOf(kind).Some? <==> NumberWidth(kind) > 0 || kind == "s"
    ensures kind == "s" <==> BaseOf(kind) == Some(StringB)
    ensures BaseOf(kind).Some? && kind != "s" ==> Width(BaseOf(kind).value) == NumberWidth(kind)
    ensures NumberWidth("s") == 0
  {
  }

  /** What the code reads off a token's first letter. */
  lemma TokenType(token: string)
    ensures Fmt2Type(token).One? <==> NumberWidth(token) > 0 || token == "s"
    ensures Fmt2Type(token).Array? <==> token != "" && token[0] == 'a' && (NumberWidth(token[1..]) > 0 || token[1..] == "s")
    ensures Fmt2Type(token).Large? <==> token != "" && token[0] == 'A' && (NumberWidth(token[1..]) > 0 || token[1..] == "s")
    ensures Fmt2Type(token).One? ==> Some(Fmt2Type(token).base) == BaseOf(token)
    ensures Fmt2Type(token).Array? || Fmt2Type(token).Large? ==> Some(Fmt2Type(token).base) == BaseOf(token[1..])
  {
    KindWidth(token);
    if token != "" {
      KindWidth(token[1..]);
    }
  }

  /** A value is one the encoder takes for a token exactly when the token stands for it. */
  lemma FitsIff(token: string, v: Value)
    ensures Fits(Fmt2Type(token), v) <==> Stands(token, v)
  {
    var ty := Fmt2Type(token);
    TokenType(token);
    KindWidth(token);
    Powers();
    if token != "" {
      KindWidth(token[1..]);
    }
    if v.Texts? && (Fits(ty, v) || Stands(token, v)) {
      assert token[1..] == "s" <==> token == "as" || token == "As";
    }
  }

  // ---------------------------------------------------------------- numbers

  lemma {:induction false} LittleAt(n: nat, w: nat, k: nat)
    requires k < w <= 8
    ensures Little(n, w)[k] == Digit(n, k)
  {
    if k > 0 {
      LittleAt(n / 256, w - 1, k - 1);
      NextDigit(n, k);
    }
  }

  lemma NextDigit(n: nat, k: nat)
    requires 0 < k < 8
    ensures Digit(n / 256, k - 1) == Digit(n, k)
  {
    if k == 2 {
      assert n / 256 / 0x100 == n / 0x1_0000;
    } else if k == 3 {
      assert n / 256 / 0x1_0000 == n / 0x100_0000;
    } else if k == 4 {
      assert n / 256 / 0x100_0000 == n / 0x1_0000_0000;
    } else if k == 5 {
      assert n / 256 / 0x1_0000_0000 == n / 0x100_0000_0000;
    } else if k == 6 {
      assert n / 256 / 0x100_0000_0000 == n / 0x1_0000_0000_0000;
    } else if k == 7 {
      assert n / 256 / 0x1_0000_0000_0000 == n / 0x100_0000_0000_0000;
    }
  }

  /** What a machine stores for a number is its digits in that machine's order. */
  lemma StoreIsDigits(n: nat, w: nat, big: bool)
    requires w <= 8
    ensures Store(n, w, big) == Digits(n, w, big)
  {
    var stored, digits := Store(n, w, big), Digits(n, w, big);
    forall i | 0 <= i < w ensures stored[i] == digits[i] {
      StoreAt(n, w, big, i);
    }
  }

  lemma StoreAt(n: nat, w: nat, big: bool, i: nat)
    requires i < w <= 8
    ensures Store(n, w, big)[i] == Digit(n, if big then w - 1 - i else i)
  {
    LittleAt(n, w, if big then w - 1 - i else i);
    ReverseAt(Little(n, w), i);
  }

  // ---------------------------------------------------------------- parts of a buffer

  /** What stands in a part of the buffer stands in the buffer. */
  lemma PartAt(s: seq<Byte>, at: nat, a: seq<Byte>, b: seq<Byte>)
    requires BytesAt(s, at, a + b)
    ensures BytesAt(s, at, a) && BytesAt(s, at + |a|, b)
  {
    var all := s[at..at + |a + b|];
    assert s[at..at + |a|] == all[..|a|] && s[at + |a|..at + |a| + |b|] == all[|a|..];
  }

  lemma TextStands(s: seq<Byte>, at: nat, x: seq<Byte>, big: bool)
    requires BytesAt(s, at, TextBytes(x, big))
    ensures TextAt(s, at, x, big) && |TextBytes(x, big)| == 5 + |x|
  {
    StoreIsDigits(|x| + 1, 4, big);
    PartAt(s, at, Store(|x| + 1, 4, big), x + [0]);
  }

  lemma {:induction false} NumsLength(ns: seq<nat>, w: nat, big: bool)
    ensures |NumsBytes(ns, w, big)| == |ns| * w
  {
    if ns != [] {
      NumsLength(ns[..|ns| - 1], w, big);
      assert |ns| * w == (|ns| - 1) * w + w;
    }
  }

  lemma {:induction false} NumbersStand(s: seq<Byte>, at: nat, ns: seq<nat>, w: nat, big: bool)
    requires w <= 8 && BytesAt(s, at, NumsBytes(ns, w, big))
    ensures NumbersAt(s, at, ns, w, big)
  {
    NumsLength(ns, w, big);
    if ns != [] {
      var n := |ns| - 1;
      PartAt(s, at, NumsBytes(ns[..n], w, big), Store(ns[n], w, big));
      NumsLength(ns[..n], w, big);
      StoreIsDigits(ns[n], w, big);
      NumbersStand(s, at, ns[..n], w, big);
      NumbersNext(s, at, ns, w, big);
    }
  }

  lemma NumbersNext(s: seq<Byte>, at: nat, ns: seq<nat>, w: nat, big: bool)
    requires ns != [] && NumbersAt(s, at, ns[..|ns| - 1], w, big) && at + |ns| * w <= |s|
    requires NumberAt(s, at + (|ns| - 1) * w, ns[|ns| - 1], w, big)
    ensures NumbersAt(s, at, ns, w, big)
  {
    forall i | 0 <= i < |ns| ensures NumberAt(s, at + i * w, ns[i], w, big) {
      if i < |ns| - 1 {
        assert ns[..|ns| - 1][i] == ns[i];
      }
    }
  }

  lemma {:induction false} TextsStand(s: seq<Byte>, at: nat, ss: seq<seq<Byte>>, big: bool)
    requires BytesAt(s, at, TextsBytes(ss, big))
    ensures TextsAt(s, at, ss, big) && |TextsBytes(ss, big)| == TextsLength(ss)
  {
    if ss != [] {
      var front, last := ss[..|ss| - 1], ss[|ss| - 1];
      PartAt(s, at, TextsBytes(front, big), TextBytes(last, big));
      TextsStand(s, at, front, big);
      LastText(s, at, front, last, big);
      TextsNext(s, at, ss, big);
    }
  }

  lemma LastText(s: seq<Byte>, at: nat, front: seq<seq<Byte>>, last: seq<Byte>, big: bool)
    requires |TextsBytes(front, big)| == TextsLength(front)
    requires BytesAt(s, at + |TextsBytes(front, big)|, TextBytes(last, big))
    ensures TextAfter(s, at, front, last, big) && |TextBytes(last, big)| == 5 + |last|
    ensures at + TextsLength(front) + 5 + |last| <= |s|
  {
    TextStands(s, at + TextsLength(front), last, big);
  }

  lemma TextsNext(s: seq<Byte>, at: nat, ss: seq<seq<Byte>>, big: bool)
    requires ss != [] && TextsAt(s, at, ss[..|ss| - 1], big) && at + TextsLength(ss) <= |s|
    requires TextAfter(s, at, ss[..|ss| - 1], ss[|ss| - 1], big)
    ensures TextsAt(s, at, ss, big)
  {
    forall i | 0 <= i < |ss| ensures TextAfter(s, at, ss[..i], ss[i], big) {
      if i < |ss| - 1 {
        Earlier(ss, |ss| - 1, i);
        EarlierText(s, at, ss[..|ss| - 1], i, big);
      }
    }
  }

  lemma EarlierText(s: seq<Byte>, at: nat, ss: seq<seq<Byte>>, i: nat, big: bool)
    requires TextsAt(s, at, ss, big) && i < |ss|
    ensures TextAfter(s, at, ss[..i], ss[i], big)
  {
  }

  lemma Earlier<T>(xs: seq<T>, n: nat, i: nat)
    requires i < n <= |xs|
    ensures xs[..n][i] == xs[i] && xs[..n][..i] == xs[..i]
  {
  }

  // ---------------------------------------------------------------- values and headers

  lemma ValueStands(s: seq<Byte>, at: nat, token: string, v: Value, big: bool)
    requires Fits(Fmt2Type(token), v) && BytesAt(s, at, ValueBytes(Fmt2Type(token), v, big))
    ensures ValueAt(s, at, token, v, big) && |ValueBytes(Fmt2Type(token), v, big)| == ValueLength(token, v)
  {
    FitsIff(token, v);
    TokenWidth(token, v);
    var ty := Fmt2Type(token);
    match v
    case Num(n) => StoreIsDigits(n, Width(ty.base), big);
    case Text(x) => TextStands(s, at, x, big);
    case Nums(ns) => CountedStand(s, at, ns, Width(ty.base), big);
    case Texts(ss) => CountedTextsStand(s, at, ss, big);
  }

  lemma TokenWidth(token: string, v: Value)
    requires Fits(Fmt2Type(token), v)
    ensures v.Num? ==> Width(Fmt2Type(token).base) == NumberWidth(token) > 0
    ensures v.Nums? ==> token != "" && Width(Fmt2Type(token).base) == NumberWidth(token[1..]) > 0
  {
    TokenType(token);
    KindWidth(token);
    if token != "" {
      KindWidth(token[1..]);
    }
  }

  lemma CountedStand(s: seq<Byte>, at: nat, ns: seq<nat>, w: nat, big: bool)
    requires w <= 8 && BytesAt(s, at, Store(|ns|, 8, big) + NumsBytes(ns, w, big))
    ensures NumberAt(s, at, |ns|, 8, big) && NumbersAt(s, at + 8, ns, w, big)
    ensures |NumsBytes(ns, w, big)| == |ns| * w
  {
    PartAt(s, at, Store(|ns|, 8, big), NumsBytes(ns, w, big));
    StoreIsDigits(|ns|, 8, big);
    NumsLength(ns, w, big);
    NumbersStand(s, at + 8, ns, w, big);
  }

  lemma CountedTextsStand(s: seq<Byte>, at: nat, ss: seq<seq<Byte>>, big: bool)
    requires BytesAt(s, at, Store(|ss|, 8, big) + TextsBytes(ss, big))
    ensures NumberAt(s, at, |ss|, 8, big) && TextsAt(s, at + 8, ss, big)
    ensures |TextsBytes(ss, big)| == TextsLength(ss)
  {
    PartAt(s, at, Store(|ss|, 8, big), TextsBytes(ss, big));
    StoreIsDigits(|ss|, 8, big);
    TextsStand(s, at + 8, ss, big);
  }

  /** What the encoder writes is laid out so, for any tokens and values. */
  lemma {:induction false} DataStands(s: seq<Byte>, tokens: seq<string>, vals: seq<Value>, big: bool)
    requires AllFit(TokenTypes(tokens), vals) && BytesAt(s, 0, DataBytes(TokenTypes(tokens), vals, big))
    ensures |DataBytes(TokenTypes(tokens), vals, big)| == DataLength(tokens, vals)
    ensures ValuesAt(s, tokens, vals, big)
  {
    if tokens != [] {
      var n := |tokens| - 1;
      LastValue(s, tokens, vals, big);
      DataStands(s, tokens[..n], vals[..n], big);
      ValueStands(s, DataLength(tokens[..n], vals[..n]), tokens[n], vals[n], big);
      ValuesNext(s, tokens, vals, big);
    }
  }

  lemma LastValue(s: seq<Byte>, tokens: seq<string>, vals: seq<Value>, big: bool)
    requires AllFit(TokenTypes(tokens), vals) && BytesAt(s, 0, DataBytes(TokenTypes(tokens), vals, big))
    requires tokens != []
    ensures var n, types := |tokens| - 1, TokenTypes(tokens);
            var front := TokenTypes(tokens[..n]);
            && AllFit(front, vals[..n]) && Fits(Fmt2Type(tokens[n]), vals[n])
            && BytesAt(s, 0, DataBytes(front, vals[..n], big))
            && BytesAt(s, |DataBytes(front, vals[..n], big)|, ValueBytes(Fmt2Type(tokens[n]), vals[n], big))
            && |DataBytes(types, vals, big)|
            == |DataBytes(front, vals[..n], big)| + |ValueBytes(Fmt2Type(tokens[n]), vals[n], big)|
  {
    LastBytes(s, TokenTypes(tokens), vals, big);
    FrontTypes(tokens);
  }

  lemma FrontTypes(tokens: seq<string>)
    requires tokens != []
    ensures TokenTypes(tokens[..|tokens| - 1]) == TokenTypes(tokens)[..|tokens| - 1]
  {
  }

  lemma LastBytes(s: seq<Byte>, types: seq<DataType>, vals: seq<Value>, big: bool)
    requires AllFit(types, vals) && types != [] && BytesAt(s, 0, DataBytes(types, vals, big))
    ensures var n := |types| - 1;
            && AllFit(types[..n], vals[..n]) && Fits(types[n], vals[n])
            && BytesAt(s, 0, DataBytes(types[..n], vals[..n], big))
            && BytesAt(s, |DataBytes(types[..n], vals[..n], big)|, ValueBytes(types[n], vals[n], big))
            && |DataBytes(types, vals, big)|
            == |DataBytes(types[..n], vals[..n], big)| + |ValueBytes(types[n], vals[n], big)|
  {
    var n := |types| - 1;
    PartAt(s, 0, DataBytes(types[..n], vals[..n], big), ValueBytes(types[n], vals[n], big));
  }

  lemma ValuesNext(s: seq<Byte>, tokens: seq<string>, vals: seq<Value>, big: bool)
    requires tokens != [] && |tokens| == |vals|
    requires var n := |tokens| - 1;
             ValuesAt(s, tokens[..n], vals[..n], big)
             && ValueAt(s, DataLength(tokens[..n], vals[..n]), tokens[n], vals[n], big)
    ensures ValuesAt(s, tokens, vals, big)
  {
    forall i | 0 <= i < |tokens| - 1
      ensures ValueAt(s, DataLength(tokens[..i], vals[..i]), tokens[i], vals[i], big)
    {
      EarlierValue(s, tokens[..|tokens| - 1], vals[..|tokens| - 1], i, big);
      Earlier(tokens, |tokens| - 1, i);
      Earlier(vals, |tokens| - 1, i);
    }
  }

  lemma EarlierValue(s: seq<Byte>, tokens: seq<string>, vals: seq<Value>, i: nat, big: bool)
    requires ValuesAt(s, tokens, vals, big) && i < |tokens|
    ensures ValueAt(s, DataLength(tokens[..i], vals[..i]), tokens[i], vals[i], big)
  {
  }

  lemma HeaderStands(h: Header, big: bool)
    ensures HeaderLaidOut(HeaderBytes(h, big), h, big)
  {
    var fields, rest := FieldsBytes(h.stream, h.tag, h.src, big), RestBytes(h.fmt, h.dest, h.order, big);
    var s := HeaderBytes(h, big);
    assert s[0..|s|] == s == fields + rest;
    PartAt(s, 0, fields, rest);
    FieldsStand(s, h.stream, h.tag, h.src, big);
    FormatStands(s, 12, h.fmt, TailBytes(h.dest, h.order, big), big);
    TailStands(s, 17 + |h.fmt|, h.dest, h.order, big);
    LastByte(h, big);
  }

  lemma FormatStands(s: seq<Byte>, at: nat, fmt: seq<Byte>, tail: seq<Byte>, big: bool)
    requires BytesAt(s, at, TextBytes(fmt, big) + tail)
    ensures TextAt(s, at, fmt, big) && |TextBytes(fmt, big)| == 5 + |fmt| && BytesAt(s, at + (5 + |fmt|), tail)
  {
    PartAt(s, at, TextBytes(fmt, big), tail);
    TextStands(s, at, fmt, big);
  }

  lemma TailStands(s: seq<Byte>, at: nat, dest: seq<nat>, order: Byte, big: bool)
    requires BytesAt(s, at, TailBytes(dest, order, big))
    ensures |TailBytes(dest, order, big)| == 9 + |dest| * 4
    ensures NumberAt(s, at, |dest|, 8, big) && NumbersAt(s, at + 8, dest, 4, big)
  {
    PartAt(s, at, Store(|dest|, 8, big) + NumsBytes(dest, 4, big), [order]);
    CountedStand(s, at, dest, 4, big);
  }

  lemma FieldsStand(s: seq<Byte>, stream: nat, tag: nat, src: nat, big: bool)
    requires BytesAt(s, 0, FieldsBytes(stream, tag, src, big))
    ensures NumberAt(s, 0, stream, 4, big) && NumberAt(s, 4, tag, 4, big) && NumberAt(s, 8, src, 4, big)
  {
    PartAt(s, 0, Store(stream, 4, big), Store(tag, 4, big) + Store(src, 4, big));
    PartAt(s, 4, Store(tag, 4, big), Store(src, 4, big));
    StoreIsDigits(stream, 4, big);
    StoreIsDigits(tag, 4, big);
    StoreIsDigits(src, 4, big);
  }

  // ---------------------------------------------------------------- what a decoder accepts

  /** The byte order of whoever wrote the bytes a reader reads. */
  function WriterOf(m: Reader): bool {
    m.big != m.swap
  }

  lemma StoreOfLoad(s: seq<Byte>, m: Reader, n: nat)
    requires n == Load(if m.swap then Reverse(s) else s, m.big)
    ensures n < Pow256(|s|) && Store(n, |s|, WriterOf(m)) == s
  {
    ReverseTwice(s);
    LittleOfLoad(s);
    LittleOfLoad(Reverse(s));
  }

  lemma NumberOnly(s: seq<Byte>, w: nat, m: Reader)
    requires Number(s, w, m).Parsed?
    ensures var p := Number(s, w, m); p.value < Pow256(w) && s == Store(p.value, w, WriterOf(m)) + p.rest
  {
    var p := Number(s, w, m);
    StoreOfLoad(s[..w], m, p.value);
    CutInTwo(s, w);
  }

  lemma CutInTwo(s: seq<Byte>, w: nat)
    requires w <= |s|
    ensures s == s[..w] + s[w..]
  {
  }

  lemma {:induction false} NumbersOnly(s: seq<Byte>, count: nat, w: nat, m: Reader)
    requires Numbers(s, count, w, m).Parsed?
    ensures var p := Numbers(s, count, w, m);
            && s == NumsBytes(p.value, w, WriterOf(m)) + p.rest
            && forall i :: 0 <= i < count ==> p.value[i] < Pow256(w)
  {
    if count == 0 {
      assert s == [] + s;
    } else {
      var front := Numbers(s, count - 1, w, m);
      var last := Number(front.rest, w, m);
      NumbersOnly(s, count - 1, w, m);
      NumberOnly(front.rest, w, m);
      assert (front.value + [last.value])[..count - 1] == front.value;
      Reassociate(NumsBytes(front.value, w, WriterOf(m)), Store(last.value, w, WriterOf(m)), last.rest);
    }
  }

  lemma CountedOnly(s: seq<Byte>, w: nat, limit: nat, m: Reader)
    requires CountedNumbers(s, w, limit, m).Parsed?
    ensures var p, big := CountedNumbers(s, w, limit, m), WriterOf(m);
            && |p.value| <= limit && (forall i :: 0 <= i < |p.value| ==> p.value[i] < Pow256(w))
            && s == (Store(|p.value|, 8, big) + NumsBytes(p.value, w, big)) + p.rest
  {
    var count, p, big := Number(s, 8, m), CountedNumbers(s, w, limit, m), WriterOf(m);
    NumberOnly(s, 8, m);
    NumbersOnly(count.rest, count.value, w, m);
    Reassociate(Store(|p.value|, 8, big), NumsBytes(p.value, w, big), p.rest);
  }

  /** A single number is accepted only as the encoder writes it. */
  lemma OnlyEncodedNumbers(token: string, s: seq<Byte>, m: Reader)
    requires NumberWidth(token) > 0
    ensures !Fmt2Type(token).UnknownT?
    ensures var ty, p := Fmt2Type(token), ParseValue(Fmt2Type(token), s, m);
            p.Parsed? ==> Stands(token, p.value) && Fits(ty, p.value) && s == ValueBytes(ty, p.value, WriterOf(m)) + p.rest
  {
    var ty := Fmt2Type(token);
    TokenType(token);
    KindWidth(token);
    var p := ParseValue(ty, s, m);
    if p.Parsed? {
      NumberOnly(s, Width(ty.base), m);
      FitsIff(token, p.value);
    }
  }

  /** An array of numbers is accepted only as the encoder writes it, with no more elements than it may have. */
  lemma OnlyEncodedArrays(token: string, s: seq<Byte>, m: Reader)
    requires token != "" && (token[0] == 'a' || token[0] == 'A') && NumberWidth(token[1..]) > 0
    ensures !Fmt2Type(token).UnknownT?
    ensures var ty, p := Fmt2Type(token), ParseValue(Fmt2Type(token), s, m);
            p.Parsed? ==> Stands(token, p.value) && Fits(ty, p.value) && s == ValueBytes(ty, p.value, WriterOf(m)) + p.rest
  {
    var ty := Fmt2Type(token);
    TokenType(token);
    KindWidth(token[1..]);
    var p := ParseValue(ty, s, m);
    if p.Parsed? {
      CountedOnly(s, Width(ty.base), Limit(ty), m);
      AllFitIn(ty, p.value.ns);
      FitsIff(token, p.value);
    }
  }

  lemma AllFitIn(ty: DataType, ns: seq<nat>)
    requires (ty.Array? || ty.Large?) && !ty.base.StringB? && |ns| <= Limit(ty)
    requires forall i :: 0 <= i < |ns| ==> ns[i] < Pow256(Width(ty.base))
    ensures Fits(ty, Nums(ns))
  {
  }

  /** A string is accepted from its own count of bytes, at least one, and read up to the first zero among them. */
  lemma OnlyCountedStrings(s: seq<Byte>, m: Reader)
    requires String(s, m).Parsed?
    ensures var p := String(s, m);
            exists body: seq<Byte> :: body != [] && p.value <= body && 0 !in p.value
              && (|p.value| < |body| ==> body[|p.value|] == 0)
              && s == Store(|body|, 4, WriterOf(m)) + (body + p.rest)
  {
    var count := Number(s, 4, m);
    NumberOnly(s, 4, m);
    CutInTwo(count.rest, count.value);
    var body := count.rest[..count.value];
    assert String(s, m) == Parsed(UpToNul(body), count.rest[count.value..]);
  }
}
