/**
 The bracketed text form of a topology: `[host:port:rank:0]` for a back end and
 `[host:port:rank:1` children `]` for any other node.  A SerialGraph holds such a text and a
 cursor, and takes it apart again by matching brackets.
 */
module SerialGraph {
  import opened Prelude
  import opened Forest
  import opened Trees

  // ---------------------------------------------------------------- numbers

  function Digit(d: nat): char
    requires d < 10
  {
    '0' + d as char
  }

  predicate IsDigit(c: char) { '0' <= c <= '9' }

  /** A number as the stream inserter prints it. */
  function Dec(n: nat): string {
    if n < 10 then [Digit(n)] else Dec(n / 10) + [Digit(n % 10)]
  }

  function Zeros(k: nat): string { if k == 0 then "" else Zeros(k - 1) + "0" }

  /** setw(5) with fill '0'. */
  function Pad5(s: string): string {
    if |s| < 5 then Zeros(5 - |s|) + s else s
  }

  function Val(s: string): nat
    requires forall c :: c in s ==> IsDigit(c)
  {
    if s == "" then 0 else assert IsDigit(s[|s| - 1]); Val(s[..|s| - 1]) * 10 + (s[|s| - 1] as nat - '0' as nat)
  }

  function Digits(s: string): (d: string)
    ensures forall c :: c in d ==> IsDigit(c)
  {
    if s == "" || !IsDigit(s[0]) then "" else [s[0]] + Digits(s[1..])
  }

  /** atoi on an unsigned decimal: the value of the leading digits. */
  function Atoi(s: string): nat { Val(Digits(s)) }

  lemma {:induction false} DigitsOfAll(s: string)
    requires forall c :: c in s ==> IsDigit(c)
    ensures Digits(s) == s
  {
    if s != "" {
      DigitsOfAll(s[1..]);
    }
  }

  lemma {:induction false} DecReads(n: nat)
    ensures Dec(n) != "" && (forall c :: c in Dec(n) ==> IsDigit(c)) && Val(Dec(n)) == n
  {
    if n >= 10 {
      DecReads(n / 10);
      assert Dec(n)[..|Dec(n)| - 1] == Dec(n / 10);
    } else {
      assert Dec(n)[..0] == "";
    }
  }

  lemma {:induction false} ZerosAlone(k: nat)
    ensures (forall c :: c in Zeros(k) ==> IsDigit(c)) && Val(Zeros(k)) == 0
  {
    if k > 0 {
      ZerosAlone(k - 1);
      assert Zeros(k)[..|Zeros(k)| - 1] == Zeros(k - 1);
    }
  }

  lemma {:induction false} ZerosRead(k: nat, s: string)
    requires forall c :: c in s ==> IsDigit(c)
    ensures (forall c :: c in Zeros(k) + s ==> IsDigit(c)) && Val(Zeros(k) + s) == Val(s)
  {
    ZerosAlone(k);
    if s == "" {
      assert Zeros(k) + "" == Zeros(k);
    } else {
      ZerosRead(k, s[..|s| - 1]);
      LastOf(Zeros(k), s);
    }
  }

  lemma LastOf(z: string, s: string)
    requires s != ""
    ensures z + s != "" && (z + s)[|z + s| - 1] == s[|s| - 1] && (z + s)[..|z + s| - 1] == z + s[..|s| - 1]
  {
  }

  /** atoi undoes the printing of ports, zero padding included. */
  lemma PaddedReads(n: nat)
    ensures Atoi(Pad5(Dec(n))) == n && forall c :: c in Pad5(Dec(n)) ==> IsDigit(c)
  {
    DecReads(n);
    ZerosRead(if |Dec(n)| < 5 then 5 - |Dec(n)| else 0, Dec(n));
    DigitsOfAll(Pad5(Dec(n)));
  }

  /** The decimal digits of n, with leading zeros only as far as needed for a width of w. */
  ghost predicate Decimal(s: string, n: nat, w: nat) {
    && |s| >= w && s != "" && (forall c :: c in s ==> IsDigit(c)) && Val(s) == n
    && (|s| > w && |s| > 1 ==> s[0] != '0')
  }

  lemma {:induction false} DecIsDecimal(n: nat)
    ensures Decimal(Dec(n), n, 1) && (n > 0 ==> Dec(n)[0] != '0')
  {
    DecReads(n);
    if n >= 10 {
      DecIsDecimal(n / 10);
    }
  }

  /** A port is printed in at least five digits, and in no more than its value needs beyond that. */
  lemma PortIsDecimal(n: nat)
    ensures Decimal(Pad5(Dec(n)), n, 5)
  {
    DecIsDecimal(n);
    var k := if |Dec(n)| < 5 then 5 - |Dec(n)| else 0;
    ZerosRead(k, Dec(n));
    ZerosLength(k);
  }

  lemma {:induction false} ZerosLength(k: nat)
    ensures |Zeros(k)| == k
  {
    if k > 0 {
      ZerosLength(k - 1);
    }
  }

  lemma PlainReads(n: nat)
    ensures Atoi(Dec(n)) == n && forall c :: c in Dec(n) ==> IsDigit(c)
  {
    DecReads(n);
    DigitsOfAll(Dec(n));
  }

  // ---------------------------------------------------------------- printing

  function Tag(tr: Tree): string {
    tr.name.host + ":" + Pad5(Dec(tr.name.port)) + ":" + Dec(tr.rank) + ":" + (if tr.isBackend then "0" else "1")
  }

  /** Everything of a node's text up to its children. */
  function Head(tr: Tree): string { "[" + Tag(tr) }

  function Print(tr: Tree): string
    decreases tr
  {
    if tr.isBackend then Head(tr) + "]" else Head(tr) + PrintAll(tr.kids) + "]"
  }

  function PrintAll(ts: seq<Tree>): string
    decreases ts
  {
    if ts == [] then "" else Print(ts[0]) + PrintAll(ts[1..])
  }

  predicate PlainHost(host: string) {
    host != "" && '[' !in host && ']' !in host && ':' !in host
  }

  /** What the text form can carry: plain host names, 16-bit ports, ranks atoi can read, and back ends without children. */
  predicate Printable(tr: Tree)
    decreases tr
  {
    && PlainHost(tr.name.host) && tr.name.port < 0x1_0000 && tr.rank < 0x8000_0000
    && (tr.isBackend ==> tr.kids == [])
    && PrintableAll(tr.kids)
  }

  predicate PrintableAll(ts: seq<Tree>)
    decreases ts
  {
    ts == [] || (Printable(ts[0]) && PrintableAll(ts[1..]))
  }

  // ---------------------------------------------------------------- searching

  /** std::string::find for one character; -1 stands for npos. */
  function Find(s: string, c: char, from: nat): (i: int)
    ensures i == -1 || (from <= i < |s| && s[i] == c)
    ensures forall j :: from <= j < (if i == -1 then |s| else i) ==> s[j] != c
    decreases |s| - from
  {
    if from >= |s| then -1 else if s[from] == c then from else Find(s, c, from + 1)
  }

  predicate Matches(s: string, pat: string, i: nat) {
    i <= |s| && pat <= s[i..]
  }

  /** std::string::find for a string; -1 stands for npos. */
  function FindText(s: string, pat: string, from: nat): (i: int)
    ensures i == -1 || (from <= i && Matches(s, pat, i))
    ensures forall j: nat :: from <= j && (i == -1 || j < i) ==> !Matches(s, pat, j)
    decreases |s| - from
  {
    if from > |s| then -1 else if Matches(s, pat, from) then from else FindText(s, pat, from + 1)
  }

  /** substr(begin, end - begin), where an end of npos means the rest. */
  function Between(s: string, begin: nat, end: int): string
    requires begin <= |s| && (end == -1 || begin <= end <= |s|)
  {
    if end == -1 then s[begin..] else s[begin..end]
  }

  // ---------------------------------------------------------------- bracket levels

  function Level(s: string): int {
    if s == "" then 0
    else Level(s[..|s| - 1]) + (if s[|s| - 1] == '[' then 1 else if s[|s| - 1] == ']' then -1 else 0)
  }

  lemma {:induction false} LevelSum(a: string, b: string)
    ensures Level(a + b) == Level(a) + Level(b)
    decreases |b|
  {
    if b == "" {
      assert a + b == a;
    } else {
      LevelSum(a, b[..|b| - 1]);
      assert (a + b)[..|a + b| - 1] == a + b[..|b| - 1];
    }
  }

  lemma {:induction false} LevelPlain(s: string)
    requires '[' !in s && ']' !in s
    ensures Level(s) == 0
  {
    if s != "" {
      LevelPlain(s[..|s| - 1]);
    }
  }

  /** The brackets of s close for the first time at its very end. */
  predicate Closed(s: string) {
    s != "" && s[0] == '[' && Level(s) == 0 && forall n :: 0 < n < |s| ==> Level(s[..n]) > 0
  }

  /** The brackets of s never close more than they open, and balance at the end. */
  predicate Even(s: string) {
    Level(s) == 0 && forall n :: 0 <= n <= |s| ==> Level(s[..n]) >= 0
  }

  lemma TagPlain(tr: Tree)
    requires PlainHost(tr.name.host)
    ensures '[' !in Tag(tr) && ']' !in Tag(tr)
  {
    PaddedReads(tr.name.port);
    PlainReads(tr.rank);
  }

  lemma HeadLevel(tr: Tree, n: nat)
    requires PlainHost(tr.name.host) && 0 < n <= |Head(tr)|
    ensures Level(Head(tr)[..n]) == 1
  {
    TagPlain(tr);
    var h := Head(tr);
    assert forall c :: c in h[1..n] ==> c in Tag(tr);
    LevelPlain(h[1..n]);
    assert h[..n] == "[" + h[1..n];
    assert "["[..0] == "";
    LevelSum("[", h[1..n]);
  }

  lemma {:induction false} PrintCloses(tr: Tree)
    requires Printable(tr)
    ensures Closed(Print(tr))
    decreases tr
  {
    PrintAllEven(tr.kids);
    forall n | 0 < n <= |Head(tr)| ensures Level(Head(tr)[..n]) == 1 {
      HeadLevel(tr, n);
    }
    Wrapped(Head(tr), PrintAll(tr.kids));
    assert Head(tr) + "" == Head(tr);
  }

  lemma Wrapped(h: string, k: string)
    requires h != "" && h[0] == '[' && (forall n :: 0 < n <= |h| ==> Level(h[..n]) == 1) && Even(k)
    ensures Closed(h + k + "]")
  {
    assert h[..|h|] == h && "]"[..0] == "";
    LevelSum(h, k);
    LevelSum(h + k, "]");
    forall n | 0 < n < |h + k + "]"| ensures Level((h + k + "]")[..n]) > 0 {
      if n <= |h| {
        assert (h + k + "]")[..n] == h[..n];
      } else {
        assert (h + k + "]")[..n] == h + k[..n - |h|];
        LevelSum(h, k[..n - |h|]);
      }
    }
  }

  lemma {:induction false} PrintAllEven(ts: seq<Tree>)
    requires PrintableAll(ts)
    ensures Even(PrintAll(ts))
    decreases ts
  {
    if ts != [] {
      PrintCloses(ts[0]);
      PrintAllEven(ts[1..]);
      var a, b := Print(ts[0]), PrintAll(ts[1..]);
      LevelSum(a, b);
      forall n | 0 <= n <= |a + b| ensures Level((a + b)[..n]) >= 0 {
        if n <= |a| {
          assert (a + b)[..n] == a[..n];
          assert n == |a| ==> a[..n] == a;
        } else {
          assert (a + b)[..n] == a + b[..n - |a|];
          LevelSum(a, b[..n - |a|]);
        }
      }
    }
  }

  // ---------------------------------------------------------------- reading a node's own fields

  /** The position just after the n-th colon at or after `from`; -1 when there are fewer. */
  function AfterColons(s: string, n: nat, from: nat): (i: int)
    ensures i == -1 || from <= i <= |s| || n == 0
    decreases n
  {
    if n == 0 then from else
      var i := Find(s, ':', from);
      if i == -1 then -1 else AfterColons(s, n - 1, i + 1)
  }

  /** Where the flag sits: after the third colon. */
  function FlagAt(s: string): int { AfterColons(s, 3, 0) }

  /** The source asserts that the text has its colons, and reads the flag after the third. */
  predicate HasFields(s: string) {
    0 <= FlagAt(s) < |s|
  }

  /** Where the rank field of the node whose text starts at p begins; -1 without two colons. */
  function RankAt(s: string, p: nat): (i: int)
    ensures i == -1 || p < i <= |s|
  {
    var first := Find(s, ':', p);
    if first == -1 then -1 else
      var second := Find(s, ':', first + 1);
      if second == -1 then -1 else second + 1
  }

  /** The text between the second and third colon from p on. */
  function RankText(s: string, p: nat): string
    requires RankAt(s, p) != -1
  {
    Between(s, RankAt(s, p), Find(s, ':', RankAt(s, p)))
  }

  lemma ColonStep(s: string, n: nat, i: nat)
    requires 0 < n && AfterColons(s, n, i) != -1
    ensures i < |s| && AfterColons(s, n, i) == AfterColons(s, if s[i] == ':' then n - 1 else n, i + 1)
  {
  }

  function RootHostName(s: string): string
    requires |s| > 0 && Find(s, ':', 1) != -1
  {
    s[1..Find(s, ':', 1)]
  }

  /** The search for the port starts at index 2: the host is taken to be non-empty. */
  function RootPort(s: string): nat
    requires Find(s, ':', 2) != -1
  {
    var begin := Find(s, ':', 2) + 1;
    var port := Atoi(Between(s, begin, Find(s, ':', begin)));
    if port <= 0xFFFF then port else 0xFFFF
  }

  function RootRank(s: string): Rank
    requires RankAt(s, 0) != -1
  {
    Atoi(RankText(s, 0))
  }

  /** Where the fields of a node stand in a text that starts with it. */
  predicate Laid(s: string, tr: Tree) {
    var h, p, r := |tr.name.host|, |Pad5(Dec(tr.name.port))|, |Dec(tr.rank)|;
    && HostLaid(s, tr.name.host)
    && Find(s, ':', h + 2) == h + p + 2 && s[h + 2..h + p + 2] == Pad5(Dec(tr.name.port))
    && RankLaid(s, h + p + 3, tr)
  }

  predicate HostLaid(s: string, host: string) {
    var h := |host|;
    && Find(s, ':', 0) == Find(s, ':', 1) == Find(s, ':', 2) == h + 1
    && s[1..h + 1] == host && s[0] == '['
  }

  predicate RankLaid(s: string, i: nat, tr: Tree) {
    var r := |Dec(tr.rank)|;
    && Find(s, ':', i) == i + r && s[i..i + r] == Dec(tr.rank)
    && i + r + 1 < |s| && s[i + r + 1] == if tr.isBackend then '0' else '1'
  }

  lemma Colons(tr: Tree, rest: string)
    requires PlainHost(tr.name.host)
    ensures Laid(Head(tr) + rest, tr)
  {
    HostField(tr, rest);
    PortField(tr, rest);
    RankField(tr, rest);
  }

  function Flag(tr: Tree): string { if tr.isBackend then "0" else "1" }

  lemma FieldAt(s: string, pre: string, field: string, post: string)
    requires s == pre + field + ":" + post && ':' !in field
    ensures Find(s, ':', |pre|) == |pre| + |field|
    ensures s[|pre|..|pre| + |field|] == field
  {
    assert s[|pre| + |field|] == ':';
    assert forall i :: |pre| <= i < |pre| + |field| ==> s[i] == field[i - |pre|];
  }

  lemma ColonAt(s: string, i: nat, from: nat)
    requires from <= i < |s| && s[i] == ':' && ':' !in s[from..i]
    ensures Find(s, ':', from) == i
  {
    assert forall j :: from <= j < i ==> s[j] == s[from..i][j - from];
  }

  lemma TextAroundHost(s: string, host: string, post: string)
    requires s == "[" + host + ":" + post && PlainHost(host)
    ensures HostLaid(s, host)
  {
    var h := |host|;
    assert s[h + 1] == ':' && s[1..h + 1] == host && s[0] == '[';
    assert s[0..h + 1] == "[" + host;
    assert s[2..h + 1] == host[1..];
    ColonAt(s, h + 1, 0);
    ColonAt(s, h + 1, 1);
    ColonAt(s, h + 1, 2);
  }

  lemma HostField(tr: Tree, rest: string)
    requires PlainHost(tr.name.host)
    ensures HostLaid(Head(tr) + rest, tr.name.host)
  {
    var post := Pad5(Dec(tr.name.port)) + ":" + Dec(tr.rank) + ":" + Flag(tr) + rest;
    assert Head(tr) + rest == "[" + tr.name.host + ":" + post;
    TextAroundHost(Head(tr) + rest, tr.name.host, post);
  }

  lemma PortField(tr: Tree, rest: string)
    ensures var s, h, p := Head(tr) + rest, |tr.name.host|, |Pad5(Dec(tr.name.port))|;
      Find(s, ':', h + 2) == h + p + 2 && s[h + 2..h + p + 2] == Pad5(Dec(tr.name.port))
  {
    PaddedReads(tr.name.port);
    TextAroundPort(tr.name.host, Pad5(Dec(tr.name.port)), Dec(tr.rank), Flag(tr), rest);
    HeadOf(tr);
  }

  lemma TextAroundPort(host: string, port: string, rank: string, flag: string, rest: string)
    requires ':' !in port
    ensures var s, i := "[" + (host + ":" + port + ":" + rank + ":" + flag) + rest, |host| + 2;
      Find(s, ':', i) == i + |port| && s[i..i + |port|] == port
  {
    var s, pre, post := "[" + (host + ":" + port + ":" + rank + ":" + flag) + rest, "[" + host + ":", rank + ":" + flag + rest;
    assert s == pre + port + ":" + post;
    FieldAt(s, pre, port, post);
  }

  lemma RankField(tr: Tree, rest: string)
    ensures RankLaid(Head(tr) + rest, |tr.name.host| + |Pad5(Dec(tr.name.port))| + 3, tr)
  {
    PlainReads(tr.rank);
    TextAroundRank(tr.name.host, Pad5(Dec(tr.name.port)), Dec(tr.rank), Flag(tr), rest);
    HeadOf(tr);
  }

  lemma HeadOf(tr: Tree)
    ensures Head(tr) == "[" + (tr.name.host + ":" + Pad5(Dec(tr.name.port)) + ":" + Dec(tr.rank) + ":" + Flag(tr))
  {
  }

  lemma TextAroundRank(host: string, port: string, rank: string, flag: string, rest: string)
    requires ':' !in rank && |flag| == 1
    ensures var s, i := "[" + (host + ":" + port + ":" + rank + ":" + flag) + rest, |host| + |port| + 3;
      && Find(s, ':', i) == i + |rank| && s[i..i + |rank|] == rank
      && i + |rank| + 1 < |s| && s[i + |rank| + 1] == flag[0]
  {
    var s, pre := "[" + (host + ":" + port + ":" + rank + ":" + flag) + rest, "[" + host + ":" + port + ":";
    assert s == pre + rank + ":" + (flag + rest);
    FieldAt(s, pre, rank, flag + rest);
  }

  lemma PortBetween(s: string, i: nat, j: nat, port: nat)
    requires Find(s, ':', 2) == i && Find(s, ':', i + 1) == j && Atoi(s[i + 1..j]) == port
    ensures RootPort(s) == if port <= 0xFFFF then port else 0xFFFF
  {
  }

  lemma RankLies(s: string, tr: Tree)
    requires Laid(s, tr)
    ensures var i := |tr.name.host| + |Pad5(Dec(tr.name.port))| + 3;
      RankAt(s, 0) == i && Find(s, ':', i) == i + |Dec(tr.rank)| && RankText(s, 0) == Dec(tr.rank)
  {
    var i := |tr.name.host| + |Pad5(Dec(tr.name.port))| + 3;
    RankBetween(s, |tr.name.host| + 1, |tr.name.host| + 2, i - 1, i, i + |Dec(tr.rank)|, Dec(tr.rank));
  }

  lemma RankBetween(s: string, first: nat, port: nat, second: nat, i: nat, third: nat, rank: string)
    requires Find(s, ':', 0) == first && first + 1 == port && Find(s, ':', port) == second && second + 1 == i
    requires Find(s, ':', i) == third && s[i..third] == rank
    ensures RankAt(s, 0) == i && RankText(s, 0) == rank
  {
  }

  lemma FlagLies(s: string, tr: Tree)
    requires Laid(s, tr)
    ensures HasFields(s) && (s[FlagAt(s)] == '0' <==> tr.isBackend)
  {
    var h, p, r := |tr.name.host|, |Pad5(Dec(tr.name.port))|, |Dec(tr.rank)|;
    assert AfterColons(s, 1, h + p + 3) == h + p + r + 4;
    assert AfterColons(s, 2, h + 2) == AfterColons(s, 1, h + p + 3);
    assert AfterColons(s, 3, 0) == AfterColons(s, 2, h + 2);
  }

  /** Every accessor reads back what the printer wrote, whatever follows the node's own fields. */
  lemma FieldsReadBack(tr: Tree, rest: string)
    requires PlainHost(tr.name.host) && tr.name.port < 0x1_0000 && tr.rank < 0x8000_0000
    ensures var s := Head(tr) + rest;
      && HasFields(s) && Find(s, ':', 2) != -1 && RankAt(s, 0) != -1
      && RootHostName(s) == tr.name.host && RootPort(s) == tr.name.port && RootRank(s) == tr.rank
      && (s[FlagAt(s)] == '0' <==> tr.isBackend)
  {
    Colons(tr, rest);
    FieldsOfLaid(Head(tr) + rest, tr);
  }

  lemma FieldsOfLaid(s: string, tr: Tree)
    requires Laid(s, tr) && tr.name.port < 0x1_0000
    ensures HasFields(s) && Find(s, ':', 2) != -1 && RankAt(s, 0) != -1
    ensures RootHostName(s) == tr.name.host && RootPort(s) == tr.name.port && RootRank(s) == tr.rank
    ensures s[FlagAt(s)] == '0' <==> tr.isBackend
  {
    PaddedReads(tr.name.port);
    PlainReads(tr.rank);
    RankLies(s, tr);
    FlagLies(s, tr);
    PortBetween(s, |tr.name.host| + 1, |tr.name.host| + |Pad5(Dec(tr.name.port))| + 2, tr.name.port);
  }

  lemma EmptyHostPort(tr: Tree, rest: string)
    requires tr.name.host == ""
    ensures Find(Head(tr) + rest, ':', 2) != -1
    ensures RootPort(Head(tr) + rest) == if tr.rank <= 0xFFFF then tr.rank else 0xFFFF
  {
    PortField(tr, rest);
    RankField(tr, rest);
    PlainReads(tr.rank);
    var i := |Pad5(Dec(tr.name.port))| + 2;
    PortBetween(Head(tr) + rest, i, i + 1 + |Dec(tr.rank)|, tr.rank);
  }

  /** With an empty host the port is read from the wrong field, so it comes out right only by coincidence. */
  lemma PortReadsBackIff(tr: Tree, rest: string)
    requires tr.name.host == "" || PlainHost(tr.name.host)
    requires tr.name.port < 0x1_0000 && tr.rank < 0x8000_0000
    ensures Find(Head(tr) + rest, ':', 2) != -1
    ensures RootPort(Head(tr) + rest) == tr.name.port <==>
      (tr.name.host != "" || tr.name.port == if tr.rank <= 0xFFFF then tr.rank else 0xFFFF)
  {
    if tr.name.host != "" {
      FieldsReadBack(tr, rest);
    } else {
      EmptyHostPort(tr, rest);
    }
  }

  // ---------------------------------------------------------------- children

  /** Where the text of the i-th child starts. */
  function KidStart(tr: Tree, i: nat): nat
    requires i <= |tr.kids|
  {
    |Head(tr)| + |PrintAll(tr.kids[..i])|
  }

  lemma {:induction false} PrintAllSum(a: seq<Tree>, b: seq<Tree>)
    ensures PrintAll(a + b) == PrintAll(a) + PrintAll(b)
    decreases a
  {
    if a == [] {
      assert a + b == b;
    } else {
      assert (a + b)[1..] == a[1..] + b;
      PrintAllSum(a[1..], b);
    }
  }

  lemma {:induction false} PrintableKid(ts: seq<Tree>, i: nat)
    requires PrintableAll(ts) && i < |ts|
    ensures Printable(ts[i])
  {
    if i > 0 {
      PrintableKid(ts[1..], i - 1);
    }
  }

  lemma SplitKids(ts: seq<Tree>, i: nat)
    requires i < |ts|
    ensures PrintAll(ts) == PrintAll(ts[..i]) + (Print(ts[i]) + PrintAll(ts[i + 1..]))
    ensures PrintAll(ts[..i + 1]) == PrintAll(ts[..i]) + Print(ts[i])
  {
    SeqSplit(ts, i);
    SeqSnoc(ts, i);
    PrintAllSum(ts[..i], ts[i..]);
    PrintAllSum(ts[..i], [ts[i]]);
    PrintAllOne(ts[i]);
  }

  lemma PrintAllOne(t: Tree)
    ensures PrintAll([t]) == Print(t)
  {
    assert [t][1..] == [];
  }

  lemma AppendKid(text: string, tr: Tree, done: seq<Tree>, sub: Tree)
    ensures text + (Head(tr) + PrintAll(done)) + Print(sub) == text + (Head(tr) + PrintAll(done + [sub]))
  {
    PrintAllSum(done, [sub]);
    PrintAllOne(sub);
  }

  /** Starting at the i-th child, the next bracket group is that child's text; after the last child no group is left. */
  lemma NextGroup(tr: Tree, i: nat)
    requires Printable(tr) && i <= |tr.kids|
    ensures KidStart(tr, i) <= |Print(tr)|
    ensures var s, a := Print(tr), KidStart(tr, i);
      if i == |tr.kids| then Find(s, '[', a) == -1
      else
        var n := |Print(tr.kids[i])|;
        && a + n <= |s| && s[a..a + n] == Print(tr.kids[i]) && Closed(s[a..a + n])
        && s[a] == '[' && KidStart(tr, i + 1) == a + n
  {
    if i == |tr.kids| {
      assert tr.kids[..i] == tr.kids;
      assert Print(tr) == Head(tr) + PrintAll(tr.kids) + "]";
    } else {
      SplitKids(tr.kids, i);
      PrintableKid(tr.kids, i);
      PrintCloses(tr.kids[i]);
      KidText(Head(tr), PrintAll(tr.kids[..i]), Print(tr.kids[i]), PrintAll(tr.kids[i + 1..]), Print(tr));
      GroupInside(Head(tr) + PrintAll(tr.kids[..i]), Print(tr.kids[i]), PrintAll(tr.kids[i + 1..]) + "]", Print(tr));
    }
  }

  lemma KidText(h: string, a: string, b: string, c: string, s: string)
    requires s == h + (a + (b + c)) + "]"
    ensures s == (h + a) + b + (c + "]")
  {
  }

  lemma GroupInside(pre: string, mid: string, post: string, s: string)
    requires s == pre + mid + post && Closed(mid)
    ensures s[|pre|..|pre| + |mid|] == mid && s[|pre|] == '['
  {
    assert s[|pre|..|pre| + |mid|] == mid;
  }

  /** The first '[' after the node's own belongs to its first child. */
  lemma FirstGroup(tr: Tree)
    requires Printable(tr)
    ensures Find(Print(tr), '[', 1) == if tr.kids == [] then -1 else KidStart(tr, 0)
  {
    TagPlain(tr);
    if tr.kids != [] {
      PrintAllStarts(tr.kids);
    }
    assert tr.kids[..0] == [] && KidStart(tr, 0) == |Head(tr)|;
    assert Print(tr) == "[" + Tag(tr) + PrintAll(tr.kids) + "]";
    FirstInner(Print(tr), Tag(tr), PrintAll(tr.kids));
  }

  lemma PrintAllStarts(ts: seq<Tree>)
    requires ts != []
    ensures PrintAll(ts) != "" && PrintAll(ts)[0] == '['
  {
    assert Print(ts[0])[0] == Head(ts[0])[0] == '[';
  }

  lemma FirstInner(s: string, tag: string, inner: string)
    requires s == "[" + tag + inner + "]" && '[' !in tag && (inner == "" || inner[0] == '[')
    ensures Find(s, '[', 1) == if inner == "" then -1 else |tag| + 1
  {
    assert forall i :: 1 <= i < |tag| + 1 ==> s[i] == tag[i - 1];
    assert inner == "" ==> s[|tag| + 1] == ']' && |s| == |tag| + 2;
    assert inner != "" ==> s[|tag| + 1] == inner[0];
  }

  // ---------------------------------------------------------------- subtrees by name and rank

  /** n is tr or hangs somewhere below it. */
  ghost predicate HasSubtree(tr: Tree, n: Tree)
    decreases tr
  {
    n == tr || AnyHasSubtree(tr.kids, n)
  }

  ghost predicate AnyHasSubtree(ts: seq<Tree>, n: Tree)
    decreases ts
  {
    ts != [] && (HasSubtree(ts[0], n) || AnyHasSubtree(ts[1..], n))
  }

  /** The text of n stands at position p of s. */
  predicate StandsAt(s: string, p: nat, n: Tree) {
    p + |Print(n)| <= |s| && s[p..p + |Print(n)|] == Print(n)
  }

  lemma StandsLeft(a: string, b: string, p: nat, n: Tree)
    requires StandsAt(a, p, n)
    ensures StandsAt(a + b, p, n)
  {
    assert (a + b)[p..p + |Print(n)|] == a[p..p + |Print(n)|];
  }

  lemma StandsRight(a: string, b: string, p: nat, n: Tree)
    requires StandsAt(b, p, n)
    ensures StandsAt(a + b, |a| + p, n)
  {
    assert (a + b)[|a| + p..|a| + p + |Print(n)|] == b[p..p + |Print(n)|];
  }

  lemma StandsInKids(tr: Tree, p: nat, n: Tree)
    requires Printable(tr) && StandsAt(PrintAll(tr.kids), p, n)
    ensures StandsAt(Print(tr), |Head(tr)| + p, n)
  {
    StandsRight(Head(tr), PrintAll(tr.kids), p, n);
    StandsLeft(Head(tr) + PrintAll(tr.kids), "]", |Head(tr)| + p, n);
    assert Print(tr) == Head(tr) + PrintAll(tr.kids) + "]";
  }

  predicate Opens(s: string, p: nat) {
    p < |s| && s[p] == '['
  }

  /** Every opening bracket of the text opens some subtree. */
  lemma {:induction false} BracketsOpenSubtrees(tr: Tree, p: nat) returns (n: Tree)
    requires Printable(tr) && Opens(Print(tr), p)
    ensures HasSubtree(tr, n) && Printable(n) && StandsAt(Print(tr), p, n)
    decreases tr
  {
    if p == 0 {
      StandsAtStart(tr);
      return tr;
    }
    var q := BracketPastHead(tr, p);
    n := BracketsOpenSubtreesAll(tr.kids, q);
    StandsInKids(tr, q, n);
  }

  lemma StandsAtStart(tr: Tree)
    ensures HasSubtree(tr, tr) && StandsAt(Print(tr), 0, tr)
  {
    assert Print(tr)[0..|Print(tr)|] == Print(tr);
  }

  lemma BracketPastHead(tr: Tree, p: nat) returns (q: nat)
    requires Printable(tr) && 0 < p && Opens(Print(tr), p)
    ensures p == |Head(tr)| + q && Opens(PrintAll(tr.kids), q)
  {
    TagPlain(tr);
    assert Print(tr) == Head(tr) + PrintAll(tr.kids) + "]";
    assert forall i :: 0 < i < |Head(tr)| ==> Head(tr)[i] == Tag(tr)[i - 1];
    q := p - |Head(tr)|;
  }

  lemma {:induction false} BracketsOpenSubtreesAll(ts: seq<Tree>, p: nat) returns (n: Tree)
    requires PrintableAll(ts) && Opens(PrintAll(ts), p)
    ensures AnyHasSubtree(ts, n) && Printable(n) && StandsAt(PrintAll(ts), p, n)
    decreases ts
  {
    var a, b := Print(ts[0]), PrintAll(ts[1..]);
    if p < |a| {
      n := BracketsOpenSubtrees(ts[0], p);
      StandsLeft(a, b, p, n);
    } else {
      n := BracketsOpenSubtreesAll(ts[1..], p - |a|);
      StandsRight(a, b, p - |a|, n);
    }
  }

  /** Every subtree's text stands somewhere in the text of the whole. */
  lemma {:induction false} SubtreesStand(tr: Tree, n: Tree) returns (p: nat)
    requires Printable(tr) && HasSubtree(tr, n)
    ensures Printable(n) && StandsAt(Print(tr), p, n)
    decreases tr
  {
    if AnyHasSubtree(tr.kids, n) {
      var q := SubtreesStandAll(tr.kids, n);
      StandsInKids(tr, q, n);
      return |Head(tr)| + q;
    }
    StandsAtStart(tr);
    return 0;
  }

  lemma {:induction false} SubtreesStandAll(ts: seq<Tree>, n: Tree) returns (p: nat)
    requires PrintableAll(ts) && AnyHasSubtree(ts, n)
    ensures Printable(n) && StandsAt(PrintAll(ts), p, n)
    decreases ts
  {
    var a, b := Print(ts[0]), PrintAll(ts[1..]);
    if HasSubtree(ts[0], n) {
      p := SubtreesStand(ts[0], n);
      StandsLeft(a, b, p, n);
    } else {
      var q := SubtreesStandAll(ts[1..], n);
      StandsRight(a, b, q, n);
      p := |a| + q;
    }
  }

  lemma {:induction false} FindShift(s: string, c: char, p: nat, i: nat)
    requires p <= |s|
    ensures Find(s, c, p + i) == if Find(s[p..], c, i) == -1 then -1 else p + Find(s[p..], c, i)
    decreases |s| - i
  {
    if p + i < |s| && s[p + i] != c {
      FindShift(s, c, p, i + 1);
    }
  }

  lemma RankAtShift(s: string, p: nat)
    requires p <= |s| && RankAt(s[p..], 0) != -1
    ensures RankAt(s, p) == p + RankAt(s[p..], 0)
  {
    FindShift(s, ':', p, 0);
    FindShift(s, ':', p, Find(s[p..], ':', 0) + 1);
  }

  lemma RankTextShift(s: string, p: nat, u: string, j: nat, k: nat)
    requires p <= |s| && u == s[p..] && RankAt(u, 0) == j && Find(u, ':', j) == k
    ensures RankAt(s, p) == p + j && RankText(s, p) == u[j..k]
  {
    RankAtShift(s, p);
    FindShift(s, ':', p, j);
    SliceShift(s, p, j, k);
  }

  lemma SliceShift(s: string, p: nat, j: nat, k: nat)
    requires p <= |s| && j <= k <= |s[p..]|
    ensures s[p + j..p + k] == s[p..][j..k]
  {
  }

  /** What the lookup reads at the start of a node's text. */
  lemma ReadAtStart(n: Tree, rest: string, host: string)
    requires Printable(n) && ':' !in host
    ensures var u := Head(n) + rest;
      && ("[" + host <= u <==> host <= n.name.host)
      && 0 <= RankAt(u, 0) <= |Head(n)| && Find(u, ':', RankAt(u, 0)) != -1
      && RankText(u, 0) == Dec(n.rank)
  {
    Colons(n, rest);
    RankLies(Head(n) + rest, n);
    HostPrefix(Head(n) + rest, n.name.host, host);
    HeadLength(n);
  }

  lemma HeadLength(n: Tree)
    ensures |Head(n)| == |n.name.host| + |Pad5(Dec(n.name.port))| + |Dec(n.rank)| + 5
  {
  }

  lemma HeadOpensOnce(n: Tree)
    requires PlainHost(n.name.host)
    ensures Head(n) != "" && Head(n)[0] == '[' && forall i :: 0 < i < |Head(n)| ==> Head(n)[i] != '['
  {
    TagPlain(n);
    assert forall i :: 0 < i < |Head(n)| ==> Head(n)[i] == Tag(n)[i - 1];
  }

  lemma SliceStarts(s: string, p: nat, whole: string, h: string, k: string)
    requires p + |whole| <= |s| && s[p..p + |whole|] == whole == h + k
    ensures s[p..] == h + s[p + |h|..]
    ensures forall q :: p <= q < p + |h| ==> s[q] == h[q - p]
  {
    assert s[p..] == s[p..p + |whole|] + s[p + |whole|..];
    assert forall q :: p <= q < p + |h| ==> s[q] == s[p..p + |whole|][q - p];
  }

  lemma ReadAtNode(s: string, p: nat, n: Tree, host: string)
    requires Printable(n) && StandsAt(s, p, n) && ':' !in host
    ensures Matches(s, "[" + host, p) <==> host <= n.name.host
    ensures p < |s| && s[p] == '[' && RankAt(s, p) != -1 && RankText(s, p) == Dec(n.rank)
    ensures forall q :: p < q < RankAt(s, p) ==> s[q] != '['
  {
    var h, k := Head(n), PrintAll(n.kids) + "]";
    assert Print(n) == h + k;
    SliceStarts(s, p, Print(n), h, k);
    ReadAtStart(n, s[p + |h|..], host);
    HeadOpensOnce(n);
    ReadFrom(s, p, h, s[p..], Dec(n.rank));
  }

  /** Reading the rank at p in the whole text is reading it at 0 in the text from p on. */
  lemma ReadFrom(s: string, p: nat, h: string, u: string, rank: string)
    requires p <= |s| && u == s[p..] && 0 <= RankAt(u, 0) <= |h| && Find(u, ':', RankAt(u, 0)) != -1
    requires RankText(u, 0) == rank
    requires h != "" && p + |h| <= |s| && forall q :: p <= q < p + |h| ==> s[q] == h[q - p]
    requires h[0] == '[' && forall i :: 0 < i < |h| ==> h[i] != '['
    ensures RankAt(s, p) != -1 && RankText(s, p) == rank
    ensures s[p] == '[' && forall q :: p < q < RankAt(s, p) ==> s[q] != '['
  {
    RankTextShift(s, p, u, RankAt(u, 0), Find(u, ':', RankAt(u, 0)));
  }

  lemma HostPrefix(u: string, name: string, host: string)
    requires |u| > |name| + 1 && u[0] == '[' && u[1..|name| + 1] == name && u[|name| + 1] == ':' && ':' !in host
    ensures "[" + host <= u <==> host <= name
  {
    if "[" + host <= u {
      assert forall i :: 0 <= i < |host| ==> u[i + 1] == ("[" + host)[i + 1] == host[i];
      assert host == u[1..|host| + 1];
    }
    if host <= name {
      assert u[..|host| + 1] == "[" + host;
    }
  }

  lemma RankTextsDiffer(a: nat, b: nat)
    ensures Dec(a) == Dec(b) <==> a == b
  {
    DecReads(a);
    DecReads(b);
  }

  lemma {:induction false} RankIsMet(tr: Tree, n: Tree)
    requires HasSubtree(tr, n)
    ensures n.rank in Ranks(tr)
    decreases tr
  {
    if n != tr {
      RankIsMetAll(tr.kids, n);
    }
  }

  lemma {:induction false} RankIsMetAll(ts: seq<Tree>, n: Tree)
    requires AnyHasSubtree(ts, n)
    ensures n.rank in RanksAll(ts)
    decreases ts
  {
    if HasSubtree(ts[0], n) {
      RankIsMet(ts[0], n);
    } else {
      RankIsMetAll(ts[1..], n);
    }
  }

  lemma RepeatsNowhere(a: seq<Rank>, b: seq<Rank>)
    requires NoRepeats(a + b)
    ensures NoRepeats(a) && NoRepeats(b) && forall r :: r in a ==> r !in b
  {
    forall r ensures multiset(a)[r] + multiset(b)[r] <= 1 {
      assert multiset(a + b)[r] <= 1;
    }
    forall r | r in a ensures r !in b {
      assert r in multiset(a) && multiset(a)[r] + multiset(b)[r] <= 1;
    }
  }

  /** Where no rank repeats, a rank names one subtree. */
  lemma {:induction false} RankNamesOne(tr: Tree, m: Tree, n: Tree)
    requires NoRepeats(Ranks(tr)) && HasSubtree(tr, m) && HasSubtree(tr, n) && m.rank == n.rank
    ensures m == n
    decreases tr
  {
    RepeatsNowhere([tr.rank], RanksAll(tr.kids));
    if AnyHasSubtree(tr.kids, m) {
      RankIsMetAll(tr.kids, m);
    }
    if AnyHasSubtree(tr.kids, n) {
      RankIsMetAll(tr.kids, n);
    }
    if AnyHasSubtree(tr.kids, m) && AnyHasSubtree(tr.kids, n) {
      RankNamesOneOf(tr.kids, m, n);
    }
  }

  lemma {:induction false} RankNamesOneOf(ts: seq<Tree>, m: Tree, n: Tree)
    requires NoRepeats(RanksAll(ts)) && AnyHasSubtree(ts, m) && AnyHasSubtree(ts, n) && m.rank == n.rank
    ensures m == n
    decreases ts
  {
    RepeatsNowhere(Ranks(ts[0]), RanksAll(ts[1..]));
    RankSplit(ts, m);
    RankSplit(ts, n);
    if HasSubtree(ts[0], m) && HasSubtree(ts[0], n) {
      RankNamesOne(ts[0], m, n);
    } else {
      RankNamesOneOf(ts[1..], m, n);
    }
  }

  /** A subtree of a list is in its first tree or in a later one, and so is its rank. */
  lemma RankSplit(ts: seq<Tree>, n: Tree)
    requires AnyHasSubtree(ts, n)
    ensures HasSubtree(ts[0], n) ==> n.rank in Ranks(ts[0])
    ensures !HasSubtree(ts[0], n) ==> AnyHasSubtree(ts[1..], n) && n.rank in RanksAll(ts[1..])
  {
    if HasSubtree(ts[0], n) {
      RankIsMet(ts[0], n);
    } else {
      RankIsMetAll(ts[1..], n);
    }
  }

  /** n is a node of tr with this rank whose host begins with the given text. */
  ghost predicate Sought(tr: Tree, n: Tree, host: string, rank: Rank) {
    HasSubtree(tr, n) && n.rank == rank && host <= n.name.host
  }

  /** No occurrence of the pattern before `limit` belongs to a node of this rank. */
  ghost predicate Missed(s: string, pat: string, limit: int, rank: Rank) {
    forall p: nat :: p < limit && Matches(s, pat, p) ==> RankAt(s, p) != -1 && RankText(s, p) != Dec(rank)
  }

  ghost predicate GroupAt(s: string, p: nat, n: Tree) {
    StandsAt(s, p, n) && Closed(Print(n)) && s[p] == '['
  }

  /** What one round of the search learns at an occurrence of the pattern. */
  lemma Occurrence(tr: Tree, host: string, cur: nat) returns (n: Tree)
    requires Printable(tr) && ':' !in host && Matches(Print(tr), "[" + host, cur)
    ensures Sought(tr, n, host, n.rank) && GroupAt(Print(tr), cur, n)
    ensures RankAt(Print(tr), cur) != -1 && RankText(Print(tr), cur) == Dec(n.rank)
    ensures forall q: nat :: cur < q < RankAt(Print(tr), cur) ==> !Matches(Print(tr), "[" + host, q)
  {
    MatchOpens(Print(tr), host, cur);
    n := BracketsOpenSubtrees(tr, cur);
    ReadAtNode(Print(tr), cur, n, host);
    PrintCloses(n);
    forall q: nat | cur < q < RankAt(Print(tr), cur) ensures !Matches(Print(tr), "[" + host, q) {
      if Matches(Print(tr), "[" + host, q) {
        MatchOpens(Print(tr), host, q);
      }
    }
  }

  lemma MatchOpens(s: string, host: string, q: nat)
    requires Matches(s, "[" + host, q)
    ensures Opens(s, q)
  {
    assert ("[" + host)[0] == '[' && s[q..][0] == s[q];
  }

  lemma MissedMore(s: string, pat: string, cur: nat, from: nat, next: int, rank: Rank)
    requires forall q: nat :: cur < q < from ==> !Matches(s, pat, q)
    requires forall q: nat :: from <= q && (next == -1 || q < next) ==> !Matches(s, pat, q)
    requires Missed(s, pat, cur, rank) && RankAt(s, cur) != -1
    ensures RankText(s, cur) != Dec(rank) ==> Missed(s, pat, if next == -1 then |s| else next, rank)
  {
  }

  lemma MissedEverywhere(tr: Tree, host: string, rank: Rank)
    requires Printable(tr) && ':' !in host && Missed(Print(tr), "[" + host, |Print(tr)|, rank)
    ensures forall n :: !Sought(tr, n, host, rank)
  {
    forall n ensures !Sought(tr, n, host, rank) {
      if HasSubtree(tr, n) && n.rank == rank {
        var p := SubtreesStand(tr, n);
        ReadAtNode(Print(tr), p, n, host);
      }
    }
  }

  lemma TextOf(host: string, port: string, rank: string, flag: string, tail: string)
    requires tail == ":" + flag
    ensures "[" + host + ":" + port + ":" + rank + tail == "[" + (host + ":" + port + ":" + rank + ":" + flag)
  {
  }

  /** At a cursor, a bracket group of n characters, or no group any more. */
  predicate GroupOrEnd(s: string, at: int, n: nat) {
    && at >= -1
    && (at != -1 && Find(s, '[', at) != -1 ==> at + n <= |s| && Closed(s[at..at + n]) && s[at] == '[')
  }

  /** A node's fields have been appended: an opening bracket, host, port and rank, and what comes after the rank. */
  ghost predicate Extended(before: string, now: string, name: Name, rank: Rank, tail: string) {
    exists port, number ::
      && Decimal(port, name.port, 5) && Decimal(number, rank, 1)
      && now == before + ("[" + name.host + ":" + port + ":" + number + tail)
  }

  class Graph {
    var byteArray: string
    var bufIdx: int   // -1 stands for npos

    constructor (text: string)
      ensures byteArray == text && bufIdx == -1
    {
      byteArray, bufIdx := text, -1;
    }

    method AddLeaf(name: Name, rank: Rank)
      modifies `byteArray
      ensures byteArray == old(byteArray) + Print(Node(rank, name, true, []))
      ensures Extended(old(byteArray), byteArray, name, rank, ":0]")
    {
      PortIsDecimal(name.port);
      DecIsDecimal(rank);
      byteArray := byteArray + ("[" + name.host + ":" + Pad5(Dec(name.port)) + ":" + Dec(rank) + ":0]");
      TextOf(name.host, Pad5(Dec(name.port)), Dec(rank), "0", ":0");
    }

    method AddSubTreeRoot(name: Name, rank: Rank)
      modifies `byteArray
      ensures byteArray == old(byteArray) + Head(Node(rank, name, false, []))
      ensures Extended(old(byteArray), byteArray, name, rank, ":1")
    {
      PortIsDecimal(name.port);
      DecIsDecimal(rank);
      byteArray := byteArray + ("[" + name.host + ":" + Pad5(Dec(name.port)) + ":" + Dec(rank) + ":1");
      TextOf(name.host, Pad5(Dec(name.port)), Dec(rank), "1", ":1");
    }

    method EndSubTree()
      modifies `byteArray
      ensures byteArray == old(byteArray) + "]"
    {
      byteArray := byteArray + "]";
    }

    method IsRootBackEnd() returns (leaf: bool)
      requires HasFields(byteArray)
      ensures leaf <==> byteArray[FlagAt(byteArray)] == '0'
    {
      ghost var flagAt, need := FlagAt(byteArray), 3;
      var idx, numColons := 0, 0;
      while numColons < 3
        invariant 0 <= numColons && 0 <= need && 0 <= idx <= |byteArray|
        invariant need + numColons == 3 && AfterColons(byteArray, need, idx) == flagAt
        decreases 3 - numColons, |byteArray| - idx
      {
        ColonStep(byteArray, need, idx);
        if byteArray[idx] == ':' {
          numColons, need := numColons + 1, need - 1;
        }
        idx := idx + 1;
      }
      leaf := byteArray[idx] == '0';
    }

    method SetToFirstChild()
      modifies `bufIdx
      ensures bufIdx == Find(byteArray, '[', 1)
    {
      bufIdx := Find(byteArray, '[', 1);
    }

    /** Returns the bracket group at the cursor and moves past it; the group must close, or the source runs off its buffer. */
    method GetNextChild(ghost n: nat) returns (child: Graph?)
      requires GroupOrEnd(byteArray, bufIdx, n)
      modifies `bufIdx
      ensures child == null <==> old(bufIdx) == -1 || Find(byteArray, '[', old(bufIdx)) == -1
      ensures child == null ==> bufIdx == old(bufIdx)
      ensures child != null ==> fresh(child) && child.byteArray == byteArray[old(bufIdx)..old(bufIdx) + n]
      ensures child != null ==> bufIdx == old(bufIdx) + n
    {
      if bufIdx == -1 || Find(byteArray, '[', bufIdx) == -1 {
        return null;
      }
      var end := MatchBracket(bufIdx, n);
      child := new Graph(byteArray[bufIdx..bufIdx + end]);
      bufIdx := bufIdx + end;
    }

    /** The bracket-counting loop of get_NextChild and get_MySubTree: how many characters the group at `begin` spans. */
    method MatchBracket(begin: nat, ghost n: nat) returns (end: nat)
      requires begin + n <= |byteArray| && Closed(byteArray[begin..begin + n]) && byteArray[begin] == '['
      ensures end == n
    {
      ghost var group := byteArray[begin..begin + n];
      var cur, left, right := begin, 1, 0;
      end := 1;
      assert group[..1] == "[" && "["[..0] == "" && group[..n] == group;
      while left != right
        invariant 1 <= end <= n && cur == begin + end - 1
        invariant left - right == Level(group[..end])
        decreases n - end
      {
        cur := cur + 1;
        end := end + 1;
        assert group[..end][..end - 1] == group[..end - 1] && group[end - 1] == byteArray[cur];
        if byteArray[cur] == '[' {
          left := left + 1;
        } else if byteArray[cur] == ']' {
          right := right + 1;
        }
      }
    }

    method ReadRank(start: nat) returns (begin: int, rankString: string)
      requires RankAt(byteArray, start) != -1
      ensures begin == RankAt(byteArray, start) && rankString == RankText(byteArray, start)
    {
      begin := Find(byteArray, ':', start) + 1;
      begin := Find(byteArray, ':', begin) + 1;
      rankString := Between(byteArray, begin, Find(byteArray, ':', begin));
    }

    /** The search loop of get_MySubTree: where the text of the wanted node starts. */
    method FindNode(host: string, rank: Rank, ghost tr: Tree) returns (hit: bool, cur: nat, ghost found: Tree)
      requires byteArray == Print(tr) && Printable(tr) && ':' !in host
      ensures hit ==> Sought(tr, found, host, rank) && GroupAt(byteArray, cur, found)
      ensures !hit ==> forall n :: !Sought(tr, n, host, rank)
    {
      var pat := "[" + host;
      var begin := FindText(byteArray, pat, 0);
      hit, cur, found := false, 0, tr;
      while begin != -1 && !hit
        invariant begin == -1 || (0 <= begin && Matches(byteArray, pat, begin))
        invariant !hit ==> Missed(byteArray, pat, if begin == -1 then |byteArray| else begin, rank)
        invariant hit ==> Sought(tr, found, host, rank) && GroupAt(byteArray, cur, found)
        decreases !hit, if begin == -1 then 0 else |byteArray| - begin + 1
      {
        cur := begin;
        ghost var n := Occurrence(tr, host, cur);
        var rankString;
        begin, rankString := ReadRank(begin);
        RankTextsDiffer(n.rank, rank);
        if Dec(rank) == rankString {
          hit, found := true, n;
        }
        ghost var from := begin;
        begin := FindText(byteArray, pat, begin);
        MissedMore(byteArray, pat, cur, from, begin, rank);
      }
      if !hit {
        MissedEverywhere(tr, host, rank);
      }
    }

    /** Finds a node by host and rank and returns the text of its subtree.  A host that is a prefix of the node's is enough. */
    method GetMySubTree(host: string, rank: Rank, ghost tr: Tree) returns (sub: Graph?, ghost found: Tree)
      requires byteArray == Print(tr) && Printable(tr) && ':' !in host
      ensures sub == null ==> forall n :: !Sought(tr, n, host, rank)
      ensures sub != null ==> fresh(sub) && Sought(tr, found, host, rank) && sub.byteArray == Print(found)
      ensures sub != null && NoRepeats(Ranks(tr)) ==> forall n :: HasSubtree(tr, n) && n.rank == rank ==> n == found
    {
      var hit, cur;
      hit, cur, found := FindNode(host, rank, tr);
      if !hit {
        return null, tr;
      }
      sub := CopyGroup(cur, found);
      forall n | NoRepeats(Ranks(tr)) && HasSubtree(tr, n) && n.rank == rank ensures n == found {
        RankNamesOne(tr, n, found);
      }
    }

    /** The bracket group at a cursor, as a graph of its own. */
    method CopyGroup(cur: nat, ghost found: Tree) returns (sub: Graph)
      requires GroupAt(byteArray, cur, found)
      ensures fresh(sub) && sub.byteArray == Print(found)
    {
      var end := MatchBracket(cur, |Print(found)|);
      sub := new Graph(byteArray[cur..cur + end]);
    }
  }
}
