/**
 * Batches of packets on one connection: a count marked with the sender's byte order, the sizes of all
 * buffers, and the buffers themselves.
 */
module Messages {
  import opened Prelude
  import opened Wire
  import opened PdrStream
  import opened Layout

  // The header and data buffers of one packet, as they travel.
  datatype WirePacket = WirePacket(hdr: seq<Byte>, data: seq<Byte>)

  const MESSAGE_PREALLOC_LEN: nat := 10

  predicate PacketOk(p: WirePacket) {
    0 < |p.hdr| <= UINT32_MAX && |p.data| <= UINT64_MAX
  }

  predicate BatchOk(ps: seq<WirePacket>) {
    2 * |ps| <= UINT32_MAX && forall i :: 0 <= i < |ps| ==> PacketOk(ps[i])
  }

  // ---------------------------------------------------------------- the form on the wire

  function Sizes(ps: seq<WirePacket>): seq<nat> {
    if ps == [] then [] else Sizes(ps[..|ps| - 1]) + [|ps[|ps| - 1].hdr|, |ps[|ps| - 1].data|]
  }

  function Buffers(ps: seq<WirePacket>): seq<Byte> {
    if ps == [] then [] else Buffers(ps[..|ps| - 1]) + (ps[|ps| - 1].hdr + ps[|ps| - 1].data)
  }

  /** One message; the byte after the size vector is whatever the sender's buffer held there. */
  function Frame(ps: seq<WirePacket>, pad: Byte, big: bool): seq<Byte> {
    [OrderByte(big)] + Store(|ps|, 4, big) + NumsBytes(Sizes(ps), 8, big) + [pad] + Buffers(ps)
  }

  /** Cut n packets' buffers apart by their sizes, two to a packet. */
  function Cut(s: seq<Byte>, sizes: seq<nat>, n: nat): (p: Parsed<seq<WirePacket>>)
    requires 2 * n <= |sizes|
    ensures p.Parsed? ==> |p.value| == n
  {
    if n == 0 then Parsed([], s)
    else
      match Cut(s, sizes, n - 1)
      case Malformed => Malformed
      case Parsed(ps, rest) =>
        var h, d := sizes[2 * n - 2], sizes[2 * n - 1];
        if |rest| < h + d then Malformed
        else Parsed(ps + [WirePacket(rest[..h], rest[h..h + d])], rest[h + d..])
  }

  /** What a receiver makes of the bytes: the count in the marked order, the sizes in its own. */
  function ParseFrame(s: seq<Byte>, big: bool): Parsed<seq<WirePacket>> {
    if |s| < 5 then Malformed
    else
      match Number(s[1..], 4, Reader(big, s[0] != OrderByte(big)))
      case Malformed => Malformed
      case Parsed(count, rest) =>
        match Numbers(rest, 2 * count, 8, Reader(big, false))
        case Malformed => Malformed
        case Parsed(sizes, rest') => if rest' == [] then Malformed else Cut(rest'[1..], sizes, count)
  }

  // ---------------------------------------------------------------- one message

  lemma {:induction false} SizesLength(ps: seq<WirePacket>)
    ensures |Sizes(ps)| == 2 * |ps|
  {
    if ps != [] {
      SizesLength(ps[..|ps| - 1]);
    }
  }

  lemma {:induction false} SizesFit(ps: seq<WirePacket>)
    requires forall i :: 0 <= i < |ps| ==> PacketOk(ps[i])
    ensures forall i :: 0 <= i < |Sizes(ps)| ==> Sizes(ps)[i] <= UINT64_MAX
  {
    if ps != [] {
      SizesFit(ps[..|ps| - 1]);
    }
  }

  lemma {:induction false} CutAgrees(s: seq<Byte>, a: seq<nat>, b: seq<nat>, n: nat)
    requires 2 * n <= |a| && 2 * n <= |b| && forall i :: 0 <= i < 2 * n ==> a[i] == b[i]
    ensures Cut(s, a, n) == Cut(s, b, n)
  {
    if n > 0 {
      CutAgrees(s, a, b, n - 1);
    }
  }

  lemma LastSizes(ps: seq<WirePacket>)
    requires ps != []
    ensures |Sizes(ps)| == 2 * |ps| && |Sizes(ps[..|ps| - 1])| == 2 * |ps| - 2
    ensures Sizes(ps)[2 * |ps| - 2] == |ps[|ps| - 1].hdr| && Sizes(ps)[2 * |ps| - 1] == |ps[|ps| - 1].data|
    ensures forall i :: 0 <= i < 2 * |ps| - 2 ==> Sizes(ps)[i] == Sizes(ps[..|ps| - 1])[i]
  {
    SizesLength(ps[..|ps| - 1]);
  }

  lemma CutLast(s: seq<Byte>, sizes: seq<nat>, front: seq<WirePacket>, last: WirePacket, rest: seq<Byte>)
    requires |sizes| == 2 * |front| + 2
    requires sizes[2 * |front|] == |last.hdr| && sizes[2 * |front| + 1] == |last.data|
    requires Cut(s, sizes, |front|) == Parsed(front, last.hdr + last.data + rest)
    ensures Cut(s, sizes, |front| + 1) == Parsed(front + [last], rest)
  {
    ThreeParts(last.hdr, last.data, rest);
  }

  lemma {:induction false} CutBack(ps: seq<WirePacket>, rest: seq<Byte>)
    ensures |Sizes(ps)| == 2 * |ps| && Cut(Buffers(ps) + rest, Sizes(ps), |ps|) == Parsed(ps, rest)
  {
    if ps == [] {
      assert Buffers(ps) + rest == rest;
    } else {
      var front, last := ps[..|ps| - 1], ps[|ps| - 1];
      LastSizes(ps);
      Reassociate(Buffers(front), last.hdr + last.data, rest);
      CutBack(front, last.hdr + last.data + rest);
      CutAgrees(Buffers(ps) + rest, Sizes(front), Sizes(ps), |front|);
      CutLast(Buffers(ps) + rest, Sizes(ps), front, last, rest);
      LastApart(ps);
    }
  }

  lemma ThreeParts(h: seq<Byte>, d: seq<Byte>, rest: seq<Byte>)
    ensures var all := h + d + rest;
            all[..|h|] == h && all[|h|..|h| + |d|] == d && all[|h| + |d|..] == rest
  {
  }

  lemma FrameNests(ps: seq<WirePacket>, pad: Byte, big: bool, rest: seq<Byte>)
    ensures Frame(ps, pad, big) + rest
         == [OrderByte(big)] + (Store(|ps|, 4, big) + (NumsBytes(Sizes(ps), 8, big) + ([pad] + (Buffers(ps) + rest))))
  {
    Nest([OrderByte(big)], Store(|ps|, 4, big), NumsBytes(Sizes(ps), 8, big), [pad], Buffers(ps), rest);
  }

  lemma Nest(a: seq<Byte>, b: seq<Byte>, c: seq<Byte>, d: seq<Byte>, e: seq<Byte>, f: seq<Byte>)
    ensures a + b + c + d + e + f == a + (b + (c + (d + (e + f))))
  {
  }

  lemma CountBack(ps: seq<WirePacket>, pad: Byte, sender: bool, reader: bool, rest: seq<Byte>)
    requires BatchOk(ps)
    ensures ParseFrame(Frame(ps, pad, sender) + rest, reader)
         == match Numbers(NumsBytes(Sizes(ps), 8, sender) + ([pad] + (Buffers(ps) + rest)), 2 * |ps|, 8, Reader(reader, false))
            case Malformed => Malformed
            case Parsed(sizes, rest') => if rest' == [] then Malformed else Cut(rest'[1..], sizes, |ps|)
  {
    var body := NumsBytes(Sizes(ps), 8, sender) + ([pad] + (Buffers(ps) + rest));
    var s := Frame(ps, pad, sender) + rest;
    FrameNests(ps, pad, sender, rest);
    assert s[0] == OrderByte(sender) && s[1..] == Store(|ps|, 4, sender) + body;
    Powers();
    NumberBack(|ps|, 4, sender, reader, body);
  }

  /** Between equal byte orders a message is read back exactly, using exactly its own bytes. */
  lemma FrameBack(ps: seq<WirePacket>, pad: Byte, big: bool, rest: seq<Byte>)
    requires BatchOk(ps)
    ensures ParseFrame(Frame(ps, pad, big) + rest, big) == Parsed(ps, rest)
  {
    var tail := [pad] + (Buffers(ps) + rest);
    CountBack(ps, pad, big, big, rest);
    SizesLength(ps);
    SizesFit(ps);
    Powers();
    NumbersBack(Sizes(ps), 8, big, big, tail);
    assert tail[1..] == Buffers(ps) + rest;
    CutBack(ps, rest);
  }

  lemma {:induction false} CutOnly(s: seq<Byte>, sizes: seq<nat>, n: nat)
    requires 2 * n <= |sizes| && Cut(s, sizes, n).Parsed?
    ensures var p := Cut(s, sizes, n); s == Buffers(p.value) + p.rest && Sizes(p.value) == sizes[..2 * n]
  {
    if n == 0 {
      assert s == [] + s;
    } else {
      var front, p := Cut(s, sizes, n - 1), Cut(s, sizes, n);
      var h, d := sizes[2 * n - 2], sizes[2 * n - 1];
      var last := WirePacket(front.rest[..h], front.rest[h..h + d]);
      CutOnly(s, sizes, n - 1);
      CutOffTwo(front.rest, h, d);
      BuffersSnoc(front.value, last);
      Reassociate(Buffers(front.value), last.hdr + last.data, p.rest);
      LastTwo(sizes, n);
    }
  }

  lemma CutOffTwo(s: seq<Byte>, h: nat, d: nat)
    requires h + d <= |s|
    ensures s == s[..h] + s[h..h + d] + s[h + d..]
  {
  }

  lemma BuffersSnoc(front: seq<WirePacket>, last: WirePacket)
    ensures Buffers(front + [last]) == Buffers(front) + (last.hdr + last.data)
    ensures Sizes(front + [last]) == Sizes(front) + [|last.hdr|, |last.data|]
  {
    assert (front + [last])[..|front|] == front;
  }

  lemma LastTwo(sizes: seq<nat>, n: nat)
    requires 0 < n && 2 * n <= |sizes|
    ensures sizes[..2 * n] == sizes[..2 * (n - 1)] + [sizes[2 * n - 2], sizes[2 * n - 1]]
  {
  }

  /** What is accepted as a message from a machine of the same byte order is one, to the last byte. */
  lemma OnlyFrames(s: seq<Byte>, big: bool)
    requires ParseFrame(s, big).Parsed? && s[0] == OrderByte(big)
    ensures var p := ParseFrame(s, big); exists pad :: s == Frame(p.value, pad, big) + p.rest
  {
    var m, p := Reader(big, false), ParseFrame(s, big);
    var count := Number(s[1..], 4, m);
    var sizes := Numbers(count.rest, 2 * count.value, 8, m);
    NumberOnly(s[1..], 4, m);
    NumbersOnly(count.rest, 2 * count.value, 8, m);
    CutOnly(sizes.rest[1..], sizes.value, count.value);
    assert Sizes(p.value) == sizes.value;
    SizesLength(p.value);
    FrameNests(p.value, sizes.rest[0], big, p.rest);
    Peel(s, sizes.rest, Store(count.value, 4, big), NumsBytes(sizes.value, 8, big), Buffers(p.value) + p.rest);
  }

  lemma Peel(s: seq<Byte>, tail: seq<Byte>, count: seq<Byte>, sizes: seq<Byte>, rest: seq<Byte>)
    requires s != [] && tail != [] && s[1..] == count + (sizes + tail) && tail[1..] == rest
    ensures s == [s[0]] + (count + (sizes + ([tail[0]] + rest)))
  {
  }

  // ---------------------------------------------------------------- between different byte orders

  lemma {:induction false} HighBytes(n: nat, w: nat, k: nat, j: nat)
    requires n < Pow256(k) && k <= j < w
    ensures Little(n, w)[j] == 0
  {
    if k > 0 {
      HighBytes(n / 256, w - 1, k - 1, j - 1);
    } else if j > 0 {
      HighBytes(0, w - 1, 0, j - 1);
    }
  }

  lemma {:induction false} AllZero(s: seq<Byte>)
    requires forall j :: 0 <= j < |s| ==> s[j] == 0
    ensures FromLittle(s) == 0
  {
    if s != [] {
      AllZero(s[1..]);
    }
  }

  /** A small positive size read in the wrong order comes out different. */
  lemma SmallSizeMisread(n: nat, sender: bool, reader: bool)
    requires 0 < n <= UINT32_MAX && sender != reader
    ensures Load(Store(n, 8, sender), reader) != n
  {
    var s := Little(n, 8);
    Powers();
    LittleRoundTrip(n, 8);
    if Load(Store(n, 8, sender), reader) == n {
      LittleOfLoad(Reverse(s));
      forall j | 0 <= j < 8 ensures s[j] == 0 {
        ReverseAt(s, j);
        HighBytes(n, 8, 4, if j < 4 then 7 - j else j);
      }
      AllZero(s);
    }
  }

  /** Numbers of w bytes stored by one machine and read, unswapped, by another. */
  function Misread(ns: seq<nat>, w: nat, sender: bool, reader: bool): seq<nat> {
    seq(|ns|, i requires 0 <= i < |ns| => Load(Store(ns[i], w, sender), reader))
  }

  lemma MisreadSnoc(front: seq<nat>, last: nat, w: nat, sender: bool, reader: bool)
    ensures Misread(front + [last], w, sender, reader)
         == Misread(front, w, sender, reader) + [Load(Store(last, w, sender), reader)]
  {
  }

  lemma NumberMisread(last: seq<Byte>, w: nat, reader: bool, rest: seq<Byte>)
    requires |last| == w
    ensures Number(last + rest, w, Reader(reader, false)) == Parsed(Load(last, reader), rest)
  {
    assert (last + rest)[..w] == last && (last + rest)[w..] == rest;
  }

  lemma {:induction false} NumbersMisread(ns: seq<nat>, w: nat, sender: bool, reader: bool, rest: seq<Byte>)
    ensures Numbers(NumsBytes(ns, w, sender) + rest, |ns|, w, Reader(reader, false))
         == Parsed(Misread(ns, w, sender, reader), rest)
  {
    if ns == [] {
      assert NumsBytes(ns, w, sender) + rest == rest && Misread(ns, w, sender, reader) == [];
    } else {
      var front, last := ns[..|ns| - 1], Store(ns[|ns| - 1], w, sender);
      Reassociate(NumsBytes(front, w, sender), last, rest);
      NumbersMisread(front, w, sender, reader, last + rest);
      NumberMisread(last, w, reader, rest);
      LastApart(ns);
      MisreadSnoc(front, ns[|ns| - 1], w, sender, reader);
    }
  }

  /** Whatever is cut out has the sizes it was cut by. */
  lemma {:induction false} CutSizes(s: seq<Byte>, sizes: seq<nat>, n: nat)
    requires 2 * n <= |sizes|
    ensures Cut(s, sizes, n).Parsed? ==> Sizes(Cut(s, sizes, n).value) == sizes[..2 * n]
  {
    if n > 0 {
      CutSizes(s, sizes, n - 1);
      if Cut(s, sizes, n).Parsed? {
        var ps := Cut(s, sizes, n).value;
        assert ps[..|ps| - 1] == Cut(s, sizes, n - 1).value;
        assert sizes[..2 * n] == sizes[..2 * (n - 1)] + [sizes[2 * n - 2], sizes[2 * n - 1]];
      }
    }
  }

  lemma {:induction false} FirstSize(ps: seq<WirePacket>)
    requires ps != []
    ensures |Sizes(ps)| == 2 * |ps| && Sizes(ps)[0] == |ps[0].hdr|
  {
    SizesLength(ps);
    if |ps| > 1 {
      FirstSize(ps[..|ps| - 1]);
      SizesLength(ps[..|ps| - 1]);
    }
  }

  lemma CutByOthers(s: seq<Byte>, sizes: seq<nat>, ps: seq<WirePacket>, rest: seq<Byte>)
    requires |sizes| == 2 * |ps| && sizes != Sizes(ps)
    ensures Cut(s, sizes, |ps|) != Parsed(ps, rest)
  {
    CutSizes(s, sizes, |ps|);
    assert sizes[..2 * |ps|] == sizes;
  }

  lemma ForeignMisread(ps: seq<WirePacket>, sender: bool, reader: bool)
    requires BatchOk(ps) && ps != [] && sender != reader
    ensures |Misread(Sizes(ps), 8, sender, reader)| == 2 * |ps| && Misread(Sizes(ps), 8, sender, reader) != Sizes(ps)
  {
    FirstSize(ps);
    SmallSizeMisread(Sizes(ps)[0], sender, reader);
    assert Misread(Sizes(ps), 8, sender, reader)[0] != Sizes(ps)[0];
  }

  lemma ForeignParse(ps: seq<WirePacket>, pad: Byte, sender: bool, reader: bool, rest: seq<Byte>)
    requires BatchOk(ps)
    ensures |Sizes(ps)| == 2 * |ps|
    ensures ParseFrame(Frame(ps, pad, sender) + rest, reader)
         == Cut(Buffers(ps) + rest, Misread(Sizes(ps), 8, sender, reader), |ps|)
  {
    var tail := [pad] + (Buffers(ps) + rest);
    CountBack(ps, pad, sender, reader, rest);
    SizesLength(ps);
    NumbersMisread(Sizes(ps), 8, sender, reader, tail);
    assert tail[1..] == Buffers(ps) + rest;
  }

  lemma ForeignNotReadBack(ps: seq<WirePacket>, pad: Byte, sender: bool, reader: bool, rest: seq<Byte>)
    requires BatchOk(ps) && ps != [] && sender != reader
    ensures ParseFrame(Frame(ps, pad, sender) + rest, reader) != Parsed(ps, rest)
  {
    ForeignParse(ps, pad, sender, reader, rest);
    ForeignMisread(ps, sender, reader);
    CutByOthers(Buffers(ps) + rest, Misread(Sizes(ps), 8, sender, reader), ps, rest);
  }

  /** A message, and the bytes after it, are recovered exactly when both ends have the same byte order. */
  lemma ReadBackIffSameOrder(ps: seq<WirePacket>, pad: Byte, sender: bool, reader: bool, rest: seq<Byte>)
    requires BatchOk(ps) && ps != []
    ensures ParseFrame(Frame(ps, pad, sender) + rest, reader) == Parsed(ps, rest) <==> sender == reader
  {
    if sender == reader {
      FrameBack(ps, pad, sender, rest);
    } else {
      ForeignNotReadBack(ps, pad, sender, reader, rest);
    }
  }

  // ---------------------------------------------------------------- where everything stands

  function BuffersLength(ps: seq<WirePacket>): nat {
    if ps == [] then 0 else BuffersLength(ps[..|ps| - 1]) + (|ps[|ps| - 1].hdr| + |ps[|ps| - 1].data|)
  }

  /** The order of the sender, the count, two sizes for each packet, one byte to spare, and the buffers. */
  ghost predicate FrameLaidOut(s: seq<Byte>, ps: seq<WirePacket>, big: bool) {
    && |s| == 6 + 16 * |ps| + BuffersLength(ps)
    && s[0] == (if big then 1 else 0) && NumberAt(s, 1, |ps|, 4, big)
    && (forall i :: 0 <= i < |ps| ==> SizesAt(s, 5 + 16 * i, ps[i], big))
    && (forall i :: 0 <= i < |ps| ==> BuffersAt(s, 6 + 16 * |ps| + BuffersLength(ps[..i]), ps[i]))
  }

  ghost predicate SizesAt(s: seq<Byte>, at: nat, p: WirePacket, big: bool) {
    NumberAt(s, at, |p.hdr|, 8, big) && NumberAt(s, at + 8, |p.data|, 8, big)
  }

  ghost predicate BuffersAt(s: seq<Byte>, at: nat, p: WirePacket) {
    BytesAt(s, at, p.hdr) && BytesAt(s, at + |p.hdr|, p.data)
  }

  lemma {:induction false} SizeIs(ps: seq<WirePacket>, i: nat)
    requires i < |ps|
    ensures |Sizes(ps)| == 2 * |ps| && Sizes(ps)[2 * i] == |ps[i].hdr| && Sizes(ps)[2 * i + 1] == |ps[i].data|
  {
    LastSizes(ps);
    if i < |ps| - 1 {
      SizeIs(ps[..|ps| - 1], i);
    }
  }

  lemma SizesStand(s: seq<Byte>, sizes: seq<nat>, p: WirePacket, i: nat, big: bool)
    requires NumbersAt(s, 5, sizes, 8, big)
    requires 2 * i + 1 < |sizes| && sizes[2 * i] == |p.hdr| && sizes[2 * i + 1] == |p.data|
    ensures SizesAt(s, 5 + 16 * i, p, big)
  {
    OneOfThem(s, 5, sizes, 2 * i, 8, 5 + 16 * i, |p.hdr|, big);
    OneOfThem(s, 5, sizes, 2 * i + 1, 8, 5 + 16 * i + 8, |p.data|, big);
  }

  lemma OneOfThem(s: seq<Byte>, at: nat, ns: seq<nat>, i: nat, w: nat, here: nat, n: nat, big: bool)
    requires NumbersAt(s, at, ns, w, big) && i < |ns| && here == at + i * w && ns[i] == n
    ensures NumberAt(s, here, n, w, big)
  {
  }

  lemma {:induction false} BuffersStand(s: seq<Byte>, at: nat, ps: seq<WirePacket>, i: nat)
    requires BytesAt(s, at, Buffers(ps)) && i < |ps|
    ensures |Buffers(ps)| == BuffersLength(ps)
    ensures BuffersAt(s, at + BuffersLength(ps[..i]), ps[i])
  {
    var front, last := ps[..|ps| - 1], ps[|ps| - 1];
    LastBuffers(s, at, front, last);
    if i < |front| {
      BuffersStand(s, at, front, i);
      Earlier(ps, |front|, i);
    }
  }

  lemma LastBuffers(s: seq<Byte>, at: nat, front: seq<WirePacket>, last: WirePacket)
    requires BytesAt(s, at, Buffers(front) + (last.hdr + last.data))
    ensures |Buffers(front)| == BuffersLength(front)
    ensures BytesAt(s, at, Buffers(front)) && BuffersAt(s, at + BuffersLength(front), last)
  {
    LengthOfBuffers(front);
    PartAt(s, at, Buffers(front), last.hdr + last.data);
    PartAt(s, at + BuffersLength(front), last.hdr, last.data);
  }

  lemma {:induction false} LengthOfBuffers(ps: seq<WirePacket>)
    ensures |Buffers(ps)| == BuffersLength(ps)
  {
    if ps != [] {
      LengthOfBuffers(ps[..|ps| - 1]);
    }
  }

  lemma FrameStands(ps: seq<WirePacket>, pad: Byte, big: bool)
    ensures FrameLaidOut(Frame(ps, pad, big), ps, big)
  {
    var s := Frame(ps, pad, big);
    FrameParts(ps, pad, big);
    LengthOfBuffers(ps);
    forall i | 0 <= i < |ps|
      ensures SizesAt(s, 5 + 16 * i, ps[i], big) && BuffersAt(s, 6 + 16 * |ps| + BuffersLength(ps[..i]), ps[i])
    {
      SizeIs(ps, i);
      SizesStand(s, Sizes(ps), ps[i], i, big);
      BuffersStand(s, 6 + 16 * |ps|, ps, i);
    }
  }

  lemma FrameParts(ps: seq<WirePacket>, pad: Byte, big: bool)
    ensures var s := Frame(ps, pad, big);
            && |s| == 6 + 16 * |ps| + |Buffers(ps)| && s[0] == OrderByte(big) && NumberAt(s, 1, |ps|, 4, big)
            && NumbersAt(s, 5, Sizes(ps), 8, big) && BytesAt(s, 6 + 16 * |ps|, Buffers(ps))
  {
    var s, sizes, tail := Frame(ps, pad, big), NumsBytes(Sizes(ps), 8, big), [pad] + Buffers(ps);
    FrameNests(ps, pad, big, []);
    assert s + [] == s && Buffers(ps) + [] == Buffers(ps);
    SizesLength(ps);
    NumsLength(Sizes(ps), 8, big);
    StoreIsDigits(|ps|, 4, big);
    assert s[0..|s|] == s;
    PartAt(s, 0, [OrderByte(big)], Store(|ps|, 4, big) + (sizes + tail));
    PartAt(s, 1, Store(|ps|, 4, big), sizes + tail);
    PartAt(s, 5, sizes, tail);
    PartAt(s, 5 + 16 * |ps|, [pad], Buffers(ps));
    NumbersStand(s, 5, Sizes(ps), 8, big);
  }

  // ---------------------------------------------------------------- the two ends of a connection

  class Message {
    var packets: seq<WirePacket>
    const countBuf: array<Byte>
    const sizesBuf: array<Byte>

    ghost predicate Valid()
      reads this
    {
      && countBuf != sizesBuf
      && countBuf.Length == 5 && sizesBuf.Length == MESSAGE_PREALLOC_LEN * 8 + 1
    }

    constructor ()
      ensures Valid() && packets == [] && fresh(countBuf) && fresh(sizesBuf)
    {
      packets := [];
      countBuf := new Byte[5];
      sizesBuf := new Byte[MESSAGE_PREALLOC_LEN * 8 + 1];
    }

    /** add_Packet: None is the null packet, which is not queued. */
    method AddPacket(p: Option<WirePacket>)
      requires Valid()
      modifies this
      ensures Valid() && packets == old(packets) + if p.Some? then [p.value] else []
    {
      if p.Some? {
        packets := packets + [p.value];
      }
    }

    /** send: everything queued goes out as one message; the bytes written to the socket are returned. */
    method Send(big: bool) returns (bytes: seq<Byte>)
      requires Valid() && BatchOk(packets)
      modifies this, countBuf, sizesBuf
      ensures Valid() && packets == []
      ensures old(packets) == [] ==> bytes == []
      ensures old(packets) != [] ==> exists pad :: bytes == Frame(old(packets), pad, big)
      ensures old(packets) != [] ==> FrameLaidOut(bytes, old(packets), big)
    {
      if packets == [] {
        return [];
      }
      var sending := packets;
      packets := [];
      var numBuffers := 2 * |sending|;
      var buf := sizesBuf;
      if numBuffers + 2 >= MESSAGE_PREALLOC_LEN {
        buf := new Byte[8 * numBuffers + 1];
      }
      var sizes, buffers := CollectBuffers(sending);
      SizesLength(sending);
      CountMessage(|sending|, big);
      EncodeSizes(buf, sizes, big);
      assert buf[..8 * numBuffers + 1][..8 * numBuffers] == buf[..8 * numBuffers];
      bytes := countBuf[..] + buf[..8 * numBuffers + 1] + buffers;
      FrameFromParts(sending, countBuf[..], buf[..8 * numBuffers + 1], buffers, big);
      FrameStands(sending, buf[8 * numBuffers], big);
    }

    /** recv: one message off the front of what the connection delivers before it closes. */
    method Recv(input: seq<Byte>, big: bool) returns (ok: bool, got: seq<WirePacket>, rest: seq<Byte>)
      requires Valid()
      modifies countBuf, sizesBuf
      ensures Valid() && ok == ParseFrame(input, big).Parsed?
      ensures ok ==> Parsed(got, rest) == ParseFrame(input, big)
    {
      ok, got, rest := false, [], input;
      if |input| < 5 {
        return;
      }
      var count := RecvCount(input, big);
      var numBuffers, body := 2 * count, input[5..];
      NumbersNeed(body, numBuffers, Reader(big, false));
      if |body| < 8 * numBuffers + 1 {
        return;
      }
      var buf := sizesBuf;
      if numBuffers >= MESSAGE_PREALLOC_LEN {
        buf := new Byte[8 * numBuffers + 1];
      }
      var sizes := DecodeSizes(buf, body, numBuffers, big);
      ok, got, rest := CutBuffers(body[8 * numBuffers + 1..], sizes, count);
      assert body[8 * numBuffers..][1..] == body[8 * numBuffers + 1..];
    }

    method RecvCount(input: seq<Byte>, big: bool) returns (count: nat)
      requires countBuf.Length == 5 && |input| >= 5
      modifies countBuf
      ensures Number(input[1..], 4, Reader(big, input[0] != OrderByte(big))) == Parsed(count, input[5..])
    {
      forall i | 0 <= i < 5 {
        countBuf[i] := input[i];
      }
      CountWindow(input, 4, Reader(big, input[0] != OrderByte(big)));
      assert countBuf[1..5] == input[1..5];
      count := DecodeCount(big);
    }

    method DecodeCount(big: bool) returns (count: nat)
      requires countBuf.Length == 5
      requires Number(countBuf[1..5], 4, Reader(big, countBuf[0] != OrderByte(big))).Parsed?
      modifies countBuf
      ensures count == Number(old(countBuf[1..5]), 4, Reader(big, old(countBuf[0]) != OrderByte(big))).value
    {
      var pdrs := new Pdr.Create(countBuf, 1, 4, Decode, countBuf[0], big);
      var ok;
      ok, count := pdrs.Num(4, 0);
    }

    /** The packet count, behind a byte that names the sender's order. */
    method CountMessage(count: nat, big: bool)
      requires countBuf.Length == 5
      modifies countBuf
      ensures countBuf[..] == [OrderByte(big)] + Store(count, 4, big)
    {
      EncodeNumber(countBuf, 1, 4, count, big);
      ghost var number := countBuf[1..5];
      countBuf[0] := OrderByte(big);
      assert countBuf[1..5] == number;
      assert countBuf[..] == [countBuf[0]] + countBuf[1..5];
    }
  }

  /** One number into w bytes of a buffer, the rest of which may be overwritten. */
  method EncodeNumber(buf: array<Byte>, base: nat, w: nat, n: nat, big: bool)
    requires base + w <= buf.Length
    modifies buf
    ensures buf[base..base + w] == Store(n, w, big)
  {
    var pdrs := new Pdr.Create(buf, base, w, Encode, OrderByte(big), big);
    var ok, same := pdrs.Num(w, n);
    assert pdrs.cur == base + w;
    assert [] + Store(n, w, big) == Store(n, w, big);
  }

  lemma FrameFromParts(ps: seq<WirePacket>, count: seq<Byte>, sizes: seq<Byte>, buffers: seq<Byte>, big: bool)
    requires count == [OrderByte(big)] + Store(|ps|, 4, big) && buffers == Buffers(ps) && sizes != []
    requires sizes[..|sizes| - 1] == NumsBytes(Sizes(ps), 8, big)
    ensures count + sizes + buffers == Frame(ps, sizes[|sizes| - 1], big)
  {
    var pad := [sizes[|sizes| - 1]];
    LastApart(sizes);
    Glue([OrderByte(big)], Store(|ps|, 4, big), NumsBytes(Sizes(ps), 8, big), pad, buffers);
  }

  lemma Glue(a: seq<Byte>, b: seq<Byte>, c: seq<Byte>, d: seq<Byte>, e: seq<Byte>)
    ensures (a + b) + (c + d) + e == a + b + c + d + e
  {
  }

  method CollectBuffers(ps: seq<WirePacket>) returns (sizes: seq<nat>, buffers: seq<Byte>)
    ensures sizes == Sizes(ps) && buffers == Buffers(ps)
  {
    sizes, buffers := [], [];
    for i := 0 to |ps|
      invariant sizes == Sizes(ps[..i]) && buffers == Buffers(ps[..i])
    {
      assert ps[..i + 1][..i] == ps[..i];
      sizes := sizes + [|ps[i].hdr|, |ps[i].data|];
      buffers := buffers + (ps[i].hdr + ps[i].data);
    }
    assert ps[..|ps|] == ps;
  }

  /** pdr_vector: the sizes without a count, into a buffer one byte longer than they are. */
  method EncodeSizes(buf: array<Byte>, sizes: seq<nat>, big: bool)
    requires 8 * |sizes| + 1 <= buf.Length
    modifies buf
    ensures buf[..8 * |sizes|] == NumsBytes(sizes, 8, big)
  {
    var pdrs := new Pdr.Create(buf, 0, 8 * |sizes| + 1, Encode, OrderByte(big), big);
    NumsLength(sizes, 8, big);
    var ok := pdrs.PutNumbers(sizes, 8);
    assert [] + NumsBytes(sizes, 8, big) == NumsBytes(sizes, 8, big);
  }

  /** A number right after the first byte, read from just its own bytes. */
  lemma CountWindow(input: seq<Byte>, w: nat, m: Reader)
    requires |input| >= 1 + w
    ensures Number(input[1..1 + w], w, m).Parsed?
    ensures Number(input[1..], w, m) == Parsed(Number(input[1..1 + w], w, m).value, input[1 + w..])
  {
    assert input[1..1 + w][..w] == input[1..][..w];
    assert input[1..][w..] == input[1 + w..];
  }

  /** Reading count sizes needs exactly their bytes, and takes no more. */
  lemma {:induction false} NumbersNeed(s: seq<Byte>, count: nat, m: Reader)
    ensures Numbers(s, count, 8, m).Parsed? <==> count * 8 <= |s|
    ensures Numbers(s, count, 8, m).Parsed? ==>
              |Numbers(s, count, 8, m).value| == count && Numbers(s, count, 8, m).rest == s[count * 8..]
  {
    if count > 0 {
      NumbersNeed(s, count - 1, m);
      if count * 8 <= |s| {
        DropTwice(s, (count - 1) * 8, 8);
      }
    }
  }

  lemma DropTwice(s: seq<Byte>, a: nat, b: nat)
    requires a + b <= |s|
    ensures s[a..][b..] == s[a + b..]
  {
  }

  /** pdr_vector the other way: count sizes in this machine's own order. */
  method DecodeSizes(buf: array<Byte>, body: seq<Byte>, count: nat, big: bool) returns (sizes: seq<nat>)
    requires 8 * count + 1 <= buf.Length && 8 * count + 1 <= |body|
    modifies buf
    ensures Numbers(body, count, 8, Reader(big, false)) == Parsed(sizes, body[8 * count..])
  {
    forall i | 0 <= i < 8 * count + 1 {
      buf[i] := body[i];
    }
    var pdrs := new Pdr.Create(buf, 0, 8 * count + 1, Decode, OrderByte(big), big);
    ghost var left := pdrs.Now().left;
    assert left == body[..8 * count + 1];
    SizesWindow(body, 8 * count + 1, count, Reader(big, false));
    var ok;
    ok, sizes := pdrs.GetNumbers(count, 8);
  }

  /** The sizes read from just their own bytes and one more. */
  lemma SizesWindow(body: seq<Byte>, n: nat, count: nat, m: Reader)
    requires count * 8 <= n <= |body|
    ensures Numbers(body[..n], count, 8, m).Parsed?
    ensures Numbers(body, count, 8, m) == Parsed(Numbers(body[..n], count, 8, m).value, body[8 * count..])
  {
    NumbersNeed(body, count, m);
    NumbersLocal(body, n, count, m);
  }

  /** What sizes are read depends only on the bytes they are read from. */
  lemma {:induction false} NumbersLocal(s: seq<Byte>, n: nat, count: nat, m: Reader)
    requires count * 8 <= n <= |s|
    ensures Numbers(s[..n], count, 8, m).Parsed? && Numbers(s, count, 8, m).Parsed?
    ensures Numbers(s[..n], count, 8, m).value == Numbers(s, count, 8, m).value
  {
    if count > 0 {
      NumbersLocal(s, n, count - 1, m);
      LastNumber(s, count, m);
      LastNumber(s[..n], count, m);
      SameWindow(s, n, (count - 1) * 8, 8);
    }
  }

  /** The last of count sizes comes from the eight bytes behind the others. */
  lemma LastNumber(s: seq<Byte>, count: nat, m: Reader)
    requires 0 < count && count * 8 <= |s|
    ensures Numbers(s, count - 1, 8, m).Parsed? && Numbers(s, count, 8, m).Parsed?
    ensures var last := s[(count - 1) * 8..][..8];
            Numbers(s, count, 8, m).value
            == Numbers(s, count - 1, 8, m).value + [Load(if m.swap then Reverse(last) else last, m.big)]
  {
    NumbersNeed(s, count - 1, m);
  }

  lemma SameWindow(s: seq<Byte>, n: nat, a: nat, b: nat)
    requires a + b <= n <= |s|
    ensures s[..n][a..][..b] == s[a..][..b]
  {
  }

  function Sum(ns: seq<nat>): nat {
    if ns == [] then 0 else Sum(ns[..|ns| - 1]) + ns[|ns| - 1]
  }

  lemma SumTwo(sizes: seq<nat>, n: nat)
    requires 0 < n && 2 * n <= |sizes|
    ensures Sum(sizes[..2 * n]) == Sum(sizes[..2 * n - 2]) + sizes[2 * n - 2] + sizes[2 * n - 1]
  {
    assert sizes[..2 * n][..2 * n - 1] == sizes[..2 * n - 1];
    assert sizes[..2 * n - 1][..2 * n - 2] == sizes[..2 * n - 2];
  }

  lemma {:induction false} CutNeeds(s: seq<Byte>, sizes: seq<nat>, n: nat)
    requires 2 * n <= |sizes|
    ensures Cut(s, sizes, n).Parsed? <==> Sum(sizes[..2 * n]) <= |s|
    ensures Cut(s, sizes, n).Parsed? ==> |Cut(s, sizes, n).rest| == |s| - Sum(sizes[..2 * n])
  {
    if n > 0 {
      CutNeeds(s, sizes, n - 1);
      SumTwo(sizes, n);
    }
  }

  method Total(sizes: seq<nat>) returns (total: nat)
    ensures total == Sum(sizes)
  {
    total := 0;
    for i := 0 to |sizes|
      invariant total == Sum(sizes[..i])
    {
      assert sizes[..i + 1][..i] == sizes[..i];
      total := total + sizes[i];
    }
    assert sizes[..|sizes|] == sizes;
  }

  /** With all the bytes there, the next packet can be cut. */
  lemma CutMore(s: seq<Byte>, sizes: seq<nat>, j: nat)
    requires 2 * j + 2 <= |sizes| && Sum(sizes) <= |s|
    ensures Cut(s, sizes, j).Parsed?
    ensures var (got, rest) := (Cut(s, sizes, j).value, Cut(s, sizes, j).rest);
            var h, d := sizes[2 * j], sizes[2 * j + 1];
            && h + d <= |rest|
            && Cut(s, sizes, j + 1) == Parsed(got + [WirePacket(rest[..h], rest[h..h + d])], rest[h + d..])
  {
    SumPrefix(sizes, 2 * j + 2);
    CutNeeds(s, sizes, j + 1);
  }

  /** Receive all the buffers, then pair them up as packets. */
  method CutBuffers(s: seq<Byte>, sizes: seq<nat>, n: nat) returns (ok: bool, got: seq<WirePacket>, rest: seq<Byte>)
    requires |sizes| == 2 * n
    ensures ok == Cut(s, sizes, n).Parsed?
    ensures ok ==> Parsed(got, rest) == Cut(s, sizes, n)
  {
    var total := Total(sizes);
    assert sizes[..2 * n] == sizes;
    CutNeeds(s, sizes, n);
    ok, got, rest := total <= |s|, [], s;
    if !ok {
      return;
    }
    for j := 0 to n
      invariant Cut(s, sizes, j) == Parsed(got, rest)
    {
      var h, d := sizes[2 * j], sizes[2 * j + 1];
      CutMore(s, sizes, j);
      got, rest := got + [WirePacket(rest[..h], rest[h..h + d])], rest[h + d..];
    }
  }

  lemma {:induction false} SumPrefix(ns: seq<nat>, i: nat)
    requires i <= |ns|
    ensures Sum(ns[..i]) <= Sum(ns)
    decreases |ns| - i
  {
    if i == |ns| {
      assert ns[..i] == ns;
    } else {
      SumPrefix(ns, i + 1);
      assert ns[..i + 1][..i] == ns[..i];
    }
  }

  // ---------------------------------------------------------------- whole runs

  // The application queues packets; the send thread turns what is queued into a message.
  datatype Event = Add(p: WirePacket) | Flush(pad: Byte)

  // The queue, and every byte written to the connection so far.
  datatype Link = Link(queue: seq<WirePacket>, wire: seq<Byte>)

  function Next(l: Link, e: Event, big: bool): Link {
    match e
    case Add(p) => l.(queue := l.queue + [p])
    case Flush(pad) => if l.queue == [] then l else Link([], l.wire + Frame(l.queue, pad, big))
  }

  function Run(events: seq<Event>, big: bool): Link {
    if events == [] then Link([], []) else Next(Run(events[..|events| - 1], big), events[|events| - 1], big)
  }

  function Added(events: seq<Event>): seq<WirePacket> {
    if events == [] then []
    else
      var front, e := Added(events[..|events| - 1]), events[|events| - 1];
      if e.Add? then front + [e.p] else front
  }

  /** Read messages off the wire until none is left. */
  function ReceiveAll(s: seq<Byte>, big: bool): Option<seq<WirePacket>>
    decreases |s|
  {
    if s == [] then Some([])
    else
      match ParseFrame(s, big)
      case Malformed => None
      case Parsed(ps, rest) =>
        if |rest| >= |s| then None
        else
          match ReceiveAll(rest, big)
          case None => None
          case Some(more) => Some(ps + more)
  }

  // A batch of packets and the bytes it was sent as.
  datatype Batch = Batch(packets: seq<WirePacket>, bytes: seq<Byte>)

  function WireOf(batches: seq<Batch>): seq<Byte> {
    if batches == [] then [] else batches[0].bytes + WireOf(batches[1..])
  }

  function PacketsOf(batches: seq<Batch>): seq<WirePacket> {
    if batches == [] then [] else batches[0].packets + PacketsOf(batches[1..])
  }

  ghost predicate Framed(b: Batch, big: bool) {
    BatchOk(b.packets) && exists pad :: b.bytes == Frame(b.packets, pad, big)
  }

  ghost predicate BatchesOk(batches: seq<Batch>, big: bool) {
    forall i :: 0 <= i < |batches| ==> Framed(batches[i], big)
  }

  lemma FramedBack(b: Batch, big: bool, rest: seq<Byte>)
    requires Framed(b, big)
    ensures b.bytes != [] && ParseFrame(b.bytes + rest, big) == Parsed(b.packets, rest)
  {
    var pad :| b.bytes == Frame(b.packets, pad, big);
    FrameBack(b.packets, pad, big, rest);
  }

  lemma {:induction false} ReceivesBatches(batches: seq<Batch>, big: bool)
    requires BatchesOk(batches, big)
    ensures ReceiveAll(WireOf(batches), big) == Some(PacketsOf(batches))
  {
    if batches != [] {
      FramedBack(batches[0], big, WireOf(batches[1..]));
      ReceivesBatches(batches[1..], big);
    }
  }

  lemma {:induction false} BatchesSnoc(batches: seq<Batch>, b: Batch)
    ensures WireOf(batches + [b]) == WireOf(batches) + b.bytes
    ensures PacketsOf(batches + [b]) == PacketsOf(batches) + b.packets
  {
    if batches == [] {
      assert [b][1..] == [];
    } else {
      BatchesSnoc(batches[1..], b);
      FirstOfMore(batches, b);
      Reassociate(batches[0].bytes, WireOf(batches[1..]), b.bytes);
    }
  }

  lemma FirstOfMore<T>(xs: seq<T>, x: T)
    requires xs != []
    ensures (xs + [x])[0] == xs[0] && (xs + [x])[1..] == xs[1..] + [x]
  {
  }

  /** At every moment the queue holds packets a message can carry. */
  ghost predicate LinkOk(events: seq<Event>, big: bool) {
    events == [] || (LinkOk(events[..|events| - 1], big) && BatchOk(Run(events, big).queue))
  }

  /** Some list of good batches explains the wire, and with the queue accounts for everything added. */
  lemma {:induction false} WireIsBatches(events: seq<Event>, big: bool) returns (batches: seq<Batch>)
    requires LinkOk(events, big)
    ensures BatchesOk(batches, big) && Run(events, big).wire == WireOf(batches)
    ensures PacketsOf(batches) + Run(events, big).queue == Added(events)
  {
    if events == [] {
      batches := [];
    } else {
      var front, e := events[..|events| - 1], events[|events| - 1];
      batches := WireIsBatches(front, big);
      var l := Run(front, big);
      if e.Flush? && l.queue != [] {
        batches := OneMoreBatch(batches, l, e.pad, big);
      }
    }
  }

  lemma OneMoreBatch(batches: seq<Batch>, l: Link, pad: Byte, big: bool) returns (more: seq<Batch>)
    requires BatchesOk(batches, big) && l.wire == WireOf(batches) && BatchOk(l.queue)
    ensures BatchesOk(more, big) && l.wire + Frame(l.queue, pad, big) == WireOf(more)
    ensures PacketsOf(more) == PacketsOf(batches) + l.queue
  {
    var b := Batch(l.queue, Frame(l.queue, pad, big));
    BatchesSnoc(batches, b);
    assert Framed(b, big);
    more := batches + [b];
  }

  /**
   * Between equal byte orders, over any run of additions and sends, what the receiver reads off the
   * wire followed by what is still queued is everything added, in the order it was added.
   */
  lemma DeliveredInOrder(events: seq<Event>, big: bool)
    requires LinkOk(events, big)
    ensures var l := Run(events, big);
            ReceiveAll(l.wire, big).Some? && ReceiveAll(l.wire, big).value + l.queue == Added(events)
  {
    var batches := WireIsBatches(events, big);
    ReceivesBatches(batches, big);
  }
}
