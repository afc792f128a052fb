/**
 * A packet between its fields and its two buffers. The same two walks, one over the header fields and
 * one over the format's tokens, count, encode or decode, as the PDR handle they are given does.
 */
module PacketCodec {
  import opened Wire
  import opened PdrStream
  import opened Layout

  function AsString(s: seq<Byte>): (t: string)
    ensures |t| == |s| && forall i :: 0 <= i < |s| ==> t[i] as nat == s[i]
  {
    seq(|s|, i requires 0 <= i < |s| => s[i] as char)
  }

  /** The element types a packet's format announces. */
  function TypesOf(fmt: seq<Byte>): seq<DataType> {
    Types(AsString(fmt))
  }

  /** The stream, tag and source rank, out or in. */
  method HeaderFields(pdrs: Pdr, stream0: nat, tag0: nat, src0: nat) returns (ok: bool, stream: nat, tag: nat, src: nat)
    requires pdrs.Valid()
    modifies pdrs, pdrs.buffer
    ensures pdrs.Valid() && (pdrs.op.Encode? ==> stream == stream0 && tag == tag0 && src == src0)
    ensures Wrote(old(pdrs.Now()), pdrs.Now(), ok, true, FieldsBytes(stream0, tag0, src0, pdrs.big))
    ensures Read(old(pdrs.Now()), pdrs.Now(), ok, (stream, tag, src), ParseFields(old(pdrs.Now().left), pdrs.Machine()))
  {
    tag, src := tag0, src0;
    ok, stream := pdrs.Num(4, stream0);
    ghost var first, fits := pdrs.Now(), ok;
    if ok {
      ok, tag, src := TwoFields(pdrs, tag0, src0);
    }
    WroteBoth(old(pdrs.Now()), first, pdrs.Now(), fits, ok, true, true,
              Store(stream0, 4, pdrs.big), Store(tag0, 4, pdrs.big) + Store(src0, 4, pdrs.big));
  }

  method TwoFields(pdrs: Pdr, tag0: nat, src0: nat) returns (ok: bool, tag: nat, src: nat)
    requires pdrs.Valid()
    modifies pdrs, pdrs.buffer
    ensures pdrs.Valid() && (pdrs.op.Encode? ==> tag == tag0 && src == src0)
    ensures Wrote(old(pdrs.Now()), pdrs.Now(), ok, true, Store(tag0, 4, pdrs.big) + Store(src0, 4, pdrs.big))
    ensures Read(old(pdrs.Now()), pdrs.Now(), ok, (tag, src), ParseTwo(old(pdrs.Now().left), pdrs.Machine()))
  {
    src := src0;
    ok, tag := pdrs.Num(4, tag0);
    ghost var first, fits := pdrs.Now(), ok;
    if ok {
      ok, src := pdrs.Num(4, src0);
    }
    WroteBoth(old(pdrs.Now()), first, pdrs.Now(), fits, ok, true, true, Store(tag0, 4, pdrs.big), Store(src0, 4, pdrs.big));
  }

  /** The format, the destinations and the byte-order flag, out or in. */
  method HeaderRest(pdrs: Pdr, fmt0: seq<Byte>, dest0: seq<nat>, order0: Byte)
      returns (ok: bool, fmt: seq<Byte>, dest: seq<nat>, order: Byte)
    requires pdrs.Valid() && (pdrs.op.Encode? ==> TextOk(fmt0) && |dest0| <= UINT64_MAX)
    modifies pdrs, pdrs.buffer
    ensures pdrs.Valid() && (pdrs.op.Encode? ==> fmt == fmt0 && dest == dest0 && order == order0)
    ensures Wrote(old(pdrs.Now()), pdrs.Now(), ok, true, RestBytes(fmt0, dest0, order0, pdrs.big))
    ensures Read(old(pdrs.Now()), pdrs.Now(), ok, (fmt, dest, order), ParseRest(old(pdrs.Now().left), pdrs.Machine()))
  {
    dest, order := dest0, order0;
    ok, fmt := pdrs.Str(fmt0);
    ghost var first, fits := pdrs.Now(), ok;
    if ok {
      ok, dest, order := DestinationsAndFlag(pdrs, dest0, order0);
    }
    WroteBoth(old(pdrs.Now()), first, pdrs.Now(), fits, ok, true, true,
              TextBytes(fmt0, pdrs.big), TailBytes(dest0, order0, pdrs.big));
  }

  method DestinationsAndFlag(pdrs: Pdr, dest0: seq<nat>, order0: Byte) returns (ok: bool, dest: seq<nat>, order: Byte)
    requires pdrs.Valid() && (pdrs.op.Encode? ==> |dest0| <= UINT64_MAX)
    modifies pdrs, pdrs.buffer
    ensures pdrs.Valid() && (pdrs.op.Encode? ==> dest == dest0 && order == order0)
    ensures Wrote(old(pdrs.Now()), pdrs.Now(), ok, true, TailBytes(dest0, order0, pdrs.big))
    ensures Read(old(pdrs.Now()), pdrs.Now(), ok, (dest, order), ParseTail(old(pdrs.Now().left), pdrs.Machine()))
  {
    order := order0;
    ok, dest := pdrs.Numbers(dest0, 4, UINT64_MAX);
    ghost var first, fits := pdrs.Now(), ok;
    if ok {
      ok, order := OrderFlag(pdrs, order0);
    }
    WroteBoth(old(pdrs.Now()), first, pdrs.Now(), fits, ok, true, true,
              Store(|dest0|, 8, pdrs.big) + NumsBytes(dest0, 4, pdrs.big), [order0]);
  }

  method OrderFlag(pdrs: Pdr, order0: Byte) returns (ok: bool, order: Byte)
    requires pdrs.Valid()
    modifies pdrs, pdrs.buffer
    ensures pdrs.Valid() && (pdrs.op.Encode? ==> order == order0)
    ensures Wrote(old(pdrs.Now()), pdrs.Now(), ok, true, [order0])
    ensures Read(old(pdrs.Now()), pdrs.Now(), ok, order, ParseByte(old(pdrs.Now().left)))
  {
    OneByte(order0, pdrs.big);
    if pdrs.Now().left != [] {
      OneNumber(pdrs.Now().left, pdrs.Machine());
    }
    var flag;
    ok, flag := pdrs.Num(1, order0);
    order := if ok then flag else order0;
  }

  /** pdr_packet_header. */
  method PacketHeader(pdrs: Pdr, stream: nat, tag: nat, src: nat, fmt: seq<Byte>, dest: seq<nat>, order: Byte)
      returns (ok: bool, h: Header)
    requires pdrs.Valid() && (pdrs.op.Encode? ==> TextOk(fmt) && |dest| <= UINT64_MAX)
    modifies pdrs, pdrs.buffer
    ensures pdrs.Valid() && (pdrs.op.Encode? ==> h == Header(stream, tag, src, fmt, dest, order))
    ensures Wrote(old(pdrs.Now()), pdrs.Now(), ok, true, HeaderBytes(Header(stream, tag, src, fmt, dest, order), pdrs.big))
    ensures Read(old(pdrs.Now()), pdrs.Now(), ok, h, ParseHeader(old(pdrs.Now().left), pdrs.Machine()))
  {
    var stream', tag', src';
    ok, stream', tag', src' := HeaderFields(pdrs, stream, tag, src);
    ghost var first, fits := pdrs.Now(), ok;
    h := Header(stream', tag', src', fmt, dest, order);
    if ok {
      var fmt', dest', order';
      ok, fmt', dest', order' := HeaderRest(pdrs, fmt, dest, order);
      h := Header(stream', tag', src', fmt', dest', order');
    }
    WroteBoth(old(pdrs.Now()), first, pdrs.Now(), fits, ok, true, true,
              FieldsBytes(stream, tag, src, pdrs.big), RestBytes(fmt, dest, order, pdrs.big));
  }

  /** Decode a header buffer: its last byte says in which order the rest was written. */
  method HeaderFrom(hdr: array<Byte>, big: bool, h0: Header) returns (ok: bool, h: Header)
    requires hdr.Length > 0
    modifies hdr
    ensures hdr[..] == old(hdr[..])
    ensures ok == ParseHeader(hdr[..], HeaderReader(hdr[..], big)).Parsed?
    ensures ok ==> h == ParseHeader(hdr[..], HeaderReader(hdr[..], big)).value
  {
    ghost var s := hdr[..];
    var pdrs := new Pdr.Create(hdr, 0, hdr.Length, Decode, hdr[hdr.Length - 1], big);
    ghost var start := pdrs.Now();
    assert start.left == start.bytes == s && start.Machine() == HeaderReader(s, big);
    ok, h := PacketHeader(pdrs, h0.stream, h0.tag, h0.src, h0.fmt, h0.dest, h0.order);
    ReadMeans(start, pdrs.Now(), ok, h, ParseHeader(s, HeaderReader(s, big)));
    assert hdr[..] == pdrs.Now().bytes;
  }

  /** Decode a data buffer that was written in the given order. */
  method DataFrom(buf: array<Byte>, fmt: seq<Byte>, order: Byte, big: bool) returns (ok: bool, vals: seq<Value>)
    requires AllKnown(TypesOf(fmt))
    modifies buf
    ensures buf[..] == old(buf[..])
    ensures ok == ParseData(TypesOf(fmt), buf[..], Reader(big, order != OrderByte(big))).Parsed?
    ensures ok ==> vals == ParseData(TypesOf(fmt), buf[..], Reader(big, order != OrderByte(big))).value
  {
    ghost var s, m := buf[..], Reader(big, order != OrderByte(big));
    var pdrs := new Pdr.Create(buf, 0, buf.Length, Decode, order, big);
    ghost var start := pdrs.Now();
    assert start.left == start.bytes == s && start.Machine() == m;
    ok, vals := PacketData(pdrs, fmt, []);
    ReadMeans(start, pdrs.Now(), ok, vals, ParseData(TypesOf(fmt), s, m));
    assert buf[..] == pdrs.Now().bytes;
  }

  lemma ReadMeans<T>(start: View, now: View, ok: bool, value: T, parsed: Parsed<T>)
    requires start.op.Decode? && Read(start, now, ok, value, parsed)
    ensures ok == parsed.Parsed? && (ok ==> value == parsed.value) && now.bytes == start.bytes
  {
  }

  /** The switch of pdr_packet_data: one value of a known type, out or in. */
  method Element(pdrs: Pdr, ty: DataType, v: Value) returns (ok: bool, u: Value)
    requires pdrs.Valid() && !ty.UnknownT? && (pdrs.op.Encode? ==> Fits(ty, v))
    modifies pdrs, pdrs.buffer
    ensures pdrs.Valid() && (pdrs.op.Encode? ==> u == v)
    ensures pdrs.op.Encode? ==> Wrote(old(pdrs.Now()), pdrs.Now(), ok, true, ValueBytes(ty, v, pdrs.big))
    ensures Read(old(pdrs.Now()), pdrs.Now(), ok, u, ParseValue(ty, old(pdrs.Now().left), pdrs.Machine()))
  {
    ElementFacts(ty, v, pdrs.op.Encode?);
    if ty.One? && ty.base.StringB? {
      var s;
      ok, s := pdrs.Str(if v.Text? then v.s else []);
      u := Text(s);
    } else if ty.One? {
      var n;
      ok, n := pdrs.Num(Width(ty.base), if v.Num? then v.n else 0);
      u := Num(n);
    } else if ty.base.StringB? {
      var ss;
      ok, ss := pdrs.Strings(if v.Texts? then v.ss else [], Limit(ty));
      u := Texts(ss);
    } else if ty.base.CharB? || ty.base.UCharB? {
      var ns;
      ok, ns := pdrs.Bytes(if v.Nums? then v.ns else [], Limit(ty));
      u := Nums(ns);
    } else {
      var ns;
      ok, ns := pdrs.Numbers(if v.Nums? then v.ns else [], Width(ty.base), Limit(ty));
      u := Nums(ns);
    }
  }

  lemma ElementFacts(ty: DataType, v: Value, encode: bool)
    requires !ty.UnknownT? && (encode ==> Fits(ty, v))
    ensures encode && v.Texts? ==> NoNuls(v.ss) && TextsOk(v.ss) && |v.ss| <= Limit(ty)
    ensures encode && v.Nums? ==> |v.ns| <= Limit(ty)
    ensures encode && v.Nums? && Width(ty.base) == 1 ==> forall i :: 0 <= i < |v.ns| ==> v.ns[i] < 256
  {
    Powers();
    if encode && v.Texts? {
      EachTextFits(ty, v.ss);
    }
    if encode && v.Nums? {
      EachFits(ty, v.ns);
    }
  }

  /** pdr_packet_data: the tokens of the format one after another. */
  method PacketData(pdrs: Pdr, fmt: seq<Byte>, elements: seq<Value>) returns (ok: bool, vals: seq<Value>)
    requires pdrs.Valid() && AllKnown(TypesOf(fmt)) && (pdrs.op.Encode? ==> AllFit(TypesOf(fmt), elements))
    modifies pdrs, pdrs.buffer
    ensures pdrs.Valid()
    ensures pdrs.op.Encode? ==> Wrote(old(pdrs.Now()), pdrs.Now(), ok, true, DataBytes(TypesOf(fmt), elements, pdrs.big))
    ensures Read(old(pdrs.Now()), pdrs.Now(), ok, vals, ParseData(TypesOf(fmt), old(pdrs.Now().left), pdrs.Machine()))
  {
    var types := TypesOf(fmt);
    var i := 0;
    ok, vals := true, [];
    while i < |types| && ok
      invariant pdrs.Valid() && Walking(types, elements, i, old(pdrs.Now()), pdrs.Now(), ok, vals)
      decreases |types| - i
    {
      ok, vals := WalkOne(pdrs, types, elements, i, vals, old(pdrs.Now()));
      i := i + 1;
    }
    DataStops(types, elements, i, pdrs.op.Encode?, pdrs.big, old(pdrs.Now().left), pdrs.Machine());
  }

  /** The body of the loop: one more element. */
  method WalkOne(pdrs: Pdr, types: seq<DataType>, elements: seq<Value>, i: nat, before: seq<Value>, ghost start: View)
    returns (ok: bool, vals: seq<Value>)
    requires pdrs.Valid() && i < |types| && Walking(types, elements, i, start, pdrs.Now(), true, before)
    requires start.op == pdrs.op && start.big == pdrs.big
    modifies pdrs, pdrs.buffer
    ensures pdrs.Valid() && Walking(types, elements, i + 1, start, pdrs.Now(), ok, vals)
  {
    var v := if i < |elements| then elements[i] else Num(0);
    ghost var was := pdrs.Now();
    var u;
    ok, u := Element(pdrs, types[i], v);
    vals := if ok then before + [u] else before;
    WalkNext(types, elements, i, start, was, pdrs.Now(), before, ok, u);
  }

  /** Part way through a packet's elements. */
  ghost predicate Walking(types: seq<DataType>, elements: seq<Value>, i: nat, start: View, now: View,
                          ok: bool, vals: seq<Value>)
  {
    && i <= |types| && AllKnown(types)
    && (start.op.Encode? ==>
          AllFit(types, elements) && Wrote(start, now, ok, true, DataBytes(types[..i], elements[..i], start.big)))
    && Read(start, now, ok, vals, ParseData(types[..i], start.left, start.Machine()))
  }

  lemma WalkNext(types: seq<DataType>, elements: seq<Value>, i: nat, start: View, before: View, now: View,
                 vals: seq<Value>, ok: bool, u: Value)
    requires Walking(types, elements, i, start, before, true, vals) && i < |types|
    requires start.op.Encode? ==> Wrote(before, now, ok, true, ValueBytes(types[i], elements[i], start.big))
    requires Read(before, now, ok, u, ParseValue(types[i], before.left, before.Machine()))
    ensures Walking(types, elements, i + 1, start, now, ok, if ok then vals + [u] else vals)
  {
    assert types[..i + 1][..i] == types[..i];
    if start.op.Encode? {
      DataNext(types, elements, i, start.big);
      WroteBoth(start, before, now, true, ok, true, true,
                DataBytes(types[..i], elements[..i], start.big), ValueBytes(types[i], elements[i], start.big));
    }
  }

  lemma DataNext(types: seq<DataType>, vals: seq<Value>, i: nat, big: bool)
    requires AllFit(types, vals) && i < |types|
    ensures DataBytes(types[..i + 1], vals[..i + 1], big)
         == DataBytes(types[..i], vals[..i], big) + ValueBytes(types[i], vals[i], big)
  {
    assert types[..i + 1][..i] == types[..i] && vals[..i + 1][..i] == vals[..i];
  }

  /** A walk that stops early has already failed for the whole list. */
  lemma {:induction false} DataStops(types: seq<DataType>, vals: seq<Value>, i: nat, encode: bool, big: bool,
                                     s: seq<Byte>, m: Reader)
    requires i <= |types| && AllKnown(types) && (encode ==> AllFit(types, vals))
    ensures encode ==> |DataBytes(types[..i], vals[..i], big)| <= |DataBytes(types, vals, big)|
    ensures encode && i == |types| ==> DataBytes(types[..i], vals[..i], big) == DataBytes(types, vals, big)
    ensures ParseData(types[..i], s, m).Malformed? ==> ParseData(types, s, m).Malformed?
    ensures i == |types| ==> types[..i] == types
    decreases |types| - i
  {
    if i == |types| {
      assert types[..i] == types;
      assert encode ==> vals[..i] == vals;
    } else {
      DataStops(types, vals, i + 1, encode, big, s, m);
      assert types[..i + 1][..i] == types[..i];
      if encode {
        DataNext(types, vals, i, big);
      }
    }
  }

  class Packet {
    var stream: nat
    var tag: nat
    var src: nat
    var fmt: seq<Byte>
    var dest: seq<nat>
    var byteorder: Byte
    var elements: seq<Value>
    var decoded: bool
    var hdr: array<Byte>
    var buf: array<Byte>

    ghost function Head(): Header
      reads this
    {
      Header(stream, tag, src, fmt, dest, byteorder)
    }

    /** A packet made by the application. */
    constructor Make(stream: nat, tag: nat, src: nat, fmt: seq<Byte>, dest: seq<nat>, elements: seq<Value>)
      ensures Head() == Header(stream, tag, src, fmt, dest, 0) && this.elements == elements && decoded
      ensures fresh(hdr) && fresh(buf) && hdr.Length == 0 && buf.Length == 0
    {
      this.stream, this.tag, this.src, this.fmt, this.dest, this.elements := stream, tag, src, fmt, dest, elements;
      byteorder, decoded := 0, true;
      hdr := new Byte[0];
      buf := new Byte[0];
    }

    /** A packet as received: two buffers and nothing decoded. */
    constructor Receive(hdr: array<Byte>, buf: array<Byte>)
      ensures this.hdr == hdr && this.buf == buf && elements == [] && !decoded
    {
      this.hdr, this.buf := hdr, buf;
      stream, tag, src, fmt, dest, byteorder := 0, 0, 0, [], [], 0;
      elements, decoded := [], false;
    }

    /** encode_pdr_header: marks the packet with this machine's order and fills a buffer of the counted size. */
    method EncodeHeader(big: bool)
      requires HeaderFits(Head().(order := OrderByte(big)))
      modifies this`byteorder, this`hdr
      ensures Head() == old(Head()).(order := OrderByte(big))
      ensures fresh(hdr) && hdr[..] == HeaderBytes(Head(), big)
      ensures byteorder == (if big then 1 else 0) && HeaderLaidOut(hdr[..], Head(), big)
    {
      byteorder := OrderByte(big);
      hdr := HeaderBuffer(big);
      HeaderStands(Head(), big);
    }

    method HeaderBuffer(big: bool) returns (bytes: array<Byte>)
      requires HeaderFits(Head())
      ensures fresh(bytes) && bytes[..] == HeaderBytes(Head(), big)
    {
      var sizer := new Pdr.Sizer(big);
      var ok, h := PacketHeader(sizer, stream, tag, src, fmt, dest, byteorder);
      assert [] + HeaderBytes(Head(), big) == HeaderBytes(Head(), big);
      bytes := new Byte[sizer.space];
      var pdrs := new Pdr.Create(bytes, 0, bytes.Length, Encode, OrderByte(big), big);
      ok, h := PacketHeader(pdrs, stream, tag, src, fmt, dest, byteorder);
      assert bytes[..pdrs.cur] == bytes[..];
    }

    /** decode_pdr_header. */
    method DecodeHeader(big: bool) returns (ok: bool)
      modifies this`stream, this`tag, this`src, this`fmt, this`dest, this`byteorder, hdr
      ensures hdr[..] == old(hdr[..])
      ensures hdr.Length == 0 ==> ok && Head() == old(Head())
      ensures hdr.Length > 0 ==> ok == ParseHeader(hdr[..], HeaderReader(hdr[..], big)).Parsed?
      ensures hdr.Length > 0 && ok ==> Head() == ParseHeader(hdr[..], HeaderReader(hdr[..], big)).value
    {
      if hdr.Length == 0 {
        return true;
      }
      var h: Header;
      ok, h := HeaderFrom(hdr, big, Header(stream, tag, src, fmt, dest, byteorder));
      stream, tag, src := h.stream, h.tag, h.src;
      fmt, dest, byteorder := h.fmt, h.dest, h.order;
    }

    /** encode_pdr_data: a packet without data gets no buffer. */
    method EncodeData(big: bool)
      requires decoded && buf.Length == 0
      requires AllKnown(TypesOf(fmt)) && AllFit(TypesOf(fmt), elements)
      modifies this`buf
      ensures buf[..] == DataBytes(TypesOf(fmt), elements, big)
      ensures if TypesOf(fmt) == [] then buf == old(buf) else fresh(buf)
      ensures DataLaidOut(buf[..], Tokens(AsString(fmt)), elements, big)
    {
      CountAndFill(big);
      EncodingStands(fmt, elements, big);
    }

    method CountAndFill(big: bool)
      requires buf.Length == 0 && AllKnown(TypesOf(fmt)) && AllFit(TypesOf(fmt), elements)
      modifies this`buf
      ensures buf[..] == DataBytes(TypesOf(fmt), elements, big)
      ensures if TypesOf(fmt) == [] then buf == old(buf) else fresh(buf)
    {
      NoTokensNoData(fmt, elements, big);
      ghost var bytes := DataBytes(TypesOf(fmt), elements, big);
      var sizer := new Pdr.Sizer(big);
      var ok, vals := PacketData(sizer, fmt, elements);
      assert [] + bytes == bytes;
      if sizer.space == 0 {
        return;
      }
      buf := new Byte[sizer.space];
      var pdrs := new Pdr.Create(buf, 0, buf.Length, Encode, OrderByte(big), big);
      ok, vals := PacketData(pdrs, fmt, elements);
      assert buf[..pdrs.cur] == buf[..];
    }

    /** decode_pdr_data: on demand, and only once. */
    method DecodeData(big: bool) returns (ok: bool)
      requires AllKnown(TypesOf(fmt)) && (!decoded ==> elements == [])
      modifies this`decoded, this`elements, buf
      ensures buf[..] == old(buf[..])
      ensures old(decoded) ==> ok && elements == old(elements) && decoded
      ensures !old(decoded) && buf.Length == 0 ==> ok && decoded && elements == []
      ensures !old(decoded) && buf.Length > 0 ==>
        var parsed := ParseData(TypesOf(fmt), buf[..], Reader(big, byteorder != OrderByte(big)));
        ok == parsed.Parsed? && decoded == ok && (ok ==> elements == parsed.value)
    {
      if decoded {
        return true;
      }
      if buf.Length == 0 {
        decoded := true;
        return true;
      }
      var vals;
      ok, vals := DataFrom(buf, fmt, byteorder, big);
      if ok {
        elements, decoded := vals, true;
      }
    }
  }

  // ---------------------------------------------------------------- the promise

  /**
   * What the buffers of a packet encoded on one machine decode to on another, of either byte order:
   * the same header, and through that header's format and flag the same values, with no byte left over.
   */
  lemma PacketRoundTrip(h: Header, vals: seq<Value>, sender: bool, reader: bool)
    requires HeaderFits(h) && h.order == OrderByte(sender) && AllFit(TypesOf(h.fmt), vals)
    ensures var hdr := HeaderBytes(h, sender);
            hdr != [] && ParseHeader(hdr, HeaderReader(hdr, reader)) == Parsed(h, [])
    ensures AllKnown(TypesOf(h.fmt))
    ensures ParseData(TypesOf(h.fmt), DataBytes(TypesOf(h.fmt), vals, sender), Reader(reader, h.order != OrderByte(reader)))
         == Parsed(vals, [])
  {
    HeaderBack(h, sender, reader);
    DataAlone(TypesOf(h.fmt), vals, sender, reader);
  }

  lemma DataAlone(types: seq<DataType>, vals: seq<Value>, sender: bool, reader: bool)
    requires AllFit(types, vals)
    ensures AllKnown(types) && ParseData(types, DataBytes(types, vals, sender), ReaderFor(sender, reader)) == Parsed(vals, [])
  {
    DataBack(types, vals, sender, reader, []);
    assert DataBytes(types, vals, sender) + [] == DataBytes(types, vals, sender);
  }

  lemma EncodingStands(fmt: seq<Byte>, vals: seq<Value>, big: bool)
    requires AllFit(TypesOf(fmt), vals)
    ensures DataLaidOut(DataBytes(TypesOf(fmt), vals, big), Tokens(AsString(fmt)), vals, big)
  {
    var s := DataBytes(TypesOf(fmt), vals, big);
    assert s[0..|s|] == s;
    DataStands(s, Tokens(AsString(fmt)), vals, big);
  }

  /** A packet has an empty data buffer exactly when its format has no tokens. */
  lemma NoTokensNoData(fmt: seq<Byte>, vals: seq<Value>, big: bool)
    requires AllFit(TypesOf(fmt), vals)
    ensures DataBytes(TypesOf(fmt), vals, big) == [] <==> TypesOf(fmt) == []
  {
  }
}
