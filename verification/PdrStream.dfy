/**
 * The PDR handle: one set of procedures that encodes into a buffer, decodes from one, or only counts
 * the bytes an encoder would write, depending on the operation and the table it was created with.
 */
module PdrStream {
  import opened Prelude
  import opened Wire

  datatype Op = Encode | Decode

  // The operation table: memory, memory with foreign numbers swapped on the way in, or counting.
  datatype Ops = Memory | MemorySwap | SizeOf

  /** The first i bytes after `from`, every element of elemsize bytes reversed. */
  function Swapped(input: seq<Byte>, from: nat, elemsize: nat, i: nat): (r: seq<Byte>)
    requires elemsize > 0 && from + i <= |input|
    ensures |r| <= i
  {
    if i < elemsize then []
    else Swapped(input, from, elemsize, i - elemsize) + Reverse(input[from + i - elemsize..from + i])
  }

  lemma OneElement(input: seq<Byte>, from: nat, elemsize: nat)
    requires elemsize > 0 && from + elemsize <= |input|
    ensures Swapped(input, from, elemsize, 1 * elemsize) == Reverse(input[from..from + elemsize])
  {
    assert Swapped(input, from, elemsize, 0) == [];
  }

  /** k elements' worth of bytes, counted up as the loop does. */
  function Times(k: nat, elemsize: nat): nat {
    if k == 0 then 0 else Times(k - 1, elemsize) + elemsize
  }

  lemma {:induction false} TimesIs(k: nat, elemsize: nat)
    ensures Times(k, elemsize) == k * elemsize
  {
    if k > 0 {
      TimesIs(k - 1, elemsize);
    }
  }

  lemma {:induction false} TimesMonotone(k: nat, n: nat, elemsize: nat)
    requires k <= n
    ensures Times(k, elemsize) <= Times(n, elemsize)
  {
    if k < n {
      TimesMonotone(k, n - 1, elemsize);
    }
  }

  /** byte_swap, reading from an offset of the input. */
  method ByteSwap(out: array<Byte>, input: array<Byte>, from: nat, nelems: nat, elemsize: nat)
    requires out != input && elemsize > 0
    requires nelems * elemsize <= out.Length && from + nelems * elemsize <= input.Length
    modifies out
    ensures out[..nelems * elemsize] == Swapped(input[..], from, elemsize, nelems * elemsize)
  {
    TimesIs(nelems, elemsize);
    SwapElements(out, input, from, nelems, elemsize, nelems * elemsize);
  }

  method SwapElements(out: array<Byte>, input: array<Byte>, from: nat, ghost nelems: nat, elemsize: nat, total: nat)
    requires out != input && elemsize > 0 && total == Times(nelems, elemsize)
    requires total <= out.Length && from + total <= input.Length
    modifies out
    ensures out[..total] == Swapped(input[..], from, elemsize, total)
  {
    var i := 0;
    ghost var k, source := 0, input[..];
    while i < total
      invariant input[..] == source && i <= total
      invariant Swapping(source, out[..i], from, elemsize, nelems, k, i)
      decreases total - i
    {
      SwapNext(source, out[..i], from, elemsize, nelems, k, i);
      SwapElement(out, input, from, i, elemsize);
      i := i + elemsize;
      k := k + 1;
    }
  }

  /** The first k elements have been written reversed; they fill the first i bytes. */
  ghost predicate Swapping(input: seq<Byte>, done: seq<Byte>, from: nat, elemsize: nat, nelems: nat, k: nat, i: nat) {
    && elemsize > 0 && k <= nelems && i == Times(k, elemsize) <= Times(nelems, elemsize)
    && from + Times(nelems, elemsize) <= |input|
    && done == Swapped(input, from, elemsize, i)
  }

  lemma SwapNext(input: seq<Byte>, done: seq<Byte>, from: nat, elemsize: nat, nelems: nat, k: nat, i: nat)
    requires Swapping(input, done, from, elemsize, nelems, k, i) && i < Times(nelems, elemsize)
    ensures i + elemsize <= Times(nelems, elemsize)
    ensures Swapping(input, done + Reverse(input[from + i..from + i + elemsize]), from, elemsize, nelems, k + 1, i + elemsize)
  {
    NotLast(k, nelems, elemsize);
    assert i + elemsize - elemsize == i;
  }

  lemma NotLast(k: nat, n: nat, elemsize: nat)
    requires k <= n && Times(k, elemsize) < Times(n, elemsize)
    ensures k < n && Times(k + 1, elemsize) == Times(k, elemsize) + elemsize <= Times(n, elemsize)
  {
    TimesMonotone(k + 1, if k < n then n else k + 1, elemsize);
  }

  method SwapElement(out: array<Byte>, input: array<Byte>, from: nat, i: nat, elemsize: nat)
    requires out != input && i + elemsize <= out.Length && from + i + elemsize <= input.Length
    modifies out
    ensures out[..i + elemsize] == old(out[..i]) + Reverse(input[..][from + i..from + i + elemsize])
  {
    ghost var element := input[from + i..from + i + elemsize];
    for j := 0 to elemsize
      invariant out[..i] == old(out[..i])
      invariant out[i..i + j] == Reverse(element)[..j]
    {
      ReverseAt(element, j);
      out[i + j] := input[from + i + elemsize - j - 1];
      assert out[i..i + j + 1] == out[i..i + j] + [out[i + j]];
      assert Reverse(element)[..j + 1] == Reverse(element)[..j] + [Reverse(element)[j]];
    }
    assert input[..][from + i..from + i + elemsize] == element;
    assert Reverse(element)[..elemsize] == Reverse(element);
    assert out[..i + elemsize] == out[..i] + out[i..i + elemsize];
  }

  ghost predicate NoNuls(ss: seq<seq<Byte>>) {
    forall i :: 0 <= i < |ss| ==> 0 !in ss[i]
  }

  ghost predicate TextsOk(ss: seq<seq<Byte>>) {
    forall i :: 0 <= i < |ss| ==> TextOk(ss[i])
  }

  lemma TextsOkNext(ss: seq<seq<Byte>>, i: nat)
    requires i < |ss|
    ensures TextsOk(ss[..i + 1]) <==> TextsOk(ss[..i]) && TextOk(ss[i])
  {
    assert forall k :: 0 <= k < i ==> ss[..i + 1][k] == ss[..i][k];
    assert ss[..i + 1][i] == ss[i];
    if TextsOk(ss[..i + 1]) {
      forall k | 0 <= k < i ensures TextOk(ss[..i][k]) {
        assert TextOk(ss[..i + 1][k]);
      }
      assert TextOk(ss[..i + 1][i]);
    }
  }

  // What a handle looks like from outside: what it has written, what it has left to read.
  datatype View = View(op: Op, ops: Ops, big: bool, space: nat, written: seq<Byte>, left: seq<Byte>, bytes: seq<Byte>) {
    function Machine(): Reader {
      Reader(big, ops.MemorySwap?)
    }

    /** Whether an encoder can take n more bytes; counting never runs out. */
    predicate Room(n: nat) {
      ops.SizeOf? || n <= space
    }
  }

  /** Encoding: the bytes are appended if there is room and nothing else is wrong with them. */
  ghost predicate Wrote(pre: View, post: View, ok: bool, fine: bool, bytes: seq<Byte>) {
    pre.op.Encode? ==>
      && ok == (fine && pre.Room(|bytes|))
      && (ok ==> post == pre.(written := pre.written + bytes, bytes := post.bytes, left := post.left,
                              space := if pre.ops.SizeOf? then post.space else pre.space - |bytes|))
      && post.(space := pre.space, written := pre.written, bytes := pre.bytes, left := pre.left) == pre
  }

  /** Decoding: the value parsed from what was left, and what is left after it. */
  ghost predicate Read<T>(pre: View, post: View, ok: bool, value: T, parsed: Parsed<T>) {
    pre.op.Decode? ==>
      && ok == parsed.Parsed?
      && (ok ==> parsed == Parsed(value, post.left))
      && post.(space := pre.space, written := pre.written, left := pre.left) == pre
  }

  lemma WroteBoth(a: View, b: View, c: View, ok: bool, ok': bool, fine: bool, fine': bool, x: seq<Byte>, y: seq<Byte>)
    requires Wrote(a, b, ok, fine, x) && (if ok then Wrote(b, c, ok', fine', y) else b == c && !ok')
    ensures Wrote(a, c, ok', fine && fine', x + y)
  {
    if a.op.Encode? && ok && ok' {
      Reassociate(a.written, x, y);
    }
  }

  class Pdr {
    const op: Op
    const ops: Ops
    const big: bool
    const buffer: array<Byte>
    const base: nat
    const end: nat
    var cur: nat
    var space: nat
    ghost var written: seq<Byte>

    ghost predicate Valid()
      reads this, buffer
    {
      && (ops.SizeOf? ==> op.Encode? && space == |written|)
      && (op.Encode? ==> !ops.MemorySwap?)
      && (!ops.SizeOf? ==> base <= cur && cur + space == end <= buffer.Length)
      && (op.Encode? && !ops.SizeOf? ==> written == buffer[base..cur])
    }

    /** What is left to decode. */
    ghost function Left(): seq<Byte>
      reads this, buffer
      requires Valid() && op.Decode?
    {
      buffer[cur..end]
    }

    ghost function Now(): View
      reads this, buffer
    {
      View(op, ops, big, space, written, if op.Decode? && cur <= end <= buffer.Length then buffer[cur..end] else [], buffer[..])
    }

    ghost function Machine(): Reader {
      Reader(big, ops.MemorySwap?)
    }

    /** pdrmem_create over size bytes of an array: a decoder swaps when they are not marked with its own order. */
    constructor Create(addr: array<Byte>, base: nat, size: nat, op: Op, order: Byte, big: bool)
      requires base + size <= addr.Length
      ensures Valid() && this.op == op && this.big == big && buffer == addr && this.base == base && end == base + size
      ensures ops == if op.Decode? && order != OrderByte(big) then MemorySwap else Memory
      ensures op.Encode? ==> written == [] && space == size
      ensures op.Decode? ==> Now().left == addr[base..base + size]
    {
      this.op, this.big, this.base, buffer, end := op, big, base, addr, base + size;
      ops := if op.Decode? && order != OrderByte(big) then MemorySwap else Memory;
      cur, space, written := base, size, [];
    }

    /** The handle pdr_sizeof makes. */
    constructor Sizer(big: bool)
      ensures Valid() && op.Encode? && ops.SizeOf? && this.big == big && written == [] && space == 0
      ensures fresh(buffer)
    {
      op, ops, this.big := Encode, SizeOf, big;
      buffer := new Byte[0];
      base, end, cur, space, written := 0, 0, 0, 0, [];
    }

    method Put(bytes: seq<Byte>) returns (ok: bool)
      requires Valid() && op.Encode?
      modifies this, buffer
      ensures Valid() && Wrote(old(Now()), Now(), ok, true, bytes)
    {
      if ops.SizeOf? {
        space := space + |bytes|;
        written := written + bytes;
        return true;
      }
      if |bytes| > space {
        return false;
      }
      forall i | 0 <= i < |bytes| {
        buffer[cur + i] := bytes[i];
      }
      assert buffer[base..cur + |bytes|] == written + bytes;
      cur := cur + |bytes|;
      space := space - |bytes|;
      written := written + bytes;
      return true;
    }

    /** The number in the next w bytes, as this machine reads it. */
    method Fetch(w: nat) returns (n: nat)
      requires Valid() && op.Decode? && w <= space
      ensures n == Load(if ops.MemorySwap? then Reverse(Left()[..w]) else Left()[..w], big)
    {
      assert Left()[..w] == buffer[cur..cur + w];
      if !ops.MemorySwap? || w == 0 {
        return Load(buffer[cur..cur + w], big);
      }
      var swapped := new Byte[w];
      ByteSwap(swapped, buffer, cur, 1, w);
      OneElement(buffer[..], cur, w);
      assert swapped[..] == swapped[..1 * w];
      assert buffer[..][cur..cur + w] == buffer[cur..cur + w];
      n := Load(swapped[..], big);
    }

    method Skip(w: nat)
      requires Valid() && op.Decode? && w <= space
      modifies this
      ensures Valid() && Now() == old(Now()).(space := old(space) - w, left := old(Left())[w..])
    {
      assert buffer[cur..end][w..] == buffer[cur + w..end];
      cur := cur + w;
      space := space - w;
    }

    method Get(w: nat) returns (ok: bool, n: nat)
      requires Valid() && op.Decode?
      modifies this
      ensures Valid() && Read(old(Now()), Now(), ok, n, Number(old(Left()), w, Machine()))
    {
      ok, n := w <= space, 0;
      if ok {
        n := Fetch(w);
        Skip(w);
      }
    }

    /** pdr_char, pdr_int16 and so on: one number of w bytes, out or in. */
    method Num(w: nat, x: nat) returns (ok: bool, y: nat)
      requires Valid()
      modifies this, buffer
      ensures Valid()
      ensures Wrote(old(Now()), Now(), ok, true, Store(x, w, big)) && (op.Encode? ==> y == x)
      ensures Read(old(Now()), Now(), ok, y, Number(old(Now().left), w, Machine()))
    {
      if op.Encode? {
        y := x;
        ok := Put(Store(x, w, big));
      } else {
        ok, y := Get(w);
      }
    }

    /** pdr_opaque: raw bytes, out or in. */
    method Opaque(bytes: seq<Byte>, count: nat) returns (ok: bool, got: seq<Byte>)
      requires Valid() && (op.Encode? ==> |bytes| == count)
      modifies this, buffer
      ensures Valid()
      ensures Wrote(old(Now()), Now(), ok, true, bytes) && (op.Encode? ==> got == bytes)
      ensures Read(old(Now()), Now(), ok, got, Raw(old(Now().left), count))
    {
      got := bytes;
      if count == 0 {
        assert op.Encode? ==> bytes == [] && written + bytes == written;
        if op.Decode? {
          assert Raw(Now().left, 0) == Parsed([], Now().left);
          got := [];
        }
        return true, got;
      }
      if op.Encode? {
        ok := Put(bytes);
        return;
      }
      if count > space {
        return false, got;
      }
      ghost var left := Left();
      got := buffer[cur..cur + count];
      cur := cur + count;
      space := space - count;
      assert Left() == left[count..] && got == left[..count];
      ok := true;
    }

    /** pdr_wrapstring: a C string with its count, at most 2^32 - 2 bytes with the terminator. */
    method Str(s: seq<Byte>) returns (ok: bool, t: seq<Byte>)
      requires Valid() && (op.Encode? ==> 0 !in s)
      modifies this, buffer
      ensures Valid()
      ensures Wrote(old(Now()), Now(), ok, TextOk(s), TextBytes(s, big)) && (op.Encode? ==> t == s)
      ensures Read(old(Now()), Now(), ok, t, String(old(Now().left), Machine()))
    {
      t := s;
      if op.Encode? && |s| + 1 > UINT32_MAX - 1 {
        return false, t;
      }
      var size;
      ok, size := Num(4, |s| + 1);
      ghost var counted, fits := Now(), ok;
      if !ok {
        return;
      }
      if op.Encode? {
        var got;
        ok, got := Opaque(s + [0], size);
        WroteBoth(old(Now()), counted, Now(), fits, ok, true, true, Store(|s| + 1, 4, big), s + [0]);
        return;
      }
      if size == 0 {
        return false, t;
      }
      var got;
      ok, got := Opaque([], size);
      t := UpToNul(got);
    }

    /** pdr_array over numbers of w bytes. */
    method Numbers(ns: seq<nat>, w: nat, limit: nat) returns (ok: bool, ms: seq<nat>)
      requires Valid()
      modifies this, buffer
      ensures Valid()
      ensures Wrote(old(Now()), Now(), ok, |ns| <= limit, Store(|ns|, 8, big) + NumsBytes(ns, w, big))
      ensures op.Encode? ==> ms == ns
      ensures Read(old(Now()), Now(), ok, ms, CountedNumbers(old(Now().left), w, limit, Machine()))
    {
      ms := ns;
      var count;
      ok, count := Num(8, |ns|);
      ghost var counted, fits := Now(), ok;
      if !ok {
        return;
      }
      if count > limit {
        return false, ms;
      }
      if op.Encode? {
        ok := PutNumbers(ns, w);
        WroteBoth(old(Now()), counted, Now(), fits, ok, true, true, Store(|ns|, 8, big), NumsBytes(ns, w, big));
      } else {
        ok, ms := GetNumbers(count, w);
      }
    }

    method PutNumbers(ns: seq<nat>, w: nat) returns (ok: bool)
      requires Valid() && op.Encode?
      modifies this, buffer
      ensures Valid() && Wrote(old(Now()), Now(), ok, true, NumsBytes(ns, w, big))
    {
      var i := 0;
      ok := true;
      assert ns[..0] == [];
      while i < |ns| && ok
        invariant i <= |ns| && Valid()
        invariant Wrote(old(Now()), Now(), ok, true, NumsBytes(ns[..i], w, big))
        decreases |ns| - i
      {
        assert ns[..i + 1][..i] == ns[..i];
        ghost var before := Now();
        var y;
        ok, y := Num(w, ns[i]);
        WroteBoth(old(Now()), before, Now(), true, ok, true, true, NumsBytes(ns[..i], w, big), Store(ns[i], w, big));
        i := i + 1;
      }
      NumsPrefix(ns, w, big, i);
      assert i == |ns| ==> ns[..i] == ns;
    }

    method GetNumbers(count: nat, w: nat) returns (ok: bool, ms: seq<nat>)
      requires Valid() && op.Decode?
      modifies this, buffer
      ensures Valid() && Read(old(Now()), Now(), ok, ms, Wire.Numbers(old(Now().left), count, w, Machine()))
    {
      var i := 0;
      ok, ms := true, [];
      while i < count && ok
        invariant i <= count && Valid()
        invariant Read(old(Now()), Now(), ok, ms, Wire.Numbers(old(Now().left), i, w, Machine()))
        decreases count - i
      {
        var y;
        ok, y := Num(w, 0);
        if ok {
          ms := ms + [y];
        }
        i := i + 1;
      }
      NumbersStop(old(Left()), i, count, w, Machine());
    }

    /** pdr_array over strings. */
    method Strings(ss: seq<seq<Byte>>, limit: nat) returns (ok: bool, ts: seq<seq<Byte>>)
      requires Valid() && (op.Encode? ==> NoNuls(ss))
      modifies this, buffer
      ensures Valid()
      ensures Wrote(old(Now()), Now(), ok, |ss| <= limit && TextsOk(ss), Store(|ss|, 8, big) + TextsBytes(ss, big))
      ensures op.Encode? ==> ts == ss
      ensures Read(old(Now()), Now(), ok, ts, CountedStrings(old(Now().left), limit, Machine()))
    {
      ts := ss;
      var count;
      ok, count := Num(8, |ss|);
      ghost var counted, fits := Now(), ok;
      if !ok {
        return;
      }
      if count > limit {
        return false, ts;
      }
      if op.Encode? {
        ok := PutStrings(ss);
        WroteBoth(old(Now()), counted, Now(), fits, ok, true, TextsOk(ss), Store(|ss|, 8, big), TextsBytes(ss, big));
      } else {
        ok, ts := GetStrings(count);
      }
    }

    method PutStrings(ss: seq<seq<Byte>>) returns (ok: bool)
      requires Valid() && op.Encode? && NoNuls(ss)
      modifies this, buffer
      ensures Valid() && Wrote(old(Now()), Now(), ok, TextsOk(ss), TextsBytes(ss, big))
    {
      var i := 0;
      ok := true;
      assert ss[..0] == [];
      while i < |ss| && ok
        invariant i <= |ss| && Valid()
        invariant Wrote(old(Now()), Now(), ok, TextsOk(ss[..i]), TextsBytes(ss[..i], big))
        decreases |ss| - i
      {
        assert ss[..i + 1][..i] == ss[..i];
        TextsOkNext(ss, i);
        ghost var before := Now();
        var y;
        ok, y := Str(ss[i]);
        WroteBoth(old(Now()), before, Now(), true, ok, TextsOk(ss[..i]), TextOk(ss[i]),
                  TextsBytes(ss[..i], big), TextBytes(ss[i], big));
        i := i + 1;
      }
      TextsPrefix(ss, big, i);
      assert TextsOk(ss) ==> TextsOk(ss[..i]);
      assert i == |ss| ==> ss[..i] == ss;
    }

    method GetStrings(count: nat) returns (ok: bool, ts: seq<seq<Byte>>)
      requires Valid() && op.Decode?
      modifies this, buffer
      ensures Valid() && Read(old(Now()), Now(), ok, ts, Wire.Strings(old(Now().left), count, Machine()))
    {
      var i := 0;
      ok, ts := true, [];
      while i < count && ok
        invariant i <= count && Valid()
        invariant Read(old(Now()), Now(), ok, ts, Wire.Strings(old(Now().left), i, Machine()))
        decreases count - i
      {
        var y;
        ok, y := Str([]);
        if ok {
          ts := ts + [y];
        }
        i := i + 1;
      }
      StringsStop(old(Left()), i, count, Machine());
    }

    /** pdr_bytes: counted raw bytes, what an array of characters is sent as. */
    method Bytes(bytes: seq<nat>, limit: nat) returns (ok: bool, got: seq<nat>)
      requires Valid() && (op.Encode? ==> forall i :: 0 <= i < |bytes| ==> bytes[i] < 256)
      modifies this, buffer
      ensures Valid()
      ensures Wrote(old(Now()), Now(), ok, |bytes| <= limit, Store(|bytes|, 8, big) + NumsBytes(bytes, 1, big))
      ensures op.Encode? ==> got == bytes
      ensures Read(old(Now()), Now(), ok, got, CountedNumbers(old(Now().left), 1, limit, Machine()))
    {
      got := bytes;
      var size;
      ok, size := Num(8, |bytes|);
      ghost var counted, fits := Now(), ok;
      if !ok {
        return;
      }
      if size > limit {
        return false, got;
      }
      if op.Encode? {
        RawBytes(bytes, big);
        var raw: seq<Byte> := bytes;
        var same;
        ok, same := Opaque(raw, size);
        WroteBoth(old(Now()), counted, Now(), fits, ok, true, true, Store(|bytes|, 8, big), NumsBytes(bytes, 1, big));
        return;
      }
      RawNumbers(Left(), size, Machine());
      var raw;
      ok, raw := Opaque([], size);
      got := raw;
    }
  }

  lemma {:induction false} NumsPrefix(ns: seq<nat>, w: nat, big: bool, i: nat)
    requires i <= |ns|
    ensures |NumsBytes(ns[..i], w, big)| <= |NumsBytes(ns, w, big)|
    decreases |ns| - i
  {
    if i == |ns| {
      assert ns[..i] == ns;
    } else {
      NumsPrefix(ns, w, big, i + 1);
      assert ns[..i + 1][..i] == ns[..i];
    }
  }

  lemma {:induction false} TextsPrefix(ss: seq<seq<Byte>>, big: bool, i: nat)
    requires i <= |ss|
    ensures |TextsBytes(ss[..i], big)| <= |TextsBytes(ss, big)|
    decreases |ss| - i
  {
    if i == |ss| {
      assert ss[..i] == ss;
    } else {
      TextsPrefix(ss, big, i + 1);
      assert ss[..i + 1][..i] == ss[..i];
    }
  }

  /** Raw bytes, taken as they are. */
  function Raw(s: seq<Byte>, count: nat): Parsed<seq<Byte>> {
    if count <= |s| then Parsed(s[..count], s[count..]) else Malformed
  }

  /** Once an element cannot be read the array cannot. */
  lemma {:induction false} NumbersStop(s: seq<Byte>, i: nat, count: nat, w: nat, m: Reader)
    requires i <= count
    ensures Wire.Numbers(s, i, w, m).Malformed? ==> Wire.Numbers(s, count, w, m).Malformed?
  {
    if i < count {
      NumbersStop(s, i, count - 1, w, m);
    }
  }

  lemma {:induction false} StringsStop(s: seq<Byte>, i: nat, count: nat, m: Reader)
    requires i <= count
    ensures Wire.Strings(s, i, m).Malformed? ==> Wire.Strings(s, count, m).Malformed?
  {
    if i < count {
      StringsStop(s, i, count - 1, m);
    }
  }

  lemma OneByte(n: nat, big: bool)
    requires n < 256
    ensures Store(n, 1, big) == [n]
  {
    assert Little(n, 1) == [n] + Little(0, 0);
    assert Reverse([n]) == [n] + Reverse([]);
  }

  lemma {:induction false} RawBytes(ns: seq<nat>, big: bool)
    requires forall i :: 0 <= i < |ns| ==> ns[i] < 256
    ensures NumsBytes(ns, 1, big) == ns
  {
    if ns != [] {
      RawBytes(ns[..|ns| - 1], big);
      OneByte(ns[|ns| - 1], big);
    }
  }

  lemma OneNumber(s: seq<Byte>, m: Reader)
    requires s != []
    ensures Number(s, 1, m) == Parsed(s[0], s[1..])
  {
    assert s[..1] == [s[0]];
    assert Reverse([s[0]]) == [s[0]] + Reverse([]);
    assert FromLittle([s[0]]) == s[0] + 256 * FromLittle([s[0]][1..]);
  }

  lemma {:induction false} RawNumbers(s: seq<Byte>, count: nat, m: Reader)
    ensures Wire.Numbers(s, count, 1, m) == if count <= |s| then Parsed(s[..count], s[count..]) else Malformed
  {
    if count > 0 {
      RawNumbers(s, count - 1, m);
      if count <= |s| {
        OneNumber(s[count - 1..], m);
        assert s[count - 1..][1..] == s[count..];
        assert s[..count] == s[..count - 1] + [s[count - 1]];
      }
    }
  }
}
