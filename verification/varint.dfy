/**
 * Unsigned LEB128-style varints, as written by `writeUnsignedVarint` and read
 * by `readUnsignedVarint` in the index builders and the query engine: seven
 * payload bits per byte, least significant group first, the high bit set on
 * every byte but the last.
 */
module Varint {
  import opened Binary

  datatype VarintError =
    | Truncated   // the buffer ended inside a varint (index out of bounds / underflow)
    | TooLong     // more continuation bytes than a 32-bit integer can need

  /** The bytes written for the 32-bit pattern `v`. */
  function Encode(v: u32): (r: seq<byte>)
    ensures |r| >= 1
    decreases v
  {
    if v < 0x80 then [v] else [v % 0x80 + 0x80] + Encode(v / 0x80)
  }

  /**
   * Every byte but the last carries the continuation bit, and the length grows
   * by one byte per seven significant bits.
   */
  lemma {:induction false} EncodeShape(v: u32)
    ensures forall i :: 0 <= i < |Encode(v)| - 1 ==> Encode(v)[i] >= 0x80
    ensures Encode(v)[|Encode(v)| - 1] < 0x80
    ensures v < 0x80 <==> |Encode(v)| == 1
    ensures v < 0x4000 ==> |Encode(v)| <= 2
    ensures v < 0x20_0000 ==> |Encode(v)| <= 3
    ensures v < 0x1000_0000 ==> |Encode(v)| <= 4
    ensures |Encode(v)| <= 5
    ensures |Encode(v)| <= v + 1
    decreases v
  {
    if v >= 0x80 {
      EncodeShape(v / 0x80);
    }
  }

  /**
   * The reader's loop from the state (`val`, `bits`) at position `p`: it
   * fails at the end of the buffer and otherwise goes on with the byte at `p`.
   */
  function DecodeFrom(buf: seq<byte>, p: nat, val: u32, bits: nat): (r: Result<(u32, nat), VarintError>)
    requires bits <= 35
    ensures r.Ok? ==> p < r.value.1 <= |buf|
    decreases |buf| - p, 1
  {
    if p >= |buf| then Err(Truncated) else Continue(buf, p, val, bits)
  }

  /**
   * The byte at `p` ORs its low seven bits in at `bits` (a Java `int` shift, so
   * the count is taken modulo 32); a byte without the high bit ends the value,
   * and once `bits` would pass 35 the reader gives up.
   */
  function Continue(buf: seq<byte>, p: nat, val: u32, bits: nat): (r: Result<(u32, nat), VarintError>)
    requires bits <= 35 && p < |buf|
    ensures r.Ok? ==> p < r.value.1 <= |buf|
    decreases |buf| - p, 0
  {
    var data := buf[p];
    var val' := Or32(val, Shl32(data % 0x80, bits));
    if data < 0x80 then Ok((val', p + 1))
    else if bits + 7 > 35 then Err(TooLong)
    else DecodeFrom(buf, p + 1, val', bits + 7)
  }

  /** The value read at `p` and the position just after it. */
  function Decode(buf: seq<byte>, p: nat): (r: Result<(u32, nat), VarintError>)
    ensures r.Ok? ==> p < r.value.1 <= |buf|
  {
    DecodeFrom(buf, p, 0, 0)
  }

  /**
   * The arithmetic of one continuation byte: the low group lands at `bits`,
   * the rest one group higher.
   */
  lemma {:induction false} SplitGroup(w: nat, acc: nat, bits: nat) returns (acc': nat)
    requires w >= 0x80 && bits <= 28 && bits % 7 == 0 && acc < Pow2(bits) && acc + Scale(w, bits) < TWO_32
    ensures bits <= 21
    ensures acc' == acc + Scale(w % 0x80, bits) && acc' < TWO_32
    ensures acc' < Pow2(bits + 7)
    ensures acc' + Scale(w / 0x80, bits + 7) == acc + Scale(w, bits)
  {
    var lo, hi := w % 0x80, w / 0x80;
    ScaleMul(hi, 7);
    Pow2Values();
    assert Scale(hi, 7) == 0x80 * hi;
    ScaleScale(hi, 7, bits);
    ScaleAdd(0x80 * hi, lo, bits);
    ScaleMono(lo, 0x7F, bits);
    ScaleAdd(0x7F, 1, bits);
    ScaleScale(1, 7, bits);
    ScaleMono(0x80, w, bits);
    ScaleMono(1, hi, bits + 7);
    acc' := acc + Scale(lo, bits);
  }

  /** A Java shift that neither wraps nor masks its count. */
  lemma {:induction false} ShlExact(x: nat, bits: nat)
    requires bits < 32 && Scale(x, bits) < TWO_32
    ensures Shl32(x, bits) == Scale(x, bits)
  {
    assert bits % 32 == bits;
  }

  /** One step of the reader on a byte that ends the value. */
  lemma {:induction false} DecodeLast(buf: seq<byte>, p: nat, acc: nat, bits: nat)
    requires bits <= 35 && p < |buf| && buf[p] < 0x80
    requires bits < 32 && acc < Pow2(bits) && acc + Scale(buf[p], bits) < TWO_32
    ensures DecodeFrom(buf, p, acc, bits) == Ok((acc + Scale(buf[p], bits), p + 1))
  {
    ShlExact(buf[p], bits);
    BitOrDisjoint(acc, buf[p], bits);
    Or32Exact(acc, Shl32(buf[p], bits));
  }

  /** One step of the reader on a continuation byte. */
  lemma {:induction false} DecodeMore(buf: seq<byte>, p: nat, acc: nat, bits: nat)
    requires bits <= 28 && p < |buf| && buf[p] >= 0x80
    requires acc < Pow2(bits) && acc + Scale(buf[p] - 0x80, bits) < TWO_32
    ensures DecodeFrom(buf, p, acc, bits)
         == DecodeFrom(buf, p + 1, acc + Scale(buf[p] - 0x80, bits), bits + 7)
  {
    assert buf[p] % 0x80 == buf[p] - 0x80;
    ShlExact(buf[p] - 0x80, bits);
    BitOrDisjoint(acc, buf[p] - 0x80, bits);
    Or32Exact(acc, Shl32(buf[p] - 0x80, bits));
  }

  lemma {:induction false} DecodeEncodeFrom(buf: seq<byte>, p: nat, w: u32, acc: u32, bits: nat)
    requires bits <= 28 && bits % 7 == 0
    requires acc < Pow2(bits)
    requires acc + Scale(w, bits) < TWO_32
    requires p + |Encode(w)| <= |buf| && buf[p..p + |Encode(w)|] == Encode(w)
    ensures DecodeFrom(buf, p, acc, bits) == Ok((acc + Scale(w, bits), p + |Encode(w)|))
    decreases w
  {
    var e := Encode(w);
    assert buf[p] == e[0];
    if w < 0x80 {
      assert e == [w];
      DecodeLast(buf, p, acc, bits);
    } else {
      var hi := w / 0x80;
      assert e == [w % 0x80 + 0x80] + Encode(hi);
      var acc' := SplitGroup(w, acc, bits);
      DecodeMore(buf, p, acc, bits);
      assert e[1..] == Encode(hi);
      assert buf[p + 1..p + |e|] == buf[p..p + |e|][1..];
      DecodeEncodeFrom(buf, p + 1, hi, acc', bits + 7);
    }
  }

  /** Round trip: reading what the writer emitted gives back the same 32-bit value. */
  lemma {:induction false} DecodeEncode(v: u32, pre: seq<byte>, post: seq<byte>)
    ensures Decode(pre + Encode(v) + post, |pre|) == Ok((v, |pre| + |Encode(v)|))
  {
    var buf := pre + Encode(v) + post;
    assert buf[|pre|..|pre| + |Encode(v)|] == Encode(v);
    DecodeEncodeFrom(buf, |pre|, v, 0, 0);
  }

  lemma {:induction false} TooLongFrom(buf: seq<byte>, p: nat, val: u32, j: nat)
    requires j <= 5
    requires p + 6 - j <= |buf|
    requires forall i :: p <= i < p + 6 - j ==> buf[i] >= 0x80
    ensures DecodeFrom(buf, p, val, 7 * j) == Err(TooLong)
    decreases 5 - j
  {
    if j < 5 {
      TooLongFrom(buf, p + 1, Or32(val, Shl32(buf[p] % 0x80, 7 * j)), j + 1);
    }
  }

  /** Six continuation bytes in a row make the reader fail instead of reading a seventh. */
  lemma {:induction false} SixContinuationBytes(buf: seq<byte>, p: nat)
    requires p + 6 <= |buf|
    requires forall i :: p <= i < p + 6 ==> buf[i] >= 0x80
    ensures Decode(buf, p) == Err(TooLong)
  {
    TooLongFrom(buf, p, 0, 0);
  }

  /**
   * `readUnsignedVarint(byte[], int[])`: reads one varint at `pos`; on success
   * returns the value and the advanced position.
   */
  method ReadUnsignedVarint(buffer: seq<byte>, pos: nat) returns (r: Result<(u32, nat), VarintError>)
    ensures r == Decode(buffer, pos)
  {
    var val: u32 := 0;
    var bits: nat := 0;
    var p := pos;
    while true
      invariant bits <= 35 && p >= pos
      invariant DecodeFrom(buffer, p, val, bits) == Decode(buffer, pos)
      decreases 35 - bits
    {
      if p >= |buffer| {
        return Err(Truncated);
      }
      var data := buffer[p];
      p := p + 1;
      val := Or32(val, Shl32(data % 0x80, bits));
      if data < 0x80 {
        return Ok((val, p));
      }
      bits := bits + 7;
      if bits > 35 {
        return Err(TooLong);
      }
    }
  }

  /**
   * `writeUnsignedVarint`: stores the encoding of `val` at `pos` and returns
   * the position after it; every other byte of the buffer is left alone.
   */
  method WriteUnsignedVarint(buffer: array<byte>, pos: nat, val: u32) returns (newPos: nat)
    requires pos + |Encode(val)| <= buffer.Length
    modifies buffer
    ensures newPos == pos + |Encode(val)|
    ensures buffer[..] == old(buffer[..pos]) + Encode(val) + old(buffer[newPos..])
    ensures buffer[..newPos] == old(buffer[..pos]) + Encode(val)
  {
    ghost var e := Encode(val);
    var v := val;
    var p := pos;
    while v >= 0x80
      invariant pos <= p && p - pos + |Encode(v)| == |e|
      invariant e[p - pos..] == Encode(v)
      invariant forall i :: 0 <= i < buffer.Length ==>
        buffer[i] == if pos <= i < p then e[i - pos] else old(buffer[i])
      decreases v
    {
      assert Encode(v) == [v % 0x80 + 0x80] + Encode(v / 0x80);
      assert e[p - pos] == v % 0x80 + 0x80;
      assert e[p - pos + 1..] == Encode(v / 0x80);
      buffer[p] := v % 0x80 + 0x80;
      p := p + 1;
      v := v / 0x80;
    }
    assert e[p - pos] == v;
    buffer[p] := v;
    p := p + 1;
    newPos := p;
    assert buffer[..] == old(buffer[..pos]) + e + old(buffer[newPos..]);
    assert buffer[..newPos] == old(buffer[..pos]) + e;
  }
}
