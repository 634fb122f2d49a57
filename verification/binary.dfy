/**
 * Java integer and byte semantics shared by the index writer and the reader.
 *
 * Bytes are kept as their unsigned value 0..255 (Java's signed `byte` is the
 * same bit pattern). A Java `int` used as a bit pattern (varint values, raster
 * cells with the coverage in the top byte) is kept as its unsigned 32-bit view
 * `u32`; `ToI32` gives the signed value Java arithmetic sees.
 */
module Binary {

  type byte = b: int | 0 <= b < 256
  type u32 = x: int | 0 <= x < 0x1_0000_0000
  type i32 = x: int | -0x8000_0000 <= x < 0x8000_0000

  const TWO_32: int := 0x1_0000_0000

  /** `Integer.MIN_VALUE` and `Integer.MAX_VALUE`. */
  const INT_MIN: i32 := -0x8000_0000
  const INT_MAX: i32 := 0x7FFF_FFFF

  datatype Option<T> = None | Some(value: T)

  datatype Result<T, E> = Ok(value: T) | Err(error: E)

  /** Two's-complement wrap of an arbitrary integer into the unsigned 32-bit view. */
  function ToU32(x: int): u32 { x % TWO_32 }

  /** The signed value of a 32-bit pattern. */
  function ToI32(u: u32): i32 { if u < 0x8000_0000 then u else u - TWO_32 }

  /** Java `int` addition with wrap-around. */
  function AddI32(a: i32, b: i32): i32 { ToI32(ToU32(a + b)) }

  /** Values in the positive `int` range pass through both views unchanged. */
  lemma {:induction false} NonNegI32(v: int)
    requires 0 <= v < 0x8000_0000
    ensures ToU32(v) == v && ToI32(v) == v
  {
  }

  /** An `int` survives the round trip through its bit pattern. */
  lemma {:induction false} I32Bits(v: i32)
    ensures ToI32(ToU32(v)) == v
  {
    if v < 0 {
      assert ToU32(v) == v + TWO_32;
    }
  }

  lemma {:induction false} AddNoWrap(a: i32, b: i32)
    requires 0 <= a + b < 0x8000_0000
    ensures AddI32(a, b) == a + b
  {
    NonNegI32(a + b);
  }

  /** `x` shifted left by `k` bits without any width limit: x * 2^k. */
  function Scale(x: nat, k: nat): nat
  {
    if k == 0 then x else 2 * Scale(x, k - 1)
  }

  function Pow2(n: nat): nat
  {
    Scale(1, n)
  }

  lemma {:induction false} ScaleMul(x: nat, k: nat)
    ensures Scale(x, k) == x * Pow2(k)
  {
    if k > 0 {
      ScaleMul(x, k - 1);
    }
  }

  lemma {:induction false} ScaleAdd(a: nat, b: nat, k: nat)
    ensures Scale(a + b, k) == Scale(a, k) + Scale(b, k)
  {
    if k > 0 {
      ScaleAdd(a, b, k - 1);
    }
  }

  lemma {:induction false} ScaleMono(a: nat, b: nat, k: nat)
    requires a <= b
    ensures Scale(a, k) <= Scale(b, k)
  {
    if k > 0 {
      ScaleMono(a, b, k - 1);
    }
  }

  lemma {:induction false} ScaleScale(x: nat, j: nat, k: nat)
    ensures Scale(x, j + k) == Scale(Scale(x, j), k)
  {
    if k > 0 {
      ScaleScale(x, j, k - 1);
    }
  }

  lemma {:induction false} Pow2Values()
    ensures Pow2(0) == 1 && Pow2(3) == 8 && Pow2(7) == 0x80 && Pow2(8) == 0x100
    ensures Pow2(14) == 0x4000 && Pow2(16) == 0x1_0000 && Pow2(21) == 0x20_0000
    ensures Pow2(24) == 0x100_0000 && Pow2(28) == 0x1000_0000 && Pow2(32) == TWO_32
    ensures Pow2(35) == 0x8_0000_0000
  {
  }

  /**
   * Bitwise OR of two non-negative integers, bit by bit from the least
   * significant end; Java's `|` on the unsigned views.
   */
  function BitOr(a: nat, b: nat): nat
    decreases a + b
  {
    if a == 0 then b
    else if b == 0 then a
    else 2 * BitOr(a / 2, b / 2) + (if a % 2 == 1 || b % 2 == 1 then 1 else 0)
  }

  lemma {:induction false} BitOrComm(a: nat, b: nat)
    ensures BitOr(a, b) == BitOr(b, a)
    decreases a + b
  {
    if a != 0 && b != 0 {
      BitOrComm(a / 2, b / 2);
    }
  }

  /** OR never leaves the width of its operands. */
  lemma {:induction false} BitOrBound(a: nat, b: nat, k: nat)
    requires a < Pow2(k) && b < Pow2(k)
    ensures BitOr(a, b) < Pow2(k)
    decreases a + b
  {
    if a != 0 && b != 0 {
      assert k > 0;
      BitOrBound(a / 2, b / 2, k - 1);
    }
  }

  /** OR of a value with a multiple of 2^k above it is addition. */
  lemma {:induction false} BitOrDisjoint(a: nat, m: nat, k: nat)
    requires a < Pow2(k)
    ensures BitOr(a, Scale(m, k)) == a + Scale(m, k)
    decreases k
  {
    if a == 0 || m == 0 {
      if m == 0 {
        ScaleMul(0, k);
      }
    } else {
      assert k > 0;
      BitOrDisjoint(a / 2, m, k - 1);
    }
  }

  /** OR of two values whose low `k` bits are 0 and `lo`: the high parts are ORed and `lo` passes through. */
  lemma {:induction false} BitOrHigh(a: nat, b: nat, lo: nat, k: nat)
    requires lo < Pow2(k)
    ensures BitOr(Scale(a, k), Scale(b, k) + lo) == Scale(BitOr(a, b), k) + lo
    decreases k
  {
    if k > 0 {
      BitOrHigh(a, b, lo / 2, k - 1);
      if a == 0 {
        ScaleMul(0, k);
      } else if b == 0 && lo == 0 {
        ScaleMul(0, k);
      }
    }
  }

  /** Java `(x << s)` on an `int`: the shift count is taken modulo 32 and the result wraps. */
  function Shl32(x: nat, s: nat): u32
  {
    Scale(x, s % 32) % TWO_32
  }

  /**
   * Java `a | b` on two `int` bit patterns (the reduction modulo 2^32 never
   * changes the value, see `Or32Exact`).
   */
  function Or32(a: u32, b: u32): u32
  {
    BitOr(a, b) % TWO_32
  }

  lemma {:induction false} Or32Exact(a: u32, b: u32)
    ensures Or32(a, b) == BitOr(a, b)
  {
    Pow2Values();
    BitOrBound(a, b, 32);
  }

  /** `DataOutputStream.writeInt`: the low 32 bits, most significant byte first. */
  function IntBytes(v: int): (r: seq<byte>)
    ensures |r| == 4
  {
    var u := ToU32(v);
    [u / 0x100_0000, (u / 0x1_0000) % 0x100, (u / 0x100) % 0x100, u % 0x100]
  }

  /** `ByteBuffer.getInt` at an absolute position: a big-endian signed int. */
  function GetInt(s: seq<byte>, p: nat): i32
    requires p + 4 <= |s|
  {
    ToI32((s[p] as int) * 0x100_0000 + (s[p + 1] as int) * 0x1_0000 + (s[p + 2] as int) * 0x100 + s[p + 3] as int)
  }

  lemma {:induction false} ByteDigits(u: u32)
    ensures (u / 0x100_0000) * 0x100_0000 + ((u / 0x1_0000) % 0x100) * 0x1_0000
            + ((u / 0x100) % 0x100) * 0x100 + u % 0x100 == u
  {
    var a := u / 0x100;
    var b := a / 0x100;
    var c := b / 0x100;
    assert u == a * 0x100 + u % 0x100;
    assert a == b * 0x100 + a % 0x100;
    assert b == c * 0x100 + b % 0x100;
    assert b == u / 0x1_0000;
    assert c == u / 0x100_0000;
  }

  /** Reading back a written int yields its signed 32-bit value. */
  lemma {:induction false} GetIntBytes(v: int, pre: seq<byte>, post: seq<byte>)
    ensures GetInt(pre + IntBytes(v) + post, |pre|) == ToI32(ToU32(v))
  {
    var s := pre + IntBytes(v) + post;
    var u := ToU32(v);
    assert s[|pre|] == u / 0x100_0000;
    assert s[|pre| + 1] == (u / 0x1_0000) % 0x100;
    assert s[|pre| + 2] == (u / 0x100) % 0x100;
    assert s[|pre| + 3] == u % 0x100;
    ByteDigits(u);
  }

  /** Reading an int where one was written, located by a slice. */
  lemma {:induction false} GetIntAt(s: seq<byte>, p: nat, v: int)
    requires p + 4 <= |s| && s[p..p + 4] == IntBytes(v)
    ensures GetInt(s, p) == ToI32(ToU32(v))
  {
    GetIntBytes(v, s[..p], s[p + 4..]);
    assert s == s[..p] + IntBytes(v) + s[p + 4..];
  }

  /** `DataOutputStream.writeShort`: the low 16 bits, most significant byte first. */
  function ShortBytes(v: int): (r: seq<byte>)
    ensures |r| == 2
  {
    var u := v % 0x1_0000;
    [u / 0x100, u % 0x100]
  }
}
