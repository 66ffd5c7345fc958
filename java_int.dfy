/** Java's integral types, as the driver uses them.

    A Java `byte`, `short` or `int` is modelled by its two's-complement bit
    pattern (`bv8`, `bv16`, `bv32`), so that `|`, `&`, `<<` and `>>` act on
    the bits as they do in Java.  `ByteValue`, `ShortValue` and `IntValue`
    give the signed number a pattern denotes, and each conversion and shift
    is specified by what it does to that number (sections 5.1.2, 5.1.3 and
    15.19 of the Java Language Specification).
 */
module JavaInt {

  /** The values of Java's `byte` and `short`. */
  type Byte = x: int | -0x80 <= x < 0x80
  type Short = x: int | -0x8000 <= x < 0x8000

  /** The signed number denoted by a `byte` bit pattern. */
  function ByteValue(b: bv8): (v: Byte)
  {
    if b < 0x80 then b as int else b as int - 0x100
  }

  /** The signed number denoted by a `short` bit pattern. */
  function ShortValue(s: bv16): (v: Short)
  {
    if s < 0x8000 then s as int else s as int - 0x1_0000
  }

  /** The four bytes of an `int` pattern, least significant first. */
  function Byte0(x: bv32): (b: bv8) { (x & 0xFF) as bv8 }
  function Byte1(x: bv32): (b: bv8) { ((x >> 8) & 0xFF) as bv8 }
  function Byte2(x: bv32): (b: bv8) { ((x >> 16) & 0xFF) as bv8 }
  function Byte3(x: bv32): (b: bv8) { (x >> 24) as bv8 }

  /** The signed number denoted by an `int` bit pattern: the top byte
      counts as signed, the three below it as unsigned. */
  function IntValue(x: bv32): (v: int)
  {
    JoinValue(Byte3(x), Byte2(x), Byte1(x), Byte0(x))
  }

  /** The number of the `int` whose bytes are b3 (most significant) to b0. */
  function JoinValue(b3: bv8, b2: bv8, b1: bv8, b0: bv8): (v: int)
  {
    ByteValue(b3) * 0x100_0000 + b2 as int * 0x1_0000 + b1 as int * 0x100 + b0 as int
  }

  /** 2 to the power n. */
  function Pow2(n: nat): (p: nat)
    ensures p > 0
  {
    if n == 0 then 1 else 2 * Pow2(n - 1)
  }

  /** Widening conversion `byte` to `int`: bit 7 is copied into bits 31..8,
      so the number is kept. */
  function Widen(b: bv8): (x: bv32)
    ensures IntValue(x) == ByteValue(b)
  {
    if b < 0x80 then b as bv32 else b as bv32 | 0xFFFF_FF00
  }

  /** Narrowing cast `(byte) x`: the low 8 bits, which keep the number
      whenever it fits in a `byte`. */
  function NarrowToByte(x: bv32): (b: bv8)
    ensures -0x80 <= IntValue(x) < 0x80 ==> ByteValue(b) == IntValue(x)
  {
    NarrowToByteValue(x);
    (x & 0xFF) as bv8
  }

  lemma NarrowToByteValue(x: bv32)
    ensures -0x80 <= IntValue(x) < 0x80 ==> ByteValue((x & 0xFF) as bv8) == IntValue(x)
  {
    SmallJoinByte(Byte3(x), Byte2(x), Byte1(x), Byte0(x));
  }

  /** Casting a widened `byte` back to `byte` gives the byte it came from. */
  lemma WidenNarrowRoundTrip(b: bv8)
    ensures NarrowToByte(Widen(b)) == b
  {
  }

  /** Narrowing cast `(short) x`: the low 16 bits, which keep the number
      whenever it fits in a `short`. */
  function NarrowToShort(x: bv32): (s: bv16)
    ensures -0x8000 <= IntValue(x) < 0x8000 ==> ShortValue(s) == IntValue(x)
  {
    NarrowToShortValue(x);
    (x & 0xFFFF) as bv16
  }

  lemma NarrowToShortValue(x: bv32)
    ensures -0x8000 <= IntValue(x) < 0x8000 ==> ShortValue((x & 0xFFFF) as bv16) == IntValue(x)
  {
    LowHalfValue(x);
    SmallJoinShort(Byte3(x), Byte2(x), Byte1(x), Byte0(x));
  }

  /** Helper: a byte read as unsigned lies in [0, 255], and is below 0x80
      exactly when its pattern is. */
  lemma UnsignedByte(b: bv8)
    ensures 0 <= b as int < 0x100
    ensures (b < 0x80) == (b as int < 0x80)
  {
  }

  /** Helper: the low half of an `int` pattern, read as unsigned and as
      signed, through its two low bytes. */
  lemma LowHalfValue(x: bv32)
    ensures ((x & 0xFFFF) as bv16) as int == Byte1(x) as int * 0x100 + Byte0(x) as int
    ensures (((x & 0xFFFF) as bv16) < 0x8000) == (Byte1(x) < 0x80)
  {
    LowHalfBytes(x);
    JoinBytes(Byte1(x), Byte0(x));
  }

  /** Helper: the low half of an `int` pattern is its two low bytes. */
  lemma LowHalfBytes(x: bv32)
    ensures (x & 0xFFFF) as bv16 == ((Byte1(x) as bv16) << 8) | (Byte0(x) as bv16)
  {
  }

  /** Helper: the number of a `short` pattern made of two bytes. */
  lemma JoinBytes(hi: bv8, lo: bv8)
    ensures (((hi as bv16) << 8) | (lo as bv16)) as int == hi as int * 0x100 + lo as int
    ensures ((((hi as bv16) << 8) | (lo as bv16)) < 0x8000) == (hi < 0x80)
  {
  }

  /** Helper: an `int` whose number fits in a `byte` has that number in its
      low byte. */
  lemma SmallJoinByte(b3: bv8, b2: bv8, b1: bv8, b0: bv8)
    ensures -0x80 <= JoinValue(b3, b2, b1, b0) < 0x80 ==> ByteValue(b0) == JoinValue(b3, b2, b1, b0)
  {
    if -0x80 <= JoinValue(b3, b2, b1, b0) < 0x80 {
      UnsignedByte(b2);
      UnsignedByte(b1);
      UnsignedByte(b0);
      SmallJoin(ByteValue(b3), b2 as int, b1 as int, b0 as int, 0x80);
    }
  }

  /** Helper: an `int` whose number fits in a `short` has that number in its
      two low bytes. */
  lemma SmallJoinShort(b3: bv8, b2: bv8, b1: bv8, b0: bv8)
    ensures -0x8000 <= JoinValue(b3, b2, b1, b0) < 0x8000 ==>
              JoinValue(b3, b2, b1, b0) == b1 as int * 0x100 + b0 as int - (if b1 < 0x80 then 0 else 0x1_0000)
  {
    if -0x8000 <= JoinValue(b3, b2, b1, b0) < 0x8000 {
      UnsignedByte(b2);
      UnsignedByte(b1);
      UnsignedByte(b0);
      SmallJoin(ByteValue(b3), b2 as int, b1 as int, b0 as int, 0x8000);
    }
  }

  /** Helper: a value t * 2^24 + u2 * 2^16 + u1 * 2^8 + u0, with t a signed
      byte and u2, u1, u0 unsigned ones, lies in [-h, h) for h = 2^7 or 2^15
      only when its top parts are all zeros or all ones. */
  lemma SmallJoin(t: int, u2: int, u1: int, u0: int, h: int)
    requires -0x80 <= t < 0x80 && 0 <= u2 < 0x100 && 0 <= u1 < 0x100 && 0 <= u0 < 0x100
    requires h == 0x80 || h == 0x8000
    requires -h <= t * 0x100_0000 + u2 * 0x1_0000 + u1 * 0x100 + u0 < h
    ensures (t == 0 && u2 == 0 && u1 * 0x100 + u0 < h) || (t == -1 && u2 == 0xFF && u1 * 0x100 + u0 >= 0x1_0000 - h)
  {
  }

  /** Java's `x >> 1` on an `int`: bit 31 is copied into bit 30. */
  function ShiftRightOne(x: bv32): (r: bv32)
  {
    (x >> 1) | (x & 0x8000_0000)
  }

  /** Java's `x >> n` on an `int`, for a distance below 32: the one-bit
      shift applied n times.  The number is divided by 2^n, rounding towards
      minus infinity (on a positive divisor Dafny's `/` rounds down). */
  function ShiftRight(x: bv32, n: nat): (r: bv32)
    requires n < 32
    ensures IntValue(r) == IntValue(x) / Pow2(n)
  {
    if n == 0 then x
    else
      var y := ShiftRight(x, n - 1);
      ShiftRightOneValue(y);
      HalveQuotient(IntValue(x), Pow2(n - 1));
      ShiftRightOne(y)
  }

  /** The one-bit shift halves the number, rounding down. */
  lemma ShiftRightOneValue(x: bv32)
    ensures IntValue(ShiftRightOne(x)) == IntValue(x) / 2
  {
    ShiftRightOneBytes(x);
    HalfByte(Byte0(x), Byte1(x));
    HalfByte(Byte1(x), Byte2(x));
    HalfByte(Byte2(x), Byte3(x));
    HalfTopByte(Byte3(x));
  }

  /** Helper: each byte of the shifted pattern takes the low bit of the byte
      above it; the top byte keeps its sign bit. */
  lemma ShiftRightOneBytes(x: bv32)
    ensures Byte0(ShiftRightOne(x)) == (Byte0(x) >> 1) | ((Byte1(x) & 1) << 7)
    ensures Byte1(ShiftRightOne(x)) == (Byte1(x) >> 1) | ((Byte2(x) & 1) << 7)
    ensures Byte2(ShiftRightOne(x)) == (Byte2(x) >> 1) | ((Byte3(x) & 1) << 7)
    ensures Byte3(ShiftRightOne(x)) == (Byte3(x) >> 1) | (Byte3(x) & 0x80)
  {
  }

  /** Helper: the value of a shifted byte that takes in a neighbour's bit. */
  lemma HalfByte(b: bv8, c: bv8)
    ensures ((b >> 1) | ((c & 1) << 7)) as int == b as int / 2 + (c as int % 2) * 0x80
  {
    HalfLow(b);
    LowBit(c);
    JoinHigh(b >> 1, c & 1);
  }

  /** Helper: a logical one-bit shift of a byte halves it. */
  lemma HalfLow(b: bv8)
    ensures (b >> 1) as int == b as int / 2
  {
  }

  /** Helper: bit 0 of a byte is its parity. */
  lemma LowBit(b: bv8)
    ensures b as int % 2 == (b & 1) as int
  {
  }

  /** Helper: setting bit 7 of a byte below 0x80 adds 0x80. */
  lemma JoinHigh(b: bv8, c: bv8)
    requires b < 0x80 && c <= 1
    ensures (b | (c << 7)) as int == b as int + c as int * 0x80
  {
  }

  /** Helper: the shift of the signed top byte halves it, rounding down. */
  lemma HalfTopByte(b: bv8)
    ensures ByteValue((b >> 1) | (b & 0x80)) == ByteValue(b) / 2
    ensures ByteValue(b) % 2 == b as int % 2
  {
    HalfLow(b);
    UnsignedByte(b);
    if b < 0x80 {
      assert (b >> 1) | (b & 0x80) == b >> 1;
    } else {
      assert (b >> 1) | (b & 0x80) == (b >> 1) | (1 << 7);
      JoinHigh(b >> 1, 1);
      assert (b as int - 0x100) / 2 == b as int / 2 - 0x80;
    }
  }

  /** Helper: halving a quotient is dividing by twice the divisor. */
  lemma HalveQuotient(a: int, p: int)
    requires p > 0
    ensures a / p / 2 == a / (2 * p)
  {
    var q := a / p / 2;
    var r := a / p % 2;
    var s := a % p;
    assert a == (2 * q + r) * p + s;
    assert a == q * (2 * p) + (r * p + s);
    assert 0 <= r * p + s < 2 * p;
    DivUnique(a, 2 * p, q, r * p + s);
  }

  /** Helper: a positive multiple of d is at least d. */
  lemma MulAtLeast(k: int, d: int)
    requires k >= 1 && d > 0
    ensures k * d >= d
  {
    assert k * d == (k - 1) * d + d;
    assert (k - 1) * d >= 0;
  }

  /** Helper: the quotient is the only q with a remainder in [0, d). */
  lemma DivUnique(a: int, d: int, q: int, r: int)
    requires d > 0 && a == q * d + r && 0 <= r < d
    ensures a / d == q
  {
    var q' := a / d;
    var r' := a % d;
    var k := q - q';
    assert k * d == r' - r;
    if k > 0 {
      MulAtLeast(k, d);
    } else if k < 0 {
      MulAtLeast(-k, d);
    }
  }
}
