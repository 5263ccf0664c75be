/** C integer semantics used by the driver's fixed-point arithmetic.

    Dafny integers are unbounded; the driver computes with 32- and 64-bit
    two's-complement integers. Each operation of the source that can leave its
    type's range is written here through Wrap32 / Wrap64 (the wrap-around the
    target compiler produces), each signed `>>` through Asr (an arithmetic
    shift, i.e. floor division by a power of two), and the C `/` through
    TruncDiv (truncation toward zero). */
module FixedPoint {

  const TWO_15: int := 0x8000
  const TWO_16: int := 0x1_0000
  const TWO_31: int := 0x8000_0000
  const TWO_32: int := 0x1_0000_0000
  const TWO_63: int := 0x8000_0000_0000_0000
  const TWO_64: int := 0x1_0000_0000_0000_0000

  type U8 = x: int | 0 <= x < 0x100
  type S8 = x: int | -0x80 <= x < 0x80
  type U16 = x: int | 0 <= x < 0x1_0000
  type S16 = x: int | -0x8000 <= x < 0x8000
  type U32 = x: int | 0 <= x < 0x1_0000_0000
  type I32 = x: int | -0x8000_0000 <= x < 0x8000_0000
  type I64 = x: int | -0x8000_0000_0000_0000 <= x < 0x8000_0000_0000_0000

  /** The Int32 value with the same low 32 bits as x. */
  function Wrap32(x: int): (r: I32)
    ensures (r - x) % TWO_32 == 0
    ensures -TWO_31 <= x < TWO_31 ==> r == x
  {
    (x + TWO_31) % TWO_32 - TWO_31
  }

  /** The Int64 value with the same low 64 bits as x. */
  function Wrap64(x: int): (r: I64)
    ensures (r - x) % TWO_64 == 0
    ensures -TWO_63 <= x < TWO_63 ==> r == x
  {
    (x + TWO_63) % TWO_64 - TWO_63
  }

  /** Arithmetic right shift by the shift whose power of two is `scale`:
      the largest integer not above x / scale. */
  function Asr(x: int, scale: int): (r: int)
    requires scale > 0
    ensures r * scale <= x < r * scale + scale
  {
    x / scale
  }

  /** C division: the quotient truncated toward zero. */
  function TruncDiv(a: int, b: int): (q: int)
    requires b != 0
    ensures (a >= 0) == (b > 0) ==> q >= 0
    ensures (a >= 0) != (b > 0) ==> q <= 0
    ensures Abs(q) * Abs(b) <= Abs(a) < Abs(q) * Abs(b) + Abs(b)
  {
    var q0 := Abs(a) / Abs(b);
    FloorDivBounds(Abs(a), Abs(b));
    if (a >= 0) == (b > 0) then q0 else -q0
  }

  /** The quotient of a natural number by a positive one, times the
      divisor, lies within one divisor below the dividend. */
  lemma FloorDivBounds(x: nat, y: int)
    requires y > 0
    ensures 0 <= x / y && (x / y) * y <= x < (x / y) * y + y
  {
    assert (x / y) * y + x % y == x;
  }

  function Abs(x: int): (r: nat)
    ensures r == x || r == -x
  {
    if x < 0 then -x else x
  }

  /** The C conversion of a signed value to Uint32. */
  function ToU32(x: int): (r: U32)
    ensures (r - x) % TWO_32 == 0
    ensures 0 <= x < TWO_32 ==> r == x
  {
    x % TWO_32
  }

  lemma MulAtLeastBase(k: int, base: int)
    requires base > 0 && k >= 1
    ensures k * base >= base
  {
  }

  /** Division and remainder by a positive base split hi * base + lo back
      into hi and lo. */
  lemma DivModUnique(hi: int, lo: int, base: int)
    requires base > 0 && 0 <= lo < base
    ensures (hi * base + lo) / base == hi && (hi * base + lo) % base == lo
  {
    var a := hi * base + lo;
    var q, r := a / base, a % base;
    assert (q - hi) * base == lo - r;
    if q > hi {
      MulAtLeastBase(q - hi, base);
    } else if q < hi {
      MulAtLeastBase(hi - q, base);
    }
  }

  /** The byte whose value is n, built one bit at a time from the top. */
  function ToByte(n: int): (b: bv8)
    requires 0 <= n < 0x100
    ensures b as int == n
    decreases n
  {
    if n == 0 then 0
    else
      ShiftIn(ToByte(n / 2), n % 2 == 1);
      (ToByte(n / 2) << 1) | (if n % 2 == 1 then 1 else 0)
  }

  /** Shifting a bit in at the bottom of a byte below 0x80 doubles its
      value and adds the bit. */
  lemma ShiftIn(x: bv8, bit: bool)
    requires x as int < 0x80
    ensures ((x << 1) | (if bit then 1 else 0)) as int == 2 * (x as int) + (if bit then 1 else 0)
  {
  }
}
