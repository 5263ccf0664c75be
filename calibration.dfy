/** The trimming-parameter decoder: 33 calibration bytes read from the chip
    become the 18 compensation coefficients dig_T1..dig_H6. */
module Calibration {
  import opened FixedPoint

  /** Number of calibration bytes the driver keeps. */
  const CALIB_SIZE: nat := 33

  // Byte offset of each coefficient in the calibration buffer. Offset 24
  // belongs to no coefficient; dig_H4 and dig_H5 share offset 30.
  const OFF_T1: nat := 0
  const OFF_T2: nat := 2
  const OFF_T3: nat := 4
  const OFF_P1: nat := 6
  const OFF_P2: nat := 8
  const OFF_P3: nat := 10
  const OFF_P4: nat := 12
  const OFF_P5: nat := 14
  const OFF_P6: nat := 16
  const OFF_P7: nat := 18
  const OFF_P8: nat := 20
  const OFF_P9: nat := 22
  const OFF_H1: nat := 25
  const OFF_H2: nat := 26
  const OFF_H3: nat := 28
  const OFF_H4: nat := 29
  const OFF_H5: nat := 30
  const OFF_H6: nat := 32

  /** A 12-bit humidity field; the driver applies no sign extension. */
  type U12 = x: int | 0 <= x < 0x1000

  datatype Coefficients = Coefficients(
    T1: U16, T2: S16, T3: S16,
    P1: U16, P2: S16, P3: S16, P4: S16, P5: S16, P6: S16, P7: S16, P8: S16, P9: S16,
    H1: U8, H2: S16, H3: U8, H4: U12, H5: U12, H6: S8)

  /** Unsigned little-endian 16-bit value: low byte r0, high byte r1. */
  function U16LE(r0: bv8, r1: bv8): (r: U16)
    ensures r == r1 as int * 256 + r0 as int
  {
    (((r1 as bv16) << 8) | (r0 as bv16)) as int
  }

  /** The value of the 16-bit word with high byte h and low byte l read as
      two's complement. */
  function SignedOf(h: int, l: int): int {
    h * 256 + l - (if h >= 0x80 then TWO_16 else 0)
  }

  /** The same 16-bit pattern stored into an Int16: two's complement. */
  function S16LE(r0: bv8, r1: bv8): (r: S16)
    ensures r == SignedOf(r1 as int, r0 as int)
    ensures r < 0 <==> r1 >= 0x80
  {
    var w := U16LE(r0, r1);
    ByteSign(r1);
    if w >= TWO_15 then w - TWO_16 else w
  }

  /** dig_H4: byte e4 shifted up by four, ORed with the low nibble of e5. */
  function SplitH4(e4: bv8, e5: bv8): (r: U12)
    ensures r == e4 as int * 16 + e5 as int % 16
  {
    (((e4 as bv16) << 4) | ((e5 & 0x0F) as bv16)) as int
  }

  /** dig_H5: byte e6 shifted up by four, ORed with the high nibble of e5. */
  function SplitH5(e5: bv8, e6: bv8): (r: U12)
    ensures r == e6 as int * 16 + e5 as int / 16
  {
    (((e6 as bv16) << 4) | ((e5 >> 4) as bv16)) as int
  }

  /** An unsigned byte coefficient (dig_H1, dig_H3): the read loses
      nothing, and unlike AsS8 no sign extension takes place. */
  function AsU8(b: bv8): (r: U8)
    ensures r == b as int
    ensures ToByte(r) == b
    ensures r >= 0x80 <==> b >= 0x80
  {
    ByteValues(ToByte(b as int), b);
    ByteSign(b);
    b as int
  }

  /** A signed byte coefficient (dig_H6): the byte read as two's complement,
      i.e. the Int8 whose 8-bit pattern is the byte, negative exactly when
      the top bit is set. */
  function AsS8(b: bv8): (r: S8)
    ensures r % 0x100 == b as int
    ensures ToByte(r % 0x100) == b
    ensures r < 0 <==> b >= 0x80
  {
    ByteSign(b);
    var v := if b >= 0x80 then b as int - 0x100 else b as int;
    assert v % 0x100 == b as int;
    ByteValues(ToByte(v % 0x100), b);
    v
  }

  /** The unsigned little-endian 16-bit word at offset o of the buffer. */
  function WordAt(cal: seq<bv8>, o: nat): int
    requires o + 1 < |cal|
  {
    cal[o + 1] as int * 256 + cal[o] as int
  }

  /** The same word read as two's complement. */
  function SignedWordAt(cal: seq<bv8>, o: nat): int
    requires o + 1 < |cal|
  {
    SignedOf(cal[o + 1] as int, cal[o] as int)
  }

  /** The coefficients the calibration buffer holds, read at the fixed
      offsets with each coefficient's width and signedness: the unsigned
      words are the little-endian words at their offsets, the signed words
      those words read as two's complement, and dig_H4 / dig_H5 take
      the low / high nibble of the shared byte at offset 30. */
  function Decode(cal: seq<bv8>): (r: Coefficients)
    requires |cal| == CALIB_SIZE
    ensures r.T1 == WordAt(cal, OFF_T1) && r.P1 == WordAt(cal, OFF_P1)
    ensures r.T2 == SignedWordAt(cal, OFF_T2) && r.T3 == SignedWordAt(cal, OFF_T3)
    ensures r.P2 == SignedWordAt(cal, OFF_P2) && r.P3 == SignedWordAt(cal, OFF_P3)
    ensures r.P4 == SignedWordAt(cal, OFF_P4) && r.P5 == SignedWordAt(cal, OFF_P5)
    ensures r.P6 == SignedWordAt(cal, OFF_P6) && r.P7 == SignedWordAt(cal, OFF_P7)
    ensures r.P8 == SignedWordAt(cal, OFF_P8) && r.P9 == SignedWordAt(cal, OFF_P9)
    ensures r.H2 == SignedWordAt(cal, OFF_H2)
    ensures r.H1 == cal[OFF_H1] as int && r.H3 == cal[OFF_H3] as int
    ensures r.H4 == cal[OFF_H4] as int * 16 + cal[30] as int % 16
    ensures r.H5 == cal[OFF_H5 + 1] as int * 16 + cal[30] as int / 16
    ensures r.H6 % 0x100 == cal[OFF_H6] as int
  {
    Coefficients(
      T1 := U16LE(cal[OFF_T1], cal[OFF_T1 + 1]),
      T2 := S16LE(cal[OFF_T2], cal[OFF_T2 + 1]),
      T3 := S16LE(cal[OFF_T3], cal[OFF_T3 + 1]),
      P1 := U16LE(cal[OFF_P1], cal[OFF_P1 + 1]),
      P2 := S16LE(cal[OFF_P2], cal[OFF_P2 + 1]),
      P3 := S16LE(cal[OFF_P3], cal[OFF_P3 + 1]),
      P4 := S16LE(cal[OFF_P4], cal[OFF_P4 + 1]),
      P5 := S16LE(cal[OFF_P5], cal[OFF_P5 + 1]),
      P6 := S16LE(cal[OFF_P6], cal[OFF_P6 + 1]),
      P7 := S16LE(cal[OFF_P7], cal[OFF_P7 + 1]),
      P8 := S16LE(cal[OFF_P8], cal[OFF_P8 + 1]),
      P9 := S16LE(cal[OFF_P9], cal[OFF_P9 + 1]),
      H1 := AsU8(cal[OFF_H1]),
      H2 := S16LE(cal[OFF_H2], cal[OFF_H2 + 1]),
      H3 := AsU8(cal[OFF_H3]),
      H4 := SplitH4(cal[OFF_H4], cal[OFF_H4 + 1]),
      H5 := SplitH5(cal[OFF_H5], cal[OFF_H5 + 1]),
      H6 := AsS8(cal[OFF_H6]))
  }

  // Encoders: the byte patterns the chip stores for given coefficient values.

  function LowByte(v: U16): bv8 {
    ToByte(v % 256)
  }

  function HighByte(v: U16): bv8 {
    ToByte(v / 256)
  }

  /** The 16-bit pattern of an Int16 value. */
  function Pattern16(v: S16): (w: U16)
    ensures w % TWO_16 == v % TWO_16
  {
    if v < 0 then v + TWO_16 else v
  }

  /** U16LE undoes the little-endian byte split of a 16-bit value. */
  lemma U16LEOfBytes(v: U16)
    ensures U16LE(LowByte(v), HighByte(v)) == v
  {
  }

  /** The little-endian byte split undoes U16LE: the low and high bytes of
      the value are r0 and r1. */
  lemma BytesOfU16LE(r0: bv8, r1: bv8)
    ensures U16LE(r0, r1) % 256 == r0 as int && U16LE(r0, r1) / 256 == r1 as int
  {
    DivModUnique(r1 as int, r0 as int, 256);
  }

  /** S16LE undoes the little-endian split of an Int16's bit pattern, and
      the bit pattern of S16LE's result is the bytes' unsigned value. */
  lemma S16LERoundTrip(v: S16, r0: bv8, r1: bv8)
    ensures S16LE(LowByte(Pattern16(v)), HighByte(Pattern16(v))) == v
    ensures Pattern16(S16LE(r0, r1)) == U16LE(r0, r1)
  {
    U16LEOfBytes(Pattern16(v));
  }

  /** The three bytes e4, e5, e6 the chip uses to store dig_H4 = h4 and
      dig_H5 = h5. */
  function SplitBytes(h4: U12, h5: U12): (bytes: (bv8, bv8, bv8)) {
    (ToByte(h4 / 16), ToByte((h5 % 16) * 16 + h4 % 16), ToByte(h5 / 16))
  }

  /** The split decoders undo SplitBytes. */
  lemma SplitOfBytes(h4: U12, h5: U12)
    ensures var (b4, b5, b6) := SplitBytes(h4, h5);
      SplitH4(b4, b5) == h4 && SplitH5(b5, b6) == h5
  {
    DivModUnique(h5 % 16, h4 % 16, 16);
  }

  /** SplitBytes undoes the split decoders: dig_H4 and dig_H5 together
      determine all three bytes e4, e5, e6. */
  lemma BytesOfSplit(e4: bv8, e5: bv8, e6: bv8)
    ensures SplitH4(e4, e5) / 16 == e4 as int
    ensures SplitH5(e5, e6) / 16 == e6 as int
    ensures (SplitH5(e5, e6) % 16) * 16 + SplitH4(e4, e5) % 16 == e5 as int
  {
    DivModUnique(e4 as int, e5 as int % 16, 16);
    DivModUnique(e6 as int, e5 as int / 16, 16);
  }

  /** The example bytes 0xAB, 0xCD, 0xEF give 0xABD and 0xEFC: the set high
      bits of e4 and e6 are not sign-extended. */
  lemma SplitExample()
    ensures SplitH4(0xAB, 0xCD) == 0xABD
    ensures SplitH5(0xCD, 0xEF) == 0xEFC
  {
  }

  /** dig_H4 and dig_H5 both take a nibble of offset 30: dig_H4 its low
      nibble, dig_H5 its high nibble. */
  lemma SharedOffset30(cal: seq<bv8>)
    requires |cal| == CALIB_SIZE
    ensures Decode(cal).H4 % 16 == cal[30] as int % 16
    ensures Decode(cal).H5 % 16 == cal[30] as int / 16
    ensures Decode(cal).H4 / 16 == cal[29] as int
    ensures Decode(cal).H5 / 16 == cal[31] as int
  {
    NibbleFields(cal[29] as int, cal[30] as int, cal[31] as int, Decode(cal).H4, Decode(cal).H5);
  }

  /** The nibble arithmetic of dig_H4 / dig_H5 on plain integers. */
  lemma NibbleFields(e4: int, e5: int, e6: int, h4: int, h5: int)
    requires 0 <= e4 < 0x100 && 0 <= e5 < 0x100 && 0 <= e6 < 0x100
    requires h4 == e4 * 16 + e5 % 16 && h5 == e6 * 16 + e5 / 16
    ensures h4 % 16 == e5 % 16 && h4 / 16 == e4
    ensures h5 % 16 == e5 / 16 && h5 / 16 == e6
  {
    DivModUnique(e4, e5 % 16, 16);
    DivModUnique(e6, e5 / 16, 16);
  }

  /** Offset 24 takes no part in decoding: buffers that differ only there
      decode alike, and dig_H6 depends on offset 32 alone. */
  lemma DecodeIgnoresOffset24(cal: seq<bv8>, other: seq<bv8>)
    requires |cal| == CALIB_SIZE && |other| == CALIB_SIZE
    requires forall i :: 0 <= i < CALIB_SIZE && i != 24 ==> cal[i] == other[i]
    ensures Decode(cal) == Decode(other)
    ensures Decode(cal).H6 == AsS8(cal[32])
  {
  }

  /** Every offset other than 24 is read: changing the byte at such an
      offset, and nothing else, changes the decoded coefficients. */
  lemma DecodeReadsOtherOffsets(cal: seq<bv8>, i: nat, x: bv8)
    requires |cal| == CALIB_SIZE
    requires i < CALIB_SIZE && i != 24 && x != cal[i]
    ensures Decode(cal[i := x]) != Decode(cal)
  {
    if i < 6 {
      DecodeReadsTemperatureWords(cal, i, x);
    } else if i < 14 {
      DecodeReadsPressureWordsLow(cal, i, x);
    } else if i < 24 {
      DecodeReadsPressureWordsHigh(cal, i, x);
    } else if i < OFF_H4 {
      DecodeReadsHumidityLow(cal, i, x);
    } else if i == 30 {
      DecodeReadsOffset30(cal, x);
    } else {
      DecodeReadsHumidityHigh(cal, i, x);
    }
  }

  /** A byte of dig_T1..dig_T3 is read. */
  lemma DecodeReadsTemperatureWords(cal: seq<bv8>, i: nat, x: bv8)
    requires |cal| == CALIB_SIZE
    requires 0 <= i < 6 && x != cal[i]
    ensures Decode(cal[i := x]) != Decode(cal)
  {
    var other := cal[i := x];
    if i == 0 || i == 1 {
      WordChanges(cal, other, 0);
      assert Decode(cal).T1 != Decode(other).T1;
    } else if i == 2 || i == 3 {
      WordChanges(cal, other, 2);
      assert Decode(cal).T2 != Decode(other).T2;
    } else {
      WordChanges(cal, other, 4);
      assert Decode(cal).T3 != Decode(other).T3;
    }
  }

  /** A byte of dig_P1..dig_P4 is read. */
  lemma DecodeReadsPressureWordsLow(cal: seq<bv8>, i: nat, x: bv8)
    requires |cal| == CALIB_SIZE
    requires 6 <= i < 14 && x != cal[i]
    ensures Decode(cal[i := x]) != Decode(cal)
  {
    var other := cal[i := x];
    if i == 6 || i == 7 {
      WordChanges(cal, other, 6);
      assert Decode(cal).P1 != Decode(other).P1;
    } else if i == 8 || i == 9 {
      WordChanges(cal, other, 8);
      assert Decode(cal).P2 != Decode(other).P2;
    } else if i == 10 || i == 11 {
      WordChanges(cal, other, 10);
      assert Decode(cal).P3 != Decode(other).P3;
    } else {
      WordChanges(cal, other, 12);
      assert Decode(cal).P4 != Decode(other).P4;
    }
  }

  /** A byte of dig_P5..dig_P9 is read. */
  lemma DecodeReadsPressureWordsHigh(cal: seq<bv8>, i: nat, x: bv8)
    requires |cal| == CALIB_SIZE
    requires 14 <= i < 24 && x != cal[i]
    ensures Decode(cal[i := x]) != Decode(cal)
  {
    var other := cal[i := x];
    if i == 14 || i == 15 {
      WordChanges(cal, other, 14);
      assert Decode(cal).P5 != Decode(other).P5;
    } else if i == 16 || i == 17 {
      WordChanges(cal, other, 16);
      assert Decode(cal).P6 != Decode(other).P6;
    } else if i == 18 || i == 19 {
      WordChanges(cal, other, 18);
      assert Decode(cal).P7 != Decode(other).P7;
    } else if i == 20 || i == 21 {
      WordChanges(cal, other, 20);
      assert Decode(cal).P8 != Decode(other).P8;
    } else {
      WordChanges(cal, other, 22);
      assert Decode(cal).P9 != Decode(other).P9;
    }
  }

  /** A byte of dig_H1..dig_H3 is read. */
  lemma DecodeReadsHumidityLow(cal: seq<bv8>, i: nat, x: bv8)
    requires |cal| == CALIB_SIZE
    requires 24 < i < OFF_H4 && x != cal[i]
    ensures Decode(cal[i := x]) != Decode(cal)
  {
    var other := cal[i := x];
    ByteValues(x, cal[i]);
    if i == 25 {
      assert Decode(cal).H1 != Decode(other).H1;
    } else if i == 28 {
      assert Decode(cal).H3 != Decode(other).H3;
    } else {
      WordChanges(cal, other, 26);
      assert Decode(cal).H2 != Decode(other).H2;
    }
  }

  /** A byte of dig_H4..dig_H6 other than the shared offset 30 is read. */
  lemma DecodeReadsHumidityHigh(cal: seq<bv8>, i: nat, x: bv8)
    requires |cal| == CALIB_SIZE
    requires OFF_H4 <= i < CALIB_SIZE && i != 30 && x != cal[i]
    ensures Decode(cal[i := x]) != Decode(cal)
  {
    var other := cal[i := x];
    ByteValues(x, cal[i]);
    if i == 29 {
      assert Decode(cal).H4 != Decode(other).H4;
    } else if i == 31 {
      assert Decode(cal).H5 != Decode(other).H5;
    } else {
      assert Decode(cal).H6 != Decode(other).H6;
    }
  }

  /** The shared offset 30 is read, through the nibble of dig_H4 or dig_H5
      that changed. */
  lemma DecodeReadsOffset30(cal: seq<bv8>, x: bv8)
    requires |cal| == CALIB_SIZE && x != cal[30]
    ensures Decode(cal[30 := x]) != Decode(cal)
  {
    var other := cal[30 := x];
    ByteValues(x, cal[30]);
    NibblesDiffer(cal[30] as int, x as int);
    assert Decode(other).H4 == cal[29] as int * 16 + x as int % 16;
    assert Decode(other).H5 == cal[31] as int * 16 + x as int / 16;
  }

  /** Two different bytes differ in their low or their high nibble. */
  lemma NibblesDiffer(a: int, b: int)
    requires 0 <= a < 0x100 && 0 <= b < 0x100 && a != b
    ensures a % 16 != b % 16 || a / 16 != b / 16
  {
    assert a == (a / 16) * 16 + a % 16 && b == (b / 16) * 16 + b % 16;
  }

  /** Words whose bytes differ are different words, also when read as
      two's complement. */
  lemma WordChanges(cal: seq<bv8>, other: seq<bv8>, o: nat)
    requires o + 1 < |cal| && o + 1 < |other|
    requires cal[o] != other[o] || cal[o + 1] != other[o + 1]
    ensures WordAt(cal, o) != WordAt(other, o)
    ensures SignedWordAt(cal, o) != SignedWordAt(other, o)
  {
    var h1, l1, h2, l2 := cal[o + 1] as int, cal[o] as int, other[o + 1] as int, other[o] as int;
    ByteValues(cal[o], other[o]);
    ByteValues(cal[o + 1], other[o + 1]);
    PairDiffers(h1, l1, h2, l2);
  }

  /** The base-256 value of a pair of digits determines the pair. */
  lemma PairDiffers(h1: int, l1: int, h2: int, l2: int)
    requires 0 <= h1 < 0x100 && 0 <= l1 < 0x100 && 0 <= h2 < 0x100 && 0 <= l2 < 0x100
    requires h1 != h2 || l1 != l2
    ensures h1 * 256 + l1 != h2 * 256 + l2
    ensures SignedOf(h1, l1) != SignedOf(h2, l2)
  {
    DivModUnique(h1, l1, 256);
    DivModUnique(h2, l2, 256);
  }

  /** The sign bit of a byte, read on the byte or on its value. */
  lemma ByteSign(b: bv8)
    ensures b >= 0x80 <==> b as int >= 0x80
  {
  }

  /** Different bytes have different values. */
  lemma ByteValues(a: bv8, b: bv8)
    ensures a != b ==> a as int != b as int
  {
  }
}
