/** Packing of measurement bytes into raw ADC values: the 16-bit and 20-bit
    big-endian register reads and the fan-out of the 8-byte burst. */
module RawReader {
  import opened FixedPoint
  import opened Registers

  /** Number of bytes of the measurement burst (0xF7..0xFE). */
  const BURST_SIZE: nat := 8

  /** Two bytes read big-endian: MSB first. */
  function BigEndian16(msb: bv8, lsb: bv8): (r: U16)
    ensures r == msb as int * 256 + lsb as int
  {
    (((msb as bv16) << 8) | (lsb as bv16)) as int
  }

  /** A 20-bit value left-justified across MSB, LSB, XLSB: the top 20 of the
      24 bits; the low nibble of XLSB is dropped. */
  function Word20(msb: bv8, lsb: bv8, xlsb: bv8): (r: U32)
    ensures r == msb as int * 4096 + lsb as int * 16 + xlsb as int / 16
    ensures r < 0x10_0000
  {
    (((msb as bv32) << 12) | ((lsb as bv32) << 4) | ((xlsb as bv32) >> 4)) as int
  }

  /** The raw record filled from one burst read starting at REG_PRESSURE.
      The fan-out packs each field exactly as the single-register reads do:
      pressure and temperature as Word20 of bytes 0-2 and 3-5, humidity as
      BigEndian16 of bytes 6-7, which are the offsets of PRES_MSB..HUM_LSB
      from REG_PRESSURE. */
  function FanOut(burst: seq<bv8>): (r: RawData)
    requires |burst| == BURST_SIZE
    ensures r.pressure
      == Word20(burst[REG_PRES_MSB - REG_PRESSURE], burst[REG_PRES_LSB - REG_PRESSURE], burst[REG_PRES_XLSB - REG_PRESSURE])
    ensures r.temperature
      == Word20(burst[REG_TEMP_MSB - REG_PRESSURE], burst[REG_TEMP_LSB - REG_PRESSURE], burst[REG_TEMP_XLSB - REG_PRESSURE])
    ensures r.humidity
      == BigEndian16(burst[REG_HUM_MSB - REG_PRESSURE], burst[REG_HUM_LSB - REG_PRESSURE])
  {
    RawData(
      humidity := (((burst[6] as bv16) << 8) | (burst[7] as bv16)) as int,
      temperature := (((burst[3] as bv32) << 12) | ((burst[4] as bv32) << 4) | ((burst[5] as bv32) >> 4)) as int,
      pressure := (((burst[0] as bv32) << 12) | ((burst[1] as bv32) << 4) | ((burst[2] as bv32) >> 4)) as int)
  }

  /** The values the burst stands for: pressure and temperature are the
      top 20 bits of their three bytes, so they fill only 20 bits of their
      32-bit containers, and humidity is the big-endian 16-bit word. */
  lemma FanOutValues(burst: seq<bv8>)
    requires |burst| == BURST_SIZE
    ensures FanOut(burst).pressure == burst[0] as int * 4096 + burst[1] as int * 16 + burst[2] as int / 16
    ensures FanOut(burst).temperature == burst[3] as int * 4096 + burst[4] as int * 16 + burst[5] as int / 16
    ensures FanOut(burst).humidity == burst[6] as int * 256 + burst[7] as int
    ensures FanOut(burst).pressure < 0x10_0000 && FanOut(burst).temperature < 0x10_0000
  {
  }

  /** Word20 keeps exactly MSB, LSB and the high nibble of XLSB: two
      triples give the same value if and only if they agree on those. */
  lemma Word20Injective(a0: bv8, a1: bv8, a2: bv8, b0: bv8, b1: bv8, b2: bv8)
    ensures Word20(a0, a1, a2) == Word20(b0, b1, b2)
      <==> a0 as int == b0 as int && a1 as int == b1 as int && a2 as int / 16 == b2 as int / 16
  {
    Pack20Injective(a0 as int, a1 as int, a2 as int / 16, b0 as int, b1 as int, b2 as int / 16);
  }

  /** hi * 4096 + mid * 16 + lo, with a byte mid and a nibble lo, determines
      hi, mid and lo. */
  lemma Pack20Injective(hi: int, mid: int, lo: int, hi': int, mid': int, lo': int)
    requires 0 <= mid < 256 && 0 <= lo < 16 && 0 <= mid' < 256 && 0 <= lo' < 16
    ensures hi * 4096 + mid * 16 + lo == hi' * 4096 + mid' * 16 + lo'
      <==> hi == hi' && mid == mid' && lo == lo'
  {
    DivModUnique(hi, mid * 16 + lo, 4096);
    DivModUnique(mid, lo, 16);
    DivModUnique(hi', mid' * 16 + lo', 4096);
    DivModUnique(mid', lo', 16);
  }

  /** BigEndian16 loses nothing: the value gives back both bytes. */
  lemma BigEndian16Bytes(msb: bv8, lsb: bv8)
    ensures BigEndian16(msb, lsb) / 256 == msb as int
    ensures BigEndian16(msb, lsb) % 256 == lsb as int
  {
    DivModUnique(msb as int, lsb as int, 256);
  }

  /** Per field: two bursts give the same pressure, temperature or humidity
      if and only if they agree on the bytes that field keeps. */
  lemma FanOutFieldsInjective(a: seq<bv8>, b: seq<bv8>)
    requires |a| == BURST_SIZE && |b| == BURST_SIZE
    ensures FanOut(a).pressure == FanOut(b).pressure
      <==> a[0] as int == b[0] as int && a[1] as int == b[1] as int && a[2] as int / 16 == b[2] as int / 16
    ensures FanOut(a).temperature == FanOut(b).temperature
      <==> a[3] as int == b[3] as int && a[4] as int == b[4] as int && a[5] as int / 16 == b[5] as int / 16
    ensures FanOut(a).humidity == FanOut(b).humidity
      <==> a[6] as int == b[6] as int && a[7] as int == b[7] as int
  {
    Word20Injective(a[0], a[1], a[2], b[0], b[1], b[2]);
    Word20Injective(a[3], a[4], a[5], b[3], b[4], b[5]);
    BigEndian16Bytes(a[6], a[7]);
    BigEndian16Bytes(b[6], b[7]);
  }

  /** Two bursts fan out to the same record if and only if they agree on
      every byte except the low nibbles of bytes 2 and 5. */
  lemma FanOutInjective(a: seq<bv8>, b: seq<bv8>)
    requires |a| == BURST_SIZE && |b| == BURST_SIZE
    ensures FanOut(a) == FanOut(b) <==>
      (forall i :: 0 <= i < BURST_SIZE && i != 2 && i != 5 ==> a[i] as int == b[i] as int)
      && a[2] as int / 16 == b[2] as int / 16 && a[5] as int / 16 == b[5] as int / 16
  {
    FanOutFieldsInjective(a, b);
  }
}
