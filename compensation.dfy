/** The fixed-point compensation formulas of section 4.2.3 of the BME280
    datasheet, as the driver writes them: temperature in 0.01 degC with the
    carried intermediate t_fine, pressure in Pa as Q24.8 with 64-bit
    intermediates, humidity in %RH as Q22.10 with 32-bit intermediates.

    Every Int32 / Int64 operation of the driver that can overflow is wrapped
    explicitly (Wrap32 / Wrap64), every signed `>> k` is Asr(_, 2^k), every
    `<< k` is a multiplication by 2^k followed by the wrap. */
module Compensation {
  import opened FixedPoint
  import opened Registers
  import opened Calibration

  const TWO_12: int := 0x1000
  const TWO_17: int := 0x2_0000
  const TWO_25: int := 0x200_0000
  const TWO_33: int := 0x2_0000_0000
  const TWO_47: int := 0x8000_0000_0000

  /** Upper clamp bound of the humidity intermediate: 100 %RH in Q22.10,
      shifted up by 12. */
  const HUMIDITY_MAX: int := 419430400

  /** The temperature output and the t_fine it leaves behind. */
  datatype Temperature = Temperature(centiCelsius: I32, tFine: I32)

  // ---------------------------------------------------------------- Temperature

  /** adc_T: the raw 32-bit field stored into an Int32. A 20-bit reading
      keeps its value; no sign extension takes place. */
  function AdcT(raw: RawData): (r: I32)
    ensures raw.temperature < TWO_31 ==> r == raw.temperature
  {
    Wrap32(raw.temperature)
  }

  /** var1 of the temperature formula: a wrapped Int32 shifted right by 11,
      so it fits in 21 signed bits. */
  function TemperatureVar1(raw: RawData, c: Coefficients): (r: I32)
    ensures -0x10_0000 <= r < 0x10_0000
  {
    Asr(Wrap32((Asr(AdcT(raw), 8) - c.T1 * 2) * c.T2), 2048)
  }

  /** var2 of the temperature formula: a wrapped Int32 shifted right by 14,
      so it fits in 18 signed bits. */
  function TemperatureVar2(raw: RawData, c: Coefficients): (r: I32)
    ensures -0x2_0000 <= r < 0x2_0000
  {
    var d := Asr(AdcT(raw), 16) - c.T1;
    Asr(Wrap32(Asr(Wrap32(d * d), TWO_12) * c.T3), 16384)
  }

  /** Temperature compensation: t_fine is var1 + var2, and the output is
      t_fine * 5 + 128 shifted right by 8, i.e. t_fine / 5120 degC in
      hundredths, rounded. The ranges of var1 and var2 keep both Int32
      steps free of wrap-around, for every input. */
  function CompensateTemperature(raw: RawData, c: Coefficients): (t: Temperature)
    ensures t.tFine == TemperatureVar1(raw, c) + TemperatureVar2(raw, c)
    ensures t.centiCelsius == (t.tFine * 5 + 128) / 256
    ensures -0x6000 < t.centiCelsius < 0x6000
  {
    var tFine := Wrap32(TemperatureVar1(raw, c) + TemperatureVar2(raw, c));
    Temperature(Asr(Wrap32(Wrap32(tFine * 5) + 128), 256), tFine)
  }

  /** A sample point: raw temperature 519888 with dig_T1 = 27504,
      dig_T2 = 26435, dig_T3 = -1000 gives t_fine 128422 and 25.08 degC. */
  lemma TemperatureSample(c: Coefficients)
    requires c.T1 == 27504 && c.T2 == 26435 && c.T3 == -1000
    ensures CompensateTemperature(RawData(0, 519888, 0), c) == Temperature(2508, 128422)
  {
    var raw := RawData(0, 519888, 0);
    assert TemperatureVar1(raw, c) == 128793;
    assert TemperatureVar2(raw, c) == -371;
  }

  // ------------------------------------------------------------------- Pressure

  /** adc_P: the raw 32-bit field stored into an Int32. A 20-bit reading
      keeps its value; no sign extension takes place. */
  function AdcP(raw: RawData): (r: I32)
    ensures raw.pressure < TWO_31 ==> r == raw.pressure
  {
    Wrap32(raw.pressure)
  }

  /** var2 of the pressure formula once its three updates are done. The
      third update adds the two terms dig_P3 >> 8 and (var1 * dig_P2) << 12
      where the datasheet adds the single term dig_P4 << 35, so dig_P4 takes
      no part. With the other coefficients zero, var2 is dig_P3 >> 8. */
  function PressureVar2(c: Coefficients, tFine: I32): (r: I64)
    ensures c.P2 == 0 && c.P5 == 0 && c.P6 == 0 ==> r == Asr(c.P3, 256)
  {
    var var1 := tFine - 128000;
    var v2 := Wrap64(Wrap64(var1 * var1) * c.P6);
    assert c.P6 == 0 ==> v2 == 0;
    var p5 := Wrap64(Wrap64(var1 * c.P5) * TWO_17);
    assert c.P5 == 0 ==> p5 == 0;
    var v2' := Wrap64(v2 + p5);
    var p2 := Wrap64(Wrap64(var1 * c.P2) * TWO_12);
    assert c.P2 == 0 ==> p2 == 0;
    Wrap64(Wrap64(v2' + Asr(c.P3, 256)) + p2)
  }

  /** var1 of the pressure formula when it is compared with zero: the
      divisor of the main division, a wrapped Int64 shifted right by 33.
      It is zero whenever dig_P1 is. */
  function PressureDivisor(c: Coefficients, tFine: I32): (r: I64)
    ensures c.P1 == 0 ==> r == 0
    ensures -0x4000_0000 <= r < 0x4000_0000
  {
    var var1 := tFine - 128000;
    var v1 := Wrap64(Asr(Wrap64(Wrap64(var1 * var1) * c.P3), 256) + Wrap64(Wrap64(var1 * c.P2) * TWO_12));
    Asr(Wrap64(Wrap64(TWO_47 + v1) * c.P1), TWO_33)
  }

  /** Pressure compensation. A zero divisor gives the defined output 0, and
      only a nonzero divisor reaches the division. */
  function CompensatePressure(raw: RawData, c: Coefficients, tFine: I32): (p: U32)
    ensures PressureDivisor(c, tFine) == 0 ==> p == 0
  {
    var var1 := PressureDivisor(c, tFine);
    if var1 == 0 then
      0
    else
      var p0 := Wrap32(1048576 - AdcP(raw));
      var p1 := Wrap64(TruncDiv(Wrap64(Wrap64(Wrap64(p0 * TWO_31) - PressureVar2(c, tFine)) * 3125), var1));
      var v1 := Asr(Wrap64(Wrap64(c.P9 * Asr(p1, 8192)) * Asr(p1, 8192)), TWO_25);
      var v2 := Asr(Wrap64(c.P8 * p1), 0x8_0000);
      var p2 := Wrap64(Asr(Wrap64(Wrap64(p1 + v1) + v2), 256) + c.P7 * 16);
      ToU32(p2)
  }

  /** dig_P4 is never used: pressure does not change with it. */
  lemma PressureIgnoresP4(raw: RawData, c: Coefficients, tFine: I32, p4: S16)
    ensures CompensatePressure(raw, c.(P4 := p4), tFine) == CompensatePressure(raw, c, tFine)
  {
    DivisorIgnoresP4(c, tFine, p4);
    Var2IgnoresP4(c, tFine, p4);
    var c' := c.(P4 := p4);
    assert c'.P7 == c.P7 && c'.P8 == c.P8 && c'.P9 == c.P9;
  }

  lemma DivisorIgnoresP4(c: Coefficients, tFine: I32, p4: S16)
    ensures PressureDivisor(c.(P4 := p4), tFine) == PressureDivisor(c, tFine)
  {
    var c' := c.(P4 := p4);
    assert c'.P1 == c.P1 && c'.P2 == c.P2 && c'.P3 == c.P3;
  }

  lemma Var2IgnoresP4(c: Coefficients, tFine: I32, p4: S16)
    ensures PressureVar2(c.(P4 := p4), tFine) == PressureVar2(c, tFine)
  {
    var c' := c.(P4 := p4);
    assert c'.P2 == c.P2 && c'.P3 == c.P3 && c'.P5 == c.P5 && c'.P6 == c.P6;
  }

  /** The datasheet's sample coefficients for pressure. */
  predicate PressureSampleCoefficients(c: Coefficients) {
    c.P1 == 36477 && c.P2 == -10685 && c.P3 == 3024 && c.P4 == 2855 && c.P5 == 140
    && c.P6 == -7 && c.P7 == 15500 && c.P8 == -14600 && c.P9 == 6000
  }

  /** A sample point: raw pressure 415148 at t_fine 128422 with the
      datasheet's sample coefficients gives 27788975 in Q24.8, about
      108551 Pa. The datasheet's own var2, with dig_P4 << 35 in place of
      the two terms this driver adds, gives 25767233 (about 100653 Pa) on
      the same inputs: the as-written formula is about 7.8% higher. */
  lemma PressureSample(c: Coefficients)
    requires PressureSampleCoefficients(c)
    ensures CompensatePressure(RawData(0, 0, 415148), c, 128422) == 27788975
  {
    PressureVar2Sample(c);
    PressureDivisorSample(c);
    var p1 := Wrap64(TruncDiv(Wrap64(Wrap64(Wrap64(633428 * TWO_31) - (-10726663537)) * 3125), 597560748));
    assert p1 == 7113748494;
    assert Asr(Wrap64(Wrap64(c.P9 * Asr(p1, 8192)) * Asr(p1, 8192)), TWO_25) == 134839763;
    assert Asr(Wrap64(c.P8 * p1), 0x8_0000) == -198098618;
  }

  lemma PressureVar2Sample(c: Coefficients)
    requires PressureSampleCoefficients(c)
    ensures PressureVar2(c, 128422) == -10726663537
  {
    assert Wrap64(422 * 422) * c.P6 == -1246588;
    assert Wrap64(Wrap64(422 * c.P5) * TWO_17) == 7743733760;
    assert Wrap64(Wrap64(422 * c.P2) * TWO_12) == -18469150720;
  }

  lemma PressureDivisorSample(c: Coefficients)
    requires PressureSampleCoefficients(c)
    ensures PressureDivisor(c, 128422) == 597560748
  {
    var v1 := Wrap64(Asr(Wrap64(Wrap64(422 * 422) * c.P3), 256) + Wrap64(Wrap64(422 * c.P2) * TWO_12));
    assert v1 == -18467047103;
    assert Wrap64(TWO_47 + v1) * c.P1 == 5133007740260123325;
  }

  // ------------------------------------------------------------------- Humidity

  /** adc_H: the 16-bit raw field widened to an Int32, never negative. */
  function AdcH(raw: RawData): (r: I32)
    ensures 0 <= r < TWO_16
  {
    raw.humidity
  }

  /** The humidity intermediate v_x1_u32r just before the clamp. dig_H2
      scales the whole product: with dig_H2 zero the intermediate is zero. */
  function HumidityPreClamp(raw: RawData, c: Coefficients, tFine: I32): (r: I32)
    ensures c.H2 == 0 ==> r == 0
  {
    var v := Wrap32(tFine - 76800);
    var a := Wrap32(Wrap32(Wrap32(AdcH(raw) * 0x4000) - Wrap32(c.H4 * 0x10_0000)) - Wrap32(c.H5 * v));
    var a' := Asr(Wrap32(a + 16384), 0x8000);
    var b := Asr(Wrap32(v * c.H6), 1024);
    var d := Wrap32(Asr(Wrap32(v * c.H3), 2048) + 32768);
    var e := Wrap32(Asr(Wrap32(b * d), 1024) + 2097152);
    var f := Asr(Wrap32(Wrap32(e * c.H2) + 8192), 0x4000);
    assert c.H2 == 0 ==> f == 0;
    var w := Wrap32(a' * f);
    assert f == 0 ==> w == 0;
    var sq := Wrap32(Asr(w, 0x8000) * Asr(w, 0x8000));
    assert w == 0 ==> sq == 0;
    Wrap32(w - Asr(Wrap32(Asr(sq, 128) * c.H1), 16))
  }

  /** Humidity compensation: the intermediate is clamped to
      [0, HUMIDITY_MAX] before the final shift by 12, so the output is
      0..100 %RH in Q22.10. */
  function CompensateHumidity(raw: RawData, c: Coefficients, tFine: I32): (h: U32)
    ensures 0 <= h <= 102400
    ensures HumidityPreClamp(raw, c, tFine) <= 0 ==> h == 0
    ensures HumidityPreClamp(raw, c, tFine) >= HUMIDITY_MAX ==> h == 102400
    ensures 0 <= HumidityPreClamp(raw, c, tFine) <= HUMIDITY_MAX ==> h == HumidityPreClamp(raw, c, tFine) / 4096
  {
    var v := HumidityPreClamp(raw, c, tFine);
    var v' := if v < 0 then 0 else v;
    var v'' := if v' > HUMIDITY_MAX then HUMIDITY_MAX else v';
    ToU32(Asr(v'', 4096))
  }

  /** A sample point: raw humidity 30000 at t_fine 128422 with dig_H1..dig_H6
      = 75, 362, 0, 313, 50, 30 gives the intermediate 230678058 and 56317
      in Q22.10, about 55.0 %RH. */
  lemma HumiditySample(c: Coefficients)
    requires c.H1 == 75 && c.H2 == 362 && c.H3 == 0 && c.H4 == 313 && c.H5 == 50 && c.H6 == 30
    ensures HumidityPreClamp(RawData(30000, 0, 0), c, 128422) == 230678058
    ensures CompensateHumidity(RawData(30000, 0, 0), c, 128422) == 56317
  {
    var v := 51622;
    assert Wrap32(Wrap32(Wrap32(30000 * 0x4000) - Wrap32(c.H4 * 0x10_0000)) - Wrap32(c.H5 * v)) == 160734612;
    assert Asr(Wrap32(v * c.H6), 1024) == 1512;
    assert Wrap32(Asr(Wrap32(v * c.H3), 2048) + 32768) == 32768;
    assert Wrap32(Asr(Wrap32(1512 * 32768), 1024) + 2097152) == 2145536;
    assert Asr(Wrap32(Wrap32(2145536 * c.H2) + 8192), 0x4000) == 47405;
    assert Wrap32(4905 * 47405) == 232521525;
    assert Wrap32(Asr(232521525, 0x8000) * Asr(232521525, 0x8000)) == 50339025;
  }
}
