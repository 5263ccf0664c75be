/** The register map, the control-register bit fields and the raw-data record
    of the BME280, as the driver's header declares them. */
module Registers {
  import opened FixedPoint

  // Register addresses.
  const REG_ID: bv8 := 0xD0
  const REG_CALIB00: bv8 := 0x88
  const REG_CALIB26: bv8 := 0xE1
  const REG_CTRL_HUM: bv8 := 0xF2
  const REG_STATUS: bv8 := 0xF3
  const REG_CTRL_MEAS: bv8 := 0xF4
  const REG_CONFIG: bv8 := 0xF5

  // The 8-byte measurement block: MSB, LSB, XLSB of pressure, of
  // temperature, then MSB, LSB of humidity.
  const REG_PRESSURE: bv8 := 0xF7
  const REG_PRES_MSB: bv8 := 0xF7
  const REG_PRES_LSB: bv8 := 0xF8
  const REG_PRES_XLSB: bv8 := 0xF9
  const REG_TEMPERATURE: bv8 := 0xFA
  const REG_TEMP_MSB: bv8 := 0xFA
  const REG_TEMP_LSB: bv8 := 0xFB
  const REG_TEMP_XLSB: bv8 := 0xFC
  const REG_HUMIDITY: bv8 := 0xFD
  const REG_HUM_MSB: bv8 := 0xFD
  const REG_HUM_LSB: bv8 := 0xFE

  /** Value of the ID register on a BME280. */
  const CHIPID: bv8 := 0x60

  // STATUS register bits.
  const STATUS_MEASURING: bv8 := 0x04
  const STATUS_IM_UPDATE: bv8 := 0x01

  // CTRL_MEAS mode field.
  const MODE_SLEEP: bv8 := 0
  const MODE_FORCED: bv8 := 1
  const MODE_NORMAL: bv8 := 3

  /** Oversampling codes (skipped, x1, x2, x4, x8, x16) shared by the
      humidity, temperature and pressure fields. */
  type OsrsCode = c: bv8 | c <= 5

  const OSRS_SKIPPED: OsrsCode := 0
  const OSRS_1: OsrsCode := 1
  const OSRS_2: OsrsCode := 2
  const OSRS_4: OsrsCode := 3
  const OSRS_8: OsrsCode := 4
  const OSRS_16: OsrsCode := 5

  /** The three CTRL_MEAS mode values. */
  predicate IsMode(m: bv8) {
    m == MODE_SLEEP || m == MODE_FORCED || m == MODE_NORMAL
  }

  /** CTRL_HUM value for a humidity oversampling code (bits 2:0). */
  function CtrlHum(osrsH: OsrsCode): (v: bv8)
    ensures v & 0xF8 == 0
    ensures v & 0x07 == osrsH
  {
    osrsH
  }

  /** The CTRL_MEAS_OSRS_T_* constant: the code placed in bits 7:5. */
  function OsrsT(code: OsrsCode): (v: bv8)
    ensures v & 0x1F == 0
    ensures v >> 5 == code
  {
    code << 5
  }

  /** The CTRL_MEAS_OSRS_P_* constant: the code placed in bits 4:2. */
  function OsrsP(code: OsrsCode): (v: bv8)
    ensures v & 0xE3 == 0
    ensures (v >> 2) & 0x07 == code
  {
    code << 2
  }

  /** A CTRL_MEAS value OR-composed from one constant of each group. The
      composition loses nothing: each field comes back by shift and mask. */
  function CtrlMeas(osrsT: OsrsCode, osrsP: OsrsCode, mode: bv8): (v: bv8)
    requires IsMode(mode)
    ensures v >> 5 == osrsT
    ensures (v >> 2) & 0x07 == osrsP
    ensures v & 0x03 == mode
  {
    mode | OsrsT(osrsT) | OsrsP(osrsP)
  }

  /** The three groups of CTRL_MEAS occupy pairwise disjoint bits. */
  lemma CtrlMeasGroupsDisjoint(osrsT: OsrsCode, osrsP: OsrsCode, mode: bv8)
    requires IsMode(mode)
    ensures OsrsT(osrsT) & OsrsP(osrsP) == 0 && OsrsT(osrsT) & mode == 0 && OsrsP(osrsP) & mode == 0
  {
  }

  /** The value written to CTRL_MEAS for a forced measurement with x4
      temperature and x4 pressure oversampling. */
  lemma ForcedX4Value()
    ensures CtrlMeas(OSRS_4, OSRS_4, MODE_FORCED) == 0x6D
    ensures CtrlHum(OSRS_4) == 0x03
  {
  }

  /** The CONFIG_STANDBY_TIME_* constant with index k (0.5, 62.5, 125, 250,
      500, 1000, 10 and 20 ms for k = 0..7): k in bits 7:5. */
  function StandbyTime(k: bv8): (v: bv8)
    requires k < 8
    ensures v & 0x1F == 0
    ensures v >> 5 == k
  {
    k << 5
  }

  /** The device is ready for a burst read: neither the measuring bit nor
      the NVM-update bit of STATUS is set. */
  predicate Ready(status: bv8): (r: bool)
    ensures r <==> status & STATUS_MEASURING == 0 && status & STATUS_IM_UPDATE == 0
  {
    status & (STATUS_MEASURING | STATUS_IM_UPDATE) == 0
  }

  /** The two busy bits are distinct single bits, and Ready is exactly
      "both clear", i.e. status & 0x05 == 0. */
  lemma ReadyIffBothBitsClear(status: bv8)
    ensures STATUS_MEASURING != STATUS_IM_UPDATE
    ensures STATUS_MEASURING & (STATUS_MEASURING - 1) == 0
    ensures STATUS_IM_UPDATE & (STATUS_IM_UPDATE - 1) == 0
    ensures Ready(status) <==> status & 0x05 == 0
    ensures Ready(status) <==> (status & STATUS_MEASURING == 0 && status & STATUS_IM_UPDATE == 0)
  {
  }

  /** The measurement registers are eight consecutive addresses from
      REG_PRESSURE, at the burst offsets the fan-out uses. */
  lemma MeasurementBlockLayout()
    ensures REG_PRES_MSB == REG_PRESSURE && REG_PRES_LSB == REG_PRESSURE + 1
    ensures REG_PRES_XLSB == REG_PRESSURE + 2
    ensures REG_TEMPERATURE == REG_PRESSURE + 3 && REG_TEMP_MSB == REG_TEMPERATURE
    ensures REG_TEMP_LSB == REG_PRESSURE + 4 && REG_TEMP_XLSB == REG_PRESSURE + 5
    ensures REG_HUMIDITY == REG_PRESSURE + 6 && REG_HUM_MSB == REG_HUMIDITY
    ensures REG_HUM_LSB == REG_PRESSURE + 7
    ensures REG_PRESSURE as int + 8 <= 0x100
  {
  }

  /** The raw-data record: humidity in 16 bits, temperature and pressure in
      32-bit containers. */
  datatype RawData = RawData(humidity: U16, temperature: U32, pressure: U32)
}
