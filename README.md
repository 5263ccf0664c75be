# BME280 driver model

A Dafny model of a TI-RTOS driver for the Bosch Sensortec BME280
temperature, pressure and humidity sensor. The model covers:

- **the calibration decoder**: the 33 trimming bytes become the 18
  coefficients dig_T1..dig_H6, as little-endian 16-bit values, unsigned and
  signed bytes, and the two 12-bit humidity fields that share offset 30;
- **the raw reads**: the big-endian 16-bit and 20-bit register reads, and
  the fan-out of the 8-byte measurement burst into the raw-data record;
- **the compensation formulas** (section 4.2.3 of the BME280 datasheet):
  temperature in 0.01 degC, pressure in Pa as Q24.8 and humidity in %RH as
  Q22.10. All 32- and 64-bit intermediate overflow is written out as
  two's-complement wrap-around. The t_fine value is left behind by the
  temperature call and consumed by the pressure and humidity calls;
- **the register sequencing** of open and of the forced read, run against
  an abstract bus.

Modules, one per file:

- `FixedPoint` (fixed_point.dfy): C integer semantics.
  - `Wrap32` and `Wrap64` are two's-complement wrap-around.
  - `Asr` is the arithmetic right shift: floor division by a power of two.
  - `TruncDiv` is C's truncating `/`.
  - `ToU32` is the `(Uint32)` cast.
  - `ToByte` builds the byte with a given value.
- `Registers` (registers.dfy): the header's register addresses, CTRL_HUM,
  CTRL_MEAS, STATUS and CONFIG bit fields, and the raw-data record.
- `Calibration` (calibration.dfy): the decoders, the offset table and the
  byte encoders that invert them.
- `RawReader` (raw_reader.dfy): the 16-bit and 20-bit big-endian packing
  and the burst fan-out.
- `Compensation` (compensation.dfy): the three compensation formulas as
  functions of the raw record, the coefficients and t_fine.
- `Transport` (transport.dfy): the bus.
  - A `Bus` object answers each transaction from a finite script of
    replies, and appends the transaction and its answer to a trace.
  - A reply's bytes reach the caller even when the reply reports failure.
  - Once the script is used up, the bus reports failure and reads zeros.
  - `Valid` keeps the trace equal to the script's answers, in order.
- `Driver` (driver.dfy): the driver's module state as a class `Bme280`.
  - Its fields are the bus, the slave address, the 33-byte calibration
    array, the last raw record and t_fine.
  - Its methods are open, close, the register reads and writes, the forced
    read with its status poll, and the three compensation calls.

The driver's `_t_fine` is a module-level variable. The model keeps it as
the `tFine` field, which `CompensatedTemperature` writes and the pressure and
humidity calls read.

The third update of var2 in the pressure formula (bme280.c:341) adds two
terms, `dig_P3 >> 8` and `(var1 * dig_P2) << 12`, where the datasheet adds
the single term `dig_P4 << 35`. The model keeps the line as written.
`PressureIgnoresP4` proves that dig_P4 then has no effect on the output.
The difference is not harmless. `PressureSample` proves the as-written output
for the datasheet's sample point (raw pressure 415148, t_fine 128422,
dig_P1..dig_P9 = 36477, -10685, 3024, 2855, 140, -7, 15500, -14600, 6000):
27788975 in Q24.8, about 108551 Pa. Worked out by hand, the datasheet's own
var2 gives 25767233, about 100653 Pa, on the same inputs. The as-written
output is about 7.8% higher. The model has no member for the datasheet's
variant.
Open requests only 6 bytes from CALIB26 (bme280.c:95). Calibration offset 32
(dig_H6) is therefore never filled by open, and `ReadCalibration` states
that it keeps its previous value.

## Model

| member | source | states |
|---|---|---|
| FixedPoint.TruncDiv | bme280.c:348 | the C quotient: sign from the operands' signs, magnitude within one divisor below the dividend's (truncation toward zero); the divisor must be nonzero |
| FixedPoint.ToU32 | bme280.c:352 | the `(Uint32)` cast: the result is in [0, 2^32) and congruent to the input mod 2^32, and unchanged when already in range |
| FixedPoint.Asr | bme280.c:323-324 | a signed `>> k` is the largest integer whose product with 2^k is at most the operand |
| FixedPoint.Wrap32 | bme280.c:325 | an Int32 result congruent to the exact value mod 2^32, equal to it when it fits |
| FixedPoint.Wrap64 | bme280.c:339-343 | an Int64 result congruent to the exact value mod 2^64, equal to it when it fits |
| Registers.CtrlHum | bme280.h:112-117 | a humidity oversampling code 0..5 occupies bits 2:0 of CTRL_HUM and nothing else |
| Registers.OsrsT | bme280.h:122-127 | the temperature oversampling constants put the code in bits 7:5 and leave bits 4:0 clear |
| Registers.OsrsP | bme280.h:129-134 | the pressure oversampling constants put the code in bits 4:2 and leave bits 7:5 and 1:0 clear |
| Registers.CtrlMeas | bme280.c:226 | the OR of one mode, one temperature and one pressure oversampling constant gives back each of the three fields by shift and mask |
| Registers.CtrlMeasGroupsDisjoint | bme280.h:122-138 | the temperature-oversampling, pressure-oversampling and mode groups of CTRL_MEAS occupy pairwise disjoint bits |
| Registers.ForcedX4Value | bme280.c:225-226 | the forced read writes 0x03 to CTRL_HUM and 0x6D to CTRL_MEAS |
| Registers.StandbyTime | bme280.h:148-155 | each standby-time constant is k << 5 for k in 0..7, touching no bit of 4:0 |
| Registers.Ready | bme280.c:228 | the poll loop's exit test: ready exactly when both the MEASURING bit and the IM_UPDATE bit of STATUS are clear |
| Registers.ReadyIffBothBitsClear | bme280.h:119-120 | MEASURING and IM_UPDATE are distinct single bits; "ready" holds exactly when status & 0x05 == 0 |
| Registers.MeasurementBlockLayout | bme280.h:97-109 | the measurement registers are the 8 consecutive addresses 0xF7..0xFE: pressure at offsets 0-2, temperature at 3-5, humidity at 6-7 |
| Calibration.U16LE | bme280.c:283-290 | r1 * 256 + r0, in [0, 65535] |
| Calibration.S16LE | bme280.c:274-281 | the same 16-bit pattern read as two's complement, in [-32768, 32767], negative if and only if r1 >= 0x80 |
| Calibration.SplitH4 | bme280.c:292-299 | e4 * 16 + (e5 & 0xF), in [0, 4095], with no sign extension |
| Calibration.SplitH5 | bme280.c:301-308 | e6 * 16 + (e5 >> 4), in [0, 4095], with no sign extension |
| Calibration.AsU8 | bme280.c:267-269 | dig_H1 and dig_H3 are the byte's unsigned value: the byte comes back from it unchanged, and it is at least 0x80 exactly when the byte's top bit is set (no sign extension, unlike dig_H6) |
| Calibration.AsS8 | bme280.c:272 | dig_H6 is the Int8 whose 8-bit pattern is the byte (the byte comes back from it modulo 256), negative if and only if the byte is >= 0x80 |
| Calibration.U16LEOfBytes | bme280.c:283-290 | decoding the low and high byte of any 16-bit value gives back that value |
| Calibration.BytesOfU16LE | bme280.c:283-290 | the decoded value's low and high bytes are r0 and r1, so no two byte pairs decode alike |
| Calibration.S16LERoundTrip | bme280.c:274-281 | every Int16 value is decoded back from its own bit pattern, and the decoded value's bit pattern is the bytes' unsigned value |
| Calibration.SplitOfBytes | bme280.c:292-308 | for any 12-bit dig_H4 and dig_H5 there are three bytes e4, e5, e6 that decode to exactly those values |
| Calibration.BytesOfSplit | bme280.c:292-308 | dig_H4 and dig_H5 together give back all three bytes e4, e5, e6 |
| Calibration.SplitExample | bme280.c:292-308 | bytes 0xAB, 0xCD, 0xEF decode to dig_H4 = 0xABD and dig_H5 = 0xEFC |
| Calibration.SharedOffset30 | bme280.c:251-271 | dig_H4 takes the low nibble of offset 30 and all of offset 29; dig_H5 takes the high nibble of offset 30 and all of offset 31 |
| Calibration.Decode | bme280.c:236-272 | each coefficient in arithmetic: dig_T1 and dig_P1 are the little-endian words at offsets 0 and 6; the other 16-bit coefficients are the words at their offsets read as two's complement; dig_H1 and dig_H3 are the bytes at 25 and 28; dig_H4 is byte 29 * 16 plus the low nibble of byte 30; dig_H5 is byte 31 * 16 plus the high nibble of byte 30; dig_H6 is the Int8 congruent to byte 32 modulo 256 |
| Calibration.DecodeIgnoresOffset24 | bme280.c:236-272 | two buffers that differ only at offset 24 decode alike, and dig_H6 is byte 32 read as two's complement |
| Calibration.DecodeReadsOtherOffsets | bme280.c:236-272 | changing the byte at any offset other than 24, and nothing else, changes the decoded coefficients |
| RawReader.BigEndian16 | bme280.c:160-174 | readWord's value is msb * 256 + lsb |
| RawReader.BigEndian16Bytes | bme280.c:173 | the 16-bit value gives back both bytes |
| RawReader.Word20 | bme280.c:177-191 | readWord20's value is msb * 4096 + lsb * 16 + xlsb / 16, below 2^20 |
| RawReader.Word20Injective | bme280.c:190 | two byte triples pack to the same value if and only if they agree on MSB, LSB and the high nibble of XLSB |
| RawReader.FanOut | bme280.c:214-216 | the burst fan-out packs pressure and temperature exactly as readWord20 does, and humidity as readWord does, at the registers' offsets from 0xF7 |
| RawReader.FanOutValues | bme280.c:214-216 | pressure is byte0 * 4096 + byte1 * 16 + byte2 / 16, and temperature the same of bytes 3-5; both stay below 2^20; humidity is byte6 * 256 + byte7 |
| RawReader.FanOutFieldsInjective | bme280.c:214-216 | per field: two bursts give the same value if and only if they agree on the bytes that field keeps |
| RawReader.FanOutInjective | bme280.c:214-216 | two bursts give the same raw record if and only if they agree on all bytes except the low nibbles of bytes 2 and 5 |
| Compensation.AdcT | bme280.c:319 | the raw temperature stored into an Int32 keeps its value when below 2^31, so a 20-bit reading is not sign-extended |
| Compensation.TemperatureVar1 | bme280.c:323 | var1 always fits in 21 signed bits |
| Compensation.TemperatureVar2 | bme280.c:324 | var2 always fits in 18 signed bits |
| Compensation.CompensateTemperature | bme280.c:317-329 | t_fine is exactly var1 + var2, with no wrap-around for any input; the output is floor((t_fine * 5 + 128) / 256) for every input, within +-24576 |
| Compensation.TemperatureSample | bme280.c:323-326 | with dig_T1 = 27504, dig_T2 = 26435, dig_T3 = -1000 and raw 519888, t_fine is 128422 and the output 2508 (25.08 degC) |
| Compensation.AdcP | bme280.c:335 | the raw pressure stored into an Int32 keeps its value when below 2^31 |
| Compensation.PressureVar2 | bme280.c:338-341 | with dig_P2, dig_P5 and dig_P6 zero, var2 is dig_P3 >> 8: dig_P3 enters var2 where the datasheet has dig_P4 << 35 (with dig_P2 zero, the second added term (var1 * dig_P2) << 12 vanishes) |
| Compensation.PressureDivisor | bme280.c:338-343 | the divisor is zero whenever dig_P1 is, and lies within +-2^30 |
| Compensation.CompensatePressure | bme280.c:333-353 | a zero divisor gives output 0, and the division is reached only with a nonzero divisor |
| Compensation.PressureSample | bme280.c:333-353 | at the datasheet's sample point (raw 415148, t_fine 128422, its dig_P1..dig_P9) the output is 27788975 (about 108551 Pa) |
| Compensation.PressureVar2Sample | bme280.c:338-341 | at the sample point var2 is -10726663537 |
| Compensation.PressureDivisorSample | bme280.c:342-343 | at the sample point the divisor is 597560748 |
| Compensation.PressureIgnoresP4 | bme280.c:341 | the output does not change with dig_P4 |
| Compensation.DivisorIgnoresP4 | bme280.c:342-343 | the divisor does not change with dig_P4 |
| Compensation.Var2IgnoresP4 | bme280.c:339-341 | var2 does not change with dig_P4 |
| Compensation.AdcH | bme280.c:359 | the raw humidity widened to an Int32 is never negative and below 2^16 |
| Compensation.HumidityPreClamp | bme280.c:362-368 | dig_H2 scales the whole intermediate: with dig_H2 zero it is zero |
| Compensation.HumiditySample | bme280.c:359-371 | with raw 30000, t_fine 128422 and dig_H1..dig_H6 = 75, 362, 0, 313, 50, 30, the intermediate is 230678058 and the output 56317 (about 55.0 %RH) |
| Compensation.CompensateHumidity | bme280.c:357-372 | the output is in [0, 102400]; it is 0 when the pre-clamp value is at most 0 and 102400 when it is at least 419430400; in between it is that value shifted right by 12 |
| Transport.Bus.Transfer | bme280.c:155 | one bus transaction, the model of every `I2C_transfer` call of the driver (bme280.c lines 78, 92, 96, 139, 155, 172, 189 and 211; readReg's is cited): the next reply (or a failed, all-zero answer from a used-up bus) is returned and appended to the trace, and the script advances by one |
| Driver.ForcedReadOrder | bme280.c:225-232 | in a forced read the CTRL_HUM <- 0x03 and CTRL_MEAS <- 0x6D writes come first, in that order; the burst read happens once, last, right after a status read that saw the device ready; every event between is a status read |
| Driver.ForcedReadAssembled | bme280.c:225-232 | the two writes, the polls and the burst, appended to a trace, form a forced read after the earlier trace |
| Driver.Bme280.Init | bme280.c:47-59 | keeps the bus handle and slave address; calibration, raw record and t_fine start zeroed, as the static definitions at lines 47-51, 196 and 311 leave them |
| Driver.Bme280.Open | bme280.c:65-99 | the first transaction reads 1 byte from 0xD0; open succeeds if and only if that transfer succeeds and the byte is 0x60; on failure nothing else is sent and the calibration buffer is unchanged; on success exactly the two calibration reads follow and their outcome is ignored |
| Driver.Bme280.ReadCalibration | bme280.c:89-96 | 26 bytes read from 0x88 fill offsets 0..25, 6 bytes from 0xE1 fill offsets 26..31, and offset 32 keeps its value |
| Driver.Bme280.ReadIntoCalibration | bme280.c:89-96 | a block read writes its bytes into the calibration buffer at the given offset and leaves the rest of the buffer unchanged |
| Driver.Bme280.Close | bme280.c:102-107 | close sends nothing and returns true |
| Driver.Bme280.WriteReg | bme280.c:125-140 | one transaction writing the register address then the value, reading nothing |
| Driver.Bme280.ReadReg | bme280.c:143-157 | one transaction writing the register address and reading one byte, which is returned; a used-up bus gives 0 |
| Driver.Bme280.ReadWord | bme280.c:160-174 | one 2-byte read; the value is the bytes big-endian |
| Driver.Bme280.ReadWord20 | bme280.c:177-191 | one 3-byte read; the value is the top 20 of the 24 bits, below 2^20 |
| Driver.Bme280.ReadMeasurements | bme280.c:199-219 | one 8-byte read from 0xF7; the raw record is overwritten with the fan-out of the bytes read, and a copy of it returned |
| Driver.Bme280.PollUntilReady | bme280.c:228-230 | status polls, each a 1-byte STATUS read, until one reads ready; every earlier poll saw a busy bit |
| Driver.Bme280.Read | bme280.c:223-233 | the bus traffic added is exactly a forced read (see ForcedReadOrder), and the result and the stored raw record are the fan-out of the final burst |
| Driver.Bme280.CompensatedTemperature | bme280.c:317-329 | returns the temperature of the coefficients held in the calibration buffer and stores its t_fine |
| Driver.Bme280.CompensatedPressure | bme280.c:333-353 | returns the pressure computed with the stored t_fine; 0 when the divisor is 0 |
| Driver.Bme280.CompensatedHumidity | bme280.c:357-372 | returns the humidity computed with the stored t_fine, within [0, 102400] |

## Left out

- The I2C layer (`I2C_transfer`, the `I2C_Transaction` layout, the bus
  handle) is replaced by the scripted `Bus`; a real bus's timing and errors
  are whatever the script says.
- `BME280_setAddress` (bme280.c:110-122) is unused by the driver and not
  modelled.
- `Task_sleep(100)` between status polls (bme280.c:229) and all timing: the
  poll loop is modelled as a sequence of status reads only.
- Driver.Bme280.ReadMeasurements / Read: the source returns a pointer to the
  single static raw record (bme280.c:218, 232); the model returns a copy of
  that record, so an earlier result does not follow later reads as the
  pointer would. The stored `rawData` field does.
- Driver.Bme280.PollUntilReady: the source may poll forever on a device that
  stays busy; the model's bus has a finite script and reads 0 (ready) once it
  is used up, so the loop always ends.
- `System_printf` / `System_flush` logging.
- bme280_example_task.c is not part of this model (an RTOS task doing I2C
  setup and console output).
- Close does not put the device to sleep, as in the source.
- RESET, SPI3WIRE and the IIR-filter constants of bme280.h are not used by
  the driver and have no model.
- Timeout, back-off, normal (continuous) mode and standby scheduling do not
  exist in the driver and are not modelled.
- Signed overflow, undefined in C, is taken throughout as the
  two's-complement wrap-around the target compiler produces.
- Compensation.CompensatePressure: no closed-form statement of the output
  beyond the zero-divisor guard and the sample point of `PressureSample`;
  its value is fixed by the formula itself.
