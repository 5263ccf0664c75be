/** The driver's state and register sequencing: the chip-ID check and the
    calibration read of open, the forced measurement with its status poll,
    the burst read with its fan-out into the raw record, and the three
    compensation calls that hand t_fine from temperature to pressure and
    humidity. */
module Driver {
  import opened FixedPoint
  import opened Registers
  import opened Calibration
  import opened RawReader
  import opened Compensation
  import opened Transport

  // Block sizes of the calibration read as open performs it.
  const CALIB00_COUNT: nat := 26
  const CALIB26_COUNT: nat := 6

  /** Status polls: each is a one-byte read of STATUS, every poll but the
      last saw a busy bit, and the last saw the device ready. */
  ghost predicate PollTrace(polls: seq<Event>, slave: bv8) {
    |polls| >= 1
    && (forall i :: 0 <= i < |polls| ==> polls[i].txn == ReadTxn(slave, REG_STATUS, 1) && |polls[i].data| == 1)
    && (forall i :: 0 <= i < |polls| - 1 ==> !Ready(polls[i].data[0]))
    && Ready(polls[|polls| - 1].data[0])
  }

  /** The bus traffic of one forced read: CTRL_HUM <- x4, CTRL_MEAS <- forced
      with x4/x4, status polls until ready, then the 8-byte burst. */
  ghost predicate ForcedReadTrace(events: seq<Event>, slave: bv8) {
    |events| >= 4
    && events[0].txn == WriteTxn(slave, REG_CTRL_HUM, CtrlHum(OSRS_4))
    && events[1].txn == WriteTxn(slave, REG_CTRL_MEAS, CtrlMeas(OSRS_4, OSRS_4, MODE_FORCED))
    && PollTrace(events[2..|events| - 1], slave)
    && events[|events| - 1].txn == ReadTxn(slave, REG_PRESSURE, BURST_SIZE)
    && |events[|events| - 1].data| == BURST_SIZE
  }

  /** In a forced read the two control writes come first, in that order;
      the burst read happens once, last, and right after a status read that
      saw the device ready; every event between is a status poll. */
  lemma ForcedReadOrder(events: seq<Event>, slave: bv8)
    requires ForcedReadTrace(events, slave)
    ensures events[0].txn == WriteTxn(slave, REG_CTRL_HUM, 0x03)
    ensures events[1].txn == WriteTxn(slave, REG_CTRL_MEAS, 0x6D)
    ensures forall i :: 0 <= i < |events| && events[i].txn.readCount == 0 ==> i < 2
    ensures forall i :: 0 <= i < |events| && events[i].txn == ReadTxn(slave, REG_PRESSURE, BURST_SIZE) ==>
      i == |events| - 1
    ensures var n := |events|;
      events[n - 2].txn == ReadTxn(slave, REG_STATUS, 1) && Ready(events[n - 2].data[0])
    ensures forall i :: 2 <= i < |events| - 1 ==> events[i].txn == ReadTxn(slave, REG_STATUS, 1)
  {
    ForcedX4Value();
    var polls := events[2..|events| - 1];
    forall i | 2 <= i < |events| - 1
      ensures events[i].txn == ReadTxn(slave, REG_STATUS, 1)
    {
      assert events[i] == polls[i - 2];
    }
    assert events[|events| - 2] == polls[|polls| - 1];
  }

  /** The two control writes, the polls and the burst, appended to a
      trace, form a forced read after it. */
  lemma ForcedReadAssembled(prior: seq<Event>, writes: seq<Event>, polls: seq<Event>, burst: Event,
                            trace: seq<Event>, slave: bv8)
    requires trace == prior + writes + polls + [burst]
    requires |writes| == 2
    requires writes[0].txn == WriteTxn(slave, REG_CTRL_HUM, CtrlHum(OSRS_4))
    requires writes[1].txn == WriteTxn(slave, REG_CTRL_MEAS, CtrlMeas(OSRS_4, OSRS_4, MODE_FORCED))
    requires PollTrace(polls, slave)
    requires burst.txn == ReadTxn(slave, REG_PRESSURE, BURST_SIZE) && |burst.data| == BURST_SIZE
    ensures |trace| >= |prior| + 4 && trace[..|prior|] == prior
    ensures ForcedReadTrace(trace[|prior|..], slave)
  {
    var events := writes + polls + [burst];
    assert trace == prior + events;
    assert trace[|prior|..] == events;
    assert events[2..|events| - 1] == polls;
  }

  /** The driver's module state: the bus handle and slave address given at
      initialisation, the 33-byte calibration buffer, the last raw record
      and the t_fine left by the last temperature compensation. */
  class Bme280 {
    const bus: Bus
    const slave: bv8
    const calibration: array<bv8>
    var rawData: RawData
    var tFine: I32

    ghost predicate Valid()
      reads this
    {
      calibration.Length == CALIB_SIZE
    }

    /** The coefficients the calibration buffer currently holds. */
    ghost function Coefficients(): Coefficients
      reads this, calibration
      requires Valid()
    {
      Decode(calibration[..])
    }

    /** Initialisation: keep the bus handle and slave address; the state
        starts zeroed, as static storage does. */
    constructor Init(bus: Bus, slave: bv8)
      ensures Valid() && fresh(calibration)
      ensures this.bus == bus && this.slave == slave
      ensures calibration[..] == seq(CALIB_SIZE, _ => 0)
      ensures rawData == RawData(0, 0, 0) && tFine == 0
    {
      this.bus := bus;
      this.slave := slave;
      calibration := new bv8[CALIB_SIZE](_ => 0);
      rawData := RawData(0, 0, 0);
      tFine := 0;
    }

    /** Check the chip ID, then read the two calibration blocks. Only the ID
        read can fail open; the results of the calibration reads are not
        looked at, and only 6 bytes of the second block are requested, so
        offset 32 (dig_H6) keeps its previous value. */
    method Open() returns (ok: bool)
      requires Valid() && bus.Valid()
      modifies bus, calibration
      ensures Valid() && bus.Valid()
      ensures |bus.trace| > |old(bus.trace)| && bus.trace[..|old(bus.trace)|] == old(bus.trace)
      ensures var id := bus.trace[|old(bus.trace)|];
        id.txn == ReadTxn(slave, REG_ID, 1) && |id.data| == 1 && (ok <==> id.ok && id.data[0] == CHIPID)
      ensures !ok ==> |bus.trace| == |old(bus.trace)| + 1 && calibration[..] == old(calibration[..])
      ensures ok ==> (|bus.trace| == |old(bus.trace)| + 3
        && var block1, block2 := bus.trace[|old(bus.trace)| + 1], bus.trace[|old(bus.trace)| + 2];
        block1.txn == ReadTxn(slave, REG_CALIB00, CALIB00_COUNT)
        && block2.txn == ReadTxn(slave, REG_CALIB26, CALIB26_COUNT)
        && calibration[..] == block1.data + block2.data + [old(calibration[OFF_H6])])
    {
      ghost var t0, s0 := bus.trace, bus.script;
      var idOk, id := bus.Transfer(ReadTxn(slave, REG_ID, 1));
      ghost var idEvent := Answer(s0, ReadTxn(slave, REG_ID, 1));
      assert bus.trace == t0 + [idEvent] && bus.trace[|t0|] == idEvent;
      assert id == idEvent.data && |id| == 1;
      if !idOk {
        return false;
      }
      if id[0] != CHIPID {
        return false;
      }
      ghost var t1 := bus.trace;
      ReadCalibration();
      assert bus.trace[..|t0|] == t0 && bus.trace[|t0|] == idEvent by {
        assert bus.trace == t0 + [idEvent] + bus.trace[|t1|..];
      }
      return true;
    }

    /** Read the calibration blocks: 26 bytes from CALIB00 to offset 0 and 6
        bytes from CALIB26 to offset 26. Offset 32 (dig_H6) is not read. */
    method ReadCalibration()
      requires Valid() && bus.Valid()
      modifies bus, calibration
      ensures bus.Valid()
      ensures |bus.trace| == |old(bus.trace)| + 2 && bus.trace[..|old(bus.trace)|] == old(bus.trace)
      ensures var block1, block2 := bus.trace[|old(bus.trace)|], bus.trace[|old(bus.trace)| + 1];
        block1.txn == ReadTxn(slave, REG_CALIB00, CALIB00_COUNT)
        && block2.txn == ReadTxn(slave, REG_CALIB26, CALIB26_COUNT)
        && calibration[..] == block1.data + block2.data + [old(calibration[OFF_H6])]
    {
      ghost var t0, s1 := bus.trace, bus.script;
      ghost var cal0 := calibration[..];
      ReadIntoCalibration(REG_CALIB00, 0, CALIB00_COUNT);
      ghost var s2 := bus.script;
      ghost var cal1 := calibration[..];
      ReadIntoCalibration(REG_CALIB26, CALIB00_COUNT, CALIB26_COUNT);
      ghost var e1 := Answer(s1, ReadTxn(slave, REG_CALIB00, CALIB00_COUNT));
      ghost var e2 := Answer(s2, ReadTxn(slave, REG_CALIB26, CALIB26_COUNT));
      assert bus.trace == t0 + [e1, e2];
      assert cal1[..CALIB00_COUNT] == e1.data;
      assert cal1[CALIB00_COUNT + CALIB26_COUNT..] == cal0[CALIB00_COUNT + CALIB26_COUNT..] == [cal0[OFF_H6]];
    }

    /** One calibration block read: count bytes from register reg land in
        the calibration buffer at offset; the rest of the buffer keeps its
        contents. */
    method ReadIntoCalibration(reg: bv8, offset: nat, count: nat)
      requires Valid() && bus.Valid() && offset + count <= CALIB_SIZE
      modifies bus, calibration
      ensures bus.Valid()
      ensures bus.trace == old(bus.trace) + [Answer(old(bus.script), ReadTxn(slave, reg, count))]
      ensures bus.script == Drop(old(bus.script), 1)
      ensures calibration[..] == old(calibration[..offset])
        + Answer(old(bus.script), ReadTxn(slave, reg, count)).data + old(calibration[offset + count..])
    {
      var _, block := bus.Transfer(ReadTxn(slave, reg, count));
      forall i | 0 <= i < count {
        calibration[offset + i] := block[i];
      }
      assert calibration[..] == old(calibration[..offset]) + block + old(calibration[offset + count..]);
    }

    /** The driver's close: nothing is sent to the device. */
    method Close() returns (ok: bool)
      ensures ok
    {
      return true;
    }

    /** Write one register. */
    method WriteReg(reg: bv8, value: bv8)
      requires bus.Valid()
      modifies bus
      ensures bus.Valid()
      ensures bus.trace == old(bus.trace) + [Answer(old(bus.script), WriteTxn(slave, reg, value))]
      ensures bus.script == Drop(old(bus.script), 1)
    {
      var _, _ := bus.Transfer(WriteTxn(slave, reg, value));
    }

    /** Read one register. */
    method ReadReg(reg: bv8) returns (value: bv8)
      requires bus.Valid()
      modifies bus
      ensures bus.Valid()
      ensures bus.trace == old(bus.trace) + [Answer(old(bus.script), ReadTxn(slave, reg, 1))]
      ensures bus.script == Drop(old(bus.script), 1)
      ensures [value] == Answer(old(bus.script), ReadTxn(slave, reg, 1)).data
      ensures old(bus.script) == [] ==> value == 0
    {
      var _, data := bus.Transfer(ReadTxn(slave, reg, 1));
      value := data[0];
    }

    /** Read a 16-bit big-endian register pair. */
    method ReadWord(reg: bv8) returns (w: U16)
      requires bus.Valid()
      modifies bus
      ensures bus.Valid()
      ensures bus.trace == old(bus.trace) + [Answer(old(bus.script), ReadTxn(slave, reg, 2))]
      ensures var d := Answer(old(bus.script), ReadTxn(slave, reg, 2)).data;
        w == d[0] as int * 256 + d[1] as int
    {
      var _, data := bus.Transfer(ReadTxn(slave, reg, 2));
      w := BigEndian16(data[0], data[1]);
    }

    /** Read a 20-bit value left-justified in MSB, LSB, XLSB. */
    method ReadWord20(reg: bv8) returns (w: U32)
      requires bus.Valid()
      modifies bus
      ensures bus.Valid()
      ensures bus.trace == old(bus.trace) + [Answer(old(bus.script), ReadTxn(slave, reg, 3))]
      ensures var d := Answer(old(bus.script), ReadTxn(slave, reg, 3)).data;
        w == d[0] as int * 4096 + d[1] as int * 16 + d[2] as int / 16 && w < 0x10_0000
    {
      var _, data := bus.Transfer(ReadTxn(slave, reg, 3));
      w := Word20(data[0], data[1], data[2]);
    }

    /** Burst-read the 8 measurement registers and fan them out into the
        raw record, which is overwritten. */
    method ReadMeasurements() returns (raw: RawData)
      requires bus.Valid()
      modifies bus, this`rawData
      ensures bus.Valid()
      ensures bus.trace == old(bus.trace) + [Answer(old(bus.script), ReadTxn(slave, REG_PRESSURE, BURST_SIZE))]
      ensures bus.script == Drop(old(bus.script), 1)
      ensures raw == rawData == FanOut(Answer(old(bus.script), ReadTxn(slave, REG_PRESSURE, BURST_SIZE)).data)
    {
      var _, data := bus.Transfer(ReadTxn(slave, REG_PRESSURE, BURST_SIZE));
      rawData := FanOut(data);
      raw := rawData;
    }

    /** Poll STATUS until neither the measuring nor the NVM-update bit is
        set. The loop ends because a bus whose script is used up reads 0. */
    method PollUntilReady() returns (ghost polls: seq<Event>)
      requires bus.Valid()
      modifies bus
      ensures bus.Valid()
      ensures bus.trace == old(bus.trace) + polls
      ensures PollTrace(polls, slave)
    {
      ghost var s0 := bus.script;
      var status := ReadReg(REG_STATUS);
      polls := [Answer(s0, ReadTxn(slave, REG_STATUS, 1))];
      while !Ready(status)
        invariant bus.Valid()
        invariant bus.trace == old(bus.trace) + polls
        invariant |polls| >= 1 && polls[|polls| - 1].data == [status]
        invariant forall i :: 0 <= i < |polls| ==>
          polls[i].txn == ReadTxn(slave, REG_STATUS, 1) && |polls[i].data| == 1
        invariant forall i :: 0 <= i < |polls| - 1 ==> !Ready(polls[i].data[0])
        decreases |bus.script| + (if Ready(status) then 0 else 1)
      {
        ghost var before := bus.script;
        status := ReadReg(REG_STATUS);
        polls := polls + [Answer(before, ReadTxn(slave, REG_STATUS, 1))];
      }
    }

    /** A forced measurement: configure x4 oversampling and forced mode,
        poll STATUS until neither busy bit is set, then burst-read. */
    method Read() returns (raw: RawData)
      requires bus.Valid()
      modifies bus, this`rawData
      ensures bus.Valid()
      ensures |bus.trace| >= |old(bus.trace)| + 4 && bus.trace[..|old(bus.trace)|] == old(bus.trace)
      ensures ForcedReadTrace(bus.trace[|old(bus.trace)|..], slave)
      ensures raw == rawData == FanOut(bus.trace[|bus.trace| - 1].data)
    {
      ghost var s0 := bus.script;
      WriteReg(REG_CTRL_HUM, CtrlHum(OSRS_4));
      ghost var s1 := bus.script;
      WriteReg(REG_CTRL_MEAS, CtrlMeas(OSRS_4, OSRS_4, MODE_FORCED));
      ghost var writes := [Answer(s0, WriteTxn(slave, REG_CTRL_HUM, CtrlHum(OSRS_4))),
                           Answer(s1, WriteTxn(slave, REG_CTRL_MEAS, CtrlMeas(OSRS_4, OSRS_4, MODE_FORCED)))];
      ghost var polls := PollUntilReady();
      ghost var s3 := bus.script;
      raw := ReadMeasurements();
      ghost var burst := Answer(s3, ReadTxn(slave, REG_PRESSURE, BURST_SIZE));
      assert bus.trace == old(bus.trace) + writes + polls + [burst];
      ForcedReadAssembled(old(bus.trace), writes, polls, burst, bus.trace, slave);
    }

    /** Temperature compensation of a raw record; leaves t_fine behind for
        pressure and humidity. */
    method CompensatedTemperature(rd: RawData) returns (t: I32)
      requires Valid()
      modifies this`tFine
      ensures t == CompensateTemperature(rd, Coefficients()).centiCelsius
      ensures tFine == CompensateTemperature(rd, Coefficients()).tFine
    {
      var r := CompensateTemperature(rd, Decode(calibration[..]));
      tFine := r.tFine;
      t := r.centiCelsius;
    }

    /** Pressure compensation with the t_fine of the last temperature call. */
    method CompensatedPressure(rd: RawData) returns (p: U32)
      requires Valid()
      ensures p == CompensatePressure(rd, Coefficients(), tFine)
      ensures PressureDivisor(Coefficients(), tFine) == 0 ==> p == 0
    {
      p := CompensatePressure(rd, Decode(calibration[..]), tFine);
    }

    /** Humidity compensation with the t_fine of the last temperature call. */
    method CompensatedHumidity(rd: RawData) returns (h: U32)
      requires Valid()
      ensures h == CompensateHumidity(rd, Coefficients(), tFine)
      ensures 0 <= h <= 102400
    {
      h := CompensateHumidity(rd, Decode(calibration[..]), tFine);
    }
  }
}
