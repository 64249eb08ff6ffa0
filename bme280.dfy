/**
 * The general MicroPython driver bme280.py: a validating constructor that
 * decodes the two calibration blocks with `unpack`, three start-up writes,
 * one forced measurement per reading through reused scratch buffers, and the
 * compensation computed step by step into the caller's array or a new one.
 */
module Bme280 {
  import opened PyInt
  import opened Bytes
  import opened I2CBus
  import opened Calibration
  import opened Compensation
  import opened Protocol

  const DefaultAddress := 0x76

  class BME280 {
    var temperatureMode: int
    var pressureMode: int
    var humidityMode: int
    var temperatureScale: string
    var iir: int
    var address: int
    var i2c: FakeBus
    var cal: Coefficients
    var tFine: int
    var l1: array<byte>
    var l8: array<byte>
    var l3: array<int>

    ghost predicate Valid()
      reads this, i2c
    {
      i2c.Valid()
      && ValidConfig(temperatureMode, pressureMode, humidityMode, iir, temperatureScale)
      && UnpackRanges(cal)
      && l1.Length == 1 && l8.Length == 8 && l3.Length == 3
    }

    /**
     * `__init__` from the point where every argument has been accepted: the
     * calibration reads, the decode, the start-up writes and the scratch
     * buffers.
     */
    constructor Init(temperatureMode: int, pressureMode: int, humidityMode: int,
                     temperatureScale: string, iir: int, address: int, i2c: FakeBus)
      requires i2c.Valid()
      requires ValidConfig(temperatureMode, pressureMode, humidityMode, iir, temperatureScale)
      modifies i2c
      ensures Valid() && fresh(l1) && fresh(l8) && fresh(l3)
      ensures this.temperatureMode == temperatureMode && this.pressureMode == pressureMode
      ensures this.humidityMode == humidityMode && this.temperatureScale == temperatureScale
      ensures this.iir == iir && this.address == address && this.i2c == i2c
      ensures cal == Unpack(old(i2c.mem)[CalibrationBlock1..CalibrationBlock1 + 26],
                            old(i2c.mem)[CalibrationBlock2..CalibrationBlock2 + 7])
      ensures tFine == 0 && l1[0] == humidityMode
      ensures forall i :: 0 <= i < 8 ==> l8[i] == 0
      ensures forall i :: 0 <= i < 3 ==> l3[i] == 0
      ensures i2c.mem == old(i2c.mem) && i2c.status == old(i2c.status) && i2c.pointer == old(i2c.pointer)
      ensures i2c.log == old(i2c.log) + SetupLog(address, iir, humidityMode)
    {
      this.temperatureMode := temperatureMode;
      this.pressureMode := pressureMode;
      this.humidityMode := humidityMode;
      this.iir := iir;
      this.temperatureScale := temperatureScale;
      this.address := address;
      this.i2c := i2c;
      var coefficients := ReadCoefficients(i2c, address);
      cal := coefficients;
      i2c.WriteToMem(address, Control, [SleepModeX1]);
      tFine := 0;
      var b1, b8, a3 := NewBuffers();
      l1, l8, l3 := b1, b8, a3;
      new;
      WriteFilterAndHumidity();
    }

    /**
     * The calibration reads of `__init__`: the 26 bytes from 0x88 and the 7
     * bytes from 0xE1, decoded with `unpack`.
     */
    static method ReadCoefficients(i2c: FakeBus, address: int) returns (cal: Coefficients)
      requires i2c.Valid()
      modifies i2c
      ensures i2c.Valid() && cal == Unpack(old(i2c.mem)[CalibrationBlock1..CalibrationBlock1 + 26],
                                           old(i2c.mem)[CalibrationBlock2..CalibrationBlock2 + 7])
      ensures i2c.mem == old(i2c.mem) && i2c.status == old(i2c.status) && i2c.pointer == old(i2c.pointer)
      ensures i2c.log == old(i2c.log) + [ReadMem(address, CalibrationBlock1, 26), ReadMem(address, CalibrationBlock2, 7)]
    {
      var dig88 := i2c.ReadFromMem(address, CalibrationBlock1, 26);
      var digE1 := i2c.ReadFromMem(address, CalibrationBlock2, 7);
      cal := Unpack(dig88, digE1);
    }

    /** The zeroed scratch buffers `bytearray(1)`, `bytearray(8)` and `array("i", [0, 0, 0])`. */
    static method NewBuffers() returns (b1: array<byte>, b8: array<byte>, a3: array<int>)
      ensures fresh(b1) && fresh(b8) && fresh(a3)
      ensures b1.Length == 1 && b8.Length == 8 && a3.Length == 3
      ensures b1[0] == 0
      ensures forall i :: 0 <= i < 8 ==> b8[i] == 0
      ensures forall i :: 0 <= i < 3 ==> a3[i] == 0
    {
      b1 := new byte[1](_ => 0);
      b8 := new byte[8](_ => 0);
      a3 := new int[3](_ => 0);
    }

    /**
     * The last two start-up writes, both through the one-byte scratch
     * buffer: the filter setting to the config register, then the humidity
     * oversampling to its control register.
     */
    method WriteFilterAndHumidity()
      requires i2c.Valid() && l1.Length == 1 && IsIir(iir) && IsMode(humidityMode)
      modifies i2c, l1
      ensures i2c.Valid() && l1[0] == humidityMode
      ensures i2c.mem == old(i2c.mem) && i2c.status == old(i2c.status) && i2c.pointer == old(i2c.pointer)
      ensures i2c.log == old(i2c.log) + [WriteMem(address, ControlIir, [IirByte(iir)]),
                                         WriteMem(address, ControlHumidity, [humidityMode])]
    {
      l1[0] := IirByte(iir);
      assert l1[..] == [IirByte(iir)];
      i2c.WriteToMem(address, ControlIir, l1[..]);
      l1[0] := humidityMode;
      assert l1[..] == [humidityMode];
      i2c.WriteToMem(address, ControlHumidity, l1[..]);
    }

    /**
     * The whole of `__init__`: ValueError, before any bus transaction, for
     * the first invalid argument; otherwise a driver as Init builds it.
     */
    static method New(temperatureMode: int, pressureMode: int, humidityMode: int,
                      temperatureScale: string, iir: int, address: int, i2c: FakeBus)
      returns (r: Outcome<BME280>)
      requires i2c.Valid()
      modifies i2c
      ensures r.Failed? <==> CheckConfig(temperatureMode, pressureMode, humidityMode, iir, temperatureScale).Some?
      ensures r.Failed? ==> r.error == CheckConfig(temperatureMode, pressureMode, humidityMode, iir, temperatureScale).value
      ensures r.Failed? ==> unchanged(i2c)
      ensures r.Ok? ==>
        var d := r.value;
        fresh(d) && d.Valid() && d.i2c == i2c && d.address == address && d.tFine == 0
        && d.temperatureMode == temperatureMode && d.pressureMode == pressureMode
        && d.humidityMode == humidityMode && d.iir == iir && d.temperatureScale == temperatureScale
        && d.cal == Unpack(old(i2c.mem)[CalibrationBlock1..CalibrationBlock1 + 26],
                           old(i2c.mem)[CalibrationBlock2..CalibrationBlock2 + 7])
        && i2c.mem == old(i2c.mem) && i2c.status == old(i2c.status)
        && i2c.log == old(i2c.log) + SetupLog(address, iir, humidityMode)
    {
      var e := CheckConfig(temperatureMode, pressureMode, humidityMode, iir, temperatureScale);
      if e.Some? {
        return Failed(e.value);
      }
      var d := new BME280.Init(temperatureMode, pressureMode, humidityMode, temperatureScale, iir, address, i2c);
      return Ok(d);
    }

    /**
     * One status read of the poll loop: `unpack('<H', ...)` of two bytes
     * read from the status register, which takes the next queued status word.
     */
    method ReadStatus() returns (word: int)
      requires i2c.Valid()
      modifies i2c
      ensures i2c.Valid() && i2c.mem == old(i2c.mem)
      ensures word == old(i2c.StatusStream())[0] && i2c.status == StatusAfterPolls(old(i2c.status), 1)
      ensures i2c.log == old(i2c.log) + [ReadMem(address, StatusRegister, 2)]
    {
      var data := i2c.ReadFromMem(address, StatusRegister, 2);
      word := U16(data[0], data[1]);
    }

    /**
     * The status read of one poll, with the bookkeeping of the poll loop:
     * after polls earlier reads it returns word number polls of the status
     * stream and extends the log by one more status read.
     */
    method PollStatus(ghost queue: seq<int>, ghost words: seq<int>, ghost log0: seq<Op>, ghost polls: nat)
      returns (word: int)
      requires i2c.Valid() && words == queue + [U16(i2c.mem[StatusRegister], i2c.mem[StatusRegister + 1])]
      requires polls <= |queue| && i2c.status == StatusAfterPolls(queue, polls)
      requires i2c.log == log0 + StatusPolls(address, polls)
      modifies i2c
      ensures i2c.Valid() && i2c.mem == old(i2c.mem)
      ensures word == words[polls] && i2c.status == StatusAfterPolls(queue, polls + 1)
      ensures i2c.log == log0 + StatusPolls(address, polls + 1)
    {
      StreamAfterPolls(queue, i2c.mem, polls);
      word := ReadStatus();
      PollsStep(log0, address, polls);
      StatusAfterPollsStep(queue, polls);
    }

    /**
     * The poll loop of `read_raw_data`: read the status register until its
     * measuring bit is clear.  It stops at the first status word that is not
     * busy, having read every word up to that one.
     */
    method WaitForMeasurement()
      requires i2c.Valid() && Settles(i2c.StatusStream())
      modifies i2c
      ensures i2c.Valid() && i2c.mem == old(i2c.mem)
      ensures var polls := FirstReady(old(i2c.StatusStream())) + 1;
        i2c.status == StatusAfterPolls(old(i2c.status), polls)
        && i2c.log == old(i2c.log) + StatusPolls(address, polls)
    {
      ghost var queue := i2c.status;
      ghost var words := i2c.StatusStream();
      ghost var k := FirstReady(words);
      ghost var log0 := i2c.log;
      var word := PollStatus(queue, words, log0, 0);
      var polls := 1;
      while Busy(word)
        invariant i2c.Valid() && i2c.mem == old(i2c.mem)
        invariant 1 <= polls <= k + 1 && word == words[polls - 1]
        invariant i2c.status == StatusAfterPolls(queue, polls)
        invariant i2c.log == log0 + StatusPolls(address, polls)
        decreases k + 1 - polls
      {
        word := PollStatus(queue, words, log0, polls);
        polls := polls + 1;
      }
      FirstReadyAt(words, polls - 1);
    }

    /**
     * The start of `read_raw_data`: the forced-mode control byte, through the
     * one-byte scratch buffer, to the control register.
     */
    method StartMeasurement()
      requires Valid()
      modifies i2c, l1
      ensures Valid() && l1[0] == ControlByte(pressureMode, temperatureMode)
      ensures i2c.mem == old(i2c.mem) && i2c.status == old(i2c.status)
      ensures i2c.log == old(i2c.log) + [WriteMem(address, Control, [ControlByte(pressureMode, temperatureMode)])]
    {
      ControlByteValue(pressureMode, temperatureMode);
      l1[0] := ControlByte(pressureMode, temperatureMode);
      assert l1[..] == [ControlByte(pressureMode, temperatureMode)];
      i2c.WriteToMem(address, Control, l1[..]);
    }

    /**
     * The end of `read_raw_data`: the burst read of the eight data registers
     * into the scratch buffer, decoded into result[0..3] as temperature,
     * pressure and humidity; the rest of result is left as it was.
     */
    method ReadBurst(result: array<int>)
      requires Valid() && result.Length >= 3
      modifies i2c, l8, result
      ensures Valid() && i2c.mem == old(i2c.mem) && i2c.status == old(i2c.status)
      ensures i2c.log == old(i2c.log) + [ReadMem(address, DataStart, 8)]
      ensures l8[..] == old(i2c.mem)[DataStart..DataStart + 8]
      ensures var s := RawFromBurst(l8[..]); result[0] == s.temp && result[1] == s.press && result[2] == s.hum
      ensures forall i :: 3 <= i < result.Length ==> result[i] == old(result[i])
    {
      i2c.ReadFromMemInto(address, DataStart, l8);
      var raw := RawFromBurst(l8[..]);
      result[0] := raw.temp;
      result[1] := raw.press;
      result[2] := raw.hum;
    }

    /**
     * `read_raw_data(result)`: start a forced measurement, poll the status
     * register until the measuring bit is clear, burst-read the data
     * registers into the scratch buffer and store temperature, pressure and
     * humidity in result[0..3].
     */
    method ReadRawData(result: array<int>)
      requires Valid() && result.Length >= 3
      requires Settles(i2c.StatusStream())
      modifies i2c, l1, l8, result
      ensures Valid() && i2c.mem == old(i2c.mem)
      ensures var polls := FirstReady(old(i2c.StatusStream())) + 1;
        i2c.status == StatusAfterPolls(old(i2c.status), polls)
        && i2c.log == old(i2c.log) + ReadingLog(address, pressureMode, temperatureMode, polls)
      ensures l1[0] == ControlByte(pressureMode, temperatureMode)
      ensures l8[..] == old(i2c.mem)[DataStart..DataStart + 8]
      ensures var s := RawFromBurst(l8[..]); result[0] == s.temp && result[1] == s.press && result[2] == s.hum
      ensures forall i :: 3 <= i < result.Length ==> result[i] == old(result[i])
    {
      ghost var log0 := i2c.log;
      StartMeasurement();
      ghost var write := [WriteMem(address, Control, [ControlByte(pressureMode, temperatureMode)])];
      ghost var log1 := i2c.log;
      WaitForMeasurement();
      ghost var polls := FirstReady(old(i2c.StatusStream())) + 1;
      ghost var log2 := i2c.log;
      assert log2 == log1 + StatusPolls(address, polls);
      ReadBurst(result);
      assert i2c.log == log2 + [ReadMem(address, DataStart, 8)];
      LogSteps(log0, write, StatusPolls(address, polls), [ReadMem(address, DataStart, 8)]);
      assert ReadingLog(address, pressureMode, temperatureMode, polls) == write + StatusPolls(address, polls) + [ReadMem(address, DataStart, 8)];
    }

    /**
     * The reading and computing part of `read_compensated_data`: a raw
     * reading into the scratch array, then t_fine, the temperature, the
     * pressure and the humidity computed stage by stage.
     */
    method Compensate() returns (temp: int, pressure: int, humidity: int)
      requires Valid() && Settles(i2c.StatusStream())
      modifies this`tFine, i2c, l1, l8, l3
      ensures Valid() && i2c.mem == old(i2c.mem)
      ensures var polls := FirstReady(old(i2c.StatusStream())) + 1;
        i2c.status == StatusAfterPolls(old(i2c.status), polls)
        && i2c.log == old(i2c.log) + ReadingLog(address, pressureMode, temperatureMode, polls)
      ensures var raw := RawFromBurst(old(i2c.mem)[DataStart..DataStart + 8]);
        l3[0] == raw.temp && l3[1] == raw.press && l3[2] == raw.hum
        && tFine == TFine(raw.temp, cal) && temp == Temperature(tFine)
        && pressure == Pressure(raw.press, tFine, cal) && humidity == Humidity(raw.hum, tFine, cal)
      ensures forall i :: 0 <= i < 8 ==> l8[i] == old(i2c.mem)[DataStart + i]
    {
      ReadRawData(l3);
      tFine, temp := TemperatureStage(l3[0], cal);
      pressure := PressureStage(l3[1], tFine, cal);
      humidity := HumidityStage(l3[2], tFine, cal);
    }

    /**
     * `read_compensated_data(result)`: the compensated reading written into
     * result when it is a non-empty array and returned in a new
     * three-element array otherwise.
     */
    method ReadCompensatedData(result: array?<int>) returns (r: array<int>)
      requires Valid() && Settles(i2c.StatusStream())
      requires result != null && result.Length > 0 ==> result.Length >= 3
      modifies this`tFine, i2c, l1, l8, l3, result
      ensures Valid() && i2c.mem == old(i2c.mem)
      ensures var polls := FirstReady(old(i2c.StatusStream())) + 1;
        i2c.status == StatusAfterPolls(old(i2c.status), polls)
        && i2c.log == old(i2c.log) + ReadingLog(address, pressureMode, temperatureMode, polls)
      ensures var raw := RawFromBurst(old(i2c.mem)[DataStart..DataStart + 8]);
        tFine == TFine(raw.temp, cal) && r.Length >= 3
        && r[0] == Temperature(tFine) && r[1] == Pressure(raw.press, tFine, cal)
        && r[2] == Humidity(raw.hum, tFine, cal)
        && (r != l3 ==> l3[0] == raw.temp && l3[1] == raw.press && l3[2] == raw.hum)
      ensures result != null && result.Length > 0 ==>
        r == result && forall i :: 3 <= i < r.Length ==> r[i] == old(result[i])
      ensures result == null || result.Length == 0 ==> fresh(r) && r.Length == 3
      ensures forall i :: 0 <= i < 8 ==> l8[i] == old(i2c.mem)[DataStart + i]
    {
      var temp, pressure, humidity := Compensate();
      if result != null && result.Length > 0 {
        result[0] := temp;
        result[1] := pressure;
        result[2] := humidity;
        return result;
      }
      r := new int[] [temp, pressure, humidity];
    }

    /**
     * The integer content of `pressure_precision`: a compensated reading's
     * pressure split into whole pascals and 256ths of a pascal.
     */
    method PressurePrecision() returns (whole: int, fraction: int)
      requires Valid() && Settles(i2c.StatusStream())
      modifies this`tFine, i2c, l1, l8, l3
      ensures Valid() && i2c.mem == old(i2c.mem)
      ensures var raw := RawFromBurst(old(i2c.mem)[DataStart..DataStart + 8]);
        tFine == TFine(raw.temp, cal)
        && Pressure(raw.press, tFine, cal) == 256 * whole + fraction && 0 <= fraction < 256
        && l3[0] == raw.temp && l3[1] == raw.press && l3[2] == raw.hum
      ensures var polls := FirstReady(old(i2c.StatusStream())) + 1;
        i2c.status == StatusAfterPolls(old(i2c.status), polls)
        && i2c.log == old(i2c.log) + ReadingLog(address, pressureMode, temperatureMode, polls)
      ensures forall i :: 0 <= i < 8 ==> l8[i] == old(i2c.mem)[DataStart + i]
    {
      var values := ReadCompensatedData(null);
      var split := PressureSplit(values[1]);
      whole, fraction := split.0, split.1;
    }
  }
}
