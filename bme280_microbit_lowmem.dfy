/**
 * The low-memory BBC micro:bit driver bme280_microbit_lowmem.py.  Its
 * register traffic is that of bme280_microbit.py; it differs in `_short`,
 * which here is an if/else that reads a word as two's complement, and in
 * computing t_fine and the three compensated values inline.
 */
module Bme280MicrobitLowmem {
  import opened PyInt
  import opened Bytes
  import opened I2CBus
  import opened Calibration
  import opened Compensation
  import opened Protocol

  const DefaultAddress := 0x77

  /** `_short(dat)`: an unsigned 16-bit word read as two's complement. */
  function Short(dat: int): (r: int)
    ensures 0 <= dat < 65536 ==> -32768 <= r < 32768 && r % 65536 == dat
    ensures dat <= 32767 ==> r == dat
  {
    if dat > 32767 then dat - 65536 else dat
  }

  /** The intended `_short` of a word read low byte first is its "<h" reading. */
  lemma ShortOfWord(lo: byte, hi: byte)
    ensures Short(U16(lo, hi)) == S16(lo, hi)
  {
  }

  class BME280 {
    var tempMode: int
    var presMode: int
    var humiMode: int
    var iir: int
    var address: int
    var i2c: FakeBus
    var tFine: int
    var cal: Coefficients

    ghost predicate Valid()
      reads this, i2c
    {
      i2c.Valid()
    }

    /**
     * `__init__`: every argument stored as given, t_fine zeroed, the
     * calibration read register by register, then the three start-up writes.
     */
    constructor Init(i2c: FakeBus, tempMode: int, presMode: int, humiMode: int, iir: int, address: int)
      requires i2c.Valid()
      modifies i2c
      ensures Valid() && this.i2c == i2c && this.address == address
      ensures this.tempMode == tempMode && this.presMode == presMode
      ensures this.humiMode == humiMode && this.iir == iir && tFine == 0
      ensures cal == RegisterCoefficients(old(i2c.mem))
      ensures i2c.mem == old(i2c.mem) && i2c.status == old(i2c.status)
      ensures i2c.log == old(i2c.log) + MicrobitCalibrationReads(address)
                         + MicrobitSetupWrites(address, humiMode, iir)
    {
      this.tempMode := tempMode;
      this.presMode := presMode;
      this.humiMode := humiMode;
      this.iir := iir;
      this.address := address;
      this.i2c := i2c;
      tFine := 0;
      new;
      ReadCalibration();
      ghost var log1 := i2c.log;
      Write8(ControlHumidity, humiMode);
      Write8(Control, SleepModeX1);
      Write8(ControlIir, IirByte(iir));
      assert i2c.log == log1 + MicrobitSetupWrites(address, humiMode, iir);
    }

    /** `_read8(reg)`: select the register, then read one byte. */
    method Read8(reg: byte) returns (v: byte)
      requires Valid()
      modifies i2c
      ensures Valid() && i2c.mem == old(i2c.mem) && i2c.status == old(i2c.status)
      ensures i2c.pointer == reg && v == i2c.mem[reg]
      ensures i2c.log == old(i2c.log) + PointerRead(address, reg, 1)
    {
      i2c.Write(address, [reg]);
      var t := i2c.Read(address, 1);
      v := t[0];
    }

    /**
     * `_read16(reg)`: select the register, then read two bytes, low byte
     * first.  From the status register this takes the next status word.
     */
    method Read16(reg: byte) returns (v: int)
      requires Valid() && reg < 255
      modifies i2c
      ensures Valid() && i2c.mem == old(i2c.mem) && i2c.pointer == reg
      ensures 0 <= v < 65536
      ensures reg == StatusRegister ==> v == old(i2c.StatusStream())[0]
      ensures reg != StatusRegister ==> v == U16(i2c.mem[reg], i2c.mem[reg + 1])
      ensures i2c.status == old(i2c.StatusAfter(reg, 2))
      ensures i2c.log == old(i2c.log) + PointerRead(address, reg, 2)
    {
      i2c.Write(address, [reg]);
      var t := i2c.Read(address, 2);
      var lo: int, hi: int := t[0], t[1];
      v := lo + hi * 256;
    }

    /** `_write8(reg, dat)` */
    method Write8(reg: byte, dat: int)
      requires Valid()
      modifies i2c
      ensures Valid() && i2c.mem == old(i2c.mem) && i2c.status == old(i2c.status)
      ensures i2c.log == old(i2c.log) + [Write8Op(address, reg, dat)]
    {
      i2c.Write(address, [reg, LowByte(dat)]);
    }

    /** `_short(_read16(reg))` for a calibration word. */
    method ReadShort(reg: byte) returns (v: int)
      requires Valid() && reg < 255 && reg != StatusRegister
      modifies i2c
      ensures Valid() && i2c.mem == old(i2c.mem) && i2c.status == old(i2c.status)
      ensures v == S16(i2c.mem[reg], i2c.mem[reg + 1])
      ensures i2c.log == old(i2c.log) + PointerRead(address, reg, 2)
    {
      var w := Read16(reg);
      v := Short(w);
      ShortOfWord(i2c.mem[reg], i2c.mem[reg + 1]);
    }

    /** dig_T1 .. dig_T3 from 0x88, 0x8A and 0x8C. */
    method ReadTemperatureCalibration() returns (t1: int, t2: int, t3: int)
      requires Valid()
      modifies i2c
      ensures Valid() && i2c.mem == old(i2c.mem) && i2c.status == old(i2c.status)
      ensures var m := i2c.mem;
        t1 == U16(m[0x88], m[0x89]) && t2 == S16(m[0x8A], m[0x8B]) && t3 == S16(m[0x8C], m[0x8D])
      ensures i2c.log == old(i2c.log) + WordReads(address, 0x88, 3)
    {
      ghost var log0 := i2c.log;
      t1 := Read16(0x88);
      assert i2c.log == log0 + WordReads(address, 0x88, 1);
      t2 := ReadShort(0x8A);
      assert i2c.log == log0 + WordReads(address, 0x88, 2);
      t3 := ReadShort(0x8C);
    }

    /** dig_P1 .. dig_P9 from 0x8E .. 0x9E. */
    method ReadPressureCalibration() returns (p1: int, p2: int, p3: int, p4: int, p5: int,
                                              p6: int, p7: int, p8: int, p9: int)
      requires Valid()
      modifies i2c
      ensures Valid() && i2c.mem == old(i2c.mem) && i2c.status == old(i2c.status)
      ensures var m := i2c.mem;
        p1 == U16(m[0x8E], m[0x8F]) && p2 == S16(m[0x90], m[0x91]) && p3 == S16(m[0x92], m[0x93])
        && p4 == S16(m[0x94], m[0x95]) && p5 == S16(m[0x96], m[0x97]) && p6 == S16(m[0x98], m[0x99])
        && p7 == S16(m[0x9A], m[0x9B]) && p8 == S16(m[0x9C], m[0x9D]) && p9 == S16(m[0x9E], m[0x9F])
      ensures i2c.log == old(i2c.log) + WordReads(address, 0x8E, 9)
    {
      ghost var log0 := i2c.log;
      p1 := Read16(0x8E);
      assert i2c.log == log0 + WordReads(address, 0x8E, 1);
      p2 := ReadShort(0x90);
      assert i2c.log == log0 + WordReads(address, 0x8E, 2);
      p3 := ReadShort(0x92);
      assert i2c.log == log0 + WordReads(address, 0x8E, 3);
      p4 := ReadShort(0x94);
      assert i2c.log == log0 + WordReads(address, 0x8E, 4);
      p5 := ReadShort(0x96);
      assert i2c.log == log0 + WordReads(address, 0x8E, 5);
      p6 := ReadShort(0x98);
      assert i2c.log == log0 + WordReads(address, 0x8E, 6);
      p7 := ReadShort(0x9A);
      assert i2c.log == log0 + WordReads(address, 0x8E, 7);
      p8 := ReadShort(0x9C);
      assert i2c.log == log0 + WordReads(address, 0x8E, 8);
      p9 := ReadShort(0x9E);
    }

    /**
     * dig_H1 .. dig_H6: 0xA1, 0xE1 and 0xE3, then the shared nibble register
     * 0xE5 before the high bytes 0xE4 and 0xE6, then 0xE7 made signed.
     */
    method ReadHumidityCalibration() returns (h1: int, h2: int, h3: int, h4: int, h5: int, h6: int)
      requires Valid()
      modifies i2c
      ensures Valid() && i2c.mem == old(i2c.mem) && i2c.status == old(i2c.status)
      ensures var m := i2c.mem;
        h1 == m[0xA1] && h2 == S16(m[0xE1], m[0xE2]) && h3 == m[0xE3]
        && h4 == Shl(m[0xE4], 4) + m[0xE5] % 16 && h5 == Shl(m[0xE6], 4) + Shr(m[0xE5], 4)
        && h6 == S8(m[0xE7])
      ensures i2c.log == old(i2c.log) + MicrobitHumidityReads(address)
    {
      h1 := Read8(0xA1);
      h2 := ReadShort(0xE1);
      h3 := Read8(0xE3);
      var a := Read8(0xE5);
      var e4 := Read8(0xE4);
      h4 := Shl(e4, 4) + a % 16;
      var e6 := Read8(0xE6);
      h5 := Shl(e6, 4) + Shr(a, 4);
      h6 := Read8(0xE7);
      if h6 > 127 {
        h6 := h6 - 256;
      }
    }

    /** The calibration reads of `__init__`, stored as the coefficients. */
    method ReadCalibration()
      requires Valid()
      modifies this`cal, i2c
      ensures Valid() && i2c.mem == old(i2c.mem) && i2c.status == old(i2c.status)
      ensures cal == RegisterCoefficients(i2c.mem)
      ensures i2c.log == old(i2c.log) + MicrobitCalibrationReads(address)
    {
      ghost var log0 := i2c.log;
      var t1, t2, t3 := ReadTemperatureCalibration();
      var p1, p2, p3, p4, p5, p6, p7, p8, p9 := ReadPressureCalibration();
      var h1, h2, h3, h4, h5, h6 := ReadHumidityCalibration();
      cal := Coefficients(t1, t2, t3, p1, p2, p3, p4, p5, p6, p7, p8, p9, h1, h2, h3, h4, h5, h6);
      LogSteps(log0, WordReads(address, 0x88, 3), WordReads(address, 0x8E, 9), MicrobitHumidityReads(address));
    }
  
    /**
     * The start of `read_raw_data`: forced mode and the oversampling
     * settings to the control register.
     */
    method StartMeasurement()
      requires Valid()
      modifies i2c
      ensures Valid() && i2c.mem == old(i2c.mem) && i2c.status == old(i2c.status)
      ensures i2c.log == old(i2c.log) + [Write8Op(address, Control, ControlByte(presMode, tempMode))]
    {
      Write8(Control, ControlByte(presMode, tempMode));
    }

    /** One `_read16(0xF3)` of the poll loop: the next status word. */
    method ReadStatus() returns (word: int)
      requires Valid()
      modifies i2c
      ensures Valid() && i2c.mem == old(i2c.mem)
      ensures word == old(i2c.StatusStream())[0] && i2c.status == StatusAfterPolls(old(i2c.status), 1)
      ensures i2c.log == old(i2c.log) + PointerRead(address, StatusRegister, 2)
    {
      word := Read16(StatusRegister);
    }

    /**
     * The status read of one poll, with the bookkeeping of the poll loop:
     * after polls earlier reads it returns word number polls of the status
     * stream and extends the log by one more status read.
     */
    method PollStatus(ghost queue: seq<int>, ghost words: seq<int>, ghost log0: seq<Op>, ghost polls: nat)
      returns (word: int)
      requires Valid() && words == queue + [U16(i2c.mem[StatusRegister], i2c.mem[StatusRegister + 1])]
      requires polls <= |queue| && i2c.status == StatusAfterPolls(queue, polls)
      requires i2c.log == log0 + MicrobitStatusPolls(address, polls)
      modifies i2c
      ensures Valid() && i2c.mem == old(i2c.mem)
      ensures word == words[polls] && i2c.status == StatusAfterPolls(queue, polls + 1)
      ensures i2c.log == log0 + MicrobitStatusPolls(address, polls + 1)
    {
      StreamAfterPolls(queue, i2c.mem, polls);
      word := ReadStatus();
      MicrobitPollsStep(log0, address, polls);
      StatusAfterPollsStep(queue, polls);
    }

    /**
     * The poll loop of `read_raw_data`: `_read16(0xF3) & 0x08` until the
     * measuring bit is clear, stopping at the first status word that is not
     * busy.
     */
    method WaitForMeasurement()
      requires Valid() && Settles(i2c.StatusStream())
      modifies i2c
      ensures Valid() && i2c.mem == old(i2c.mem)
      ensures var polls := FirstReady(old(i2c.StatusStream())) + 1;
        i2c.status == StatusAfterPolls(old(i2c.status), polls)
        && i2c.log == old(i2c.log) + MicrobitStatusPolls(address, polls)
    {
      ghost var queue := i2c.status;
      ghost var words := i2c.StatusStream();
      ghost var k := FirstReady(words);
      ghost var log0 := i2c.log;
      var word := PollStatus(queue, words, log0, 0);
      var polls := 1;
      while Busy(word)
        invariant Valid() && i2c.mem == old(i2c.mem)
        invariant 1 <= polls <= k + 1 && word == words[polls - 1]
        invariant i2c.status == StatusAfterPolls(queue, polls)
        invariant i2c.log == log0 + MicrobitStatusPolls(address, polls)
        decreases k + 1 - polls
      {
        word := PollStatus(queue, words, log0, polls);
        polls := polls + 1;
      }
      FirstReadyAt(words, polls - 1);
    }

    /** `((_read8(reg) << 16) | (_read8(reg + 1) << 8) | _read8(reg + 2)) >> 4` */
    method Read20(reg: byte) returns (v: int)
      requires Valid() && reg + 3 <= 256
      modifies i2c
      ensures Valid() && i2c.mem == old(i2c.mem) && i2c.status == old(i2c.status)
      ensures v == Extract20(i2c.mem[reg], i2c.mem[reg + 1], i2c.mem[reg + 2])
      ensures i2c.log == old(i2c.log) + ByteReads(address, reg, 3)
    {
      ghost var log0 := i2c.log;
      var msb := Read8(reg);
      assert i2c.log == log0 + ByteReads(address, reg, 1);
      var lsb := Read8(reg + 1);
      assert i2c.log == log0 + ByteReads(address, reg, 2);
      var xlsb := Read8(reg + 2);
      Extract20Bitwise(msb, lsb, xlsb);
      v := Shr(Or(Or(Shl(msb, 16), Shl(lsb, 8)), xlsb), 4);
    }

    /** `(_read8(0xFD) << 8) | _read8(0xFE)` */
    method ReadHumidityWord() returns (v: int)
      requires Valid()
      modifies i2c
      ensures Valid() && i2c.mem == old(i2c.mem) && i2c.status == old(i2c.status)
      ensures v == Extract16(i2c.mem[0xFD], i2c.mem[0xFE])
      ensures i2c.log == old(i2c.log) + ByteReads(address, 0xFD, 2)
    {
      ghost var log0 := i2c.log;
      var msb := Read8(0xFD);
      assert i2c.log == log0 + ByteReads(address, 0xFD, 1);
      var lsb := Read8(0xFE);
      Extract16Bitwise(msb, lsb);
      v := Or(Shl(msb, 8), lsb);
    }

    /**
     * `read_raw_data()`: start a forced measurement, poll until it is done,
     * read the eight data registers one by one, and return temperature,
     * pressure and humidity.
     */
    method ReadRawData() returns (rawTemp: int, rawPres: int, rawHumi: int)
      requires Valid() && Settles(i2c.StatusStream())
      modifies i2c
      ensures Valid() && i2c.mem == old(i2c.mem)
      ensures var polls := FirstReady(old(i2c.StatusStream())) + 1;
        i2c.status == StatusAfterPolls(old(i2c.status), polls)
        && i2c.log == old(i2c.log) + MicrobitReadingLog(address, presMode, tempMode, polls)
      ensures var s := RawFromBurst(old(i2c.mem)[DataStart..DataStart + 8]);
        rawTemp == s.temp && rawPres == s.press && rawHumi == s.hum
    {
      ghost var log0 := i2c.log;
      StartMeasurement();
      ghost var write := [Write8Op(address, Control, ControlByte(presMode, tempMode))];
      WaitForMeasurement();
      ghost var polls := FirstReady(old(i2c.StatusStream())) + 1;
      ghost var log2 := i2c.log;
      rawPres := Read20(0xF7);
      rawTemp := Read20(0xFA);
      rawHumi := ReadHumidityWord();
      ByteReadsSplit(address, 0xF7, 3, 3);
      ByteReadsSplit(address, 0xF7, 6, 2);
      LogSteps(log2, ByteReads(address, 0xF7, 3), ByteReads(address, 0xFA, 3), ByteReads(address, 0xFD, 2));
      LogSteps(log0, write, MicrobitStatusPolls(address, polls), ByteReads(address, DataStart, 8));
    }

    /**
     * `read_compensated_data()`: a raw reading, then t_fine, the temperature,
     * the pressure and the humidity.
     */
    method ReadCompensatedData() returns (temp: int, pres: int, humi: int)
      requires Valid() && Settles(i2c.StatusStream())
      modifies this`tFine, i2c
      ensures Valid() && i2c.mem == old(i2c.mem)
      ensures var polls := FirstReady(old(i2c.StatusStream())) + 1;
        i2c.status == StatusAfterPolls(old(i2c.status), polls)
        && i2c.log == old(i2c.log) + MicrobitReadingLog(address, presMode, tempMode, polls)
      ensures var raw := RawFromBurst(old(i2c.mem)[DataStart..DataStart + 8]);
        tFine == TFine(raw.temp, cal) && temp == Temperature(tFine)
        && pres == Pressure(raw.press, tFine, cal) && humi == Humidity(raw.hum, tFine, cal)
    {
      var rawTemp, rawPress, rawHum := ReadRawData();
      tFine := TFine(rawTemp, cal);
      temp := Temperature(tFine);
      pres := Pressure(rawPress, tFine, cal);
      humi := Humidity(rawHum, tFine, cal);
    }

    /**
     * The integer content of `pressure_precision`: a compensated reading's
     * pressure split into whole pascals and 256ths of a pascal.
     */
    method PressurePrecision() returns (whole: int, fraction: int)
      requires Valid() && Settles(i2c.StatusStream())
      modifies this`tFine, i2c
      ensures Valid() && i2c.mem == old(i2c.mem)
      ensures var raw := RawFromBurst(old(i2c.mem)[DataStart..DataStart + 8]);
        tFine == TFine(raw.temp, cal)
        && Pressure(raw.press, tFine, cal) == 256 * whole + fraction && 0 <= fraction < 256
      ensures var polls := FirstReady(old(i2c.StatusStream())) + 1;
        i2c.status == StatusAfterPolls(old(i2c.status), polls)
        && i2c.log == old(i2c.log) + MicrobitReadingLog(address, presMode, tempMode, polls)
    {
      var _, p, _ := ReadCompensatedData();
      var split := PressureSplit(p);
      whole, fraction := split.0, split.1;
    }
  }
}
