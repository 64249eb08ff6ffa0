/**
 * The register protocol the drivers speak: the register map, the values they
 * write to the control registers, the worst-case measurement time they wait
 * for, the status-poll condition, the assembly of the raw 20/20/16-bit
 * samples from the data registers, the configuration checks of the validating
 * variants, and the bus transactions each step issues.
 */
module Protocol {
  import opened PyInt
  import opened Bytes
  import opened I2CBus

  const CalibrationBlock1 := 0x88
  const CalibrationBlock2 := 0xE1
  const ControlHumidity := 0xF2
  const Control := 0xF4
  const ControlIir := 0xF5
  const DataStart := 0xF7

  /** Sleep mode with temperature and pressure oversampling x1, written at start-up. */
  const SleepModeX1: byte := 0x24

  /** The oversampling settings OSAMPLE_0 .. OSAMPLE_16, the list 0, 1, 2, 3, 4, 5. */
  predicate IsMode(m: int) { 0 <= m <= 5 }

  /** The settings that contribute to the wait, the list 1, 2, 3, 4, 5 (OSAMPLE_1 .. OSAMPLE_16). */
  predicate IsActive(m: int) { 1 <= m <= 5 }

  /** The filter settings FILTER_OFF .. FILTER_16, the list 0, 1, 2, 3, 4. */
  predicate IsIir(iir: int) { 0 <= iir <= 4 }

  /** The temperature scales CELSIUS, FAHRENHEIT and KELVIN. */
  predicate IsScale(s: string) { s in ["C", "F", "K"] }

  /** The arguments a validating constructor accepts. */
  predicate ValidConfig(tempMode: int, presMode: int, humMode: int, iir: int, scale: string)
  {
    IsMode(tempMode) && IsMode(presMode) && IsMode(humMode) && IsIir(iir) && IsScale(scale)
  }

  datatype Option<T> = None | Some(value: T)

  /** Which argument made a validating constructor raise ValueError. */
  datatype ConfigError = BadTemperatureMode | BadPressureMode | BadHumidityMode | BadIir | BadScale

  /** A validating constructor's outcome: the new driver, or the ValueError it raised. */
  datatype Outcome<T> = Ok(value: T) | Failed(error: ConfigError)

  /**
   * The checks a validating constructor makes, in its order: the first
   * argument found invalid names the error.
   */
  function CheckConfig(tempMode: int, presMode: int, humMode: int, iir: int, scale: string): (e: Option<ConfigError>)
    ensures e == None <==> ValidConfig(tempMode, presMode, humMode, iir, scale)
    ensures e == Some(BadTemperatureMode) <==> !IsMode(tempMode)
    ensures e == Some(BadPressureMode) <==> IsMode(tempMode) && !IsMode(presMode)
    ensures e == Some(BadHumidityMode) <==> IsMode(tempMode) && IsMode(presMode) && !IsMode(humMode)
    ensures e == Some(BadIir) <==> IsMode(tempMode) && IsMode(presMode) && IsMode(humMode) && !IsIir(iir)
    ensures e == Some(BadScale) <==> IsMode(tempMode) && IsMode(presMode) && IsMode(humMode) && IsIir(iir) && !IsScale(scale)
  {
    if !IsMode(tempMode) then Some(BadTemperatureMode)
    else if !IsMode(presMode) then Some(BadPressureMode)
    else if !IsMode(humMode) then Some(BadHumidityMode)
    else if !IsIir(iir) then Some(BadIir)
    else if !IsScale(scale) then Some(BadScale)
    else None
  }

  /** `pres_mode << 5 | temp_mode << 2 | 1`: oversampling settings and forced mode. */
  function ControlByte(presMode: int, tempMode: int): int
  {
    Or(Or(Shl(presMode, 5), Shl(tempMode, 2)), 1)
  }

  /**
   * For settings that fit their 3-bit fields the control byte is a byte whose
   * mode bits 1..0 select forced mode (01) and whose fields 4..2 and 7..5 give
   * back the temperature and pressure settings.
   */
  lemma ControlByteFields(presMode: int, tempMode: int)
    requires 0 <= presMode < 8 && 0 <= tempMode < 8
    ensures ControlByte(presMode, tempMode) == 32 * presMode + 4 * tempMode + 1
    ensures 0 <= ControlByte(presMode, tempMode) < 256
    ensures ControlByte(presMode, tempMode) % 4 == 1
    ensures (ControlByte(presMode, tempMode) / 4) % 8 == tempMode
    ensures ControlByte(presMode, tempMode) / 32 == presMode
  {
    ControlByteValue(presMode, tempMode);
    var r := 32 * presMode + 4 * tempMode + 1;
    DivModUnique(r, 4, 8 * presMode + tempMode, 1);
    DivModUnique(8 * presMode + tempMode, 8, presMode, tempMode);
    DivModUnique(r, 32, presMode, 4 * tempMode + 1);
  }

  lemma ControlByteValue(presMode: int, tempMode: int)
    requires 0 <= presMode < 8 && 0 <= tempMode < 8
    ensures ControlByte(presMode, tempMode) == 32 * presMode + 4 * tempMode + 1
  {
    assert Pow2(2) == 4 && Pow2(5) == 32;
    var t := Shl(tempMode, 2);
    assert t == 4 * tempMode;
    OrShiftedLow(presMode, t, 5);
    var x := Shl(presMode, 5) + t;
    assert x == Shl(8 * presMode + tempMode, 2);
    OrShiftedLow(8 * presMode + tempMode, 1, 2);
  }

  /** Two settings pairs that fit their fields give equal control bytes only if equal. */
  lemma ControlByteInjective(p1: int, t1: int, p2: int, t2: int)
    requires 0 <= p1 < 8 && 0 <= t1 < 8 && 0 <= p2 < 8 && 0 <= t2 < 8
    requires ControlByte(p1, t1) == ControlByte(p2, t2)
    ensures p1 == p2 && t1 == t2
  {
    ControlByteFields(p1, t1);
    ControlByteFields(p2, t2);
  }

  /** The start-up value 0x24: mode bits 00 (sleep), temperature and pressure x1. */
  lemma SleepModeX1Fields()
    ensures SleepModeX1 % 4 == 0 && (SleepModeX1 / 4) % 8 == 1 && SleepModeX1 / 32 == 1
  {
  }

  /** `iir << 2`: the filter setting in bits 4..2 of the config register. */
  function IirByte(iir: int): (r: int)
    ensures 0 <= iir < 8 ==> 0 <= r < 32 && r % 4 == 0 && r / 4 == iir
  {
    assert Pow2(2) == 4;
    Shl(iir, 2)
  }

  /** `2300 * (1 << m)` when m is one of 1..5, and nothing otherwise. */
  function ModeTime(m: int): (r: int)
    ensures IsActive(m) ==> 4600 <= r <= 73600
    ensures !IsActive(m) ==> r == 0
  {
    if IsActive(m) then
      assert Pow2(1) == 2 && Pow2(5) == 32;
      assert 1 < m ==> Pow2(1) < Pow2(m);
      assert m < 5 ==> Pow2(m) < Pow2(5) by {
        if m < 5 { Pow2Strict(m, 5); }
      }
      2300 * Shl(1, m)
    else 0
  }

  /**
   * The worst-case measurement time in microseconds that read_raw_data
   * sleeps for: 1250 plus, for each sensor whose setting is one of 1..5,
   * 2300 * 2^setting, and 575 more for pressure and humidity.
   */
  function WaitTime(tempMode: int, presMode: int, humMode: int): (r: int)
    ensures 1250 <= r <= 223200
    ensures !IsActive(tempMode) && !IsActive(presMode) && !IsActive(humMode) ==> r == 1250
  {
    var sleepTime := 1250;
    var sleepTime := if IsActive(tempMode) then sleepTime + ModeTime(tempMode) else sleepTime;
    var sleepTime := if IsActive(presMode) then sleepTime + 575 + ModeTime(presMode) else sleepTime;
    if IsActive(humMode) then sleepTime + 575 + ModeTime(humMode) else sleepTime
  }

  /** The oversampling ratio a setting selects in the datasheet: 0 (skipped), 1, 2, 4, 8, 16. */
  function OversamplingRatio(m: int): (r: int)
    ensures IsActive(m) ==> r == Pow2(m - 1)
    ensures !IsActive(m) ==> r == 0
  {
    if IsActive(m) then Shl(1, m - 1) else 0
  }

  /**
   * The maximum measurement time of section 9.1 of the Bosch BME280 datasheet,
   * in microseconds: 1250 + 2300 * T_os + (2300 * P_os + 575) + (2300 * H_os + 575),
   * the bracketed terms only for sensors that are not skipped.
   */
  function DatasheetMaxTime(tempMode: int, presMode: int, humMode: int): int
  {
    1250
    + 2300 * OversamplingRatio(tempMode)
    + (if IsActive(presMode) then 2300 * OversamplingRatio(presMode) + 575 else 0)
    + (if IsActive(humMode) then 2300 * OversamplingRatio(humMode) + 575 else 0)
  }

  /**
   * The driver's `1 << mode` doubles every datasheet ratio, so its wait is
   * twice the datasheet's maximum less the fixed parts counted once.
   */
  lemma WaitTimeVersusDatasheet(tempMode: int, presMode: int, humMode: int)
    ensures WaitTime(tempMode, presMode, humMode)
         == 2 * DatasheetMaxTime(tempMode, presMode, humMode) - 1250
            - (if IsActive(presMode) then 575 else 0)
            - (if IsActive(humMode) then 575 else 0)
    ensures WaitTime(tempMode, presMode, humMode) >= DatasheetMaxTime(tempMode, presMode, humMode)
    ensures WaitTime(tempMode, presMode, humMode) == DatasheetMaxTime(tempMode, presMode, humMode)
        <==> !IsActive(tempMode) && !IsActive(presMode) && !IsActive(humMode)
  {
    ModeTimeDoubles(tempMode);
    ModeTimeDoubles(presMode);
    ModeTimeDoubles(humMode);
  }

  lemma ModeTimeDoubles(m: int)
    ensures ModeTime(m) == 2 * 2300 * OversamplingRatio(m)
  {
    if IsActive(m) {
      assert Pow2(m) == 2 * Pow2(m - 1);
    }
  }

  /** A higher setting for any one sensor never shortens the wait. */
  lemma WaitTimeMonotone(t1: int, p1: int, h1: int, t2: int, p2: int, h2: int)
    requires 0 <= t1 <= t2 <= 5 && 0 <= p1 <= p2 <= 5 && 0 <= h1 <= h2 <= 5
    ensures WaitTime(t1, p1, h1) <= WaitTime(t2, p2, h2)
  {
    ModeTimeMonotone(t1, t2);
    ModeTimeMonotone(p1, p2);
    ModeTimeMonotone(h1, h2);
  }

  lemma ModeTimeMonotone(m1: int, m2: int)
    requires 0 <= m1 <= m2 <= 5
    ensures ModeTime(m1) <= ModeTime(m2)
  {
    if 1 <= m1 < m2 {
      Pow2Strict(m1, m2);
    }
  }

  /** The default settings x2, x16, x1 wait 89.8 ms, where the datasheet maximum is 46.1 ms. */
  lemma DefaultWaitTime()
    ensures WaitTime(2, 5, 1) == 89800
    ensures DatasheetMaxTime(2, 5, 1) == 46100
  {
    assert Pow2(1) == 2 && Pow2(2) == 4 && Pow2(4) == 16 && Pow2(5) == 32;
  }

  /**
   * `((msb << 16) | (lsb << 8) | xlsb) >> 4`: a 20-bit value from three
   * registers, written arithmetically (Extract20Bitwise proves the two forms
   * equal).
   */
  function Extract20(msb: byte, lsb: byte, xlsb: byte): (r: int)
    ensures 0 <= r < 1048576
  {
    (65536 * msb + 256 * lsb + xlsb) / 16
  }

  lemma Extract20Bitwise(msb: byte, lsb: byte, xlsb: byte)
    ensures Extract20(msb, lsb, xlsb) == Shr(Or(Or(Shl(msb, 16), Shl(lsb, 8)), xlsb), 4)
  {
    assert Pow2(4) == 16 && Pow2(8) == 256 && Pow2(16) == 65536;
    OrShiftedLow(msb, Shl(lsb, 8), 16);
    assert Shl(msb, 16) + Shl(lsb, 8) == Shl(256 * msb + lsb, 8);
    OrShiftedLow(256 * msb + lsb, xlsb, 8);
  }

  /** `(msb << 8) | lsb`: a 16-bit value from two registers, little-endian U16 of (lsb, msb). */
  function Extract16(msb: byte, lsb: byte): (r: int)
    ensures 0 <= r < 65536
  {
    U16(lsb, msb)
  }

  lemma Extract16Bitwise(msb: byte, lsb: byte)
    ensures Extract16(msb, lsb) == Or(Shl(msb, 8), lsb)
  {
    assert Pow2(8) == 256;
    OrShiftedLow(msb, lsb, 8);
  }

  /** The three raw readings, in the order the drivers hand them on. */
  datatype RawSample = RawSample(temp: int, press: int, hum: int)

  predicate RawRanges(s: RawSample)
  {
    0 <= s.temp < 1048576 && 0 <= s.press < 1048576 && 0 <= s.hum < 65536
  }

  /**
   * The eight data registers 0xF7..0xFE decoded: pressure from the first
   * three, temperature from the next three, humidity from the last two.
   */
  function RawFromBurst(b: seq<byte>): (s: RawSample)
    requires |b| == 8
    ensures RawRanges(s)
  {
    RawSample(Extract20(b[3], b[4], b[5]), Extract20(b[0], b[1], b[2]), Extract16(b[6], b[7]))
  }

  /** The three registers a 20-bit value occupies, with the unused low nibble of xlsb. */
  function Registers20(v: int, low: int): (r: seq<byte>)
    requires 0 <= v < 1048576 && 0 <= low < 16
    ensures |r| == 3
  {
    [v / 4096, (v / 16) % 256, (v % 16) * 16 + low]
  }

  /** The data registers a sample is read from, given the unused nibbles. */
  function BurstOf(s: RawSample, pressLow: int, tempLow: int): (b: seq<byte>)
    requires RawRanges(s) && 0 <= pressLow < 16 && 0 <= tempLow < 16
    ensures |b| == 8
  {
    Registers20(s.press, pressLow) + Registers20(s.temp, tempLow) + [s.hum / 256, s.hum % 256]
  }

  lemma Extract20Registers(v: int, low: int)
    requires 0 <= v < 1048576 && 0 <= low < 16
    ensures var r := Registers20(v, low); Extract20(r[0], r[1], r[2]) == v
  {
    var r := Registers20(v, low);
    var r0: int, r1: int, r2: int := r[0], r[1], r[2];
    assert 65536 * r0 + 256 * r1 + r2 == 16 * v + low;
  }

  /** Every sample in range is decoded from its registers, whatever the unused nibbles. */
  lemma RawFromBurstOf(s: RawSample, pressLow: int, tempLow: int)
    requires RawRanges(s) && 0 <= pressLow < 16 && 0 <= tempLow < 16
    ensures RawFromBurst(BurstOf(s, pressLow, tempLow)) == s
  {
    var b := BurstOf(s, pressLow, tempLow);
    Extract20Registers(s.press, pressLow);
    Extract20Registers(s.temp, tempLow);
    assert b[..3] == Registers20(s.press, pressLow);
    assert b[3..6] == Registers20(s.temp, tempLow);
  }

  lemma Registers20Of(msb: byte, lsb: byte, xlsb: byte)
    ensures Registers20(Extract20(msb, lsb, xlsb), xlsb % 16) == [msb, lsb, xlsb]
  {
    var m: int, l: int, x: int := msb, lsb, xlsb;
    var v := Extract20(msb, lsb, xlsb);
    DivModUnique(65536 * m + 256 * l + x, 16, 4096 * m + 16 * l + x / 16, x % 16);
    assert v == 4096 * m + 16 * l + x / 16;
    DivModUnique(v, 4096, m, 16 * l + x / 16);
    DivModUnique(v, 16, 256 * m + l, x / 16);
    DivModUnique(256 * m + l, 256, m, l);
  }

  /** And the registers are recovered from the decoded sample and the discarded nibbles. */
  lemma BurstOfRawFrom(b: seq<byte>)
    requires |b| == 8
    ensures BurstOf(RawFromBurst(b), b[2] % 16, b[5] % 16) == b
  {
    var s := RawFromBurst(b);
    Registers20Of(b[0], b[1], b[2]);
    Registers20Of(b[3], b[4], b[5]);
    assert [s.hum / 256, s.hum % 256] == b[6..];
    assert b == b[..3] + b[3..6] + b[6..];
  }

  /** `word & 0x08`: the status register's "measuring" bit, bit 3. */
  function Busy(word: int): bool
  {
    (word / 8) % 2 == 1
  }

  lemma BusyBitwise(word: int)
    ensures Busy(word) <==> And(word, 8) != 0
  {
    assert Pow2(3) == 8;
    AndSingleBit(word, 3);
  }

  /** The poll loop ends on this sequence of status words: one of them is not busy. */
  predicate Settles(words: seq<int>)
  {
    exists i :: 0 <= i < |words| && !Busy(words[i])
  }

  lemma SettlesTail(words: seq<int>)
    requires Settles(words) && Busy(words[0])
    ensures Settles(words[1..])
  {
    var i :| 0 <= i < |words| && !Busy(words[i]);
    assert words[1..][i - 1] == words[i];
  }

  /** The index of the status word the poll loop stops at: the first that is not busy. */
  function FirstReady(words: seq<int>): (k: nat)
    requires Settles(words)
    ensures k < |words| && !Busy(words[k])
    ensures forall j :: 0 <= j < k ==> Busy(words[j])
  {
    if !Busy(words[0]) then 0
    else
      SettlesTail(words);
      1 + FirstReady(words[1..])
  }

  /** A word that is not busy, at or before the first ready one, is the first ready one. */
  lemma FirstReadyAt(words: seq<int>, i: nat)
    requires Settles(words) && i <= FirstReady(words) && i < |words| && !Busy(words[i])
    ensures i == FirstReady(words)
  {
  }

  /** The queue of status words left after n status reads. */
  function StatusAfterPolls(status: seq<int>, n: nat): (s: seq<int>)
    ensures |s| == if n <= |status| then |status| - n else 0
  {
    if n <= |status| then status[n..] else []
  }

  /** ops repeated n times. */
  function Repeat(ops: seq<Op>, n: nat): (r: seq<Op>)
    ensures |r| == n * |ops|
  {
    if n == 0 then [] else Repeat(ops, n - 1) + ops
  }

  /** A log extended by three steps is the log extended by their concatenation. */
  lemma LogSteps(log: seq<Op>, a: seq<Op>, b: seq<Op>, c: seq<Op>)
    ensures log + a + b + c == log + (a + b + c)
  {
  }

  /** The transactions of n status reads through `readfrom_mem`. */
  function StatusPolls(addr: int, n: nat): seq<Op>
  {
    Repeat([ReadMem(addr, StatusRegister, 2)], n)
  }

  /** One more status read extends the log by one transaction. */
  lemma PollsStep(log: seq<Op>, addr: int, n: nat)
    ensures log + StatusPolls(addr, n) + [ReadMem(addr, StatusRegister, 2)] == log + StatusPolls(addr, n + 1)
  {
    assert StatusPolls(addr, n + 1) == StatusPolls(addr, n) + [ReadMem(addr, StatusRegister, 2)];
  }

  /** One more status read takes one more word off the queue. */
  lemma StatusAfterPollsStep(status: seq<int>, n: nat)
    ensures StatusAfterPolls(StatusAfterPolls(status, n), 1) == StatusAfterPolls(status, n + 1)
  {
  }

  /**
   * After n status reads, the stream of words still to come is the original
   * stream without its first n words.
   */
  lemma StreamAfterPolls(status: seq<int>, mem: seq<byte>, n: nat)
    requires |mem| == 256 && n <= |status|
    ensures var last := [U16(mem[StatusRegister], mem[StatusRegister + 1])];
      StatusAfterPolls(status, n) + last == (status + last)[n..]
  {
  }

  /** One more micro:bit status read extends the log by one register read. */
  lemma MicrobitPollsStep(log: seq<Op>, addr: int, n: nat)
    ensures log + MicrobitStatusPolls(addr, n) + PointerRead(addr, StatusRegister, 2)
            == log + MicrobitStatusPolls(addr, n + 1)
  {
    assert MicrobitStatusPolls(addr, n + 1) == MicrobitStatusPolls(addr, n) + PointerRead(addr, StatusRegister, 2);
  }

  /** A micro:bit register read: select the register, then read len bytes. */
  function PointerRead(addr: int, reg: byte, len: int): seq<Op>
  {
    [Send(addr, [reg]), Receive(addr, len)]
  }

  /** The transactions of n status reads on the micro:bit. */
  function MicrobitStatusPolls(addr: int, n: nat): seq<Op>
  {
    Repeat(PointerRead(addr, StatusRegister, 2), n)
  }

  /**
   * The transactions of a validating construction that passes its checks: both
   * calibration blocks are read, then sleep mode is written to the control
   * register, the filter setting to the config register and the humidity
   * oversampling to its control register, in that order.
   */
  function SetupLog(addr: int, iir: int, humidityMode: int): seq<Op>
    requires IsIir(iir) && IsMode(humidityMode)
  {
    [ReadMem(addr, CalibrationBlock1, 26), ReadMem(addr, CalibrationBlock2, 7),
     WriteMem(addr, Control, [SleepModeX1]),
     WriteMem(addr, ControlIir, [IirByte(iir)]),
     WriteMem(addr, ControlHumidity, [humidityMode])]
  }

  /**
   * The transactions of one raw reading: the forced-mode control byte, polls
   * status reads, then the burst read of the eight data registers.
   */
  function ReadingLog(addr: int, pressureMode: int, temperatureMode: int, polls: nat): seq<Op>
    requires IsMode(pressureMode) && IsMode(temperatureMode)
  {
    ControlByteValue(pressureMode, temperatureMode);
    [WriteMem(addr, Control, [ControlByte(pressureMode, temperatureMode)])]
    + StatusPolls(addr, polls)
    + [ReadMem(addr, DataStart, 8)]
  }

  /** n micro:bit word reads of consecutive 16-bit registers from reg on. */
  function WordReads(addr: int, reg: byte, n: nat): (r: seq<Op>)
    requires reg + 2 * n <= 256
    ensures |r| == 2 * n
  {
    if n == 0 then [] else WordReads(addr, reg, n - 1) + PointerRead(addr, reg + 2 * (n - 1), 2)
  }

  /** n micro:bit single-byte reads of consecutive registers from reg on. */
  function ByteReads(addr: int, reg: byte, n: nat): (r: seq<Op>)
    requires reg + n <= 256
    ensures |r| == 2 * n
  {
    if n == 0 then [] else ByteReads(addr, reg, n - 1) + PointerRead(addr, reg + n - 1, 1)
  }

  /** Consecutive single-byte reads split at any point. */
  lemma {:induction false} ByteReadsSplit(addr: int, reg: byte, m: nat, n: nat)
    requires reg + m < 256 && reg + m + n <= 256
    ensures ByteReads(addr, reg, m + n) == ByteReads(addr, reg, m) + ByteReads(addr, reg + m, n)
    decreases n
  {
    if n > 0 {
      ByteReadsSplit(addr, reg, m, n - 1);
      assert ByteReads(addr, reg, m + n) == ByteReads(addr, reg, m + n - 1) + PointerRead(addr, reg + m + n - 1, 1);
      assert ByteReads(addr, reg + m, n) == ByteReads(addr, reg + m, n - 1) + PointerRead(addr, reg + m + n - 1, 1);
    }
  }

  /**
   * The humidity calibration reads of the micro:bit variants, in their order:
   * dig_H1 at 0xA1, dig_H2 at 0xE1, dig_H3 at 0xE3, then 0xE5 before 0xE4 and
   * 0xE6, and 0xE7.
   */
  function MicrobitHumidityReads(addr: int): seq<Op>
  {
    PointerRead(addr, 0xA1, 1) + PointerRead(addr, 0xE1, 2) + PointerRead(addr, 0xE3, 1)
    + PointerRead(addr, 0xE5, 1) + PointerRead(addr, 0xE4, 1) + PointerRead(addr, 0xE6, 1)
    + PointerRead(addr, 0xE7, 1)
  }

  /**
   * The calibration reads of the micro:bit variants: the three temperature
   * words from 0x88, the nine pressure words from 0x8E, then the humidity
   * registers.
   */
  function MicrobitCalibrationReads(addr: int): seq<Op>
  {
    WordReads(addr, 0x88, 3) + WordReads(addr, 0x8E, 9) + MicrobitHumidityReads(addr)
  }

  /**
   * `_write8(reg, dat)`: one plain write of the register and the value.  A
   * bytearray keeps only the low eight bits of each element.
   */
  function Write8Op(addr: int, reg: byte, dat: int): Op
  {
    Send(addr, [reg, LowByte(dat)])
  }

  /**
   * The start-up writes of the micro:bit variants, in their order: the
   * humidity oversampling, sleep mode, then the filter setting.
   */
  function MicrobitSetupWrites(addr: int, humMode: int, iir: int): seq<Op>
  {
    [Write8Op(addr, ControlHumidity, humMode), Write8Op(addr, Control, SleepModeX1),
     Write8Op(addr, ControlIir, IirByte(iir))]
  }

  /**
   * The transactions of one micro:bit raw reading: the control byte, polls
   * status word reads, then single-byte reads of the eight data registers.
   */
  function MicrobitReadingLog(addr: int, presMode: int, tempMode: int, polls: nat): seq<Op>
  {
    [Write8Op(addr, Control, ControlByte(presMode, tempMode))]
    + MicrobitStatusPolls(addr, polls)
    + ByteReads(addr, DataStart, 8)
  }
}
