# BME280 MicroPython drivers: integer core in Dafny

This project models the integer core of four MicroPython drivers for the
Bosch BME280 temperature, pressure and humidity sensor:

- `bme280.py`, the general driver;
- `bme280_lowmem.py`, its low-memory variant;
- `bme280_microbit.py`, the driver for the BBC micro:bit;
- `bme280_microbit_lowmem.py`, the low-memory micro:bit driver.

The model covers:

- the decoding of the factory calibration coefficients;
- the fixed-point compensation of temperature (with `t_fine`), pressure and humidity;
- the register protocol: the control and filter bytes, the measurement wait time, 20- and 16-bit sample extraction, and status polling;
- each driver's object state: the constructor, the calibration reads, the start-up writes, a forced-mode reading with its poll loop, the compensated reading and `pressure_precision`.

Modules:

- `PyInt` gives Python's integer operators on unbounded integers:
  - `>>` floors and `//` floors;
  - `<<`, `|` and `&` use two's-complement semantics.
- `Bytes` gives the `ustruct` formats `<B`, `<b`, `<H` and `<h`.
- `Calibration` holds:
  - the coefficient record;
  - the `unpack` decoding used by `bme280.py` and `bme280_lowmem.py`, with its inverse `Pack`;
  - the register-by-register decoding of the micro:bit drivers.
- `Compensation` holds:
  - the compensation formulas as functions;
  - the same computation as step-by-step methods;
  - bounds, and lemmas tying the literal-power-of-two form to the shift form.
- `Protocol` holds:
  - configuration checking, the control, sleep and filter bytes, and the wait time;
  - sample extraction and its inverse;
  - the status-poll specification;
  - the transaction logs each driver operation issues.
- `I2CBus` is a fake bus. It holds:
  - the sensor's 256 registers;
  - a queue of status words returned by successive reads of the status register (the sensor's "measuring" bit over time);
  - the register pointer that a micro:bit plain write selects;
  - a log of every transaction.

  Writes are logged, not applied to the registers.
- `Bme280`, `Bme280Lowmem`, `Bme280Microbit` and `Bme280MicrobitLowmem` hold one `BME280` class per driver file. Each class has the fields the source updates. Its methods state the new driver state, the values read, and the exact transaction log.

Each class reading terminates because the status queue must eventually hold a word with the measuring bit clear (`Settles`). The loop then stops at the first such word, `FirstReady`, having issued exactly that many status reads.

Points where the code and its own description differ. The model follows the code in each case, including the inverted `_short` of `bme280_microbit.py` (see "## Findings"):

- **Wait time.** The wait before polling adds `2300 * (1 << mode)` µs per active channel. That gives 89800 µs for the default modes (2, 5, 1). The code's comment (`bme280.py:64-67`) computes the datasheet maximum, 46.1 ms, which uses oversampling `2^(mode-1)`. A figure of 90000 µs that is sometimes quoted for these defaults is an arithmetic slip. `DefaultWaitTime` and `WaitTimeVersusDatasheet` state the exact relation: the code's time is never below the datasheet's.
- **`dig_T2 >> 11`.** Temperature shifts `dig_T2` right by 11 before multiplying. The datasheet shifts the product instead. `TempVar1DiffersFromDatasheet` shows the two disagree on the datasheet's own example.
- **micro:bit `dig_H4` and `dig_H5`.** The micro:bit drivers read the high byte of `dig_H4` and `dig_H5` unsigned. `bme280.py` reads it signed. For `bme280_microbit_lowmem.py`, `RegisterVersusUnpack` shows the decodings agree except that these two differ by 4096 when the high byte's top bit is set.
- **micro:bit signed words.** `bme280_microbit.py` passes dig_T2, dig_T3, dig_P2..dig_P9 and dig_H2 through its inverted `_short`. Its class is modelled with that decoding, `Bme280Microbit.RegisterCoefficientsAsWritten`, so its coefficients and every compensated value computed from them carry the error. `AsWrittenVersusRegister` shows each of the eleven words is 65536 away from the two's-complement reading, while the other seven fields agree with it.
- **`__init__` argument order.** In `bme280.py` and `bme280_lowmem.py`, `__init__` places the non-default parameter `i2c` after parameters with defaults. Python rejects that, so the model takes every argument explicitly. Their error message `'... {} ... {0}.'.format(...)` mixes automatic and manual field numbering, which itself raises `ValueError`. The model keeps only which check fails.

## Model

| member | source | states |
|---|---|---|
| PyInt.Shr | bme280.py:224-260 | `x >> k` floors: `2^k * r <= x < 2^k * r + 2^k`, also for negative x |
| PyInt.FloorDiv | bme280.py:245 | `a // b` floors for either sign of divisor: the remainder lies between 0 and b |
| Bytes.S8 | bme280.py:133-139 | `<b`: a byte read as a signed value in [-128, 128) congruent to it mod 256 |
| Bytes.U16 | bme280.py:130 | `<H`: little-endian word in [0, 65536) whose low byte is lo and high byte is hi |
| Bytes.S16 | bme280.py:130-132 | `<h`: signed word in [-32768, 32768) congruent to the unsigned word mod 65536 |
| Bytes.S8RoundTrip | bme280.py:133-139 | every signed byte value is recovered from its low byte by `<b` |
| Bytes.S16RoundTrip | bme280.py:130-132 | every signed 16-bit value is recovered from its two bytes by `<h` |
| Bytes.U16RoundTrip | bme280.py:130 | every unsigned 16-bit value is recovered from its two bytes by `<H` |
| Bytes.S16Bytes | bme280.py:130-132 | `<h` keeps both bytes of the word it decodes |
| Bytes.U16Bytes | bme280.py:130 | `<H` keeps both bytes of the word it decodes |
| Bytes.S8Boundaries | bme280.py:133 | `<b` maps 0x00, 0x7F, 0x80, 0xFF to 0, 127, -128, -1 |
| Calibration.PackedH4 | bme280.py:133-134 | dig_H4 is 16 times the signed byte at 0xE4 plus the low nibble of 0xE5 |
| Calibration.PackedH5 | bme280.py:136-137 | dig_H5 is 16 times the signed byte at 0xE6 plus the high nibble of 0xE5 |
| Calibration.Unpack | bme280.py:125-139 | decoding the 26- and 7-byte blocks gives every coefficient in its declared range (T1, P1 unsigned 16; others signed 16; H1, H3 unsigned 8; H4, H5 signed 12; H6 signed 8) |
| Calibration.NibblesRoundTrip | bme280.py:133-137 | a signed 12-bit value splits into a signed high byte and a nibble that reassemble it |
| Calibration.UnpackPack | bme280.py:125-139 | decoding the encoding of any in-range coefficient record gives the record back |
| Calibration.UnpackPackWords | bme280.py:127-130 | the temperature and pressure words of any in-range record survive encoding and decoding |
| Calibration.UnpackPackHumidity | bme280.py:130-139 | the humidity coefficients of any in-range record survive encoding and decoding, the shared nibble byte included |
| Calibration.PackUnpack | bme280.py:125-139 | encoding a decoded pair of blocks gives the blocks back, except the skipped byte at 0xA0 |
| Calibration.PackUnpackFirst | bme280.py:127-130 | the first block is reproduced by encoding its decoding, the skipped byte as zero |
| Calibration.PackUnpackSecond | bme280.py:132-139 | the second block is reproduced exactly by encoding its decoding |
| Calibration.UnpackIgnoresByte24 | bme280.py:130 | the byte that the `_` of the format string binds does not affect the coefficients |
| Calibration.RegisterCoefficients | bme280_microbit_lowmem.py:20-40 | the register-by-register decoding, signed words through the two's-complement `_short`, yields coefficients in its ranges (H4, H5 from unsigned high bytes) |
| Calibration.RegisterVersusUnpack | bme280_microbit_lowmem.py:20-40 | on the same registers the register-by-register and `unpack` decodings agree except for dig_H4 and dig_H5, which differ by 4096 exactly when the high byte is at least 0x80 |
| Calibration.RegisterDivergesOnNegativeH4 | bme280_microbit_lowmem.py:36 | with 0x80 at 0xE4 the two decodings give dig_H4 = -2048 and 2048 |
| Compensation.Temperature | bme280.py:231 | `(t_fine*5 + 128) >> 8` is 5*t_fine/256 rounded to nearest: `256r - 128 <= 5 t_fine < 256r + 128` |
| Compensation.Pressure | bme280.py:233-248 | pressure is 0 when the divisor var1 is 0 (the division guard) |
| Compensation.ClampHumidity | bme280.py:258-259 | the clamp keeps values in [0, 419430400], sends negatives to 0, caps at 419430400, and leaves in-range values alone |
| Compensation.Humidity | bme280.py:250-260 | humidity lies in [0, 102400], is the clamped value shifted right by 12, is 0 below 4096 and 102400 at the cap |
| Compensation.PressureSplit | bme280.py:307-309 | `p // 256` and `p % 256`: p = 256 * whole + fraction with 0 <= fraction < 256 |
| Compensation.TemperatureStage | bme280.py:223-231 | the step-by-step computation yields t_fine and the temperature of the formulas |
| Compensation.PressureStage | bme280.py:233-248 | the step-by-step pressure computation, guarded division included, equals the pressure formula |
| Compensation.HumidityStage | bme280.py:250-260 | the step-by-step humidity computation equals the humidity formula |
| Compensation.ShiftFormsTemperature | bme280.py:224-231 | the temperature formulas equal the source's expressions written with `>>` and `<<` |
| Compensation.ShiftFormsPressure | bme280.py:234-248 | the pressure intermediates and result equal the source's shift expressions |
| Compensation.ShiftFormsHumidity | bme280.py:251-257 | the unclamped humidity equals the source's nested shift expression |
| Compensation.ShiftFormsHumidityProduct | bme280.py:252-256 | the first humidity statement equals its shift form |
| Compensation.ShiftFormsHumidityCorrection | bme280.py:257 | the dig_H1 correction equals its shift form |
| Compensation.ShiftFormHumidityClamped | bme280.py:258-260 | humidity is the clamped value `>> 12` |
| Compensation.TempVar1Bound | bme280.py:224 | for a 20-bit raw temperature and 16-bit T1, T2, var1 stays within ±2097136 |
| Compensation.TempVar2Bound | bme280.py:226-228 | for a 20-bit raw temperature and 16-bit T1, T3, var2 stays within ±2097088 |
| Compensation.TFineBounds | bme280.py:230 | t_fine stays strictly within ±2^22 |
| Compensation.TemperatureBounds | bme280.py:231 | such a t_fine gives a temperature within ±81920 hundredths of a degree |
| Compensation.TempVar1DiffersFromDatasheet | bme280.py:224 | on the datasheet's example coefficients, shifting T2 first gives 119736 where the datasheet form gives 128793 |
| Protocol.CheckConfig | bme280.py:80-117 | no error exactly when all settings are valid; otherwise the first failing check in source order (temperature, pressure, humidity mode, filter, scale), each case both ways |
| Protocol.ControlByteFields | bme280.py:173-175 | the forced-mode byte is a byte with mode bits 01, temperature oversampling in bits 2-4, pressure in bits 5-7 |
| Protocol.ControlByteInjective | bme280.py:173-175 | distinct oversampling pairs give distinct control bytes |
| Protocol.SleepModeX1Fields | bme280.py:141-145 | 0x24 is sleep mode with x1 temperature and x1 pressure oversampling |
| Protocol.IirByte | bme280.py:155 | `iir << 2` puts the filter setting in bits 2-4 of the config byte |
| Protocol.ModeTime | bme280.py:189-195 | an active mode adds between 4600 and 73600 µs; mode 0 adds nothing |
| Protocol.WaitTime | bme280.py:189-196 | the wait lies in [1250, 223200] µs and is 1250 with every channel skipped |
| Protocol.OversamplingRatio | bme280.py:35-41 | mode m selects oversampling 2^(m-1), and 0 means skipped |
| Protocol.WaitTimeVersusDatasheet | bme280.py:189-195 | the code's wait is twice the datasheet maximum less the fixed 1250 and 575 parts; it is never below the datasheet's, and equal to it exactly when every channel is skipped |
| Protocol.ModeTimeDoubles | bme280.py:190-195 | each channel's term is twice the datasheet's 2.3 ms per sample |
| Protocol.WaitTimeMonotone | bme280.py:189-195 | higher oversampling never shortens the wait |
| Protocol.ModeTimeMonotone | bme280.py:190-195 | higher mode, longer per-channel time |
| Protocol.DefaultWaitTime | bme280.py:64-67 | for the default modes the code waits 89800 µs where the datasheet maximum is 46100 µs |
| Protocol.Extract20 | bme280.py:209-211 | the 20-bit sample lies in [0, 2^20) |
| Protocol.Extract20Bitwise | bme280.py:209-211 | it equals `((msb << 16) | (lsb << 8) | xlsb) >> 4` |
| Protocol.Extract16 | bme280.py:213 | the humidity sample lies in [0, 2^16) |
| Protocol.Extract16Bitwise | bme280.py:213 | it equals `(msb << 8) | lsb` |
| Protocol.RawFromBurst | bme280.py:206-213 | the eight burst bytes give pressure, temperature and humidity samples in range |
| Protocol.Extract20Registers | bme280.py:209-211 | encoding a 20-bit sample into three registers and extracting it gives it back |
| Protocol.RawFromBurstOf | bme280.py:206-213 | decoding the burst built from any in-range sample gives that sample |
| Protocol.Registers20Of | bme280.py:209-211 | extraction loses only the low nibble of xlsb |
| Protocol.BurstOfRawFrom | bme280.py:206-213 | a burst is recovered from its sample and its two discarded nibbles |
| Protocol.BusyBitwise | bme280.py:199-202 | the poll condition `word & 0x08` is exactly the measuring bit |
| Protocol.SettlesTail | bme280.py:199-203 | after a busy word the rest of the stream still settles |
| Protocol.FirstReady | bme280.py:199-203 | the index of the first non-busy word: all earlier words are busy |
| Protocol.FirstReadyAt | bme280.py:199-203 | a non-busy word no later than the first ready one is the first ready one, so the loop exits exactly there |
| Protocol.ByteReadsSplit | bme280_microbit.py:119-123 | single-byte reads of consecutive registers compose: 3 + 3 + 2 reads from 0xF7 are the 8 reads of the data block |
| Bme280.BME280.Init | bme280.py:121-167 | fields stored, both blocks read and decoded, 0x24 to 0xF4, filter to 0xF5, humidity to 0xF2 through the 1-byte buffer, t_fine 0, buffers fresh and zeroed; exact log |
| Bme280.BME280.ReadCoefficients | bme280.py:125-139 | the two calibration reads, decoded with `unpack` |
| Bme280.BME280.NewBuffers | bme280.py:149-152 | fresh zeroed scratch buffers of lengths 1, 8 and 3 |
| Bme280.BME280.WriteFilterAndHumidity | bme280.py:154-167 | the filter byte, then the humidity mode, through the 1-byte buffer |
| Bme280.BME280.New | bme280.py:71-167 | ValueError before any transaction exactly when some setting is invalid, naming the first one; otherwise the driver Init builds |
| Bme280.BME280.ReadStatus | bme280.py:199-202 | one status read returns the next status word and consumes it |
| Bme280.BME280.PollStatus | bme280.py:199-202 | after n polls the next status read returns word n of the status stream and the log gains one status read |
| Bme280.BME280.WaitForMeasurement | bme280.py:198-203 | polls until the first non-busy word, issuing exactly FirstReady + 1 status reads |
| Bme280.BME280.StartMeasurement | bme280.py:173-180 | the control byte, through the buffer, to 0xF4 |
| Bme280.BME280.ReadBurst | bme280.py:205-217 | the 8 bytes from 0xF7 into the 8-byte buffer, and the samples into result[0..2] |
| Bme280.BME280.ReadRawData | bme280.py:169-217 | the result holds the samples of the data registers; log is control write, polls, burst read |
| Bme280.BME280.Compensate | bme280.py:219-260 | t_fine, temperature, pressure and humidity of the registers' samples under the decoded calibration |
| Bme280.BME280.ReadCompensatedData | bme280.py:219-268 | those three values into a non-empty caller array (other elements unchanged) or into a new 3-element array |
| Bme280.BME280.PressurePrecision | bme280.py:304-310 | the compensated pressure as whole pascals and 256ths; t_fine updated, the registers unchanged, the status queue after the polls and the exact log, as for `read_compensated_data` |
| Bme280Lowmem.BME280.Init | bme280_lowmem.py:43-80 | as for bme280.py, with the same writes in the same order |
| Bme280Lowmem.BME280.ReadCoefficients | bme280_lowmem.py:45-66 | the two calibration reads, decoded with `unpack` |
| Bme280Lowmem.BME280.NewBuffers | bme280_lowmem.py:73-75 | fresh zeroed scratch buffers |
| Bme280Lowmem.BME280.WriteFilterAndHumidity | bme280_lowmem.py:76-80 | filter then humidity mode through the 1-byte buffer |
| Bme280Lowmem.BME280.New | bme280_lowmem.py:15-80 | ValueError for the first invalid setting before any transaction; otherwise a driver |
| Bme280Lowmem.BME280.ReadStatus | bme280_lowmem.py:94-95 | one status read returns and consumes the next status word |
| Bme280Lowmem.BME280.PollStatus | bme280_lowmem.py:94-95 | after n polls the next status read returns word n of the stream |
| Bme280Lowmem.BME280.WaitForMeasurement | bme280_lowmem.py:94-96 | exactly FirstReady + 1 status reads |
| Bme280Lowmem.BME280.StartMeasurement | bme280_lowmem.py:83-84 | the control byte through the buffer to 0xF4 |
| Bme280Lowmem.BME280.ReadBurst | bme280_lowmem.py:97-104 | burst into the buffer, samples into result |
| Bme280Lowmem.BME280.ReadRawData | bme280_lowmem.py:82-104 | samples of the data registers; exact log |
| Bme280Lowmem.BME280.Compensate | bme280_lowmem.py:106-139 | t_fine and the three compensated values of the registers' samples |
| Bme280Lowmem.BME280.ReadCompensatedData | bme280_lowmem.py:106-145 | into the caller's non-empty array or a new one |
| Bme280Lowmem.BME280.PressurePrecision | bme280_lowmem.py:175-180 | the compensated pressure as whole pascals and 256ths; t_fine updated, the registers unchanged, the status queue after the polls and the exact log, as for `read_compensated_data` |
| Bme280Microbit.ShortAsWritten | bme280_microbit.py:94-95 | as written: values above 32767 unchanged, the others minus 65536 |
| Bme280Microbit.ShortAsWrittenIsWrong | bme280_microbit.py:94-95 | on every 16-bit word the code as written is off by exactly ±65536 from two's complement |
| Bme280Microbit.ShortAsWrittenOfOne | bme280_microbit.py:94-95 | the word 1 comes back as -65535 |
| Bme280Microbit.ShortAsWrittenOfWord | bme280_microbit.py:84-95 | `_short` as written of a word read low byte first is 65536 away from its `<h` value, upwards when that is negative |
| Bme280Microbit.RegisterCoefficientsAsWritten | bme280_microbit.py:41-61 | the register decoding of this file: equal to the two's-complement one except in the eleven signed words |
| Bme280Microbit.AsWrittenVersusRegister | bme280_microbit.py:42-54 | each of dig_T2, dig_T3, dig_P2..P9 and dig_H2 is misread by exactly 65536, so none is right; T1, P1 and H1..H6 except H2 agree |
| Bme280Microbit.BME280.Init | bme280_microbit.py:32-70 | fields stored unchecked, t_fine 0, calibration decoded register by register with the as-written `_short`, then humidity, 0x24 and filter writes; exact log |
| Bme280Microbit.BME280.Read8 | bme280_microbit.py:72-78 | selects the register and returns its byte |
| Bme280Microbit.BME280.Read16 | bme280_microbit.py:80-86 | the little-endian word at reg (the next status word at 0xF3), consuming a status word only there |
| Bme280Microbit.BME280.Write8 | bme280_microbit.py:88-92 | one write of register and the data's low byte, as bytearray keeps it |
| Bme280Microbit.BME280.ReadShort | bme280_microbit.py:42-54 | `_short(_read16(reg))` as written: never the `<h` value of the two registers, but 65536 above it when that is negative and 65536 below it otherwise |
| Bme280Microbit.BME280.ReadTemperatureCalibration | bme280_microbit.py:41-43 | dig_T1 unsigned, dig_T2 and dig_T3 through the as-written `_short`; six transactions |
| Bme280Microbit.BME280.ReadPressureCalibration | bme280_microbit.py:44-52 | dig_P1 unsigned, dig_P2..P9 through the as-written `_short`; eighteen transactions |
| Bme280Microbit.BME280.ReadHumidityCalibration | bme280_microbit.py:53-61 | dig_H1..H6 of the registers, reads in source order, H2 through the as-written `_short`, H6 sign-corrected |
| Bme280Microbit.BME280.ReadCalibration | bme280_microbit.py:41-61 | the coefficients are the as-written register decoding `RegisterCoefficientsAsWritten` |
| Bme280Microbit.BME280.StartMeasurement | bme280_microbit.py:103 | the control byte written to 0xF4 |
| Bme280Microbit.BME280.ReadStatus | bme280_microbit.py:115 | one `_read16(0xF3)` returns and consumes the next status word |
| Bme280Microbit.BME280.PollStatus | bme280_microbit.py:115 | after n polls the next `_read16(0xF3)` returns word n of the stream |
| Bme280Microbit.BME280.WaitForMeasurement | bme280_microbit.py:115-116 | exactly FirstReady + 1 status reads |
| Bme280Microbit.BME280.Read20 | bme280_microbit.py:119-121 | three single reads give the 20-bit sample of those registers |
| Bme280Microbit.BME280.ReadHumidityWord | bme280_microbit.py:123 | two single reads give the 16-bit humidity sample |
| Bme280Microbit.BME280.ReadRawData | bme280_microbit.py:97-125 | the triple (temperature, pressure, humidity) of the data registers; exact log |
| Bme280Microbit.BME280.ReadCompensatedData | bme280_microbit.py:127-168 | t_fine set; the three compensated values |
| Bme280Microbit.BME280.PressurePrecision | bme280_microbit.py:177-184 | the compensated pressure as whole pascals and 256ths; t_fine updated, the registers unchanged, the status queue after the polls and the exact log, as for `read_compensated_data` |
| Bme280MicrobitLowmem.Short | bme280_microbit_lowmem.py:60-64 | two's complement of a 16-bit word, congruent to it mod 65536 and unchanged up to 32767; also the evidently intended `_short` of bme280_microbit.py |
| Bme280MicrobitLowmem.ShortOfWord | bme280_microbit_lowmem.py:52-64 | `_short` of a word read low byte first is its `<h` value |
| Bme280MicrobitLowmem.BME280.Init | bme280_microbit_lowmem.py:12-45 | fields, t_fine 0, register decoding, then the three writes; exact log |
| Bme280MicrobitLowmem.BME280.Read8 | bme280_microbit_lowmem.py:47-50 | selects the register and returns its byte |
| Bme280MicrobitLowmem.BME280.Read16 | bme280_microbit_lowmem.py:52-55 | the little-endian word at reg, or the next status word at 0xF3 |
| Bme280MicrobitLowmem.BME280.Write8 | bme280_microbit_lowmem.py:57-58 | one write of register and low byte |
| Bme280MicrobitLowmem.BME280.ReadShort | bme280_microbit_lowmem.py:21-33 | the `<h` value of the two registers |
| Bme280MicrobitLowmem.BME280.ReadTemperatureCalibration | bme280_microbit_lowmem.py:20-22 | dig_T1..T3 |
| Bme280MicrobitLowmem.BME280.ReadPressureCalibration | bme280_microbit_lowmem.py:23-31 | dig_P1..P9 |
| Bme280MicrobitLowmem.BME280.ReadHumidityCalibration | bme280_microbit_lowmem.py:32-40 | dig_H1..H6 in source order, H6 sign-corrected |
| Bme280MicrobitLowmem.BME280.ReadCalibration | bme280_microbit_lowmem.py:20-40 | the register decoding of the sensor |
| Bme280MicrobitLowmem.BME280.StartMeasurement | bme280_microbit_lowmem.py:67 | control byte to 0xF4 |
| Bme280MicrobitLowmem.BME280.ReadStatus | bme280_microbit_lowmem.py:78 | next status word, consumed |
| Bme280MicrobitLowmem.BME280.PollStatus | bme280_microbit_lowmem.py:78 | after n polls the next status read returns word n of the stream |
| Bme280MicrobitLowmem.BME280.WaitForMeasurement | bme280_microbit_lowmem.py:78-79 | exactly FirstReady + 1 status reads |
| Bme280MicrobitLowmem.BME280.Read20 | bme280_microbit_lowmem.py:81-82 | the 20-bit sample of three registers |
| Bme280MicrobitLowmem.BME280.ReadHumidityWord | bme280_microbit_lowmem.py:83 | the 16-bit humidity sample |
| Bme280MicrobitLowmem.BME280.ReadRawData | bme280_microbit_lowmem.py:66-85 | the sample triple; exact log |
| Bme280MicrobitLowmem.BME280.ReadCompensatedData | bme280_microbit_lowmem.py:87-125 | t_fine set; the three compensated values |
| Bme280MicrobitLowmem.BME280.PressurePrecision | bme280_microbit_lowmem.py:131-135 | the compensated pressure as whole pascals and 256ths; t_fine updated, the registers unchanged, the status queue after the polls and the exact log, as for `read_compensated_data` |

## Left out

- Sleeps (`time.sleep`, `time.sleep_us`, `microbit.sleep`) are not modelled. The wait time they would use is modelled as `Protocol.WaitTime`, but nothing waits.
- Floating point is not modelled. That covers `values`, `formated_values`, `temperature`, `pressure`, `humidity` and `altitude`, the temperature scale conversion, and the float conversion at the end of `pressure_precision`. `PressurePrecision` returns the two integers `p // 256` and `p % 256` that the source divides or converts.
- The real I2C transport is replaced by the fake bus. Bus errors and timing are not modelled, and register writes do not change the registers.
- Termination of the poll loop is assumed through the precondition `Settles`: the queued status words must eventually include one with the measuring bit clear. A sensor that never finishes would make the source loop forever.
- Bme280.BME280.ReadCompensatedData: requires a non-empty caller array to have at least three elements. The source raises IndexError on a shorter one, and that error is not modelled.
- Bme280.BME280.Init, Bme280Lowmem.BME280.Init: take the arguments in the order written, with `i2c` last and no defaults. As written, the source's `__init__` signature is a syntax error.
- Bme280.BME280.New, Bme280Lowmem.BME280.New: return which check failed, not the exception's message. The message's own `format` call would raise a different `ValueError`.
- Bme280.BME280.ReadCompensatedData, Bme280Lowmem.BME280.ReadCompensatedData: do not model the 32-bit width of `array('i')`; the arrays hold unbounded integers. The raw samples fit by their ranges, the humidity by `Compensation.Humidity`, and t_fine and the temperature by `Compensation.TFineBounds` and `Compensation.TemperatureBounds`. No bound on the pressure is proved.
- `bme280_lowmem.py` calls `time.sleep` and `time.sleep_us` but imports only `sleep` and `sleep_us` from `time` (lines 71, 78, 93, 96). That would raise NameError at run time. Sleeps are left out, so the model does not show it.
- `bme280.py` and `bme280_lowmem.py` writing a setting that does not fit in a byte is not modelled: their arguments are validated first. On the micro:bit drivers, `Write8` logs the low byte that `bytearray` keeps.
- Bme280.BME280.ReadRawData, Bme280Lowmem.BME280.ReadRawData: require a result array of at least three elements. On a shorter one the source raises IndexError after the bus traffic, and that is not modelled.

## Findings

| source | as written | input that shows it | evidently intended | confidence | as-written member | corrected member |
|---|---|---|---|---|---|---|
| bme280_microbit.py:94-95 | `[dat-65536, dat][dat > 32767]` picks `dat` when `dat > 32767` (True indexes 1) and subtracts 65536 otherwise | word 1 (for example dig_T2 register bytes 0x01 0x00) gives -65535 | two's complement: `dat - 65536` above 32767, `dat` otherwise, as `bme280_microbit_lowmem.py:60-64` writes it | high (not executed) | Bme280Microbit.ShortAsWritten | Bme280MicrobitLowmem.Short |
