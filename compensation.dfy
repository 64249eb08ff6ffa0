/**
 * The fixed-point compensation shared by all four driver variants: t_fine and
 * the temperature in hundredths of a degree, the pressure in Q24.8 pascals
 * (the 64-bit variant of section 4.2.3 of the Bosch BME280 datasheet) and the
 * humidity in Q22.10 percent, written with Python's operators on unbounded
 * integers.
 */
module Compensation {
  import opened PyInt
  import opened Calibration

  const HumidityMax := 419430400

  /*
   * Python's `x >> k` is the floor of x / 2^k, which is Dafny's `/` by the
   * positive literal 2^k, and `x << k` is x * 2^k.  The formulas below write
   * every shift as that division or multiplication by the literal power of
   * two (the shift count is given beside it), and ShiftForms proves each of
   * them equal to the same formula written with Shr and Shl.
   */

  /** The first temperature term; the driver shifts dig_T2 before multiplying. */
  function TempVar1(rawTemp: int, c: Coefficients): int
  {
    (rawTemp / 8 - c.T1 * 2) * (c.T2 / 2048)          // >> 3, << 1, >> 11
  }

  /** The second (quadratic) temperature term. */
  function TempVar2(rawTemp: int, c: Coefficients): int
  {
    var d := rawTemp / 16 - c.T1;                      // >> 4
    d * d / 4096 * c.T3 / 16384                        // >> 12, >> 14
  }

  /** t_fine, the fine temperature the pressure and humidity stages consume. */
  function TFine(rawTemp: int, c: Coefficients): int
  {
    TempVar1(rawTemp, c) + TempVar2(rawTemp, c)
  }

  /**
   * `(t_fine * 5 + 128) >> 8`: 5 * t_fine / 256 rounded to the nearest
   * integer, halves rounding up.
   */
  function Temperature(tFine: int): (r: int)
    ensures 256 * r - 128 <= 5 * tFine < 256 * r + 128
  {
    (tFine * 5 + 128) / 256                            // >> 8
  }

  /** var2 of the pressure stage. */
  function PressVar2(tFine: int, c: Coefficients): int
  {
    var var1 := tFine - 128000;
    var var2 := var1 * var1 * c.P6;
    var var2 := var2 + var1 * c.P5 * 0x2_0000;         // << 17
    var2 + c.P4 * 0x8_0000_0000                        // << 35
  }

  /** var1 of the pressure stage after its last update: the divisor. */
  function PressDivisor(tFine: int, c: Coefficients): int
  {
    var var1 := tFine - 128000;
    var var1 := var1 * var1 * c.P3 / 256 + var1 * c.P2 * 4096;      // >> 8, << 12
    (0x8000_0000_0000 + var1) * c.P1 / 0x2_0000_0000                // 1 << 47, >> 33
  }

  /**
   * The pressure in Q24.8 pascals.  A zero divisor yields 0 without dividing
   * (FloorDiv demands a non-zero divisor); otherwise the quotient is taken
   * with Python's floor division.
   */
  function Pressure(rawPress: int, tFine: int, c: Coefficients): (r: int)
    ensures PressDivisor(tFine, c) == 0 ==> r == 0
  {
    var var1 := PressDivisor(tFine, c);
    if var1 == 0 then 0
    else
      var p := 1048576 - rawPress;
      var p := FloorDiv((p * 0x8000_0000 - PressVar2(tFine, c)) * 3125, var1);   // << 31
      var var1 := c.P9 * (p / 8192) * (p / 8192) / 0x200_0000;                 // >> 13, >> 25
      var var2 := c.P8 * p / 0x8_0000;                                         // >> 19
      (p + var1 + var2) / 256 + c.P7 * 16                                      // >> 8, << 4
  }

  /** The first humidity statement, the product of the offset and the scale terms, for h = t_fine - 76800. */
  function HumidityProduct(rawHum: int, h: int, c: Coefficients): int
  {
    (rawHum * 16384 - c.H4 * 0x10_0000 - c.H5 * h + 16384) / 32768            // << 14, << 20, >> 15
    * ((((h * c.H6 / 1024) * (h * c.H3 / 2048 + 32768) / 1024 + 2097152)  // >> 10, >> 11, >> 10
        * c.H2 + 8192) / 16384)                                           // >> 14
  }

  /** The second humidity statement: h less its dig_H1 correction. */
  function HumidityCorrected(h: int, h1: int): int
  {
    h - h / 32768 * (h / 32768) / 128 * h1 / 16                           // >> 15, >> 7, >> 4
  }

  /** The humidity chain before the clamp. */
  function HumidityUnclamped(rawHum: int, tFine: int, c: Coefficients): int
  {
    HumidityCorrected(HumidityProduct(rawHum, tFine - 76800, c), c.H1)
  }

  /** The two clamping steps: negative values become 0, values above 100 % become 100 %. */
  function ClampHumidity(h: int): (r: int)
    ensures 0 <= r <= HumidityMax
    ensures 0 <= h <= HumidityMax ==> r == h
    ensures h < 0 ==> r == 0
    ensures h > HumidityMax ==> r == HumidityMax
  {
    var h := if h < 0 then 0 else h;
    if h > HumidityMax then HumidityMax else h
  }

  /**
   * The humidity in Q22.10 percent: the clamped value shifted right by 12,
   * so never below 0 % nor above 100 % (102400 / 1024).
   */
  function Humidity(rawHum: int, tFine: int, c: Coefficients): (r: int)
    ensures 0 <= r <= 102400
    ensures 4096 * r <= ClampHumidity(HumidityUnclamped(rawHum, tFine, c)) < 4096 * r + 4096
    ensures HumidityUnclamped(rawHum, tFine, c) < 4096 ==> r == 0
    ensures HumidityUnclamped(rawHum, tFine, c) >= HumidityMax ==> r == 102400
  {
    ClampHumidity(HumidityUnclamped(rawHum, tFine, c)) / 4096         // >> 12
  }

  /**
   * The integer part of `pressure_precision`: `p // 256` and `p % 256` with a
   * positive divisor, so the two recombine to p and the fraction is a byte.
   */
  function PressureSplit(p: int): (r: (int, int))
    ensures p == 256 * r.0 + r.1 && 0 <= r.1 < 256
  {
    (FloorDiv(p, 256), p % 256)
  }

  /*
   * The stages as every driver variant executes them: `var1`, `var2` and `h`
   * reassigned statement by statement.  Each is proved to compute the
   * function above.
   */

  /** The temperature stage: t_fine and the temperature. */
  method TemperatureStage(rawTemp: int, c: Coefficients) returns (tFine: int, temp: int)
    ensures tFine == TFine(rawTemp, c) && temp == Temperature(tFine)
  {
    var var1 := (rawTemp / 8 - c.T1 * 2) * (c.T2 / 2048);
    var var2 := rawTemp / 16 - c.T1;
    var2 := var2 * (rawTemp / 16 - c.T1);
    var2 := var2 / 4096 * c.T3 / 16384;
    tFine := var1 + var2;
    temp := (tFine * 5 + 128) / 256;
  }

  /** The pressure stage, guarded against a zero divisor. */
  method PressureStage(rawPress: int, tFine: int, c: Coefficients) returns (pressure: int)
    ensures pressure == Pressure(rawPress, tFine, c)
  {
    var var1 := tFine - 128000;
    var var2 := var1 * var1 * c.P6;
    var2 := var2 + var1 * c.P5 * 0x2_0000;
    var2 := var2 + c.P4 * 0x8_0000_0000;
    var1 := var1 * var1 * c.P3 / 256 + var1 * c.P2 * 4096;
    var1 := (0x8000_0000_0000 + var1) * c.P1 / 0x2_0000_0000;
    if var1 == 0 {
      pressure := 0;
    } else {
      var p := 1048576 - rawPress;
      p := FloorDiv((p * 0x8000_0000 - var2) * 3125, var1);
      var1 := c.P9 * (p / 8192) * (p / 8192) / 0x200_0000;
      var2 := c.P8 * p / 0x8_0000;
      pressure := (p + var1 + var2) / 256 + c.P7 * 16;
    }
  }

  /** The humidity stage with its two clamps. */
  method HumidityStage(rawHum: int, tFine: int, c: Coefficients) returns (humidity: int)
    ensures humidity == Humidity(rawHum, tFine, c)
  {
    var h := tFine - 76800;
    h := (rawHum * 16384 - c.H4 * 0x10_0000 - c.H5 * h + 16384) / 32768
         * ((((h * c.H6 / 1024) * (h * c.H3 / 2048 + 32768) / 1024 + 2097152) * c.H2 + 8192) / 16384);
    assert h == HumidityProduct(rawHum, tFine - 76800, c);
    h := h - h / 32768 * (h / 32768) / 128 * c.H1 / 16;
    assert h == HumidityUnclamped(rawHum, tFine, c);
    h := if h < 0 then 0 else h;
    h := if h > HumidityMax then HumidityMax else h;
    humidity := h / 4096;
  }

  /** The temperature stage equals the formula written with Python's shifts. */
  lemma ShiftFormsTemperature(rawTemp: int, c: Coefficients)
    ensures TempVar1(rawTemp, c) == (Shr(rawTemp, 3) - Shl(c.T1, 1)) * Shr(c.T2, 11)
    ensures TempVar2(rawTemp, c) ==
            Shr(Shr((Shr(rawTemp, 4) - c.T1) * (Shr(rawTemp, 4) - c.T1), 12) * c.T3, 14)
    ensures Temperature(TFine(rawTemp, c)) == Shr(TFine(rawTemp, c) * 5 + 128, 8)
  {
    assert Pow2(1) == 2 && Pow2(3) == 8 && Pow2(4) == 16 && Pow2(8) == 256;
    assert Pow2(11) == 2048 && Pow2(12) == 4096 && Pow2(14) == 16384;
  }

  /** The pressure stage equals the formula written with Python's shifts. */
  lemma ShiftFormsPressure(rawPress: int, tFine: int, c: Coefficients)
    ensures var var1 := tFine - 128000;
      PressVar2(tFine, c) == var1 * var1 * c.P6 + Shl(var1 * c.P5, 17) + Shl(c.P4, 35)
      && PressDivisor(tFine, c) ==
         Shr((Shl(1, 47) + Shr(var1 * var1 * c.P3, 8) + Shl(var1 * c.P2, 12)) * c.P1, 33)
    ensures PressDivisor(tFine, c) != 0 ==>
      var p := FloorDiv((Shl(1048576 - rawPress, 31) - PressVar2(tFine, c)) * 3125, PressDivisor(tFine, c));
      Pressure(rawPress, tFine, c) ==
      Shr(p + Shr(c.P9 * Shr(p, 13) * Shr(p, 13), 25) + Shr(c.P8 * p, 19), 8) + Shl(c.P7, 4)
  {
    assert Pow2(4) == 16 && Pow2(8) == 256 && Pow2(12) == 4096 && Pow2(13) == 8192;
    assert Pow2(17) == 0x2_0000 && Pow2(19) == 0x8_0000 && Pow2(25) == 0x200_0000;
    assert Pow2(31) == 0x8000_0000 && Pow2(33) == 0x2_0000_0000;
    assert Pow2(35) == 0x8_0000_0000 && Pow2(47) == 0x8000_0000_0000;
  }

  /** The humidity stage equals the formula written with Python's shifts. */
  lemma ShiftFormsHumidity(rawHum: int, tFine: int, c: Coefficients)
    ensures var h := tFine - 76800;
      var h := Shr(Shl(rawHum, 14) - Shl(c.H4, 20) - c.H5 * h + 16384, 15)
               * Shr((Shr(Shr(h * c.H6, 10) * (Shr(h * c.H3, 11) + 32768), 10) + 2097152) * c.H2 + 8192, 14);
      HumidityUnclamped(rawHum, tFine, c) == h - Shr(Shr(Shr(h, 15) * Shr(h, 15), 7) * c.H1, 4)
  {
    var h := tFine - 76800;
    ShiftFormsHumidityProduct(rawHum, h, c);
    var h' := Shr(Shl(rawHum, 14) - Shl(c.H4, 20) - c.H5 * h + 16384, 15)
              * Shr((Shr(Shr(h * c.H6, 10) * (Shr(h * c.H3, 11) + 32768), 10) + 2097152) * c.H2 + 8192, 14);
    ShiftFormsHumidityCorrection(h', c.H1);
  }

  /** The product step of the humidity formula, shifts against literal powers of two. */
  lemma ShiftFormsHumidityProduct(rawHum: int, h: int, c: Coefficients)
    ensures Shr(Shl(rawHum, 14) - Shl(c.H4, 20) - c.H5 * h + 16384, 15)
            * Shr((Shr(Shr(h * c.H6, 10) * (Shr(h * c.H3, 11) + 32768), 10) + 2097152) * c.H2 + 8192, 14)
         == HumidityProduct(rawHum, h, c)
  {
    assert Pow2(10) == 1024 && Pow2(11) == 2048;
    assert Pow2(14) == 16384 && Pow2(15) == 32768 && Pow2(20) == 0x10_0000;
    var a := Shl(rawHum, 14) - Shl(c.H4, 20) - c.H5 * h + 16384;
    assert a == rawHum * 16384 - c.H4 * 0x10_0000 - c.H5 * h + 16384;
    var b := Shr(Shr(h * c.H6, 10) * (Shr(h * c.H3, 11) + 32768), 10);
    assert b == (h * c.H6 / 1024) * (h * c.H3 / 2048 + 32768) / 1024;
  }

  /** The correction step of the humidity formula, shifts against literal powers of two. */
  lemma ShiftFormsHumidityCorrection(h: int, h1: int)
    ensures h - Shr(Shr(Shr(h, 15) * Shr(h, 15), 7) * h1, 4) == HumidityCorrected(h, h1)
  {
    assert Pow2(4) == 16 && Pow2(7) == 128 && Pow2(15) == 32768;
  }

  /** The final humidity step is `h >> 12` of the clamped value. */
  lemma ShiftFormHumidityClamped(rawHum: int, tFine: int, c: Coefficients)
    ensures Humidity(rawHum, tFine, c) == Shr(ClampHumidity(HumidityUnclamped(rawHum, tFine, c)), 12)
  {
    assert Pow2(12) == 4096;
  }

  /** A product of non-negative factors is no larger than the product of their bounds. */
  lemma MulBoundNonneg(x: int, y: int, limX: int, limY: int)
    requires 0 <= x <= limX && 0 <= y <= limY
    ensures 0 <= x * y <= limX * limY
  {
    assert x * y <= limX * y by {
      assert (limX - x) * y >= 0;
    }
    assert limX * y <= limX * limY by {
      assert limX * (limY - y) >= 0;
    }
  }

  lemma MulBound(x: int, y: int, limX: int, limY: int)
    requires -limX <= x <= limX && -limY <= y <= limY
    ensures -(limX * limY) <= x * y <= limX * limY
  {
    MulBoundNonneg(Abs(x), Abs(y), limX, limY);
    if x < 0 {
      assert x * y == -(Abs(x) * y);
    }
    if y < 0 {
      assert x * y == -(x * Abs(y));
    }
    assert x * y == Abs(x) * Abs(y) || x * y == -(Abs(x) * Abs(y));
  }

  lemma TempVar1Bound(rawTemp: int, c: Coefficients)
    requires 0 <= rawTemp < 1048576 && IsU16(c.T1) && IsS16(c.T2)
    ensures -2097136 <= TempVar1(rawTemp, c) <= 2097136
  {
    var a := rawTemp / 8 - c.T1 * 2;
    var s := c.T2 / 2048;
    assert -131071 <= a <= 131071;
    assert -16 <= s <= 16;
    MulBound(a, s, 131071, 16);
  }

  lemma TempVar2Bound(rawTemp: int, c: Coefficients)
    requires 0 <= rawTemp < 1048576 && IsU16(c.T1) && IsS16(c.T3)
    ensures -2097088 <= TempVar2(rawTemp, c) <= 2097088
  {
    var d := rawTemp / 16 - c.T1;
    assert -65535 <= d <= 65535;
    MulBound(d, d, 65535, 65535);
    var e := d * d / 4096;
    assert 0 <= d * d;
    assert 0 <= e <= 1048544;
    MulBound(e, c.T3, 1048544, 32768);
  }

  /**
   * For a 20-bit raw temperature and 16-bit coefficients, t_fine fits in 23
   * signed bits, well inside the datasheet's 32-bit signed type.
   */
  lemma TFineBounds(rawTemp: int, c: Coefficients)
    requires 0 <= rawTemp < 1048576 && IsU16(c.T1) && IsS16(c.T2) && IsS16(c.T3)
    ensures -4194304 < TFine(rawTemp, c) < 4194304
  {
    TempVar1Bound(rawTemp, c);
    TempVar2Bound(rawTemp, c);
  }

  /** The temperature that such a t_fine yields lies within +-819.2 degrees. */
  lemma TemperatureBounds(tFine: int)
    requires -4194304 < tFine < 4194304
    ensures -81920 <= Temperature(tFine) <= 81920
  {
  }

  /**
   * The datasheet forms this term as `(... * dig_T2) >> 11`; for dig_T1 =
   * 27504, dig_T2 = 26435 and a raw temperature of 519888 the driver's
   * `... * (dig_T2 >> 11)` gives 119736 where the datasheet gives 128793.
   */
  lemma TempVar1DiffersFromDatasheet(c: Coefficients)
    requires c.T1 == 27504 && c.T2 == 26435
    ensures TempVar1(519888, c) == 119736
    ensures Shr((Shr(519888, 3) - Shl(c.T1, 1)) * c.T2, 11) == 128793
  {
    assert Pow2(3) == 8 && Pow2(11) == 2048 && Pow2(1) == 2;
  }
}
