/** The 32-bit fixed-point compensation formulas of section 8.2 of the
    Bosch BMP280 datasheet as Core/Src/bmp280.c:291-323 writes them.

    Every C operation is spelled out. `x >> k` on a signed value is an
    arithmetic shift, which is floor division by 2^k; it is written as `/`
    by the literal 2^k, since Dafny's `/` by a positive divisor rounds
    towards minus infinity too. `x << k` is multiplication by 2^k. Signed
    `+`, `-`, `*` and `<<` wrap to 32 bits in two's complement, as the
    Cortex-M0 does; unsigned steps are taken modulo 2^32. */
module Compensation {
  import opened Bmx280
  import opened Calibration

  /** Two's-complement wrap of a mathematical integer to 32 bits. */
  function Wrap32(x: int): (r: Int32)
    ensures -0x8000_0000 <= x < 0x8000_0000 ==> r == x
    ensures (r - x) % 0x1_0000_0000 == 0
  {
    (x + 0x8000_0000) % 0x1_0000_0000 - 0x8000_0000
  }

  /** Conversion to BMP280_U32_t: reduction modulo 2^32. */
  function ToU32(x: int): (r: Uint32)
    ensures 0 <= x < 0x1_0000_0000 ==> r == x
    ensures (r - x) % 0x1_0000_0000 == 0
  {
    x % 0x1_0000_0000
  }

  /** Signed 32-bit `+`, `-` and `*` (and `<<`, a product by 2^k). */
  function Add32(a: int, b: int): Int32 { Wrap32(a + b) }
  function Sub32(a: int, b: int): Int32 { Wrap32(a - b) }
  function Mul32(a: int, b: int): Int32 { Wrap32(a * b) }

  /** What bmp280_compensate_T_int32 returns and what it leaves in the
      global t_fine. */
  datatype TempResult = TempResult(t: Int32, tFine: Int32)

  /** `var1` of bmp280_compensate_T_int32 (Core/Src/bmp280.c:293): a
      32-bit product shifted right by 11, so it has at most 21 bits. */
  function TVar1(adcT: Int32, t1: int, t2: int): (r: Int32)
    ensures -0x10_0000 <= r < 0x10_0000
  {
    Mul32(Sub32(adcT / 8, Mul32(t1, 2)), t2) / 0x800
  }

  /** `var2` of bmp280_compensate_T_int32 (Core/Src/bmp280.c:294): a
      32-bit product shifted right by 14, so it has at most 18 bits. */
  function TVar2(adcT: Int32, t1: int, t3: int): (r: Int32)
    ensures -0x2_0000 <= r < 0x2_0000
  {
    var d := Sub32(adcT / 16, t1);
    Mul32(Mul32(d, d) / 0x1000, t3) / 0x4000
  }

  /** bmp280_compensate_T_int32 (Core/Src/bmp280.c:291-298): temperature
      in hundredths of a degree Celsius and the fine temperature that the
      pressure formula consumes. Whatever the reading and the trimming
      values, the sum of the two terms cannot wrap and t_fine is at most
      0x12_0000 in magnitude (the bound -0x12_0000 is reached). */
  function CompensateT(adcT: Int32, c: Calib): (r: TempResult)
    ensures r.tFine == TVar1(adcT, c.T1, c.T2) + TVar2(adcT, c.T1, c.T3)
    ensures -0x12_0000 <= r.tFine < 0x12_0000
  {
    var tFine := Add32(TVar1(adcT, c.T1, c.T2), TVar2(adcT, c.T1, c.T3));
    TempResult(Add32(Mul32(tFine, 5), 128) / 0x100, tFine)
  }

  /** `(t_fine >> 1) - 64000`, the `var1` both pressure terms start from
      (Core/Src/bmp280.c:304). */
  function PressureOffset(tFine: Int32): Int32 {
    Sub32(tFine / 2, 64000)
  }

  /** `var2` after Core/Src/bmp280.c:305-307, from the offset `v1`. */
  function PVar2(v1: Int32, p4: int, p5: int, p6: int): Int32 {
    var v2 := Mul32(Mul32(v1 / 4, v1 / 4) / 0x800, p6);
    var v2b := Add32(v2, Mul32(Mul32(v1, p5), 2));
    Add32(v2b / 4, Mul32(p4, 0x1_0000))
  }

  /** `var1` after Core/Src/bmp280.c:308-309, from the offset `v1`: the
      divisor of the pressure formula. */
  function PVar1(v1: Int32, p1: int, p2: int, p3: int): Int32 {
    var v1b := Add32(Mul32(p3, Mul32(v1 / 4, v1 / 4) / 0x2000) / 8, Mul32(p2, v1) / 2) / 0x4_0000;
    Mul32(Add32(32768, v1b), p1) / 0x8000
  }

  /** The denominator of bmp280_compensate_P_int32. */
  function PressureDenominator(tFine: Int32, c: Calib): Int32 {
    PVar1(PressureOffset(tFine), c.P1, c.P2, c.P3)
  }

  /** The numerator `p` before the division (Core/Src/bmp280.c:313): the
      unsigned steps are taken modulo 2^32. */
  function Numerator(adcP: Int32, var2: Int32): Uint32 {
    ToU32(ToU32(ToU32(Sub32(1048576, adcP)) - var2 / 0x1000) * 3125)
  }

  function PressureNumerator(adcP: Int32, tFine: Int32, c: Calib): Uint32 {
    Numerator(adcP, PVar2(PressureOffset(tFine), c.P4, c.P5, c.P6))
  }

  /** The split unsigned division (Core/Src/bmp280.c:314-318): `p << 1`
      is taken only while it cannot leave 32 bits; otherwise the quotient is
      doubled instead. The result is the exact `2p / d` below 2^31; from
      2^31 on, with a divisor of at least 2, the doubled quotient fits and
      undershoots `2p / d` by at most 1; only a divisor of 1 wraps. */
  function SplitDiv(p: Uint32, d: Uint32): (r: Uint32)
    requires d != 0
    ensures p < 0x8000_0000 ==> r == (2 * p) / d
    ensures p >= 0x8000_0000 && d >= 2 ==>
      r == 2 * (p / d) && (2 * p) / d - 1 <= r <= (2 * p) / d
    ensures p >= 0x8000_0000 && d == 1 ==> r == 2 * p - 0x1_0000_0000
  {
    if p < 0x8000_0000 then ToU32(p * 2) / d
    else
      if d >= 2 then
        HalvedQuotient(p, d);
        DoubledQuotient(p, d);
        ToU32((p / d) * 2)
      else ToU32((p / d) * 2)
  }

  /** The final correction with P7..P9 (Core/Src/bmp280.c:319-321). */
  function Correction(p: Uint32, p7: int, p8: int, p9: int): Uint32 {
    var var1 := Mul32(p9, Wrap32(ToU32((p / 8) * (p / 8)) / 0x2000)) / 0x1000;
    var var2 := Mul32(Wrap32(p / 4), p8) / 0x2000;
    ToU32(Add32(Wrap32(p), Add32(Add32(var1, var2), p7) / 16))
  }

  function PressureCorrection(p: Uint32, c: Calib): Uint32 {
    Correction(p, c.P7, c.P8, c.P9)
  }

  /** bmp280_compensate_P_int32 (Core/Src/bmp280.c:301-323): pressure in
      Pa, or 0 when the denominator vanishes. */
  function CompensateP(adcP: Int32, tFine: Int32, c: Calib): (p: Uint32)
    ensures PressureDenominator(tFine, c) == 0 ==> p == 0
  {
    var den := PressureDenominator(tFine, c);
    if den == 0 then 0
    else
      NonZeroU32(den);
      PressureCorrection(SplitDiv(PressureNumerator(adcP, tFine, c), ToU32(den)), c)
  }

  /** A non-zero 32-bit value stays non-zero as an unsigned value. */
  lemma NonZeroU32(x: Int32)
    requires x != 0
    ensures ToU32(x) != 0
  {
  }

  // ---------------------------------------------------------------------
  // Properties

  /** For every reading and every calibration, the returned temperature
      is the fine temperature scaled by 5/256 and rounded to the nearest
      hundredth of a degree (`t_fine * 5 + 128` never wraps), and it lies
      within +-230.40 degC. */
  lemma TemperatureFromTFine(adcT: Int32, c: Calib)
    ensures var r := CompensateT(adcT, c);
      && r.t == (5 * r.tFine + 128) / 256
      && 256 * r.t - 128 <= 5 * r.tFine < 256 * r.t + 128
      && -23040 <= r.t <= 23040
  {
    var r := CompensateT(adcT, c);
    assert Mul32(r.tFine, 5) == 5 * r.tFine;
    assert Add32(5 * r.tFine, 128) == 5 * r.tFine + 128;
  }

  predicate InInt32(x: int) {
    -0x8000_0000 <= x < 0x8000_0000
  }

  /** The two terms of the temperature formula of section 8.2 of the
      datasheet over unbounded integers, with `>>` as floor division, and
      the fine temperature they add up to. */
  function DatasheetTerm1(adcT: int, c: Calib): int {
    (adcT / 8 - 2 * c.T1) * c.T2 / 2048
  }

  function DatasheetTerm2(adcT: int, c: Calib): int {
    var d := adcT / 16 - c.T1;
    (d * d / 4096) * c.T3 / 16384
  }

  function DatasheetTFine(adcT: int, c: Calib): int {
    DatasheetTerm1(adcT, c) + DatasheetTerm2(adcT, c)
  }

  /** No intermediate of the temperature formula leaves 32 bits. */
  predicate NoWrapT(adcT: int, c: Calib) {
    var a := adcT / 8 - 2 * c.T1;
    var d := adcT / 16 - c.T1;
    InInt32(2 * c.T1) && InInt32(a) && InInt32(a * c.T2) && InInt32(d) &&
    InInt32(d * d) && InInt32((d * d / 4096) * c.T3)
  }

  /** Whenever no product or difference overflows, the wrapping C code
      computes exactly the datasheet's fine temperature. */
  lemma TFineMatchesDatasheet(adcT: Int32, c: Calib)
    requires NoWrapT(adcT, c)
    ensures CompensateT(adcT, c).tFine == DatasheetTFine(adcT, c)
  {
    TFineFirstTerm(adcT, c);
    TFineSecondTerm(adcT, c);
  }

  lemma TFineFirstTerm(adcT: Int32, c: Calib)
    requires NoWrapT(adcT, c)
    ensures TVar1(adcT, c.T1, c.T2) == DatasheetTerm1(adcT, c)
  {
    var a := adcT / 8 - 2 * c.T1;
    assert Mul32(c.T1, 2) == 2 * c.T1;
    assert Sub32(adcT / 8, 2 * c.T1) == a;
    assert Mul32(a, c.T2) == a * c.T2;
  }

  lemma TFineSecondTerm(adcT: Int32, c: Calib)
    requires NoWrapT(adcT, c)
    ensures TVar2(adcT, c.T1, c.T3) == DatasheetTerm2(adcT, c)
  {
    var d := adcT / 16 - c.T1;
    assert Sub32(adcT / 16, c.T1) == d;
    var sq := d * d;
    assert Mul32(d, d) == sq;
    var m := (sq / 4096) * c.T3;
    assert Mul32(sq / 4096, c.T3) == m;
  }

  lemma SquareBound(d: int, lo: int, hi: int)
    requires lo <= 0 <= hi && lo <= d <= hi
    ensures 0 <= d * d <= if -lo > hi then lo * lo else hi * hi
  {
    if d >= 0 {
      assert d * d <= hi * d <= hi * hi;
    } else {
      assert d * d <= lo * d <= lo * lo;
    }
  }

  /** With the datasheet's trimming values, no 20-bit reading makes the
      temperature formula overflow. */
  lemma DatasheetTNeverWraps(adcT: Int32)
    requires 0 <= adcT < 0x10_0000
    ensures NoWrapT(adcT, DatasheetCalib)
  {
    var d := adcT / 16 - 27504;
    SquareBound(d, -27504, 38031);
  }

  /** Before BMP280_Init has stored a calibration every coefficient is 0,
      and the fine temperature comes out 0 for any reading; the pressure
      read-out is gated on exactly that value (Core/Src/bmp280.c:199). */
  lemma UncalibratedTFineIsZero(adcT: Int32)
    ensures CompensateT(adcT, ZeroCalib).tFine == 0
  {
    TVar1WithoutT2(adcT, 0);
    TVar2WithoutT3(adcT, 0);
  }

  lemma TVar1WithoutT2(adcT: Int32, t1: int)
    ensures TVar1(adcT, t1, 0) == 0
  {
    MulZero(Sub32(adcT / 8, Mul32(t1, 2)));
  }

  lemma TVar2WithoutT3(adcT: Int32, t1: int)
    ensures TVar2(adcT, t1, 0) == 0
  {
    var d := Sub32(adcT / 16, t1);
    MulZero(Mul32(d, d) / 0x1000);
  }

  lemma MulZero(a: int)
    ensures Mul32(a, 0) == 0
  {
  }

  /** A zero P1 zeroes the denominator, so the guard returns 0. */
  lemma PressureZeroWhenP1Zero(adcP: Int32, tFine: Int32, c: Calib)
    requires c.P1 == 0
    ensures PressureDenominator(tFine, c) == 0
    ensures CompensateP(adcP, tFine, c) == 0
  {
  }

  /** Dividing by at least 2 at least halves a non-negative number. */
  lemma HalvedQuotient(p: int, d: int)
    requires p >= 0 && d >= 2
    ensures 0 <= p / d && 2 * (p / d) <= p
  {
    var q, r := p / d, p % d;
    assert p == d * q + r && 0 <= r < d;
    if q < 0 {
      MulGrows(d, -q);
      assert false;
    }
    MulGrows(q, d - 1);
    assert d * q == q * (d - 1) + q;
  }

  /** Doubling the quotient loses at most the one unit that doubling the
      remainder can carry. */
  lemma DoubledQuotient(p: int, d: int)
    requires d >= 1
    ensures (2 * p) / d - 1 <= 2 * (p / d) <= (2 * p) / d
  {
    var q, r := p / d, p % d;
    assert p == d * q + r && 0 <= r < d;
    assert 2 * p == d * (2 * q) + 2 * r;
    if 2 * r < d {
      DivUnique(2 * p, d, 2 * q, 2 * r);
    } else {
      assert 2 * p == d * (2 * q + 1) + (2 * r - d);
      DivUnique(2 * p, d, 2 * q + 1, 2 * r - d);
    }
  }

  /** A factor of at least 1 does not shrink a non-negative number. */
  lemma MulGrows(a: int, b: int)
    requires a >= 0 && b >= 1
    ensures a * b >= a
  {
    assert a * b == a * (b - 1) + a;
  }

  /** Quotient and remainder are unique. */
  lemma DivUnique(a: int, d: int, q: int, r: int)
    requires d > 0 && a == d * q + r && 0 <= r < d
    ensures a / d == q
  {
    var q', r' := a / d, a % d;
    assert d * (q - q') == r' - r;
    if q - q' >= 1 {
      MulGrows(d, q - q');
    } else if q' - q >= 1 {
      MulGrows(d, q' - q);
    }
  }

  // ---------------------------------------------------------------------
  // Worked example of section 3.12 of the Bosch BMP280 datasheet

  const DatasheetCalib: Calib :=
    Calib(27504, 26435, -1000, 36477, -10685, 3024, 2855, 140, -7, 15500, -14600, 6000)

  lemma DatasheetCalibIsValid()
    ensures ValidCalib(DatasheetCalib)
  {
    forall i | 0 <= i < 12 ensures InField(i, Field(DatasheetCalib, i)) {
    }
  }

  lemma DatasheetTVar1()
    ensures TVar1(519888, 27504, 26435) == 128793
  {
    assert Mul32(27504, 2) == 55008;
    assert Sub32(519888 / 8, 55008) == 9978;
    assert Mul32(9978, 26435) / 0x800 == 128793;
  }

  lemma DatasheetTVar2()
    ensures TVar2(519888, 27504, -1000) == -371
  {
    assert Sub32(32493, 27504) == 4989;
    assert Mul32(4989, 4989) / 0x1000 == 6076;
    assert Mul32(6076, -1000) == -6076000;
  }

  lemma {:induction false} DatasheetTemperature()
    ensures CompensateT(519888, DatasheetCalib) == TempResult(2508, 128422)
  {
    DatasheetTVar1();
    DatasheetTVar2();
    assert Add32(128793, -371) == 128422;
    assert Add32(Mul32(128422, 5), 128) == 642238;
  }

  /** With the datasheet trimming values every reading 440064..440071 is
      exactly 0.00 degC and leaves t_fine == 0, the value BMP280_ReadP
      treats as "not calibrated" (Core/Src/bmp280.c:199). */
  lemma DatasheetZeroTFine(adcT: Int32)
    requires 440064 <= adcT < 440072
    ensures CompensateT(adcT, DatasheetCalib) == TempResult(0, 0)
  {
    DivUnique(adcT, 8, 55008, adcT - 440064);
    DivUnique(adcT, 16, 27504, adcT - 440064);
    assert Mul32(27504, 2) == 55008;
    assert Sub32(55008, 55008) == 0;
    assert Mul32(0, 26435) == 0;
    assert Sub32(27504, 27504) == 0;
    assert Mul32(0, 0) == 0 && Mul32(0, -1000) == 0;
    assert Mul32(0, 5) == 0 && Add32(0, 128) == 128;
    var c := DatasheetCalib;
    assert TVar1(adcT, c.T1, c.T2) == 0 && TVar2(adcT, c.T1, c.T3) == 0;
    var r := CompensateT(adcT, c);
    assert r.tFine == 0;
    assert r.t == Add32(Mul32(0, 5), 128) / 0x100 == 0;
  }

  lemma {:induction false} DatasheetOffset()
    ensures PressureOffset(128422) == 211
  {
    assert Sub32(64211, 64000) == 211;
  }

  lemma DatasheetPVar1()
    ensures PVar1(211, 36477, -10685, 3024) == 36471
  {
    assert Mul32(52, 52) / 0x2000 == 0;
    assert Mul32(3024, 0) / 8 == 0;
    assert Mul32(-10685, 211) / 2 == -1127268;
    assert Add32(0, -1127268) / 0x4_0000 == -5;
    assert Mul32(Add32(32768, -5), 36477) == 1195095951;
  }

  lemma {:induction false} DatasheetDenominator()
    ensures PressureDenominator(128422, DatasheetCalib) == 36471
  {
    DatasheetOffset();
    DatasheetPVar1();
  }

  lemma DatasheetPVar2()
    ensures PVar2(211, 2855, 140, -7) == 187120048
  {
    assert Mul32(52, 52) / 0x800 == 1;
    assert Mul32(1, -7) == -7;
    assert Mul32(Mul32(211, 140), 2) == 59080;
    assert Add32(-7, 59080) / 4 == 14768;
    assert Mul32(2855, 0x1_0000) == 187105280;
    assert Add32(14768, 187105280) == 187120048;
  }

  lemma DatasheetNumeratorValue()
    ensures Numerator(415148, 187120048) == 1836703125
  {
    assert Sub32(1048576, 415148) == 633428;
    assert 187120048 / 0x1000 == 45683;
    assert ToU32(ToU32(633428) - 45683) == 587745;
    assert ToU32(587745 * 3125) == 1836703125;
  }

  lemma {:induction false} DatasheetNumerator()
    ensures PressureNumerator(415148, 128422, DatasheetCalib) == 1836703125
  {
    DatasheetOffset();
    DatasheetPVar2();
    DatasheetNumeratorValue();
  }

  lemma DatasheetDivision()
    ensures SplitDiv(1836703125, 36471) == 100721
  {
    assert ToU32(1836703125 * 2) == 3673406250;
  }

  /** The `var1` and `var2` of Core/Src/bmp280.c:319-320 for the example. */
  lemma DatasheetCorrectionTerms()
    ensures Mul32(6000, Wrap32(ToU32((100721 / 8) * (100721 / 8)) / 0x2000)) / 0x1000 == 28343
    ensures Mul32(Wrap32(100721 / 4), -14600) / 0x2000 == -44877
  {
    DatasheetCorrectionVar1();
    DatasheetCorrectionVar2();
  }

  lemma DatasheetCorrectionVar1()
    ensures Mul32(6000, Wrap32(ToU32((100721 / 8) * (100721 / 8)) / 0x2000)) / 0x1000 == 28343
  {
    assert 100721 / 8 == 12590;
    assert ToU32(12590 * 12590) == 158508100;
    assert 158508100 / 0x2000 == 19349;
    assert Wrap32(19349) == 19349;
    assert Mul32(6000, 19349) == 116094000;
    assert 116094000 / 0x1000 == 28343;
  }

  lemma DatasheetCorrectionVar2()
    ensures Mul32(Wrap32(100721 / 4), -14600) / 0x2000 == -44877
  {
    assert 100721 / 4 == 25180;
    assert Wrap32(25180) == 25180;
    assert Mul32(25180, -14600) == -367628000;
    assert -367628000 / 0x2000 == -44877;
  }

  lemma DatasheetCorrectionValue()
    ensures Correction(100721, 15500, -14600, 6000) == 100656
  {
    DatasheetCorrectionTerms();
    assert Add32(Add32(28343, -44877), 15500) == -1034;
    assert Wrap32(100721) == 100721;
    assert Add32(100721, -65) == 100656;
  }

  lemma {:induction false} DatasheetCorrection()
    ensures PressureCorrection(100721, DatasheetCalib) == 100656
  {
    DatasheetCorrectionValue();
  }

  /** With the datasheet's trimming values and raw readings the integer
      pipeline gives t_fine = 128422 (the datasheet's own value), 25.08 degC
      and 100656 Pa (the floating-point pipeline gives 100653.27 Pa). */
  lemma DatasheetExample()
    ensures ValidCalib(DatasheetCalib)
    ensures CompensateT(519888, DatasheetCalib) == TempResult(2508, 128422)
    ensures CompensateP(415148, CompensateT(519888, DatasheetCalib).tFine, DatasheetCalib) == 100656
  {
    DatasheetCalibIsValid();
    DatasheetTemperature();
    DatasheetDenominator();
    DatasheetNumerator();
    DatasheetDivision();
    DatasheetCorrection();
    assert CompensateP(415148, 128422, DatasheetCalib)
        == PressureCorrection(SplitDiv(1836703125, ToU32(36471)), DatasheetCalib);
  }
}
