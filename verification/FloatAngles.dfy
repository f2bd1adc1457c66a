/** How exact mod360 and the delta encoding are on binary32 angles. Up to 2^27 + 360
    the loops give the correctly rounded representative; the next number breaks this. */
module FloatAngles {
  import opened Bytes
  import opened CueingMath
  import opened Binary32

  const LIMIT: real := 134218088.0           // 2^27 + 360
  const HALF_ULP: real := 0.0000152587890625      // 2^-16, half the spacing in [256, 512)

  /** Rounding up to a full turn costs one more pass. */
  function Wrap(x: real): real { if x >= 360.0 then 0.0 else x }

  lemma SmallPowers()
    ensures Pow2(0) == 1.0 && Pow2(3) == 8.0 && Pow2(4) == 16.0 && Pow2(27) == 134217728.0 && Pow2(28) == 268435456.0
    ensures Pow2(-15) == 2.0 * HALF_ULP
  {
    assert NatPow2(9) == 512;
    assert NatPow2(18) == 512 * 512;
    assert NatPow2(28) == 1024 * 512 * 512;
    assert NatPow2(15) == 32768;
    Pow2Shift(0, 27);
    Pow2Shift(0, 28);
    Pow2Shift(-15, 15);
  }

  // --- where the loops are exact ---

  lemma RegroupFine(m: int, c: int, p: real)
    requires c as real * p == 8.0
    ensures m as real * p - 360.0 == (m - 45 * c) as real * p
  {
    assert (45 * c) as real * p == 45.0 * (c as real * p);
  }

  lemma RegroupCoarse(m: int, c: int)
    ensures m as real * (c as real * 8.0) - 360.0 == (m * c - 45) as real * 8.0
  {
    assert (m * c) as real == m as real * c as real;
  }

  lemma FineMultiplier(j: int, m: int, p: real)
    requires p > 0.0 && 0.0 <= j as real * p <= m as real * p
    ensures 0 <= j <= m
  {
    MulCancel(0.0, j as real, p);
    MulCancel(j as real, m as real, p);
  }

  lemma FineGrid(x: real, m: int, e: int)
    requires IsFloat(x, m, e) && e <= 3 && 360.0 <= x
    ensures Representable(x - 360.0)
  {
    hide Pow2, NatPow2, Representable;
    SmallPowers();
    var c, p := NatPow2(3 - e), Pow2(e);
    Pow2Shift(e, 3 - e);
    Pow2Positive(e);
    RegroupFine(m, c, p);
    var j := m - 45 * c;
    FineMultiplier(j, m, p);
    FloatIsRepresentable(x - 360.0, j, e);
  }

  lemma CoarseGrid(x: real, m: int, e: int)
    requires IsFloat(x, m, e) && e > 3 && 360.0 <= x <= LIMIT
    ensures Representable(x - 360.0)
  {
    hide Pow2, NatPow2, Representable;
    SmallPowers();
    var c := NatPow2(e - 3);
    Pow2Shift(3, e - 3);
    RegroupCoarse(m, c);
    var j := m * c - 45;
    MultipleOfEight(x - 360.0, j);
  }

  lemma MultipleOfEight(x: real, j: int)
    requires x == j as real * 8.0 && 0.0 <= x <= 134217728.0
    ensures Representable(x)
  {
    hide Pow2, Representable;
    SmallPowers();
    GridRepresentable(x, j, 3);
  }

  /** Taking 360 off a binary32 number up to LIMIT needs no rounding. */
  lemma TakingOffIsExact(x: real)
    requires Representable(x) && 360.0 <= x <= LIMIT
    ensures Representable(x - 360.0)
  {
    hide Pow2;
    var m: int, e: int :| IsFloat(x, m, e);
    if e <= 3 {
      FineGrid(x, m, e);
    } else {
      CoarseGrid(x, m, e);
    }
  }

  lemma Mirror(x: real)
    requires Representable(x)
    ensures Representable(-x)
  {
    hide Pow2;
    var m: int, e: int :| IsFloat(x, m, e);
    assert (-m) as real * Pow2(e) == -(m as real * Pow2(e));
    assert IsFloat(-x, -m, e);
  }

  lemma ExactStep(rn: real -> real, a: real)
    requires RoundsToNearest(rn) && Representable(a) && 360.0 <= Abs(a) <= LIMIT
    ensures Representable(Step(rn, a)) && Step(rn, a) == if a < 0.0 then a + 360.0 else a - 360.0
  {
    hide RoundsToNearest, Representable;
    if a < 0.0 {
      Mirror(a);
      TakingOffIsExact(-a);
      Mirror(-a - 360.0);
      NearestFixes(rn, a + 360.0);
    } else {
      TakingOffIsExact(a);
      NearestFixes(rn, a - 360.0);
    }
  }

  lemma NormOfTurned(a: real, k: int)
    ensures Norm360(a + Turns(k)) == Norm360(a)
  {
    CongruentBy(a + Turns(k), a, k);
    NormOfCongruent(a + Turns(k), a);
  }

  lemma NormIn(a: real)
    requires InCircle(a)
    ensures Norm360(a) == a
  {
    CongruentBy(a, a, 0);
    NormUnique(a, a);
  }

  lemma ReturnsNow(rn: real -> real, a: real)
    requires InCircle(a)
    ensures Returns(rn, a, a)
  {
    assert StopsAfter(rn, a, 0) && Iterate(rn, a, 0) == a;
  }

  lemma ReturnsLater(rn: real -> real, a: real, r: real)
    requires !InCircle(a) && Returns(rn, Step(rn, a), r)
    ensures Returns(rn, a, r)
  {
    var n: nat :| StopsAfter(rn, Step(rn, a), n) && r == Iterate(rn, Step(rn, a), n);
    StopsOneLater(rn, a, n);
  }

  lemma RoundedTurn(rn: real -> real, x: real)
    requires RoundsToNearest(rn) && 0.0 <= x <= 360.0
    ensures 0.0 <= rn(x) <= 360.0 && Abs(rn(x) - x) <= HALF_ULP && rn(0.0) == 0.0 && Representable(rn(x))
  {
    hide Pow2;
    SmallPowers();
    Pow2Values();
    NearestError(rn, -15, x);
    NearestIsClosest(rn, x, rn(x));
    assert IsFloat(0.0, 0, 0) && IsFloat(360.0, 360, 0);
    NearestFixes(rn, 0.0);
    NearestFixes(rn, 360.0);
    NearestMonotone(rn, 0.0, x);
    NearestMonotone(rn, x, 360.0);
  }

  /** Up to LIMIT the loops round once: they return the representative of the exact angle, rounded to
      nearest, or 0 where that is a full turn. */
  lemma {:induction false} CorrectlyRounded(rn: real -> real, a: real)
    requires RoundsToNearest(rn) && Representable(a) && Abs(a) <= LIMIT
    ensures Returns(rn, a, Wrap(rn(Norm360(a))))
    decreases Abs(a)
  {
    hide RoundsToNearest, Representable, Returns, Norm360;
    if InCircle(a) {
      NormIn(a);
      NearestFixes(rn, a);
      ReturnsNow(rn, a);
    } else if Abs(a) >= 360.0 {
      ExactStep(rn, a);
      NormOfTurned(a, if a < 0.0 then 1 else -1);
      CorrectlyRounded(rn, Step(rn, a));
      ReturnsLater(rn, a, Wrap(rn(Norm360(a))));
    } else {
      OneTurnBelow(rn, a);
    }
  }

  lemma OneTurnBelow(rn: real -> real, a: real)
    requires RoundsToNearest(rn) && -360.0 < a < 0.0
    ensures Returns(rn, a, Wrap(rn(Norm360(a))))
  {
    hide RoundsToNearest, Representable, Returns, Norm360;
    NormOfTurned(a, 1);
    NormIn(a + 360.0);
    var b := rn(a + 360.0);
    RoundedTurn(rn, a + 360.0);
    if InCircle(b) {
      ReturnsNow(rn, b);
    } else {
      ReturnsNow(rn, 0.0);
      ReturnsLater(rn, 360.0, 0.0);
    }
    ReturnsLater(rn, a, Wrap(b));
  }

  lemma {:induction false} NormRepresentable(a: real)
    requires Representable(a) && 0.0 <= a <= LIMIT
    ensures Representable(Norm360(a))
    decreases a
  {
    hide Representable, Norm360;
    if InCircle(a) {
      NormIn(a);
    } else {
      TakingOffIsExact(a);
      NormOfTurned(a, -1);
      NormRepresentable(a - 360.0);
    }
  }

  /** The loops give the exact representative if and only if that is a binary32 number, which it is for every
      angle from 0 up. */
  lemma ExactWhen(rn: real -> real, a: real)
    requires RoundsToNearest(rn) && Representable(a) && Abs(a) <= LIMIT
    ensures Returns(rn, a, Norm360(a)) <==> Representable(Norm360(a))
    ensures a >= 0.0 ==> Returns(rn, a, Norm360(a))
  {
    hide RoundsToNearest, Representable, Returns, Norm360;
    CorrectlyRounded(rn, a);
    NormInCircle(a);
    var x := Norm360(a);
    RoundedTurn(rn, x);
    if a >= 0.0 {
      NormRepresentable(a);
    }
    if Representable(x) {
      NearestFixes(rn, x);
    }
    if Returns(rn, a, x) {
      ReturnsOnce(rn, a, x, Wrap(rn(x)));
      if rn(x) >= 360.0 {
        FloatIsRepresentable(0.0, 0, 0);
      }
    }
  }

  // --- how far off, up to and beyond the limit ---

  lemma OffByCongruent(r: real, a: real, x: real, error: real)
    requires Congruent(x, a) && Abs(r - x) <= error
    ensures OffBy(r, a, error) && OffBy(r - 360.0, a, error)
  {
    var k :| x == a + Turns(k);
    assert Abs(r - (a + Turns(k))) <= error;
    assert Abs(r - 360.0 - (a + Turns(k - 1))) <= error;
  }

  lemma WithinOneRounding(rn: real -> real, a: real)
    requires RoundsToNearest(rn)
    ensures OffBy(Wrap(rn(Norm360(a))), a, HALF_ULP)
  {
    hide RoundsToNearest, Representable, Norm360, OffBy;
    NormInCircle(a);
    RoundedTurn(rn, Norm360(a));
    OffByCongruent(rn(Norm360(a)), a, Norm360(a), HALF_ULP);
  }

  lemma OffByWithin(r: real, b: real, a: real, turn: int, e: real, d: real)
    requires OffBy(r, b, e) && Abs(b - (a + Turns(turn))) <= d
    ensures OffBy(r, a, e + d)
  {
    var k :| Abs(r - (b + Turns(k))) <= e;
    assert Abs(r - (a + Turns(k + turn))) <= e + d;
  }

  /** A pass between LIMIT and 2^28 moves the angle by at least 352 and errs by at most 8. */
  lemma CoarseStep(rn: real -> real, a: real)
    requires RoundsToNearest(rn) && LIMIT < Abs(a) <= 268435456.0
    ensures Representable(Step(rn, a)) && Abs(Step(rn, a)) <= Abs(a) - 352.0
    ensures Abs(Step(rn, a) - (a + Turns(if a < 0.0 then 1 else -1))) <= 8.0
  {
    hide Pow2;
    SmallPowers();
    var x := if a < 0.0 then a + 360.0 else a - 360.0;
    NearestError(rn, 4, x);
    NearestIsClosest(rn, x, rn(x));
  }

  /** Each 352 degrees beyond LIMIT can cost another 8 degrees. From 22 such steps on, the bound would be half a
      turn, which any result meets. */
  lemma {:induction false} NearLimit(rn: real -> real, a: real, j: nat) returns (r: real)
    requires RoundsToNearest(rn) && Representable(a) && Abs(a) <= LIMIT + 352.0 * j as real && j <= 22
    ensures Returns(rn, a, r) && OffBy(r, a, 8.0 * j as real + HALF_ULP)
    decreases j
  {
    hide RoundsToNearest, Representable, Returns, Norm360, OffBy;
    if Abs(a) <= LIMIT {
      CorrectlyRounded(rn, a);
      r := Wrap(rn(Norm360(a)));
      WithinOneRounding(rn, a);
      OffByMore(r, a, HALF_ULP, 8.0 * j as real + HALF_ULP);
    } else {
      CoarseStep(rn, a);
      r := NearLimit(rn, Step(rn, a), j - 1);
      ReturnsLater(rn, a, r);
      OffByWithin(r, Step(rn, a), a, if a < 0.0 then 1 else -1, 8.0 * (j - 1) as real + HALF_ULP, 8.0);
    }
  }

  lemma OffByMore(r: real, a: real, e: real, f: real)
    requires OffBy(r, a, e) && e <= f
    ensures OffBy(r, a, f)
  {
    var k :| Abs(r - (a + Turns(k))) <= e;
    assert Abs(r - (a + Turns(k))) <= f;
  }

  /** Beyond 2^27 every representable number is a multiple of 16. */
  lemma CoarseBeyond(x: real) returns (j: int)
    requires Representable(x) && x > 134217728.0
    ensures x == 16.0 * j as real
  {
    hide Pow2, NatPow2;
    SmallPowers();
    var m: int, e: int :| IsFloat(x, m, e);
    Pow2Positive(e);
    if e <= 3 {
      Pow2Monotone(e, 3);
      ProductBound(m as real, Pow2(e), 16777216.0, 8.0);
    }
    Pow2Shift(4, e - 4);
    j := m * NatPow2(e - 4);
    assert j as real == m as real * NatPow2(e - 4) as real;
    RegroupSixteen(m, NatPow2(e - 4));
  }

  lemma RegroupSixteen(m: int, c: int)
    ensures m as real * (c as real * 16.0) == 16.0 * (m * c) as real
  {
    assert (m * c) as real == m as real * c as real;
  }

  lemma NormOfTurns(r: real, k: int)
    requires InCircle(r)
    ensures Norm360(r + Turns(k)) == r
  {
    NormOfTurned(r, k);
    NormIn(r);
  }

  const FIRST_INEXACT: real := 134218096.0  // 2^27 + 368

  /** The first binary32 number above LIMIT has the representative 16, and the loops return 8 or 24, as the tie
      falls. */
  lemma LimitIsSharp(rn: real -> real) returns (r: real)
    requires RoundsToNearest(rn)
    ensures Representable(FIRST_INEXACT) && forall x :: Representable(x) && x > LIMIT ==> x >= FIRST_INEXACT
    ensures Returns(rn, FIRST_INEXACT, r) && (r == 8.0 || r == 24.0)
    ensures Wrap(rn(Norm360(FIRST_INEXACT))) == Norm360(FIRST_INEXACT) == 16.0
  {
    hide Pow2, NatPow2, RoundsToNearest, Representable, Returns, Norm360;
    SmallPowers();
    FloatIsRepresentable(FIRST_INEXACT, 8388631, 4);
    forall x | Representable(x) && x > LIMIT
      ensures x >= FIRST_INEXACT
    {
      var j := CoarseBeyond(x);
    }
    var b := rn(FIRST_INEXACT - 360.0);
    TieBeyond(rn, b);
    ExactWhen(rn, b);
    r := Norm360(b);
    ReturnsLater(rn, FIRST_INEXACT, r);
    NormOfTurns(16.0, 372828);
    NormOfTurns(8.0, 372827);
    NormOfTurns(24.0, 372827);
    FloatIsRepresentable(16.0, 16, 0);
    NearestFixes(rn, 16.0);
  }

  lemma TieBeyond(rn: real -> real, b: real)
    requires RoundsToNearest(rn) && b == rn(134217736.0)
    ensures Representable(b) && (b == 134217728.0 || b == 134217744.0)
  {
    hide Pow2, RoundsToNearest, Representable;
    SmallPowers();
    NearestError(rn, 4, 134217736.0);
    NearestIsClosest(rn, 134217736.0, 134217728.0) by { MultipleOfEight(134217728.0, 16777216); }
    if b > 134217728.0 {
      var j := CoarseBeyond(b);
    }
  }

  // --- the encoded delta ---

  lemma LRoundBound(x: real)
    requires InCircle(x)
    ensures 0 <= LRound(x) <= 360 && Abs(LRound(x) as real - x) <= 0.5 && (LRound(x) == 360 <==> x >= 359.5)
  {
  }

  lemma OffByRounded(d: real, r: real, a: real, e: real)
    requires OffBy(r, a, e) && Abs(d - r) <= 0.5
    ensures OffBy(d, a, 0.5 + e)
  {
    var k :| Abs(r - (a + Turns(k))) <= e;
    assert Abs(d - (a + Turns(k))) <= 0.5 + e;
  }

  /** The encoded delta of a binary32 angle: within half a degree and one rounding of a congruent angle, and
      from 0 up the nearest degree that exact arithmetic gives. */
  lemma EncodedDelta(rn: real -> real, a: real, normalized: real)
    requires RoundsToNearest(rn) && Representable(a) && Abs(a) <= LIMIT && Returns(rn, a, normalized)
    ensures normalized == Wrap(rn(Norm360(a)))
    ensures OffBy(LRound(normalized) as real, a, 0.5 + HALF_ULP)
    ensures a >= 0.0 ==> LRound(normalized) == EncodeDelta(a)
  {
    hide RoundsToNearest, Representable, Norm360, OffBy, LRound;
    CorrectlyRounded(rn, a);
    ExactWhen(rn, a);
    ReturnsOnce(rn, a, normalized, Wrap(rn(Norm360(a))));
    if a >= 0.0 {
      ReturnsOnce(rn, a, normalized, Norm360(a));
    }
    WithinOneRounding(rn, a);
    LRoundBound(normalized);
    OffByRounded(LRound(normalized) as real, normalized, a, HALF_ULP);
  }

  /** encode_delta_u16 in binary32. */
  method EncodeDeltaU16Rounded(rn: real -> real, angleDeg: real) returns (encoded: u16, ghost normalized: real)
    requires RoundsToNearest(rn) && Representable(angleDeg) && Abs(angleDeg) <= TWO_33
    ensures Returns(rn, angleDeg, normalized) && Abs(encoded as real - normalized) <= 0.5
    ensures 0 <= encoded <= 360 && (encoded == 360 <==> normalized >= 359.5)
    ensures Abs(angleDeg) <= LIMIT ==> OffBy(encoded as real, angleDeg, 0.5 + HALF_ULP)
    ensures 0.0 <= angleDeg <= LIMIT ==> encoded == EncodeDelta(angleDeg)
  {
    hide RoundsToNearest, Representable, Norm360, OffBy, LRound, Pow2, Returns, PassesLeft;
    NearestRoundsWithin(rn, 9);
    Pow2Values();
    var r, passes := Mod360Rounded(rn, angleDeg, TWO_33, 256.0);
    normalized := r;
    LRoundBound(r);
    if Abs(angleDeg) <= LIMIT {
      EncodedDelta(rn, angleDeg, r);
    }
    var rounded := LRound(r);
    encoded := rounded % 0x1_0000;
  }

  // --- the angles this program normalises ---

  lemma QuotientSmall(x: real, pace: real)
    requires 0.0 <= x < pace
    ensures QuotientNat(x, pace) == 0
  {
    QuotientTimes(x, pace);
    if x / pace >= 1.0 {
      MulMonotone(1.0, x / pace, pace);
    }
  }

  lemma FewPassesLeft(rn: real -> real, a: real, pace: real)
    requires 359.0 < pace && Overshoot(rn) == 0.0 && -270.0 <= a <= 450.0
    ensures PassesLeft(rn, a, pace) <= 2
  {
    QuotientSmall(0.0, pace);
    if a < 0.0 {
      QuotientSmall(-a, pace);
    } else if a >= 360.0 {
      QuotientSmall(a - 360.0, pace);
    }
  }

  /** On the angles this program normalises the loops stop in two passes, with the correctly rounded result, and
      normalising that again changes nothing. */
  lemma SmallAngle(rn: real -> real, a: real) returns (n: nat, r: real)
    requires RoundsToNearest(rn) && Representable(a) && -270.0 <= a <= 450.0
    ensures StopsAfter(rn, a, n) && n <= 2 && r == Iterate(rn, a, n)
    ensures r == Wrap(rn(Norm360(a))) && Representable(r) && Returns(rn, r, r)
    ensures OffBy(r, a, HALF_ULP) && OffBy(LRound(r) as real, a, 0.5 + HALF_ULP)
  {
    hide RoundsToNearest, Representable, Norm360, OffBy, LRound, Pow2, PassesLeft;
    SmallPowers();
    Pow2Values();
    n := Binary32Passes(rn, -15, a);
    FewPassesLeft(rn, a, 360.0 - HALF_ULP);
    r := Iterate(rn, a, n);
    assert Returns(rn, a, r);
    EncodedDelta(rn, a, r);
    WithinOneRounding(rn, a);
    NormInCircle(a);
    RoundedTurn(rn, Norm360(a));
    FloatIsRepresentable(0.0, 0, 0);
    ReturnsNow(rn, r);
  }

  /** The converter's two angles: from an atan2 angle `g` in degrees the azimuth is mod360(90 - g), normalised
      again; the elevation is normalised once. With one more rounding for 90 - g, both stop and both deltas
      are within half a degree and two roundings. */
  lemma ConverterAngles(rn: real -> real, g: real, elevation: real) returns (n: nat, m: nat, az: real, el: real)
    requires RoundsToNearest(rn) && Representable(g) && Representable(elevation)
    requires Abs(g) <= 360.0 && Abs(elevation) <= 270.0
    ensures StopsAfter(rn, rn(90.0 - g), n) && n <= 2 && az == Iterate(rn, rn(90.0 - g), n)
    ensures Returns(rn, az, az) && OffBy(az, 90.0 - g, 2.0 * HALF_ULP)
    ensures OffBy(LRound(az) as real, 90.0 - g, 0.5 + 2.0 * HALF_ULP)
    ensures StopsAfter(rn, elevation, m) && m <= 2 && el == Iterate(rn, elevation, m)
    ensures OffBy(el, elevation, HALF_ULP) && OffBy(LRound(el) as real, elevation, 0.5 + HALF_ULP)
  {
    hide RoundsToNearest, Representable, Norm360, OffBy, LRound, Pow2, Returns;
    m, el := SmallAngle(rn, elevation);
    var a := rn(90.0 - g);
    ShiftedAngle(rn, 90.0 - g);
    n, az := SmallAngle(rn, a);
    OffByWithin(az, a, 90.0 - g, 0, HALF_ULP, HALF_ULP);
    OffByWithin(LRound(az) as real, a, 90.0 - g, 0, 0.5 + HALF_ULP, HALF_ULP);
  }

  lemma ShiftedAngle(rn: real -> real, x: real)
    requires RoundsToNearest(rn) && -270.0 <= x <= 450.0
    ensures Representable(rn(x)) && -270.0 <= rn(x) <= 450.0 && Abs(rn(x) - x) <= HALF_ULP
  {
    hide Pow2, RoundsToNearest, Representable;
    SmallPowers();
    Pow2Values();
    NearestError(rn, -15, x);
    FloatIsRepresentable(450.0, 450, 0);
    FloatIsRepresentable(-270.0, -270, 0);
    NearestIsClosest(rn, x, 450.0);
    NearestFixes(rn, 450.0);
    NearestFixes(rn, -270.0);
    NearestMonotone(rn, -270.0, x);
    NearestMonotone(rn, x, 450.0);
  }
}
