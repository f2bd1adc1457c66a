/** Azimuth arithmetic in degrees over exact reals. The trigonometric inputs
    (atan2) arrive as angles; Binary32.dfy treats rounding. */
module CueingMath {
  import opened Bytes

  /** k full turns. */
  function Turns(k: int): real { 360.0 * k as real }

  ghost predicate Congruent(a: real, b: real) {
    exists k: int :: a == b + Turns(k)
  }

  predicate InCircle(a: real) { 0.0 <= a < 360.0 }

  /** The representative of an angle in [0, 360), in closed form. */
  function Norm360(a: real): real {
    a - Turns((a / 360.0).Floor)
  }

  lemma CongruentBy(a: real, b: real, k: int)
    requires a == b + Turns(k)
    ensures Congruent(a, b) && Congruent(b, a)
  {
    assert b == a + Turns(-k);
  }

  lemma CongruentTransitive(a: real, b: real, c: real)
    requires Congruent(a, b) && Congruent(b, c)
    ensures Congruent(a, c)
  {
    var i :| a == b + Turns(i);
    var j :| b == c + Turns(j);
    assert a == c + Turns(i + j);
  }

  /** mod360's contract: exactly one angle in [0, 360) is congruent to the input. */
  lemma NormUnique(r: real, a: real)
    ensures InCircle(r) && Congruent(r, a) <==> r == Norm360(a)
  {
    var f := (a / 360.0).Floor;
    CongruentBy(Norm360(a), a, -f);
    if InCircle(r) && Congruent(r, a) {
      var k :| r == a + Turns(k);
      assert 360.0 * (k + f) as real == r - Norm360(a);
      assert -1 < k + f < 1;
    }
  }

  lemma NormInCircle(a: real)
    ensures InCircle(Norm360(a)) && Congruent(Norm360(a), a)
  {
    NormUnique(Norm360(a), a);
  }

  /** Congruent angles normalise alike. */
  lemma NormOfCongruent(a: real, b: real)
    ensures Congruent(a, b) <==> Norm360(a) == Norm360(b)
  {
    NormInCircle(a);
    NormInCircle(b);
    if Congruent(a, b) {
      CongruentTransitive(Norm360(a), a, b);
      NormUnique(Norm360(a), b);
    }
    if Norm360(a) == Norm360(b) {
      var k :| Norm360(a) == a + Turns(k);
      CongruentBy(Norm360(a), a, k);
      CongruentTransitive(a, Norm360(a), b);
    }
  }

  /** Normalising inside a difference changes nothing after the outer normalisation. */
  lemma NormAbsorbs(a: real, h: real)
    ensures Norm360(Norm360(a) - h) == Norm360(a - h)
    ensures Norm360(Norm360(a)) == Norm360(a)
  {
    CongruentBy(Norm360(a) - h, a - h, -(a / 360.0).Floor);
    NormOfCongruent(Norm360(a) - h, a - h);
    CongruentBy(Norm360(a), a, -(a / 360.0).Floor);
    NormOfCongruent(Norm360(a), a);
  }

  method Mod360(angleDeg: real) returns (r: real)
    ensures r == Norm360(angleDeg)
  {
    r := angleDeg;
    ghost var k := 0;
    while r < 0.0
      invariant r == angleDeg + Turns(k)
      decreases -r
    {
      r, k := r + 360.0, k + 1;
    }
    while r >= 360.0
      invariant r == angleDeg + Turns(k) && 0.0 <= r
      decreases r
    {
      r, k := r - 360.0, k - 1;
    }
    CongruentBy(r, angleDeg, k);
    NormUnique(r, angleDeg);
  }

  // --- relative bearing ---

  const PI := 3.14159265358979323846

  function Rad2Deg(angleRad: real): real { angleRad * 180.0 / PI }

  /** Half a turn is PI radians, and whole turns of radians are whole turns of degrees. */
  lemma Rad2DegTurns(a: real, k: int)
    ensures Rad2Deg(PI) == 180.0 && Rad2Deg(0.0) == 0.0
    ensures Rad2Deg(a + 2.0 * PI * k as real) == Rad2Deg(a) + Turns(k)
  {
    assert (a + 2.0 * PI * k as real) * 180.0 == a * 180.0 + PI * Turns(k);
  }

  ghost predicate IsRelativeBearing(az: real, bearing: real, heading: real) {
    -180.0 < az <= 180.0 && Congruent(az, bearing - heading)
  }

  /** The half-open interval (-180, 180] holds at most one relative bearing, so two
      routes to it agree whenever their bearings are congruent. */
  lemma RelativeBearingUnique(az1: real, az2: real, bearing1: real, bearing2: real, heading: real)
    requires IsRelativeBearing(az1, bearing1, heading) && IsRelativeBearing(az2, bearing2, heading)
    ensures az1 == az2 <==> Congruent(bearing1, bearing2)
  {
    var i :| az1 == bearing1 - heading + Turns(i);
    var j :| az2 == bearing2 - heading + Turns(j);
    if az1 == az2 {
      CongruentBy(bearing1, bearing2, j - i);
    }
    if Congruent(bearing1, bearing2) {
      var k :| bearing1 == bearing2 + Turns(k);
      assert az1 - az2 == 360.0 * (k + i - j) as real;
      assert -1 < k + i - j < 1;
    }
  }

  /** Turning the ship by whole turns changes no relative bearing. */
  lemma HeadingInvariance(az: real, bearing: real, heading: real, k: int)
    ensures IsRelativeBearing(az, bearing, heading) <==> IsRelativeBearing(az, bearing, heading + Turns(k))
  {
    CongruentBy(bearing - heading, bearing - (heading + Turns(k)), k);
    if Congruent(az, bearing - heading) {
      CongruentTransitive(az, bearing - heading, bearing - (heading + Turns(k)));
    }
    if Congruent(az, bearing - (heading + Turns(k))) {
      CongruentTransitive(az, bearing - (heading + Turns(k)), bearing - heading);
    }
  }

  /** Folding [0, 360) onto (-180, 180] gives the relative bearing. */
  lemma FoldedIsRelativeBearing(n: real, bearing: real, heading: real)
    requires InCircle(n) && Congruent(n, bearing - heading)
    ensures IsRelativeBearing(if n > 180.0 then n - 360.0 else n, bearing, heading)
  {
    CongruentBy(n - 360.0, n, -1);
    CongruentTransitive(n - 360.0, n, bearing - heading);
  }

  /** The azimuth part of cartesian2target: `goniometricAngle` is rad2deg(atan2(y, x)) and
      `elevation` rad2deg(atan2(z, projectedRange)). `below` reports whether either branch
      for angles under -180 was taken. */
  method Cartesian2Target(goniometricAngle: real, elevation: real, isTrueB: bool, heading: real)
    returns (az: real, el: real, azAbs: real, ghost below: bool)
    ensures azAbs == Norm360(90.0 - goniometricAngle) && el == elevation && !below
    ensures isTrueB ==> IsRelativeBearing(az, 90.0 - goniometricAngle, heading)
    ensures !isTrueB ==> az == azAbs
  {
    below, az := false, 0.0;
    var tempAng := Mod360(90.0 - goniometricAngle);
    NormInCircle(90.0 - goniometricAngle);
    azAbs := tempAng;
    if azAbs > 180.0 {
      az := azAbs - 360.0;
    } else if azAbs < -180.0 {
      azAbs, below := azAbs + 360.0, true;
    }
    if isTrueB {
      az := Mod360(tempAng - heading);
      NormAbsorbs(90.0 - goniometricAngle, heading);
      NormInCircle(90.0 - goniometricAngle - heading);
      FoldedIsRelativeBearing(az, 90.0 - goniometricAngle, heading);
      if az > 180.0 {
        az := az - 360.0;
      } else if az < -180.0 {
        az, below := az + 360.0, true;
      }
    } else {
      az := tempAng;
    }
    el := elevation;
  }

  method Polar2D(trueBearing: real, angleOfSight: real, isTrueB: bool, heading: real)
    returns (az: real, el: real, azAbs: real, ghost below: bool)
    ensures azAbs == Rad2Deg(trueBearing) && el == Rad2Deg(angleOfSight) && !below
    ensures isTrueB ==> IsRelativeBearing(az, Rad2Deg(trueBearing), heading)
    ensures !isTrueB ==> az == azAbs
  {
    below := false;
    var tempAng := Rad2Deg(trueBearing);
    azAbs := tempAng;
    if isTrueB {
      az := Mod360(tempAng - heading);
      NormInCircle(tempAng - heading);
      FoldedIsRelativeBearing(az, tempAng, heading);
      if az > 180.0 {
        az := az - 360.0;
      } else if az < -180.0 {
        az, below := az + 360.0, true;
      }
    } else {
      az := tempAng;
    }
    el := Rad2Deg(angleOfSight);
  }

  // --- delta encoding ---

  /** std::lround: halves go away from zero. */
  function LRound(x: real): int {
    if x >= 0.0 then (x + 0.5).Floor else -((-x + 0.5).Floor)
  }

  /** d is the whole number nearest to x, the one further from 0 at a tie. */
  predicate NearestAwayFromZero(d: int, x: real) {
    if x >= 0.0 then d as real - 0.5 <= x < d as real + 0.5 else d as real - 0.5 < x <= d as real + 0.5
  }

  lemma LRoundUnique(d: int, x: real)
    ensures d == LRound(x) <==> NearestAwayFromZero(d, x)
  {
    if NearestAwayFromZero(d, x) {
      if x >= 0.0 {
        assert d as real <= x + 0.5 < d as real + 1.0;
      } else {
        assert (-d) as real <= -x + 0.5 < (-d) as real + 1.0;
      }
    }
  }

  function EncodeDelta(angleDeg: real): int {
    LRound(Norm360(angleDeg))
  }

  method EncodeDeltaU16(angleDeg: real) returns (encoded: u16)
    ensures encoded == EncodeDelta(angleDeg)
  {
    var normalized := Mod360(angleDeg);
    NormInCircle(angleDeg);
    var rounded := LRound(normalized);
    encoded := rounded % 0x1_0000;
  }

  /** d is the whole degree nearest to the representative of the angle, the upper one at a tie; so 360, not 0, for the
      top half degree of the circle. */
  ghost predicate WholeDegrees(d: int, angleDeg: real) {
    exists r :: InCircle(r) && Congruent(r, angleDeg) && d as real - 0.5 <= r < d as real + 0.5
  }

  /** The encoded delta is that whole degree and no other. */
  lemma EncodeDeltaBound(angleDeg: real)
    ensures 0 <= EncodeDelta(angleDeg) <= 360
    ensures forall d :: WholeDegrees(d, angleDeg) <==> d == EncodeDelta(angleDeg)
    ensures EncodeDelta(angleDeg) == 360 <==> Norm360(angleDeg) >= 359.5
  {
    NormInCircle(angleDeg);
    LRoundUnique(EncodeDelta(angleDeg), Norm360(angleDeg));
    forall d ensures WholeDegrees(d, angleDeg) <==> d == EncodeDelta(angleDeg) {
      if WholeDegrees(d, angleDeg) {
        var r :| InCircle(r) && Congruent(r, angleDeg) && d as real - 0.5 <= r < d as real + 0.5;
        NormUnique(r, angleDeg);
        LRoundUnique(d, r);
      }
    }
  }
}
