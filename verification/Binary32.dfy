/** mod360 under rounding. The first part is about any rounding with a bounded error;
    the second instantiates it for binary32 (IEEE 754-2019, section 4.3.1, with
    either tie rule) and finds exactly the inputs on which the loops stop. */
module Binary32 {
  import opened CueingMath

  function Abs(x: real): real { if x < 0.0 then -x else x }

  // --- products of a positive factor ---

  lemma MulMonotone(a: real, b: real, p: real)
    requires a <= b && p >= 0.0
    ensures a * p <= b * p
  {
    assert (b - a) * p >= 0.0;
  }

  lemma MulCancel(a: real, b: real, p: real)
    requires a * p <= b * p && p > 0.0
    ensures a <= b
  {
    assert (a - b) * p <= 0.0;
  }

  lemma QuotientTimes(x: real, p: real)
    requires p > 0.0
    ensures x / p * p == x
  {
  }

  lemma AbsOfProduct(m: real, p: real)
    requires p >= 0.0
    ensures Abs(m * p) == Abs(m) * p
  {
    MulMonotone(0.0, Abs(m), p);
  }

  lemma ProductBound(m: real, p: real, c: real, q: real)
    requires Abs(m) <= c && 0.0 <= p <= q
    ensures Abs(m * p) <= c * q
  {
    AbsOfProduct(m, p);
    MulMonotone(Abs(m), c, p);
    assert c * p <= c * q by { MulMonotone(p, q, c); }
  }

  // --- any bounded rounding ---

  /** One pass through whichever loop of mod360 is active, rounding the sum. */
  function Step(rn: real -> real, a: real): real {
    if a < 0.0 then rn(a + 360.0)
    else if a >= 360.0 then rn(a - 360.0)
    else a
  }

  function Iterate(rn: real -> real, a: real, n: nat): real {
    if n == 0 then a else Step(rn, Iterate(rn, a, n - 1))
  }

  ghost predicate Terminates(rn: real -> real, a: real) {
    exists n: nat :: InCircle(Iterate(rn, a, n))
  }

  /** The loops end after exactly n passes. */
  ghost predicate StopsAfter(rn: real -> real, a: real, n: nat) {
    InCircle(Iterate(rn, a, n)) && forall m: nat :: m < n ==> !InCircle(Iterate(rn, a, m))
  }

  /** mod360 ends, with result r. */
  ghost predicate Returns(rn: real -> real, a: real, r: real) {
    exists n: nat :: StopsAfter(rn, a, n) && r == Iterate(rn, a, n)
  }

  lemma ReturnsOnce(rn: real -> real, a: real, r: real, s: real)
    requires Returns(rn, a, r) && Returns(rn, a, s)
    ensures r == s
  {
    var n: nat :| StopsAfter(rn, a, n) && r == Iterate(rn, a, n);
    var m: nat :| StopsAfter(rn, a, m) && s == Iterate(rn, a, m);
    assert !(n < m) && !(m < n);
  }

  lemma {:induction false} IterateShift(rn: real -> real, a: real, n: nat)
    ensures Iterate(rn, a, n + 1) == Iterate(rn, Step(rn, a), n)
  {
    if n > 0 {
      IterateShift(rn, a, n - 1);
    }
  }

  /** One pass more, seen from before it. */
  lemma StopsOneLater(rn: real -> real, a: real, n: nat)
    requires !InCircle(a) && StopsAfter(rn, Step(rn, a), n)
    ensures StopsAfter(rn, a, n + 1) && Iterate(rn, a, n + 1) == Iterate(rn, Step(rn, a), n)
  {
    IterateShift(rn, a, n);
    forall m: nat | m < n + 1
      ensures !InCircle(Iterate(rn, a, m))
    {
      if m > 0 {
        IterateShift(rn, a, m - 1);
      }
    }
  }

  /** A monotone rounding that fixes 0 and errs by at most `u` on [-bound, bound]. */
  ghost predicate RoundsWithin(rn: real -> real, bound: real, u: real) {
    && 360.0 <= bound && 0.0 <= u < 360.0
    && rn(0.0) == 0.0
    && (forall x, y :: -bound <= x <= y <= bound ==> rn(x) <= rn(y))
    && (forall x :: -bound <= x <= bound ==> Abs(rn(x) - x) <= u)
  }

  /** The loops stay in [-bound, Top]: adding 360 may round to more than `bound`. */
  function Top(rn: real -> real, bound: real): real {
    if rn(360.0) > bound then rn(360.0) else bound
  }

  /** One pass keeps the angle in bounds, makes progress, and errs by at most u. */
  lemma StepFacts(rn: real -> real, bound: real, u: real, a: real)
    requires RoundsWithin(rn, bound, u) && -bound <= a <= Top(rn, bound)
    ensures var b := Step(rn, a);
            && -bound <= b <= Top(rn, bound)
            && (a < 0.0 ==> a + (360.0 - u) <= b <= rn(360.0) <= 360.0 + u && Abs(b - (a + 360.0)) <= u)
            && (a >= 360.0 ==> 0.0 <= b <= a - (360.0 - u) && Abs(b - (a - 360.0)) <= u)
            && (InCircle(a) ==> b == a)
  {
    assert Abs(rn(360.0) - 360.0) <= u;
    if a < 0.0 {
      assert -bound <= a + 360.0 <= 360.0 <= bound;
      assert rn(a + 360.0) <= rn(360.0);
    } else if a >= 360.0 {
      assert rn(0.0) <= rn(a - 360.0);
    }
  }

  ghost predicate OffBy(r: real, a: real, error: real) {
    exists k: int :: Abs(r - (a + Turns(k))) <= error
  }

  lemma OffByOneMore(x: real, a: real, error: real, next: real, u: real, turn: int)
    requires OffBy(x, a, error) && Abs(next - (x + Turns(turn))) <= u
    ensures OffBy(next, a, error + u)
  {
    var k :| Abs(x - (a + Turns(k))) <= error;
    assert Abs(next - (a + Turns(k + turn))) <= error + u;
  }

  /** n errors of size u, added up. */
  function ErrorAfter(n: nat, u: real): real {
    if n == 0 then 0.0 else ErrorAfter(n - 1, u) + u
  }

  lemma {:induction false} ErrorAfterIsProduct(n: nat, u: real)
    ensures ErrorAfter(n, u) == n as real * u
  {
    if n > 0 {
      ErrorAfterIsProduct(n - 1, u);
      assert n as real * u == (n - 1) as real * u + u;
    }
  }

  /** After n passes the angle is off a congruent one by at most n * u. */
  lemma {:induction false} IterateError(rn: real -> real, bound: real, u: real, a: real, n: nat)
    requires RoundsWithin(rn, bound, u) && -bound <= a <= bound
    ensures -bound <= Iterate(rn, a, n) <= Top(rn, bound)
    ensures OffBy(Iterate(rn, a, n), a, ErrorAfter(n, u))
  {
    if n == 0 {
      assert Abs(a - (a + Turns(0))) <= 0.0;
    } else {
      IterateError(rn, bound, u, a, n - 1);
      var x := Iterate(rn, a, n - 1);
      StepFacts(rn, bound, u, x);
      OffByOneMore(x, a, ErrorAfter(n - 1, u), Step(rn, x), u, if x < 0.0 then 1 else if x >= 360.0 then -1 else 0);
    }
  }

  /** How far above 360 a rounded sum can come from below 0. */
  function Overshoot(rn: real -> real): real {
    if rn(360.0) > 360.0 then rn(360.0) - 360.0 else 0.0
  }

  /** Passes left, when each moves the angle by at least `pace`. */
  function PassesLeft(rn: real -> real, a: real, pace: real): nat
    requires pace > 0.0
  {
    if InCircle(a) then 0
    else if a < 0.0 then QuotientNat(-a, pace) + QuotientNat(Overshoot(rn), pace) + 2
    else QuotientNat(a - 360.0, pace) + 1
  }

  function QuotientNat(x: real, pace: real): nat
    requires pace > 0.0 && x >= 0.0
  {
    QuotientNonNegative(x, pace);
    (x / pace).Floor
  }

  lemma QuotientNonNegative(x: real, pace: real)
    requires pace > 0.0 && x >= 0.0
    ensures x / pace >= 0.0
  {
    QuotientTimes(x, pace);
    MulCancel(0.0, x / pace, pace);
  }

  lemma QuotientDrops(x: real, y: real, pace: real)
    requires pace > 0.0 && 0.0 <= y <= x - pace
    ensures QuotientNat(y, pace) < QuotientNat(x, pace)
  {
    QuotientTimes(x, pace);
    QuotientTimes(y, pace);
    assert (y / pace + 1.0) * pace == y + pace;
    MulCancel(y / pace + 1.0, x / pace, pace);
  }

  lemma QuotientMonotone(x: real, y: real, pace: real)
    requires pace > 0.0 && 0.0 <= y <= x
    ensures QuotientNat(y, pace) <= QuotientNat(x, pace)
  {
    QuotientTimes(x, pace);
    QuotientTimes(y, pace);
    MulCancel(y / pace, x / pace, pace);
  }

  lemma PassesDrop(rn: real -> real, bound: real, u: real, a: real)
    requires RoundsWithin(rn, bound, u) && -bound <= a <= Top(rn, bound) && !InCircle(a)
    ensures PassesLeft(rn, Step(rn, a), 360.0 - u) < PassesLeft(rn, a, 360.0 - u)
  {
    StepFacts(rn, bound, u, a);
    var b, pace := Step(rn, a), 360.0 - u;
    if a < 0.0 {
      if b < 0.0 {
        QuotientDrops(-a, -b, pace);
      } else if b >= 360.0 {
        QuotientMonotone(Overshoot(rn), b - 360.0, pace);
      }
    } else if b >= 360.0 {
      QuotientDrops(a - 360.0, b - 360.0, pace);
    }
  }

  /** Both loops stop, after a number of passes proportional to the angle. */
  lemma {:induction false} Converges(rn: real -> real, bound: real, u: real, a: real) returns (n: nat)
    requires RoundsWithin(rn, bound, u) && -bound <= a <= Top(rn, bound)
    ensures StopsAfter(rn, a, n) && n <= PassesLeft(rn, a, 360.0 - u)
    decreases PassesLeft(rn, a, 360.0 - u)
  {
    if InCircle(a) {
      n := 0;
    } else {
      PassesDrop(rn, bound, u, a);
      StepFacts(rn, bound, u, a);
      var m := Converges(rn, bound, u, Step(rn, a));
      StopsOneLater(rn, a, m);
      n := m + 1;
    }
  }

  /** Where the loops are after some passes, none of which started in the circle. */
  ghost predicate Reached(rn: real -> real, bound: real, u: real, a: real, r: real, passes: nat)
    requires u < 360.0
  {
    && r == Iterate(rn, a, passes) && -bound <= r <= Top(rn, bound)
    && passes + PassesLeft(rn, r, 360.0 - u) <= PassesLeft(rn, a, 360.0 - u)
    && forall m: nat :: m < passes ==> !InCircle(Iterate(rn, a, m))
  }

  lemma ReachedNext(rn: real -> real, bound: real, u: real, a: real, r: real, passes: nat)
    requires RoundsWithin(rn, bound, u) && Reached(rn, bound, u, a, r, passes) && !InCircle(r)
    ensures Reached(rn, bound, u, a, Step(rn, r), passes + 1)
    ensures PassesLeft(rn, Step(rn, r), 360.0 - u) < PassesLeft(rn, r, 360.0 - u)
    ensures r >= 360.0 ==> Step(rn, r) >= 0.0
  {
    hide PassesLeft;
    PassesDrop(rn, bound, u, r);
    StepFacts(rn, bound, u, r);
  }

  /** mod360 with every addition and subtraction rounded. */
  method Mod360Rounded(rn: real -> real, angleDeg: real, ghost bound: real, ghost u: real)
    returns (r: real, ghost passes: nat)
    requires RoundsWithin(rn, bound, u) && -bound <= angleDeg <= bound
    ensures InCircle(r) && r == Iterate(rn, angleDeg, passes)
    ensures Returns(rn, angleDeg, r) && passes <= PassesLeft(rn, angleDeg, 360.0 - u)
    ensures OffBy(r, angleDeg, ErrorAfter(passes, u))
  {
    hide PassesLeft, OffBy, ErrorAfter;
    r, passes := angleDeg, 0;
    while r < 0.0
      invariant Reached(rn, bound, u, angleDeg, r, passes)
      decreases PassesLeft(rn, r, 360.0 - u)
    {
      ReachedNext(rn, bound, u, angleDeg, r, passes);
      r, passes := rn(r + 360.0), passes + 1;
    }
    while r >= 360.0
      invariant Reached(rn, bound, u, angleDeg, r, passes) && 0.0 <= r
      decreases PassesLeft(rn, r, 360.0 - u)
    {
      ReachedNext(rn, bound, u, angleDeg, r, passes);
      r, passes := rn(r - 360.0), passes + 1;
    }
    IterateError(rn, bound, u, angleDeg, passes);
    assert StopsAfter(rn, angleDeg, passes);
  }

  // --- binary32 ---

  function Pow2(e: int): real
    decreases if e < 0 then -e else e
  {
    if e == 0 then 1.0 else if e > 0 then 2.0 * Pow2(e - 1) else Pow2(e + 1) / 2.0
  }

  predicate IsFloat(x: real, m: int, e: int) {
    -149 <= e <= 104 && -0x100_0000 < m < 0x100_0000 && x == m as real * Pow2(e)
  }

  /** A finite binary32 number: a 24-bit significand times a power of two. */
  ghost predicate Representable(x: real) {
    exists m: int, e: int :: IsFloat(x, m, e)
  }

  const TWO_104: real := 20282409603651670423947251286016.0
  const MAX_FINITE: real := 340282346638528859811704183484516925440.0  // (2^24 - 1) * 2^104

  predicate Finite(x: real) {
    Abs(x) <= MAX_FINITE
  }

  ghost predicate IsNearest(r: real, x: real) {
    Representable(r) && forall f :: Representable(f) ==> Abs(r - x) <= Abs(f - x)
  }

  /** Rounding to a nearest representable number. */
  ghost predicate RoundsToNearest(rn: real -> real) {
    forall x :: Finite(x) ==> IsNearest(rn(x), x)
  }

  lemma {:induction false} Pow2Positive(e: int)
    ensures Pow2(e) > 0.0
    decreases if e < 0 then -e else e
  {
    if e > 0 {
      Pow2Positive(e - 1);
    } else if e < 0 {
      Pow2Positive(e + 1);
    }
  }

  lemma Pow2Next(e: int)
    ensures Pow2(e + 1) == 2.0 * Pow2(e)
  {
  }

  function NatPow2(n: nat): nat { if n == 0 then 1 else 2 * NatPow2(n - 1) }

  lemma {:induction false} Pow2Shift(e: int, n: nat)
    ensures Pow2(e + n) == NatPow2(n) as real * Pow2(e)
  {
    if n > 0 {
      Pow2Shift(e, n - 1);
      Pow2Next(e + n - 1);
    }
  }

  lemma {:induction false} Pow2Monotone(e: int, f: int)
    requires e <= f
    ensures Pow2(e) <= Pow2(f)
    decreases f - e
  {
    if e < f {
      Pow2Next(e);
      Pow2Positive(e);
      Pow2Monotone(e + 1, f);
    }
  }

  lemma NatPow2Values()
    ensures NatPow2(9) == 0x200 && NatPow2(10) == 0x400 && NatPow2(24) == 0x100_0000 && NatPow2(33) == 0x2_0000_0000
  {
    assert NatPow2(5) == 32;
    assert NatPow2(10) == 0x400;
    assert NatPow2(15) == 0x8000;
    assert NatPow2(20) == 0x10_0000;
    assert NatPow2(24) == 0x100_0000;
    assert NatPow2(29) == 0x2000_0000;
    assert NatPow2(33) == 0x2_0000_0000;
  }

  lemma TopValue(e: int)
    requires e == 104
    ensures Pow2(e) == TWO_104
  {
    NatPow2Values();
    Pow2Shift(0, 24);
    Pow2Shift(24, 24);
    Pow2Shift(48, 24);
    Pow2Shift(72, 24);
    Pow2Shift(96, 8);
    assert NatPow2(8) == 256;
  }

  const TWO_33: real := 8589934592.0

  lemma Pow2Values()
    ensures Pow2(9) == 512.0 && Pow2(10) == 1024.0 && Pow2(33) == TWO_33
  {
    NatPow2Values();
    Pow2Shift(0, 9);
    Pow2Shift(0, 10);
    Pow2Shift(0, 33);
  }

  lemma RepresentableIsFinite(x: real)
    requires Representable(x)
    ensures Finite(x)
  {
    hide Pow2;
    var m: int, e: int :| IsFloat(x, m, e);
    Pow2Positive(e);
    var top := 104;
    Pow2Monotone(e, top);
    TopValue(top);
    ProductBound(m as real, Pow2(e), 16777215.0, TWO_104);
  }

  lemma NearestIsClosest(rn: real -> real, x: real, f: real)
    requires RoundsToNearest(rn) && Finite(x) && Representable(f)
    ensures Representable(rn(x)) && Abs(rn(x) - x) <= Abs(f - x)
  {
    assert IsNearest(rn(x), x);
  }

  lemma NearestFixes(rn: real -> real, x: real)
    requires RoundsToNearest(rn) && Representable(x)
    ensures rn(x) == x
  {
    RepresentableIsFinite(x);
    NearestIsClosest(rn, x, x);
  }

  /** Rounding to nearest is monotone, whatever the tie rule. */
  lemma NearestMonotone(rn: real -> real, x: real, y: real)
    requires RoundsToNearest(rn) && Finite(x) && Finite(y) && x <= y
    ensures rn(x) <= rn(y)
  {
    NearestIsClosest(rn, x, rn(y));
    NearestIsClosest(rn, y, rn(x));
  }

  /** Up to 2^(k+24) the numbers j * 2^k are all representable, so rounding errs by at most 2^(k-1). */
  lemma NearestError(rn: real -> real, k: int, x: real)
    requires RoundsToNearest(rn) && -149 <= k <= 103 && Abs(x) <= Pow2(k + 24)
    ensures Finite(x) && Abs(rn(x) - x) <= Pow2(k) / 2.0
  {
    Pow2UpToFinite(k + 24);
    var f, j := GridPoint(k, x);
    NearestIsClosest(rn, x, f);
  }

  lemma Pow2UpToFinite(e: int)
    requires e <= 127
    ensures Pow2(e) <= MAX_FINITE
  {
    NatPow2Values();
    var top := 104;
    Pow2Monotone(e, top + 23);
    Pow2Shift(top, 23);
    TopValue(top);
    assert NatPow2(24) == 2 * NatPow2(23);
  }

  /** The nearest multiple of p is within half of p, and its multiplier is no larger than the bound on x. */
  lemma NearestOnGrid(x: real, p: real, c: int) returns (j: int)
    requires p > 0.0 && Abs(x) <= c as real * p
    ensures -c <= j <= c && Abs(j as real * p - x) <= p / 2.0
  {
    var q := x / p;
    QuotientTimes(x, p);
    QuotientBounds(x, p, c as real);
    j := (q + 0.5).Floor;
    var d := j as real - q;
    assert j as real * p - x == d * p;
    MulMonotone(d, 0.5, p);
    MulMonotone(-0.5, d, p);
  }

  lemma QuotientBounds(x: real, p: real, c: real)
    requires p > 0.0 && Abs(x) <= c * p
    ensures -c <= x / p <= c
  {
    QuotientTimes(x, p);
    assert -c * p == -(c * p);
    MulCancel(x / p, c, p);
    MulCancel(-c, x / p, p);
  }

  lemma FloatIsRepresentable(x: real, m: int, e: int)
    requires IsFloat(x, m, e)
    ensures Representable(x)
  {
  }

  lemma GridRepresentable(f: real, j: int, k: int)
    requires f == j as real * Pow2(k) && -149 <= k <= 103 && -0x100_0000 <= j <= 0x100_0000
    ensures Representable(f)
  {
    hide Pow2, Representable;
    if j == 0x100_0000 || j == -0x100_0000 {
      var half := if j > 0 then 0x80_0000 else -0x80_0000;
      Pow2Next(k);
      FloatIsRepresentable(f, half, k + 1);
    } else {
      FloatIsRepresentable(f, j, k);
    }
  }

  lemma TimesTwo24(k: int)
    ensures Pow2(k + 24) == 16777216.0 * Pow2(k) && Pow2(k + 23) == 8388608.0 * Pow2(k)
  {
    NatPow2Values();
    assert NatPow2(24) == 2 * NatPow2(23);
    Pow2Shift(k, 24);
    Pow2Shift(k, 23);
  }

  /** The nearest multiple of 2^k, as far as the 24 bits of a significand go. */
  lemma GridPoint(k: int, x: real) returns (f: real, j: int)
    requires -149 <= k <= 104 && Abs(x) <= Pow2(k + 24) && (k == 104 ==> Finite(x))
    ensures f == j as real * Pow2(k) && Representable(f) && Abs(f - x) <= Pow2(k) / 2.0
  {
    hide Pow2, Representable;
    var p := Pow2(k);
    Pow2Positive(k);
    TimesTwo24(k);
    if k <= 103 {
      j := NearestOnGrid(x, p, 0x100_0000);
      f := j as real * p;
      GridRepresentable(f, j, k);
    } else {
      TopValue(k);
      j := NearestOnGrid(x, p, 0xFF_FFFF);
      f := j as real * p;
      FloatIsRepresentable(f, j, k);
    }
  }

  /** A binary32 rounding is one of the roundings of the first part, on every range 2^(k+24). */
  lemma NearestRoundsWithin(rn: real -> real, k: int)
    requires RoundsToNearest(rn) && -15 <= k <= 9
    ensures RoundsWithin(rn, Pow2(k + 24), Pow2(k) / 2.0)
  {
    Pow2Values();
    Pow2Monotone(9, k + 24);
    Pow2Monotone(k, 9);
    Pow2Positive(k);
    assert IsFloat(0.0, 0, 0);
    NearestFixes(rn, 0.0);
    var bound := Pow2(k + 24);
    forall x | -bound <= x <= bound
      ensures Finite(x) && Abs(rn(x) - x) <= Pow2(k) / 2.0
    {
      NearestError(rn, k, x);
    }
    forall x, y | -bound <= x <= y <= bound
      ensures rn(x) <= rn(y)
    {
      NearestMonotone(rn, x, y);
    }
  }

  lemma Regroup(m: int, c: int)
    ensures m as real * (c as real * 1024.0) == 1024.0 * (m * c) as real
  {
    assert (m * c) as real == m as real * c as real;
  }

  lemma SmallExponentIsSmall(x: real, m: int, e: int)
    requires IsFloat(x, m, e) && e <= 9
    ensures Abs(x) <= TWO_33
  {
    Pow2Values();
    Pow2Positive(e);
    Pow2Monotone(e, 9);
    var p := Pow2(e);
    ProductBound(m as real, p, 16777216.0, 512.0);
  }

  /** Beyond 2^33 every representable number is a multiple of 1024. */
  lemma BigIsCoarse(x: real) returns (j: int)
    requires Representable(x) && Abs(x) > TWO_33
    ensures x == 1024.0 * j as real
  {
    hide Pow2, NatPow2;
    var m: int, e: int :| IsFloat(x, m, e);
    Pow2Values();
    if e <= 9 {
      SmallExponentIsSmall(x, m, e);
    }
    Pow2Shift(10, e - 10);
    j := m * NatPow2(e - 10);
    Regroup(m, NatPow2(e - 10));
  }

  /** Beyond 2^33 taking 360 off, or adding it, rounds back to the same number. */
  lemma BigIsStuck(rn: real -> real, a: real)
    requires RoundsToNearest(rn) && Representable(a) && Abs(a) > TWO_33
    ensures Step(rn, a) == a
  {
    hide RoundsToNearest, Representable;
    RepresentableIsFinite(a);
    var i := BigIsCoarse(a);
    var exact := if a < 0.0 then a + 360.0 else a - 360.0;
    NearestIsClosest(rn, exact, a);
    var j := BigIsCoarse(rn(exact));
    assert -1 < i - j < 1;
  }

  /** On binary32 inputs mod360 stops exactly when the angle is at most 2^33 in size. */
  lemma Binary32Termination(rn: real -> real, a: real)
    requires RoundsToNearest(rn) && Representable(a)
    ensures Terminates(rn, a) <==> Abs(a) <= TWO_33
  {
    if Abs(a) <= TWO_33 {
      NearestRoundsWithin(rn, 9);
      Pow2Values();
      var n := Converges(rn, Pow2(33), Pow2(9) / 2.0, a);
    } else {
      BigIsStuck(rn, a);
      forall n: nat ensures Iterate(rn, a, n) == a {
        StuckForever(rn, a, n);
      }
    }
  }

  lemma {:induction false} StuckForever(rn: real -> real, a: real, n: nat)
    requires Step(rn, a) == a
    ensures Iterate(rn, a, n) == a
  {
    if n > 0 {
      StuckForever(rn, a, n - 1);
    }
  }

  /** The first number above 2^33: mod360 never returns on it. */
  lemma Binary32Diverges(rn: real -> real)
    requires RoundsToNearest(rn)
    ensures Representable(8589935616.0) && !Terminates(rn, 8589935616.0)
    ensures forall a :: Representable(a) && a > TWO_33 ==> a >= 8589935616.0
  {
    Pow2Values();
    assert IsFloat(8589935616.0, 8388609, 10);
    Binary32Termination(rn, 8589935616.0);
    forall a | Representable(a) && a > TWO_33
      ensures a >= 8589935616.0
    {
      var j := BigIsCoarse(a);
      assert j >= 8388609;
    }
  }

  /** The number of passes for angles up to 2^(k+24), where each moves the angle by at least 360 - 2^(k-1). */
  lemma Binary32Passes(rn: real -> real, k: int, a: real) returns (n: nat)
    requires RoundsToNearest(rn) && -15 <= k <= 9 && Abs(a) <= Pow2(k + 24)
    ensures Pow2(k) / 2.0 < 360.0
    ensures StopsAfter(rn, a, n) && n <= PassesLeft(rn, a, 360.0 - Pow2(k) / 2.0)
    ensures Overshoot(rn) == 0.0
  {
    NearestRoundsWithin(rn, k);
    n := Converges(rn, Pow2(k + 24), Pow2(k) / 2.0, a);
    assert IsFloat(360.0, 360, 0);
    NearestFixes(rn, 360.0);
  }
}
