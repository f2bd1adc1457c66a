/** Rounding to nearest in binary32 exists: every finite real has a nearest representable number. So what
    Binary32.dfy and FloatAngles.dfy prove of such roundings is not about nothing. */
module NearestRounding {
  import opened Binary32

  /** A representable number nearest to x, whichever it is at a tie. */
  ghost function Nearest(x: real): real {
    if exists f :: IsNearest(f, x) then
      var f :| IsNearest(f, x);
      f
    else 0.0
  }

  // --- the grid a number is rounded on ---

  /** The scale of x: it lies below 2^(k+24), and above 2^(k+23) unless it is on the finest grid. */
  lemma {:induction false} Scale(x: real, top: int) returns (k: int)
    requires -149 <= top <= 104 && Abs(x) <= Pow2(top + 24)
    ensures -149 <= k <= top && Abs(x) <= Pow2(k + 24) && (k == -149 || Abs(x) > Pow2(k + 23))
    decreases top + 149
  {
    if top == -149 || Abs(x) > Pow2(top + 23) {
      k := top;
    } else {
      k := Scale(x, top - 1);
    }
  }

  /** Point j of the grid of step p. */
  function Point(j: int, p: real): real { j as real * p }

  /** A representable number that is large for the grid is on it. */
  lemma LargeIsOnGrid(g: real, k: int) returns (i: int)
    requires Representable(g) && (k == -149 || Abs(g) >= Pow2(k + 23))
    ensures g == Point(i, Pow2(k))
  {
    hide Pow2, NatPow2;
    var m: int, e: int :| IsFloat(g, m, e);
    if e < k {
      TimesTwo24(e);
      Pow2Positive(e);
      Pow2Monotone(e + 24, k + 23);
      ProductBound(m as real, Pow2(e), 16777215.0, Pow2(e));
      assert false;
    }
    Pow2Shift(k, e - k);
    i := m * NatPow2(e - k);
    Associate(m, NatPow2(e - k), Pow2(k));
  }

  lemma Associate(m: int, c: int, p: real)
    ensures m as real * (c as real * p) == (m * c) as real * p
  {
    assert (m * c) as real == m as real * c as real;
    AssociateReals(m as real, c as real, p);
  }

  lemma AssociateReals(a: real, b: real, p: real)
    ensures a * (b * p) == a * b * p
  {
  }

  lemma PointsApart(i: int, j: int, p: real)
    requires p > 0.0 && i < j
    ensures Point(i, p) + p <= Point(j, p)
  {
    MulMonotone((i + 1) as real, j as real, p);
    assert (i + 1) as real * p == i as real * p + p;
  }

  lemma MiddlePoints(k: int)
    ensures Point(8388608, Pow2(k)) == Pow2(k + 23) && Point(-8388608, Pow2(k)) == -Pow2(k + 23)
  {
    hide Pow2;
    TimesTwo24(k);
  }

  /** A point within half a step is nearest among the points of the grid. */
  lemma HalfStepIsNearest(x: real, p: real, j: int, i: int)
    requires p > 0.0 && Abs(Point(j, p) - x) <= p / 2.0
    ensures Abs(Point(j, p) - x) <= Abs(Point(i, p) - x)
  {
    hide Point;
    if i < j {
      PointsApart(i, j, p);
      FartherByStep(x, p, Point(j, p), Point(i, p));
    } else if j < i {
      PointsApart(j, i, p);
      FartherByStep(x, p, Point(j, p), Point(i, p));
    }
  }

  lemma FartherByStep(x: real, p: real, f: real, g: real)
    requires Abs(f - x) <= p / 2.0 && Abs(g - f) >= p
    ensures Abs(f - x) <= Abs(g - x)
  {
  }

  /** Nothing representable is nearer than the nearest grid point: what is off the grid is smaller than all of the
      grid around x. */
  lemma NothingNearer(x: real, k: int, f: real, j: int, g: real)
    requires Abs(x) <= Pow2(k + 24) && (k == -149 || Abs(x) > Pow2(k + 23))
    requires f == Point(j, Pow2(k)) && Abs(f - x) <= Pow2(k) / 2.0 && Representable(g)
    ensures Abs(f - x) <= Abs(g - x)
  {
    hide Pow2, Representable, Point;
    Pow2Positive(k);
    if k == -149 || Abs(g) >= Pow2(k + 23) {
      var i := LargeIsOnGrid(g, k);
      HalfStepIsNearest(x, Pow2(k), j, i);
    } else {
      MiddlePoints(k);
      HalfStepIsNearest(x, Pow2(k), j, if x > 0.0 then 8388608 else -8388608);
    }
  }

  lemma NearestExists(x: real)
    requires Finite(x)
    ensures IsNearest(Nearest(x), x)
  {
    hide Pow2, Representable;
    FiniteBelowTop(x);
    var k := Scale(x, 104);
    var f, j := GridPoint(k, x);
    forall g | Representable(g) ensures Abs(f - x) <= Abs(g - x) {
      NothingNearer(x, k, f, j, g);
    }
    assert IsNearest(f, x);
  }

  lemma FiniteBelowTop(x: real)
    requires Finite(x)
    ensures Abs(x) <= Pow2(128)
  {
    hide Pow2;
    var top := 104;
    TopValue(top);
    TimesTwo24(top);
  }

  /** There is a rounding to nearest. */
  lemma NearestRounds()
    ensures RoundsToNearest(x => Nearest(x))
  {
    hide Representable, Nearest;
    forall x | Finite(x) ensures IsNearest(Nearest(x), x) {
      NearestExists(x);
    }
  }
}
