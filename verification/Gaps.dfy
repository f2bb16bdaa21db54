/** Which gaps the planner can put a layer into: with a cap of at least two, those wider than
    the cap that end above one second, and no others. */
module Gaps {
  import opened Wrappers
  import opened Powers
  import opened CadenceTree

  // ---------------------------------------------------------------------
  // Whole-number powers
  // ---------------------------------------------------------------------

  lemma {:induction false} HalfAgain(x: nat, y: nat, m: nat)
    requires 2 * x >= 3 * y && m >= 2
    ensures Pow(x, m) >= 2 * Pow(y, m)
  {
    var p, q := Pow(x, m - 1), Pow(y, m - 1);
    assert Pow(x, m) == x * p && Pow(y, m) == y * q;
    if m == 2 {
      assert Pow(x, 0) == 1 && Pow(y, 0) == 1 && p == x && q == y;
      Times(3 * y, 3 * y, 2 * x, 2 * x);
      assert 9 * (y * y) <= 4 * (x * x);
    } else {
      HalfAgain(x, y, m - 1);
      Times(y, 2 * q, x, p);
      assert y * (2 * q) == 2 * (y * q);
    }
  }

  lemma {:induction false} FourThirds(m: nat)
    requires m >= 3
    ensures Pow(4, m) >= 2 * Pow(3, m)
  {
    if m == 3 {
      assert Pow(4, 0) == 1 && Pow(4, 1) == 4 && Pow(4, 2) == 16;
      assert Pow(3, 0) == 1 && Pow(3, 1) == 3 && Pow(3, 2) == 9;
    } else {
      FourThirds(m - 1);
    }
  }

  lemma {:induction false} Cancel(x: nat, y: nat, s: nat)
    requires x * s < y * s
    ensures x < y
  {
    if x >= y {
      Times(y, s, x, s);
    }
  }

  // ---------------------------------------------------------------------
  // The first cut
  // ---------------------------------------------------------------------

  lemma {:induction false} TwiceBelow(two: nat, pa: nat, b: nat, q: nat)
    requires (two * pa) * b < q * b
    ensures (2 * two) * (pa * b) < 2 * (b * q)
  {
    assert (2 * two) * (pa * b) == 2 * ((two * pa) * b);
  }

  /** The first cut stays well short of the gap's end. */
  lemma {:induction false} CutShort(a: nat, b: nat, m: nat)
    requires a > 0 && b > 2 * a && m >= 2
    ensures Pow(2, m) * Target(a, b, m, 1) < 2 * Pow(b, m)
  {
    assert (Pow(2, m - 1) * Pow(a, m - 1)) * b < Pow(b, m - 1) * b by {
      PowStrict(2 * a, b, m - 1);
      PowProduct(2, a, m - 1);
      TimesStrict(Pow(2 * a, m - 1), Pow(b, m - 1), b);
    }
    assert Pow(b, 1) == b * Pow(b, 0) == b;
    TwiceBelow(Pow(2, m - 1), Pow(a, m - 1), b, Pow(b, m - 1));
  }

  /** And well past its start. */
  lemma {:induction false} CutPast(a: nat, b: nat, k: nat, m: nat)
    requires a > 0 && k >= 2 && m >= 1 && Pow(k, m - 1) * a < b
    ensures Pow(2, m - 1) * Pow(a, m) < Target(a, b, m, 1)
  {
    var two, p, pa := Pow(2, m - 1), Pow(k, m - 1), Pow(a, m - 1);
    PowMonotone(2, k, m - 1);
    Times(two, a, p, a);
    TimesStrict(two * a, b, pa);
    assert Pow(b, 1) == b * Pow(b, 0) == b;
    assert two * (a * pa) == (two * a) * pa && pa * b == b * pa;
  }

  lemma {:induction false} TwiceProduct(x: nat, p: nat, q: nat, b: nat)
    requires x >= 2 * p && p * q >= b
    ensures x * q >= 2 * b
  {
    Times(2 * p, q, x, q);
    assert (2 * p) * q == 2 * (p * q);
  }

  lemma {:induction false} Overlong(b: nat, m: nat, s: nat, r: nat)
    requires m >= 2 && r >= 2 && r * s >= b
    ensures Pow(2 * r - 1, m) * Pow(s, m) >= 2 * Pow(b, m)
  {
    assert Pow(r, m) * Pow(s, m) >= Pow(b, m) by {
      PowMonotone(b, r * s, m);
      PowProduct(r, s, m);
    }
    HalfAgain(2 * r - 1, r, m);
    TwiceProduct(Pow(2 * r - 1, m), Pow(r, m), Pow(s, m), Pow(b, m));
  }

  /** Its rounding does not reach the gap's end. */
  lemma {:induction false} RoundedShort(a: nat, b: nat, m: nat, s: nat, r: nat)
    requires a > 0 && b > 2 * a && m >= 2 && r >= 2
    requires Pow(2, m) * Target(a, b, m, 1) >= Pow(2 * (r - 1) + 1, m) * Pow(s, m)
    ensures r * s < b
  {
    CutShort(a, b, m);
    if r * s >= b {
      Overlong(b, m, s, r);
    }
  }

  lemma {:induction false} MiddleBelowEnd(a: Duration, b: Duration, m: nat)
    requires a > 0 && b > 2 * a && b > SECOND && m >= 2
    ensures Middle(a, b, m) < b
  {
    var r := RoundedSeconds(Target(a, b, m, 1), m, 0);
    if r >= 2 {
      RoundedShort(a, b, m, SECOND, r);
    }
  }

  lemma {:induction false} FourTimes(f: nat, m: nat)
    requires m >= 1
    ensures var two := Pow(2, m - 1); Pow(4 * f, m) == 2 * (((2 * two) * two) * Pow(f, m))
  {
    PowProduct(2 * 2, f, m);
    PowProduct(2, 2, m);
    Reorder(Pow(2, m - 1), Pow(f, m));
  }

  lemma {:induction false} Reorder(two: nat, pf: nat)
    ensures ((2 * two) * (2 * two)) * pf == 2 * (((2 * two) * two) * pf)
  {
    assert (2 * two) * (2 * two) == 2 * ((2 * two) * two);
  }

  lemma {:induction false} Scaled(two: nat, pa: nat, t: nat, pf: nat, ps: nat, v: nat, u: nat)
    requires two * pa < t && (2 * two) * t < v * ps && v <= u && pf * ps <= pa
    ensures ((2 * two) * two) * pf < u
  {
    Times(two, pf * ps, two, pa);
    Times(2 * two, two * (pf * ps), 2 * two, t);
    Times(v, ps, u, ps);
    Regroup(two, pf, ps);
    Cancel(((2 * two) * two) * pf, u, ps);
  }

  lemma {:induction false} Regroup(two: nat, pf: nat, ps: nat)
    ensures (2 * two) * (two * (pf * ps)) == (((2 * two) * two) * pf) * ps
  {
    assert two * (pf * ps) == (two * pf) * ps;
    assert (2 * two) * ((two * pf) * ps) == ((2 * two) * (two * pf)) * ps;
    assert (2 * two) * (two * pf) == ((2 * two) * two) * pf;
  }

  /** If the first cut rounds to no more than the whole seconds below the gap's start. */
  lemma {:induction false} RoundedLow(a: nat, t: nat, m: nat, s: nat, f: nat, r: nat)
    requires m >= 1 && a >= f * s && r <= f
    requires Pow(2, m - 1) * Pow(a, m) < t && Pow(2, m) * t < Pow(2 * r + 1, m) * Pow(s, m)
    ensures Pow(4 * f, m) < 2 * Pow(2 * f + 1, m)
  {
    assert Pow(f, m) * Pow(s, m) <= Pow(a, m) by {
      PowMonotone(f * s, a, m);
      PowProduct(f, s, m);
    }
    assert Pow(2 * r + 1, m) <= Pow(2 * f + 1, m) by {
      PowMonotone(2 * r + 1, 2 * f + 1, m);
    }
    var two := Pow(2, m - 1);
    assert Pow(2, m) == 2 * two;
    Scaled(two, Pow(a, m), t, Pow(f, m), Pow(s, m), Pow(2 * r + 1, m), Pow(2 * f + 1, m));
    FourTimes(f, m);
  }

  /** Then the gap starts below two seconds and is cut in two. */
  lemma {:induction false} OnlyOneSecond(f: nat, m: nat)
    requires f >= 1 && m >= 2 && Pow(4 * f, m) < 2 * Pow(2 * f + 1, m)
    ensures f == 1 && m == 2
  {
    if f >= 2 {
      HalfAgain(4 * f, 2 * f + 1, m);
    } else if m >= 3 {
      FourThirds(m);
    }
  }

  lemma {:induction false} CutBounds(a: nat, b: nat, s: nat)
    requires s <= a && b > 2 * a && 4 * Target(a, b, 2, 1) < 9 * (s * s)
    ensures 2 * (s * s) < Target(a, b, 2, 1) < 3 * (s * s)
  {
    assert Pow(a, 0) == 1 && Pow(a, 1) == a && Pow(b, 0) == 1 && Pow(b, 1) == b;
    Times(s, s, a, a);
    Times(a, 2 * a + 1, a, b);
    assert a * (2 * a + 1) == 2 * (a * a) + a;
  }

  lemma {:induction false} SquareOf(x: nat)
    ensures Pow(x, 2) == x * x
  {
    assert Pow(x, 0) == 1 && Pow(x, 1) == x;
  }

  /** Two seconds is the nicest duration nearest such a cut. */
  lemma {:induction false} TwoIsNicest(t: nat)
    requires 2 * (SECOND * SECOND) < t < 3 * (SECOND * SECOND)
    ensures IsNicest(2 * SECOND, t, 2)
  {
    assert Nice(1) == 2 * SECOND;
    forall n | 0 <= n < |NICE_SECONDS|
      ensures NoNearer(2 * SECOND, n, t, 2)
    {
      if n == 0 {
        SquareOf(SECOND * (2 * SECOND));
        Times(2 * (SECOND * SECOND) + 1, 2 * (SECOND * SECOND) + 1, t, t);
      } else if n > 1 {
        assert NICE_SECONDS[n] >= 5;
        Times(2 * SECOND, 5 * SECOND, 2 * SECOND, Nice(n));
        SquareOf(2 * SECOND * Nice(n));
        Times(t, t, 2 * SECOND * Nice(n), 2 * SECOND * Nice(n));
      }
    }
  }

  lemma {:induction false} SplitsAtTwo(a: Duration, b: Duration)
    requires SECOND <= a < 2 * SECOND && b > 2 * a && 4 * Target(a, b, 2, 1) < 9 * (SECOND * SECOND)
    ensures !NoneInside(a, b, 2, 2)
  {
    CutBounds(a, b, SECOND);
    TwoIsNicest(Target(a, b, 2, 1));
  }

  /** A gap that starts at a second or more: the fallback lies inside, or two seconds does. */
  lemma {:induction false} SplitsAboveSecond(a: Duration, b: Duration, k: nat, m: nat)
    requires a >= SECOND && b > 2 * a && k >= 2 && m >= 2 && Pow(k, m - 1) * a < b
    ensures Middle(a, b, m) > a || !NoneInside(a, b, m, m)
  {
    var f, t := a / SECOND, Target(a, b, m, 1);
    var r := RoundedSeconds(t, m, 0);
    if r <= f {
      CutPast(a, b, k, m);
      RoundedLow(a, t, m, SECOND, f, r);
      OnlyOneSecond(f, m);
      PowMonotone(2 * r + 1, 3, 2);
      SquareOf(3);
      SquareOf(2);
      SquareOf(SECOND);
      Times(Pow(2 * r + 1, 2), SECOND * SECOND, 9, SECOND * SECOND);
      SplitsAtTwo(a, b);
    } else {
      Times(f + 1, SECOND, r, SECOND);
    }
  }

  lemma {:induction false} WideGap(a: Duration, b: Duration, k: nat)
    requires a > 0 && k >= 2 && b > k * a
    ensures b > 2 * a
  {
    Times(2, a, k, a);
  }

  lemma {:induction false} SplitsAbove(a: Duration, b: Duration, k: nat)
    requires a > 0 && k >= 2 && b > k * a && b > SECOND
    ensures !Unsplittable(a, b, k)
  {
    var m := Parts(a, b, k);
    PartsAreSteps(a, b, k);
    WideGap(a, b, k);
    MiddleBelowEnd(a, b, m);
    if a >= SECOND {
      SplitsAboveSecond(a, b, k, m);
    } else {
      Times(1, SECOND, Max(RoundedSeconds(Target(a, b, m, 1), m, 0), 1), SECOND);
    }
  }

  /** A gap that ends by the first second has nowhere to put a whole number of seconds. */
  lemma {:induction false} SubSecondUnsplittable(a: Duration, b: Duration, k: nat)
    requires a > 0 && k >= 2 && b <= SECOND
    ensures Unsplittable(a, b, k)
  {
    var m := Parts(a, b, k);
    forall j: nat, x: Duration | 1 <= j < m && IsNicest(x, Target(a, b, m, j), m)
      ensures x >= SECOND
    {
      var n :| 0 <= n < |NICE_SECONDS| && x == Nice(n);
      Times(1, SECOND, NICE_SECONDS[n], SECOND);
    }
    Times(1, SECOND, Max(RoundedSeconds(Target(a, b, m, 1), m, 0), 1), SECOND);
  }

  /** A gap wider than the cap cannot be split if and only if it ends by the first second. */
  lemma {:induction false} UnsplittableIffSubSecond(a: Duration, b: Duration, k: nat)
    requires a > 0 && k >= 2 && b > k * a
    ensures Unsplittable(a, b, k) <==> b <= SECOND
  {
    if b <= SECOND {
      SubSecondUnsplittable(a, b, k);
    } else {
      SplitsAbove(a, b, k);
    }
  }
}
