/** `inv_fast_sqrt`, `inv_inverse_sqrt` and `inv_compute_scalar_part` of `ml_math_func.c`. */
module NewtonRoots {
  import opened Machine
  import opened FixedPoint
  import opened Normaliser
  import opened NewtonAnalysis

  const SQRT_2 := 1518500250
  const ONE_OVER_SQRT_2 := 759250125
  const ONE_AND_HALF := 1610612736

  /** Units in the last place that the square root may be off, on top of one part in 10^4. */
  function SqrtUlps(x0: int): int {
    if x0 > UPPER_LIMIT then 14 else 8
  }

  /** `r` is the Q30 square root of the Q30 number `x0`. */
  ghost predicate IsSqrt(x0: int, r: int, k: int) {
    && (r - k) * (r - k) <= x0 * ONE
    && 10000 * (x0 * ONE) <= 10001 * ((r + k) * (r + k))
  }

  ghost predicate Iterating(x: int, xx: int, cc: int, e: real) {
    RootState(Val(x), Val(xx), Val(cc), e)
  }

  method SqrtStart(x: int32) returns (xx: int32, cc: int32)
    requires LOWER_LIMIT <= x <= UPPER_LIMIT
    ensures cc == x - ONE
    ensures Iterating(x, xx, cc, 2.26)
  {
    cc := x - ONE;
    assert 0.69 <= Val(x) <= 1.39 && Val(cc) == Val(x) - 1.0;
    var m := MultiplyBounded(x, cc, 1.39, 0.39);
    HalfVal(m);
    xx := x - m / 2;
    RootStart(Val(x), Val(xx), Val(cc));
    FirstResidual(Val(cc));
    RootBelow(Val(x), Val(xx), Next(Val(cc)), 2.26 * ULP);
  }

  /** cc = cc cc (cc - 3) / 4, in the order that keeps every intermediate value in 32 bits. */
  method NextResidual(cc: int32) returns (cc': int32)
    requires -0.4 <= Val(cc) <= 0.4
    ensures -(1.3 * ULP) <= Val(cc') - Next(Val(cc)) <= 1.3 * ULP
  {
    hide Next;
    HalfVal(cc);
    var t := cc / 2 - ONE_AND_HALF;
    var u := MultiplyBounded(cc, t, 0.4, 1.8);
    var v := MultiplyBounded(cc, u, 0.4, 0.8);
    HalfVal(v);
    cc' := v / 2;
    NextRounded(Val(cc), Val(t), Val(u), Val(v), Val(cc'));
  }

  /** xx = xx - xx cc / 2. */
  method ApplyResidual(xx: int32, cc: int32) returns (xx': int32)
    requires 0.0 <= Val(xx) <= 1.2 && -0.1 <= Val(cc) <= 0.001
    ensures Val(xx) * (1.0 - Val(cc) / 2.0) <= Val(xx') < Val(xx) * (1.0 - Val(cc) / 2.0) + ULP
  {
    var w := MultiplyBounded(xx, cc, 1.2, 0.1);
    HalfVal(w);
    xx' := xx - w / 2;
  }

  /** One further Newton step: the residual first, then the root with the new residual. */
  method SqrtStep(ghost x: int, xx: int32, cc: int32, ghost e: real) returns (xx': int32, cc': int32)
    requires 0.0 <= e <= 7.0 && Iterating(x, xx, cc, e)
    ensures Iterating(x, xx', cc', 1.11 * e + 4.42)
    ensures Follows(cc, cc')
  {
    cc' := NextResidual(cc);
    FirstResidual(Val(cc));
    xx' := ApplyResidual(xx, cc');
    RootStateStep(Val(x), Val(xx), Val(cc), Val(xx'), Val(cc'), e);
  }

  /** `cc'` is the computed residual after `cc`. */
  ghost predicate Follows(cc: int, cc': int) {
    -(10.0 * ULP) <= Val(cc') - Next(Val(cc)) <= 10.0 * ULP
  }

  lemma Finished(x: int, xx: int, cc: int, e: real)
    requires Iterating(x, xx, cc, e) && 0.0 <= e <= 12.2
    requires -0.00009 <= Next(Val(cc)) <= 0.0
    ensures RootOf(Val(x), Val(xx), 8.0) && 0.83 <= Val(xx) <= 1.19
  {
    Converged(Val(x), Val(xx), Next(Val(cc)), e * ULP);
  }

  /** The iterations on a normalised number: one, two or three, by its region. */
  method SqrtNormalised(x: int32, iterations: int) returns (xx: int32)
    requires LOWER_LIMIT <= x <= UPPER_LIMIT && IterationsFor(x, iterations)
    ensures RootOf(Val(x), Val(xx), 8.0)
    ensures 0.83 <= Val(xx) <= 1.19
  {
    var cc;
    xx, cc := SqrtStart(x);
    ghost var c0 := cc;
    if iterations >= 2 {
      xx, cc := SqrtStep(x, xx, cc, 2.26);
      ghost var c1 := cc;
      if iterations == 3 {
        xx, cc := SqrtStep(x, xx, cc, 6.9286);
        ThreeIterations(Val(c0), Val(c1), Val(cc));
        Finished(x, xx, cc, 12.110746);
      } else {
        TwoIterations(Val(c0), Val(cc));
        Finished(x, xx, cc, 6.9286);
      }
    } else {
      OneIteration(Val(cc));
      Finished(x, xx, cc, 2.26);
    }
  }

  /** From the real numbers back to the integers of the code. */
  lemma IntegerRoot(y: int, a: int, k: int)
    requires RootOf(Val(y), Val(a), k as real)
    ensures IsSqrt(y, a, k)
  {
    SquareOf(a - k);
    SquareOf(a + k);
    assert Val(a) - (k as real) * ULP == Val(a - k);
    assert Val(a) + (k as real) * ULP == Val(a + k);
    var lo, hi := (a - k) * (a - k), (a + k) * (a + k);
    assert lo as real <= (y as real) * 1073741824.0;
    assert (y as real) * 1073741824.0 <= (hi as real) * 1.0001;
  }

  lemma SquareOf(n: int)
    ensures Val(n) * Val(n) == ((n * n) as real) / 1073741824.0 / 1073741824.0
  {
    DivProduct(n as real, n as real);
    assert (n * n) as real == (n as real) * (n as real);
  }

  /** Undoing an even normalisation: the number `y` was multiplied by p^2, so its root is divided
      by p, and rounding down costs less than what the shift takes off the error. */
  lemma ShiftedRoot(x0: int, a: int, p: int)
    requires x0 >= 1 && p >= 1 && a >= 8
    requires IsSqrt(x0 * (p * p), a, 8)
    ensures IsSqrt(x0, a / p, 8)
  {
    var y, pp := x0 * ONE, p * p;
    assert x0 * pp * ONE == y * pp;
    QuotientBounds(a, p);
    ShiftedBelow(y, a, p, a / p);
    ShiftedAbove(y, a, p, a / p);
  }

  lemma ShiftedBelow(y: int, a: int, p: int, r: int)
    requires y >= 64 && p >= 1 && a >= 8 && 0 <= r && p * r <= a
    requires (a - 8) * (a - 8) <= y * (p * p)
    ensures (r - 8) * (r - 8) <= y
  {
    if r >= 8 {
      var s := r - 8;
      MultiplyBelow(p, s, a - 8);
      SquareOfProduct(p, s);
      IntMono(p * s, a - 8);
      Cancel(s * s, y, p * p);
    } else {
      IntMono(8 - r, 8);
    }
  }

  lemma ShiftedAbove(y: int, a: int, p: int, r: int)
    requires p >= 1 && a >= 8 && 0 <= r && a < p * r + p
    requires 10000 * (y * (p * p)) <= 10001 * ((a + 8) * (a + 8))
    ensures 10000 * y <= 10001 * ((r + 8) * (r + 8))
  {
    var s := r + 8;
    MultiplyAbove(p, r, a);
    SquareOfProduct(p, s);
    IntMono(a + 8, p * s);
    var ss, pp := s * s, p * p;
    assert 10000 * (y * pp) <= 10001 * (pp * ss);
    Cancel(10000 * y, 10001 * ss, pp);
  }

  /** p (r - 8) <= a - 8 when p r <= a. */
  lemma MultiplyBelow(p: int, s: int, b: int)
    requires p >= 1 && s >= 0 && p * (s + 8) <= b + 8
    ensures 0 <= p * s <= b
  {
    assert p * (s + 8) == p * s + 8 * p;
  }

  /** a + 8 <= p (r + 8) when a < p r + p. */
  lemma MultiplyAbove(p: int, r: int, a: int)
    requires p >= 1 && a < p * r + p
    ensures a + 8 <= p * (r + 8)
  {
    assert p * (r + 8) == p * r + 8 * p;
  }

  lemma SquareOfProduct(p: int, s: int)
    ensures (p * s) * (p * s) == (p * p) * (s * s)
  {
    assert (p * s) * (p * s) == p * (s * (p * s)) == p * (p * (s * s));
  }

  lemma IntMono(m: int, n: int)
    requires 0 <= m <= n
    ensures m * m <= n * n
  {
  }

  lemma Cancel(m: int, n: int, k: int)
    requires k > 0 && k * m <= k * n
    ensures m <= n
  {
  }

  lemma EvenPower(x0: int, x: int, pow: nat)
    requires pow % 2 == 0 && At(x0, x, pow)
    ensures x == x0 * (Pow2(pow / 2) * Pow2(pow / 2))
  {
    Pow2Add(pow / 2, pow / 2);
  }

  /** The root of `x0` from the root `a` of x0 2^pow, for the even `pow` the code divides by. */
  method ShiftRoot(ghost x0: int, ghost x: int, pow: nat, a: int32) returns (r: int32)
    requires x0 >= 1 && pow % 2 == 0 && At(x0, x, pow)
    requires RootOf(Val(x), Val(a), 8.0) && 0.58 <= Val(a)
    ensures 0 <= r && IsSqrt(x0, r, 8)
  {
    var p := Pow2(pow / 2);
    IntegerRoot(x, a, 8);
    EvenPower(x0, x, pow);
    ShiftedRoot(x0, a, p);
    QuotientBounds(a, p);
    r := a / p;
  }

  /** The root of `x0` from the root `a` of the normalised `x`: half the power of two is taken off,
      with a factor of sqrt(2) when the power is odd. */
  method UndoScaling(ghost x0: int, ghost x: int, pow: int, a: int32) returns (r: int32)
    requires 0 < x0 < TWO_31 && Normalised(x0, x, pow)
    requires RootOf(Val(x), Val(a), 8.0) && 0.83 <= Val(a) <= 1.19
    ensures 0 <= r && IsSqrt(x0, r, SqrtUlps(x0))
  {
    if pow == -1 {
      r := MultiplyBySqrt2(x0, x, a);
    } else if pow % 2 == 0 {
      r := ShiftRoot(x0, x, pow, a);
    } else {
      Unshift(x0, x, pow - 1);
      r := DivideBySqrt2(x / 2, a);
      r := ShiftRoot(x0, x / 2, pow - 1, r);
    }
  }

  method DivideBySqrt2(ghost half: int, a: int32) returns (r: int32)
    requires RootOf(Val(2 * half), Val(a), 8.0) && 0.83 <= Val(a) <= 1.19
    ensures RootOf(Val(half), Val(r), 8.0) && 0.58 <= Val(r) <= 0.85
  {
    r := MultiplyBounded(a, ONE_OVER_SQRT_2, 1.19, 0.8);
    RootOfHalf(Val(2 * half), Val(a), Val(ONE_OVER_SQRT_2), Val(r));
  }

  method MultiplyBySqrt2(ghost x0: int, ghost x: int, a: int32) returns (r: int32)
    requires RootOf(Val(x), Val(a), 8.0) && 0.83 <= Val(a) <= 1.19
    requires x == x0 / 2 && 0 < x0 < TWO_31
    ensures IsSqrt(x0, r, 14) && 0 <= r
  {
    RootBelowOne(Val(x), Val(a));
    RepresentablePositive(a, SQRT_2, 0.83, 1.01, 1.41, 1.42);
    r := Multiply(a, SQRT_2);
    RootOfDouble(Val(x), Val(x0), Val(a), Val(SQRT_2), Val(r));
    IntegerRoot(x0, r, 14);
  }

  lemma RootBelowOne(x: real, a: real)
    requires x <= 1.0 && RootOf(x, a, 8.0)
    ensures a <= 1.01
  {
    SquareLess(a - 8.0 * ULP, 1.0);
  }

  /** `inv_fast_sqrt`: for every positive input the result is its square root to within a few
      units in the last place and one part in ten thousand of the square. Every intermediate value
      is assigned to a 32-bit variable, so nothing overflows. */
  method FastSqrt(x0: int32) returns (r: int32)
    ensures x0 <= 0 ==> r == 0
    ensures 0 < x0 ==> 0 <= r && IsSqrt(x0, r, SqrtUlps(x0))
  {
    if x0 <= 0 {
      return 0;
    }
    var x, pow, iterations := TestLimitsAndScale(x0);
    r := SqrtNormalised(x, iterations);
    r := UndoScaling(x0, x, pow, r);
  }
}
