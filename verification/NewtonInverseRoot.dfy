/** `inv_inverse_sqrt` of `ml_math_func.c`. */
module NewtonInverseRoot {
  import opened Machine
  import opened FixedPoint
  import opened Normaliser
  import opened NewtonAnalysis

  const ONE_OVER_SQRT_2 := 759250125
  const ONE_AND_HALF := 1610612736

  /** `y` scaled by 2^rempow is the Q30 inverse square root of the Q30 number `x0`: x0 y^2 is one
      to within one part in ten thousand. */
  ghost predicate IsInverseSqrt(x0: int, y: int, rempow: nat) {
    10000 * Abs(x0 * (y * y) * Pow2(2 * rempow) - ONE * ONE * ONE) < ONE * ONE * ONE
  }

  /** The first iterate, 3/2 - z, is exact. */
  method InverseStart(x: int32) returns (z: int32, y: int32)
    requires LOWER_LIMIT <= x <= UPPER_LIMIT
    ensures z == x / 2 && Inverting(Val(z), Val(y))
    ensures Residual(Val(z), Val(y)) == Next(2.0 * Val(z) - 1.0)
  {
    z := x / 2;
    y := ONE_AND_HALF - z;
    ghost var c := 2.0 * Val(z) - 1.0;
    StepKeepsSquare(c);
    FirstResidual(c);
  }

  /** 3/2 - z y^2, with the two roundings on the way. */
  method CorrectionFactor(z: int32, y: int32) returns (g: int32, ghost s: int, ghost w: int)
    requires 0.345 <= Val(z) <= 0.6951 && 0.8 <= Val(y) <= 1.22
    ensures Val(y) * Val(y) - ULP < Val(s) <= Val(y) * Val(y)
    ensures Val(z) * Val(s) - ULP < Val(w) <= Val(z) * Val(s)
    ensures Val(g) == 1.5 - Val(w) && 0.4 <= Val(g) <= 1.6
  {
    RepresentablePositive(y, y, 0.8, 1.22, 0.8, 1.22);
    var square := Multiply(y, y);
    RepresentablePositive(z, square, 0.345, 0.6951, 0.6, 1.4884);
    var product := Multiply(z, square);
    g, s, w := ONE_AND_HALF - product, square, product;
  }

  /** y = y (3/2 - z y^2). */
  method InverseNext(z: int32, y: int32) returns (y': int32)
    requires Inverting(Val(z), Val(y))
    ensures Inverting(Val(z), Val(y'))
    ensures -(8.0 * ULP) <= Residual(Val(z), Val(y')) - Next(Residual(Val(z), Val(y))) <= 8.0 * ULP
  {
    var g;
    ghost var s, w;
    g, s, w := CorrectionFactor(z, y);
    RepresentablePositive(y, g, 0.8, 1.22, 0.4, 1.6);
    y' := Multiply(y, g);
    InverseStep(Val(z), Val(y), Val(s), Val(w), Val(y'));
    InverseStepInRange(Val(z), Val(y), Val(y'));
  }

  lemma InverseFinished(x: int, z: int, y: int, n: real)
    requires z == x / 2 && 0.8 <= Val(y) <= 1.22
    requires -0.00009 <= n <= 0.0
    requires -(8.0 * ULP) <= Residual(Val(z), Val(y)) - n <= 8.0 * ULP
    ensures InverseRootOf(Val(x), Val(y), 0.000092)
  {
    InverseOfWhole(Val(x), Val(z), Val(y));
  }

  /** The iterations on a normalised number: one, two or three, by its region. */
  method InverseNormalised(x: int32, iterations: int) returns (y: int32)
    requires LOWER_LIMIT <= x <= UPPER_LIMIT && IterationsFor(x, iterations)
    ensures InverseRootOf(Val(x), Val(y), 0.000092) && 0.8 <= Val(y) <= 1.22
  {
    var z;
    z, y := InverseStart(x);
    ghost var c := 2.0 * Val(z) - 1.0;
    ghost var n := Next(c);
    ghost var c0 := Residual(Val(z), Val(y));
    if iterations >= 2 {
      y := InverseNext(z, y);
      ghost var c1 := Residual(Val(z), Val(y));
      n := Next(c0);
      if iterations == 3 {
        y := InverseNext(z, y);
        n := Next(c1);
        ThreeIterations(c, c0, c1);
      } else {
        TwoIterations(c, c0);
      }
    } else {
      OneIteration(c);
    }
    InverseFinished(x, z, y, n);
  }

  /** From the real numbers back to the integers of the code: `w` is the argument after the power
      of two has been moved onto it. */
  lemma IntegerInverse(x0: int, w: int, y: int, rempow: nat)
    requires w == x0 * Pow2(2 * rempow)
    requires InverseRootOf(Val(w), Val(y), 0.000099)
    ensures IsInverseSqrt(x0, y, rempow)
  {
    var p := Pow2(2 * rempow);
    var yy := y * y;
    assert x0 * yy * p == w * yy;
    RealTriple(w, y);
    var t := w * yy;
    var e := (t as real) / 1073741824.0 / 1073741824.0 / 1073741824.0 - 1.0;
    assert -0.000099 <= e <= 0.000099;
  }

  lemma RealTriple(w: int, y: int)
    ensures Val(w) * (Val(y) * Val(y))
         == ((w * (y * y)) as real) / 1073741824.0 / 1073741824.0 / 1073741824.0
  {
    var yy := y * y;
    DivProduct(y as real, y as real);
    assert yy as real == (y as real) * (y as real);
    assert (w * yy) as real == (w as real) * (yy as real);
    var r := yy as real;
    assert Val(y) * Val(y) == r / 1073741824.0 / 1073741824.0;
    assert Val(w) * (r / 1073741824.0 / 1073741824.0)
        == (w as real) * r / 1073741824.0 / 1073741824.0 / 1073741824.0;
  }

  /** `inv_inverse_sqrt`: for every positive input, odd powers and the halved case included (where
      C's remainder of -1 by 2 is -1, so the power counts as odd). */
  method InverseSqrt(x0: int32) returns (y: int32, rempow: int)
    requires 0 < x0
    ensures 0 <= rempow && IsInverseSqrt(x0, y, rempow)
  {
    var x, pow, iterations := TestLimitsAndScale(x0);
    y := InverseNormalised(x, iterations);
    if pow % 2 != 0 {
      rempow := pow / 2 + 1;
      y := DivideBySqrt2(x0, x, pow, y);
    } else {
      rempow := pow / 2;
      assert x == x0 * Pow2(2 * rempow);
      IntegerInverse(x0, x, y, rempow);
    }
  }

  /** The argument the odd powers leave behind: twice the normalised number, or the input itself
      when it was halved. */
  lemma OddPower(x0: int, x: int, pow: int) returns (w: int)
    requires 0 < x0 && Normalised(x0, x, pow) && pow % 2 != 0
    ensures w == x0 * Pow2(2 * (pow / 2 + 1))
    ensures 2 * x <= w <= 2 * x + 1
  {
    if pow == -1 {
      w := x0;
    } else {
      w := 2 * x;
      assert 2 * (pow / 2 + 1) == pow + 1;
      var p := Pow2(pow);
      assert Pow2(pow + 1) == 2 * p;
      Twice(x0, p);
    }
  }

  lemma Twice(m: int, n: int)
    ensures m * (2 * n) == 2 * (m * n)
  {
  }

  method DivideBySqrt2(ghost x0: int, ghost x: int, ghost pow: int, y: int32) returns (r: int32)
    requires 0 < x0 && Normalised(x0, x, pow) && pow % 2 != 0
    requires InverseRootOf(Val(x), Val(y), 0.000092) && 0.8 <= Val(y) <= 1.22
    ensures IsInverseSqrt(x0, r, pow / 2 + 1)
  {
    RepresentablePositive(y, ONE_OVER_SQRT_2, 0.8, 1.22, 0.7, 0.8);
    r := Multiply(y, ONE_OVER_SQRT_2);
    ghost var w := OddPower(x0, x, pow);
    InverseOfDouble(Val(x), Val(w), Val(y), Val(ONE_OVER_SQRT_2), Val(r));
    IntegerInverse(x0, w, r, pow / 2 + 1);
  }
}
