/** `inv_one_over_x` of `ml_math_func.c`. */
module NewtonReciprocal {
  import opened Machine
  import opened FixedPoint
  import opened Normaliser
  import opened NewtonAnalysis

  const TWO := 2147483647 // 2^31 - 1: the code adds one after subtracting from it
  const UPSCALE := 1425155444
  const UPSCALE_LIMIT := 873697834
  const DOWNSCALE := 836504283
  const DOWNSCALE_LIMIT := 1268000423
  const SINGLE_LOW := 1067299373
  const SINGLE_HIGH := 1080184275

  /** `y` scaled by 2^pow is the Q30 reciprocal of the Q30 number `x0`, to within 1.6e-8. */
  ghost predicate IsReciprocal(x0: int, y: int, pow: int) {
    if pow >= 0 then
      1_000_000_000 * Abs(ONE * ONE - x0 * y * Pow2(pow)) < 16 * ONE * ONE
    else
      pow == -1 && 1_000_000_000 * Abs(2 * ONE * ONE - x0 * y) < 32 * ONE * ONE
  }

  /** `y` is the reciprocal of `x` up to `b`. */
  ghost predicate Within(x: int, y: int, b: real) {
    Reciprocating(Val(x), Val(y)) && -b <= Missing(Val(x), Val(y)) <= b
  }

  /** The seed 2 - x; its residual (1 - x)^2 is exact. */
  method ReciprocalStart(x: int32, ghost c: real, ghost b: real) returns (y: int32)
    requires -c <= 1.0 - Val(x) <= c <= 0.19 && c * c <= b
    ensures Within(x, y, b)
  {
    y := TWO - x + 1;
    SquareBelow(1.0 - Val(x), c);
    SquareBelow(1.0 - Val(x), 0.19);
    assert Val(y) == 2.0 - Val(x);
  }

  /** y = y (2 - x y). */
  method ReciprocalNext(x: int32, y: int32, ghost b: real, ghost b1: real) returns (y': int32)
    requires Within(x, y, b) && b <= 0.1 && b * b + 1.4 * ULP <= b1
    ensures Within(x, y', b1)
  {
    RepresentablePositive(x, y, 0.81, 1.19, 0.7, 1.24);
    var m := Multiply(x, y);
    var g := TWO - m + 1;
    RepresentablePositive(y, g, 0.7, 1.24, 0.9, 1.11);
    y' := Multiply(y, g);
    ReciprocalStepBound(Val(x), Val(y), Val(m), Val(y'), b, b1);
  }

  /** Enough iterations for the distance of the argument from 1. */
  ghost predicate Suffices(x: int, iterations: int) {
    && 0.8136 <= Val(x) <= 1.1810
    && 1 <= iterations <= 3
    && (iterations == 1 ==> -0.01001 <= 1.0 - Val(x) <= 0.01001)
    && (iterations == 2 ==> -0.10001 <= 1.0 - Val(x) <= 0.10001)
  }

  /** The seed and one, two or three iterations: the residual is squared each time. */
  method Reciprocate(x: int32, iterations: int) returns (y: int32)
    requires Suffices(x, iterations)
    ensures Within(x, y, 0.0000000101 + 1.4 * ULP)
  {
    if iterations == 1 {
      y := ReciprocalStart(x, 0.01001, 0.00010021);
      y := ReciprocalNext(x, y, 0.00010021, 0.0000000101 + 1.4 * ULP);
    } else if iterations == 2 {
      y := ReciprocalStart(x, 0.10001, 0.0100021);
      y := ReciprocalNext(x, y, 0.0100021, 0.00010005);
      y := ReciprocalNext(x, y, 0.00010005, 0.0000000101 + 1.4 * ULP);
    } else {
      y := ReciprocalStart(x, 0.1865, 0.0348);
      y := ReciprocalNext(x, y, 0.0348, 0.00122);
      y := ReciprocalNext(x, y, 0.00122, 0.0000015);
      y := ReciprocalNext(x, y, 0.0000015, 0.0000000101 + 1.4 * ULP);
    }
  }

  /** Pre-scaling moves the argument towards 1, so that two iterations or one are enough; the
      factor comes back as `factor`, ONE standing for none. */
  method Prescale(x: int32, iterations: int) returns (x1: int32, factor: int32, iterations': int)
    requires LOWER_LIMIT <= x <= UPPER_LIMIT && IterationsFor(x, iterations)
    ensures Suffices(x1, iterations')
    ensures 0.0 < Val(factor) <= 1.33
    ensures Val(x) * Val(factor) - ULP < Val(x1) <= Val(x) * Val(factor)
    ensures factor == ONE || factor == UPSCALE || factor == DOWNSCALE
  {
    x1, factor, iterations' := x, ONE, iterations;
    if x <= UPSCALE_LIMIT {
      factor := UPSCALE;
    } else if x >= DOWNSCALE_LIMIT {
      factor := DOWNSCALE;
    }
    if factor != ONE {
      RepresentablePositive(x, factor, 0.69, 1.39, 0.77, 1.33);
      x1 := Multiply(x, factor);
      iterations' := 2;
      if x1 > SINGLE_LOW && x1 < SINGLE_HIGH {
        iterations' := 1;
      }
    }
  }

  /** The reciprocal of the normalised number, as integers. */
  lemma IntegerReciprocal(x: int, y: int)
    requires -(0.0000000101 + 4.4 * ULP) <= Missing(Val(x), Val(y)) <= 0.0000000101 + 4.4 * ULP
    ensures 1_000_000_000 * Abs(ONE * ONE - x * y) < 15 * ONE * ONE
  {
    ProductVal(x, y);
    var p := x * y;
    var e := 1.0 - (p as real) / 1073741824.0 / 1073741824.0;
    assert -(0.0000000101 + 4.4 * ULP) <= e <= 0.0000000101 + 4.4 * ULP;
  }

  /** ... is, with the power of two, that of the input: nothing is lost by doublings, */
  lemma ReciprocalOfDoubled(x0: int, p: int, y: int)
    ensures x0 * y * p == (x0 * p) * y
  {
  }

  /** and a halving loses at most one bit. */
  lemma ReciprocalOfHalved(x0: int, x: int, y: int)
    requires x == x0 / 2 && 0 <= y < TWO_31
    requires 1_000_000_000 * Abs(ONE * ONE - x * y) < 15 * ONE * ONE
    ensures IsReciprocal(x0, y, -1)
  {
    var b := x0 - 2 * x;
    assert b == 0 || b == 1;
    assert x0 * y == 2 * (x * y) + b * y;
  }

  lemma ReciprocalOfInput(x0: int, x: int, pow: int, y: int)
    requires Normalised(x0, x, pow) && 0 <= y < TWO_31
    requires 1_000_000_000 * Abs(ONE * ONE - x * y) < 15 * ONE * ONE
    ensures IsReciprocal(x0, y, pow)
  {
    if pow >= 0 {
      ReciprocalOfDoubled(x0, Pow2(pow), y);
    } else {
      ReciprocalOfHalved(x0, x, y);
    }
  }

  lemma SignOfReciprocal(x0: int, y: int, pow: int)
    requires IsReciprocal(x0, y, pow)
    ensures IsReciprocal(-x0, -y, pow)
  {
    assert (-x0) * (-y) == x0 * y;
  }

  method Postscale(ghost x: int, ghost x1: int, factor: int32, y: int32) returns (r: int32)
    requires LOWER_LIMIT <= x <= UPPER_LIMIT
    requires factor == ONE || factor == UPSCALE || factor == DOWNSCALE
    requires Val(x) * Val(factor) - ULP < Val(x1) <= Val(x) * Val(factor)
    requires Within(x1, y, 0.0000000101 + 1.4 * ULP)
    ensures 0 <= r && 1_000_000_000 * Abs(ONE * ONE - x * r) < 15 * ONE * ONE
  {
    r := y;
    if factor != ONE {
      RepresentablePositive(y, factor, 0.7, 1.24, 0.77, 1.33);
      r := Multiply(y, factor);
    }
    PostscaleError(x, x1, factor, y, r);
  }

  lemma PostscaleError(x: int, x1: int, factor: int, y: int, r: int)
    requires LOWER_LIMIT <= x <= UPPER_LIMIT && 0.77 <= Val(factor)
    requires Val(x) * Val(factor) - ULP < Val(x1) <= Val(x) * Val(factor)
    requires Within(x1, y, 0.0000000101 + 1.4 * ULP)
    requires Val(y) * Val(factor) - ULP < Val(r) <= Val(y) * Val(factor)
    ensures 0 <= r && 1_000_000_000 * Abs(ONE * ONE - x * r) < 15 * ONE * ONE
  {
    MissingOfScaled(Val(x), Val(x1), Val(factor), Val(y), Val(r), 0.0000000101 + 1.4 * ULP);
    MulMono(0.7, 0.77, Val(y), Val(factor));
    IntegerReciprocal(x, r);
  }

  /** `inv_one_over_x`: for every nonzero input the result times the input and the power of two is
      one to within 1.6e-8, with the sign of the input. */
  method OneOverX(x0: int32) returns (y: int32, pow: int)
    requires -TWO_31 < x0
    ensures x0 == 0 ==> y == 0 && pow == 0
    ensures x0 != 0 ==> IsReciprocal(x0, y, pow)
  {
    if x0 == 0 {
      return 0, 0;
    }
    var negative := x0 < 0;
    var magnitude: int32 := if negative then -x0 else x0;
    var x, iterations;
    x, pow, iterations := TestLimitsAndScale(magnitude);
    var x1, factor;
    x1, factor, iterations := Prescale(x, iterations);
    y := Reciprocate(x1, iterations);
    y := Postscale(x, x1, factor, y);
    ReciprocalOfInput(magnitude, x, pow, y);
    if negative {
      SignOfReciprocal(magnitude, y, pow);
      y := -y;
    }
  }
}
