/** Real analysis of the Newton-Raphson recurrences: what exact arithmetic would do, and how
    rounding errors of a few units in the last place travel through one step. */
module NewtonAnalysis {
  import opened FixedPoint

  // ----- square root and inverse square root share one residual -----

  /** One step takes the relative error `c` of the square to `Next(c)`. */
  function Next(c: real): real {
    c * c * (c - 3.0) / 4.0
  }

  /** The invariant of the two-variable iteration: if a^2 = x(1 + c) before the step, then
      a^2 = x(1 + c) after it. The same identity with x y^2 = 1 + c drives the inverse root. */
  lemma StepKeepsSquare(c: real)
    ensures (1.0 + c) * ((1.0 - c / 2.0) * (1.0 - c / 2.0)) == 1.0 + Next(c)
  {
    var h := 1.0 - c / 2.0;
    assert h * h == 1.0 - c + c * c / 4.0;
    assert c * c * (c - 3.0) == c * (c * c) - 3.0 * (c * c);
    assert (1.0 + c) * (1.0 - c + c * c / 4.0) == 1.0 - 0.75 * (c * c) + c * (c * c) / 4.0;
  }

  /** Quadratic convergence, from above and from below 1. */
  lemma NextBound(c: real, m: real)
    requires 0.0 <= m <= 1.0
    requires -m <= c <= m
    ensures -(m * m * (3.0 + m) / 4.0) <= Next(c) <= 0.0
    ensures 0.0 <= c ==> -(m * m * (3.0 - m) / 4.0) <= Next(c)
  {
    var s := c * c;
    MulBound(c, c, m, m);
    assert 0.0 <= s <= m * m;
    assert c * c * (c - 3.0) == -(s * (3.0 - c));
    MulMono(s, 3.0 - c, m * m, 3.0 + m);
    if 0.0 <= c {
      NextMonotone(c, m);
    }
  }

  lemma NextMonotone(c: real, m: real)
    requires 0.0 <= c <= m <= 1.0
    ensures c * c * (3.0 - c) <= m * m * (3.0 - m)
  {
    var u, v := c * (3.0 - c), m * (3.0 - m);
    assert u <= v by {
      MulMono(0.0, 0.0, m - c, 3.0 - m - c);
      assert v - u == (m - c) * (3.0 - m - c);
    }
    assert 0.0 <= u by { MulMono(0.0, 0.0, c, 3.0 - c); }
    MulMono(c, u, m, v);
    assert c * c * (3.0 - c) == c * u && m * m * (3.0 - m) == m * v;
  }

  // ----- rounding errors: square root -----

  /** `a` is the root of `x` with relative error `n` in the square, up to `e`. */
  ghost predicate RootWithin(x: real, a: real, n: real, e: real) {
    -e <= a * a - x * (1.0 + n) <= e
  }

  /** Rounding `p` up by less than one ulp moves its square by a bounded amount. */
  lemma RoundedSquare(p: real, q: real, m: real)
    requires 0.0 <= p <= m <= 2.0 && p <= q < p + ULP
    ensures p * p <= q * q <= p * p + (2.0 * m + 0.001) * ULP
  {
    var d := q - p;
    MulMono(p, d, m, ULP);
    MulMono(d, d, ULP, 0.001);
    assert q * q == p * p + 2.0 * (p * d) + d * d;
  }

  /** The first iterate, a = x - x c / 2 with c = x - 1. */
  lemma RootStart(x: real, a: real, c: real)
    requires 0.69 <= x <= 1.39 && c == x - 1.0
    requires x * (1.0 - c / 2.0) <= a < x * (1.0 - c / 2.0) + ULP
    ensures RootWithin(x, a, Next(c), 2.26 * ULP)
    ensures 0.0 < a
  {
    var h := 1.0 - c / 2.0;
    var p := x * h;
    assert p == 1.125 - (1.5 - x) * (1.5 - x) / 2.0;
    MulMono(0.69, 0.805, x, h);
    RoundedSquare(p, a, 1.125);
    StepKeepsSquare(c);
    assert p * p == x * (x * (h * h));
  }

  /** What a step does to the square when its inputs carry errors: the old error and the error `e1`
      of the new residual are scaled by hh = (1 - c1/2)^2. */
  lemma StepWithErrors(x: real, a: real, n: real, c1: real, n1: real, h: real)
    requires (1.0 + c1) * (h * h) == 1.0 + n1
    ensures (a * h) * (a * h) == x * (1.0 + n1) + (a * a - x * (1.0 + n) - x * (c1 - n)) * (h * h)
  {
    var hh, aa := h * h, a * a;
    assert (a * h) * (a * h) == aa * hh;
    var y := x * (1.0 + c1);
    var z := aa - x * (1.0 + n) - x * (c1 - n);
    assert aa == y + z;
    assert (y + z) * hh == y * hh + z * hh;
    assert y * hh == x * ((1.0 + c1) * hh);
  }

  /** The scaled error of `StepWithErrors` when (1 - c1/2)^2 is at most 1.11. */
  lemma ScaledError(x: real, e0: real, e1: real, hh: real, e: real, d: real)
    requires 0.0 <= x <= 1.39 && 0.0 <= hh <= 1.11
    requires -e <= e0 <= e && -d <= e1 <= d
    ensures -(1.11 * e + 1.55 * d) <= (e0 - x * e1) * hh <= 1.11 * e + 1.55 * d
  {
    MulBound(x, e1, 1.39, d);
    MulBound(e0 - x * e1, hh, e + 1.39 * d, 1.11);
  }

  /** The root of a number below 1.39 is below 1.19, and rounding it up costs 2.4 ulps of square. */
  lemma RoundedRoot(x: real, p: real, q: real, n: real, err: real, e: real)
    requires 0.69 <= x <= 1.39 && 0.0 <= p && -1.0 <= n <= 0.0
    requires p * p == x * (1.0 + n) + err
    requires -e <= err <= e && e <= 100.0 * ULP
    requires p <= q < p + ULP
    ensures RootWithin(x, q, n, e + 2.4 * ULP)
  {
    var t := x * (1.0 + n);
    assert t <= x by {
      MulMono(x, 1.0 + n, x, 1.0);
    }
    assert p <= 1.19 by { SquareLess(p, 1.19); }
    RoundedSquare(p, q, 1.19);
    var pp, qq := p * p, q * q;
    assert -e <= qq - t <= e + 2.4 * ULP;
  }

  /** One further step on computed values: `c1` is `n` with a rounding error, `a1` is
      a (1 - c1/2) rounded up, and `n1` is the exact residual that follows `c1`. */
  lemma RootStepErrors(x: real, a: real, n: real, a1: real, c1: real, n1: real, h: real, e: real)
    requires 0.69 <= x <= 1.39 && 0.0 < a
    requires 0.0 <= e <= 16.0 * ULP && RootWithin(x, a, n, e)
    requires -(1.3 * ULP) <= c1 - n <= 1.3 * ULP
    requires h == 1.0 - c1 / 2.0 && -0.1 <= c1 <= 0.001
    requires (1.0 + c1) * (h * h) == 1.0 + n1 && -1.0 <= n1 <= 0.0
    requires a * h <= a1 < a * h + ULP
    ensures RootWithin(x, a1, n1, 1.11 * e + 4.42 * ULP)
    ensures 0.0 < a1
  {
    var hh, e0, e1 := h * h, a * a - x * (1.0 + n), c1 - n;
    assert 0.0 <= hh <= 1.11 by { MulMono(h, h, 1.05, 1.05); }
    StepWithErrors(x, a, n, c1, n1, h);
    ScaledError(x, e0, e1, hh, e, 1.3 * ULP);
    MulPositive(a, h);
    RoundedRoot(x, a * h, a1, n1, (e0 - x * e1) * hh, 1.11 * e + 2.02 * ULP);
  }

  lemma RootStep(x: real, a: real, c: real, a1: real, c1: real, e: real)
    requires 0.69 <= x <= 1.39 && 0.0 < a
    requires 0.0 <= e <= 16.0 * ULP && RootWithin(x, a, Next(c), e)
    requires -(1.3 * ULP) <= c1 - Next(c) <= 1.3 * ULP
    requires -0.1 <= c1 <= 0.001
    requires a * (1.0 - c1 / 2.0) <= a1 < a * (1.0 - c1 / 2.0) + ULP
    ensures RootWithin(x, a1, Next(c1), 1.11 * e + 4.42 * ULP)
    ensures 0.0 < a1
  {
    StepKeepsSquare(c1);
    NextBound(c1, 0.1);
    RootStepErrors(x, a, Next(c), a1, c1, Next(c1), 1.0 - c1 / 2.0, e);
  }

  /** The residual as the code computes it, with three roundings down. */
  lemma NextRounded(c: real, t: real, u: real, v: real, c1: real)
    requires -0.4 <= c <= 0.4
    requires c / 2.0 - 1.5 - ULP / 2.0 <= t <= c / 2.0 - 1.5
    requires c * t - ULP < u <= c * t && c * u - ULP < v <= c * u
    requires v / 2.0 - ULP / 2.0 <= c1 <= v / 2.0
    ensures -(1.3 * ULP) <= c1 - Next(c) <= 1.3 * ULP
  {
    hide Next;
    var f := c / 2.0 - 1.5;
    var e := u - c * f;
    assert -(1.2 * ULP) <= e <= 0.2 * ULP by { InnerFactor(c, f, t, u); }
    var ce := c * e;
    assert -(0.5 * ULP) <= ce <= 0.5 * ULP by { MulBound(c, e, 0.4, 1.2 * ULP); }
    assert c * u == 2.0 * Next(c) + ce by { OuterFactor(c, f, u, e); }
  }

  lemma InnerFactor(c: real, f: real, t: real, u: real)
    requires -0.4 <= c <= 0.4 && f - ULP / 2.0 <= t <= f
    requires c * t - ULP < u <= c * t
    ensures -(1.2 * ULP) <= u - c * f <= 0.2 * ULP
  {
    var ct, cf, d := c * t, c * f, c * (f - t);
    assert -(0.2 * ULP) <= d <= 0.2 * ULP by { MulBound(c, f - t, 0.4, ULP / 2.0); }
    assert d == cf - ct by { Distributes(c, f, t); }
  }

  lemma OuterFactor(c: real, f: real, u: real, e: real)
    requires f == c / 2.0 - 1.5 && e == u - c * f
    ensures c * u == 2.0 * Next(c) + c * e
  {
    assert c * u == c * (c * f) + c * e;
    assert c * (c * f) == 2.0 * Next(c);
  }

  // ----- how good a computed root is -----

  /** `a` is the root of `x` up to `k` ulps and a relative error of one in ten thousand. */
  ghost predicate RootOf(x: real, a: real, k: real) {
    && (a - k * ULP) * (a - k * ULP) <= x
    && x <= (a + k * ULP) * (a + k * ULP) * 1.0001
  }

  /** Enough iterations were made: the residual left is below 0.00009. */
  lemma Converged(x: real, a: real, n: real, e: real)
    requires 0.69 <= x <= 1.39 && 0.0 < a
    requires RootWithin(x, a, n, e) && 0.0 <= e <= 12.2 * ULP
    requires -0.00009 <= n <= 0.0
    ensures RootOf(x, a, 8.0)
    ensures 0.83 <= a <= 1.19
  {
    var aa, t := a * a, -(x * n);
    assert 0.0 <= t <= 0.00009 * x by {
      MulMono(x, -n, x, 0.00009);
    }
    assert x * (1.0 + n) == x - t;
    assert -e <= aa - x + t <= e;
    assert a <= 1.19 by { SquareLess(a, 1.19); }
    assert 0.83 <= a by { SquareLess(0.83, a); }
    var k := 8.0 * ULP;
    assert 0.83 * k <= a * k <= 1.19 * k by { MulMono(0.83, k, a, k); MulMono(a, k, 1.19, k); }
    assert 0.0 <= k * k <= 0.001 * ULP;
    assert (a - k) * (a - k) == aa - 2.0 * (a * k) + k * k;
    assert (a + k) * (a + k) == aa + 2.0 * (a * k) + k * k;
    var q := aa + 2.0 * (a * k) + k * k;
    assert x - t <= q;
  }

  /** Every iterate is below 1.19. */
  lemma RootBelow(x: real, a: real, n: real, e: real)
    requires 0.69 <= x <= 1.39 && 0.0 < a
    requires RootWithin(x, a, n, e) && 0.0 <= e <= 12.2 * ULP
    requires -1.0 <= n <= 0.0
    ensures a <= 1.19
  {
    MulMono(x, 1.0 + n, x, 1.0);
    SquareLess(a, 1.19);
  }

  /** The residual left by the last step the code makes, from the distance to 1 it starts at:
      below 0.00009 in each of the three regions. `c1`, `c2` are the computed residuals. */
  lemma OneIteration(c: real)
    requires -0.0101 <= c <= 0.0101
    ensures -0.00009 <= Next(c) <= 0.0
  {
    NextBound(c, 0.0101);
  }

  lemma TwoIterations(c: real, c1: real)
    requires -0.1001 <= c <= 0.1001
    requires -(10.0 * ULP) <= c1 - Next(c) <= 10.0 * ULP
    ensures -0.00009 <= Next(c1) <= 0.0
  {
    NextBound(c, 0.1001);
    NextBound(c1, 0.0078);
  }

  lemma ThreeIterations(c: real, c1: real, c2: real)
    requires -0.307 <= c <= 0.3864
    requires -(10.0 * ULP) <= c1 - Next(c) <= 10.0 * ULP
    requires -(10.0 * ULP) <= c2 - Next(c1) <= 10.0 * ULP
    ensures -0.00009 <= Next(c2) <= 0.0
  {
    FirstResidual(c);
    NextBound(c1, 0.098);
    NextBound(c2, 0.0076);
  }

  /** The worst residual after the first step, over the whole normalised range. */
  lemma FirstResidual(c: real)
    requires -0.307 <= c <= 0.3864
    ensures -0.0977 <= Next(c) <= 0.0
  {
    if c < 0.0 {
      NextBound(c, 0.307);
    } else {
      NextBound(c, 0.3864);
    }
  }

  /** The state of the two-variable iteration: `c` is the residual, `a` the root, `e` its error in
      ulps of the square. */
  ghost predicate RootState(x: real, a: real, c: real, e: real) {
    && 0.69 <= x <= 1.39
    && 0.0 < a <= 1.19
    && -0.307 <= c <= 0.3864
    && RootWithin(x, a, Next(c), e * ULP)
  }

  lemma RootStateStep(x: real, a: real, c: real, a1: real, c1: real, e: real)
    requires 0.0 <= e <= 7.0 && RootState(x, a, c, e)
    requires -(1.3 * ULP) <= c1 - Next(c) <= 1.3 * ULP && -0.1 <= c1 <= 0.001
    requires a * (1.0 - c1 / 2.0) <= a1 < a * (1.0 - c1 / 2.0) + ULP
    ensures RootState(x, a1, c1, 1.11 * e + 4.42)
  {
    RootStep(x, a, c, a1, c1, e * ULP);
    FirstResidual(c1);
    RootBelow(x, a1, Next(c1), (1.11 * e + 4.42) * ULP);
  }

  /** Dividing by the square root of 2: `s` is 1/sqrt(2) to within half an ulp. */
  lemma RootOfHalf(x: real, a: real, s: real, r: real)
    requires RootOf(x, a, 8.0) && 0.83 <= a <= 1.19
    requires s == 759250125.0 * ULP && a * s - ULP < r <= a * s
    ensures RootOf(x / 2.0, r, 8.0)
    ensures 0.58 <= r <= 0.85
  {
    var k := 8.0 * ULP;
    var lo, hi := a - k, a + k;
    assert (s - ULP) * (s - ULP) <= 0.5 <= (s + ULP) * (s + ULP);
    ScaledSquareBelow(lo, s - ULP, r - k, 0.5, x);
    ScaledSquareAbove(hi, s + ULP, r + k, 0.5, x / 1.0001);
  }

  /** Multiplying by the square root of 2, for a number that was halved with a bit lost. */
  lemma RootOfDouble(x: real, x0: real, a: real, s: real, r: real)
    requires RootOf(x, a, 8.0) && 0.83 <= a <= 1.01
    requires 2.0 * x <= x0 <= 2.0 * x + ULP
    requires s == 1518500250.0 * ULP && a * s - ULP < r <= a * s
    ensures RootOf(x0, r, 14.0)
  {
    var k := 8.0 * ULP;
    assert (s - ULP) * (s - ULP) <= 2.0 <= (s + ULP) * (s + ULP);
    var lo := r - 14.0 * ULP;
    ScaledSquareBelow(a - k, s - ULP, lo, 2.0, x);
    assert lo * lo <= x0;
    var m := r + 13.5 * ULP;
    ScaledSquareAbove(a + k, s + ULP, m, 2.0, x / 1.0001);
    var q := r + 14.0 * ULP;
    assert q * q == m * m + ULP * m + 0.25 * ULP * ULP;
    assert m * m + ULP <= q * q by {
      MulMono(1.0, ULP, m, ULP);
    }
  }

  lemma ScaledSquareBelow(lo: real, s: real, r: real, w: real, x: real)
    requires 0.0 <= lo && 0.0 <= s && 0.0 <= r <= lo * s
    requires s * s <= w && lo * lo <= x && 0.0 <= w
    ensures r * r <= w * x
  {
    var p := lo * s;
    MulMono(r, r, p, p);
    assert p * p == (lo * lo) * (s * s);
    MulMono(s * s, lo * lo, w, x);
  }

  lemma ScaledSquareAbove(hi: real, s: real, r: real, w: real, x: real)
    requires 0.0 <= hi && 0.0 <= s && hi * s <= r
    requires 0.0 <= w <= s * s && 0.0 <= x <= hi * hi
    ensures w * x <= r * r
  {
    var p := hi * s;
    MulMono(p, p, r, r);
    assert p * p == (hi * hi) * (s * s);
    MulMono(w, x, s * s, hi * hi);
  }

  // ----- rounding errors: inverse square root -----

  /** The relative error of z y^2 against one half; `z` is half the argument. */
  ghost function Residual(z: real, y: real): real {
    2.0 * z * (y * y) - 1.0
  }

  ghost predicate Inverting(z: real, y: real) {
    && 0.345 <= z <= 0.6951
    && 0.8 <= y <= 1.22
    && -0.1 <= Residual(z, y) <= 0.001
  }

  /** One step y (3/2 - z y^2) on computed values: the residual goes to its successor up to 8
      ulps. */
  lemma InverseStep(z: real, y: real, s: real, w: real, y1: real)
    requires Inverting(z, y)
    requires y * y - ULP < s <= y * y && z * s - ULP < w <= z * s
    requires y * (1.5 - w) - ULP < y1 <= y * (1.5 - w)
    ensures -(8.0 * ULP) <= Residual(z, y1) - Next(Residual(z, y)) <= 8.0 * ULP
  {
    var rho := Residual(z, y);
    var h := 1.0 - rho / 2.0;
    StepKeepsSquare(rho);
    InverseFactor(z, y * y, s, w);
    RoundedProduct(y, h, 1.5 - w, y1);
    InverseStepError(z, y, h, y1, Next(rho));
  }

  /** ... and the next iterate is in range again. */
  lemma InverseStepInRange(z: real, y: real, y1: real)
    requires Inverting(z, y) && 0.0 <= y1
    requires -(8.0 * ULP) <= Residual(z, y1) - Next(Residual(z, y)) <= 8.0 * ULP
    ensures Inverting(z, y1)
  {
    NextBound(Residual(z, y), 0.1);
    InverseRange(z, y1);
  }

  lemma RoundedProduct(y: real, h: real, g: real, y1: real)
    requires 0.8 <= y <= 1.22 && 0.0 <= g - h <= 1.7 * ULP
    requires y * g - ULP < y1 <= y * g
    ensures -(2.1 * ULP) <= y1 - y * h <= 2.1 * ULP
  {
    var e := y * (g - h);
    assert 0.0 <= e <= 2.1 * ULP by { MulMono(y, g - h, 1.22, 1.7 * ULP); }
    var yg, yh := y * g, y * h;
    assert e == yg - yh by { Distributes(y, g, h); }
    assert yg - ULP < y1 <= yg;
  }

  lemma Distributes(y: real, g: real, h: real)
    ensures y * (g - h) == y * g - y * h
  {
  }

  lemma InverseFactor(z: real, yy: real, s: real, w: real)
    requires 0.345 <= z <= 0.6951
    requires yy - ULP < s <= yy && z * s - ULP < w <= z * s
    ensures 0.0 <= z * yy - w <= 1.7 * ULP
  {
    var d := yy - s;
    MulMono(z, d, 0.6951, ULP);
    assert z * s == z * yy - z * d;
  }

  lemma InverseStepError(z: real, y: real, h: real, y1: real, n: real)
    requires 0.345 <= z <= 0.6951 && 0.8 <= y <= 1.22 && 0.9 <= h <= 1.05
    requires (2.0 * z * (y * y)) * (h * h) == 1.0 + n
    requires -(2.1 * ULP) <= y1 - y * h <= 2.1 * ULP
    ensures -(8.0 * ULP) <= 2.0 * z * (y1 * y1) - 1.0 - n <= 8.0 * ULP
  {
    var p := y * h;
    var d := y1 - p;
    assert p * p == (y * y) * (h * h);
    assert y1 * y1 == p * p + 2.0 * (p * d) + d * d;
    assert 2.0 * z * (p * p) == 1.0 + n;
    assert 0.0 <= p <= 1.281 by { MulMono(y, h, 1.22, 1.05); }
    MulBound(p, d, 1.281, 2.1 * ULP);
    MulBound(d, d, 2.1 * ULP, 0.0001);
    var err := 2.0 * (p * d) + d * d;
    MulBound(z, err, 0.6951, 5.39 * ULP);
    assert 2.0 * z * (y1 * y1) == 1.0 + n + 2.0 * (z * err);
  }

  /** Bounds of an iterate from its residual. */
  lemma InverseRange(z: real, y: real)
    requires 0.345 <= z <= 0.6951 && 0.0 <= y
    requires -0.1 <= 2.0 * z * (y * y) - 1.0 <= 0.001
    ensures 0.8 <= y <= 1.22
  {
    var yy := y * y;
    if yy < 0.64 {
      MulMono(z, yy, 0.6951, 0.64);
    }
    if 1.4884 < yy {
      MulMono(0.345, 1.4884, z, yy);
    }
    SquareLess(0.8, y);
    SquareLess(y, 1.22);
  }

  /** `y` is the inverse square root of `x` up to a relative error `t` of x y^2. */
  ghost predicate InverseRootOf(x: real, y: real, t: real) {
    -t <= x * (y * y) - 1.0 <= t
  }

  /** Putting back what halving the argument dropped. */
  lemma InverseOfWhole(x: real, z: real, y: real)
    requires 0.8 <= y <= 1.22 && 2.0 * z <= x <= 2.0 * z + ULP
    requires -0.000091 <= 2.0 * z * (y * y) - 1.0 <= 0.000001
    ensures InverseRootOf(x, y, 0.000092)
  {
    var yy, d := y * y, x - 2.0 * z;
    assert 0.0 <= yy <= 1.5 by { MulMono(y, y, 1.22, 1.22); }
    MulMono(d, yy, ULP, 1.5);
    assert x * yy == 2.0 * z * yy + d * yy;
  }

  /** Dividing by sqrt(2): the inverse root of twice the number, also when a lost bit is put back. */
  lemma InverseOfDouble(x: real, x2: real, y: real, s: real, r: real)
    requires 0.69 <= x <= 1.39 && 0.8 <= y <= 1.22 && InverseRootOf(x, y, 0.000092)
    requires 2.0 * x <= x2 <= 2.0 * x + ULP
    requires s == 759250125.0 * ULP && y * s - ULP < r <= y * s
    ensures InverseRootOf(x2, r, 0.000099)
    ensures 0.56 <= r
  {
    MulMono(y, y, 1.22, 1.22);
    HalvedSquare(y, s, r, y * y);
    DoubledSquares(x, x2, y * y, r * r);
    NotSmall(y, s);
  }

  lemma NotSmall(y: real, s: real)
    requires 0.8 <= y && 0.705 <= s
    ensures 0.564 <= y * s
  {
    MulMono(0.8, 0.705, y, s);
  }

  lemma DoubledSquares(x: real, x2: real, yy: real, rr: real)
    requires 0.69 <= x <= 1.39 && 2.0 * x <= x2 <= 2.0 * x + ULP
    requires 0.0 <= yy <= 1.5 && -(5.0 * ULP) <= rr - yy / 2.0 <= 5.0 * ULP
    requires -0.000092 <= x * yy - 1.0 <= 0.000092
    ensures -0.000099 <= x2 * rr - 1.0 <= 0.000099
  {
    DoubledProduct(x, x2, yy, rr);
  }

  lemma DoubledProduct(x: real, x2: real, yy: real, rr: real)
    requires 0.69 <= x <= 1.39 && 2.0 * x <= x2 <= 2.0 * x + ULP
    requires 0.0 <= yy <= 1.5 && -(5.0 * ULP) <= rr - yy / 2.0 <= 5.0 * ULP
    ensures -(15.0 * ULP) <= x2 * rr - x * yy <= 15.0 * ULP
  {
    var d, err := x2 - 2.0 * x, rr - yy / 2.0;
    var de, xe := d * yy, x2 * err;
    assert 0.0 <= de <= 1.5 * ULP by { MulMono(d, yy, ULP, 1.5); }
    assert -(14.0 * ULP) <= xe <= 14.0 * ULP by { MulBound(x2, err, 2.79, 5.0 * ULP); }
    var xy, xr := x * yy, x2 * rr;
    assert xr == xy + de / 2.0 + xe by { DoubleParts(x, x2, yy, rr); }
  }

  lemma DoubleParts(x: real, x2: real, yy: real, rr: real)
    ensures x2 * rr == x * yy + (x2 - 2.0 * x) * yy / 2.0 + x2 * (rr - yy / 2.0)
  {
    assert x2 * (rr - yy / 2.0) == x2 * rr - x2 * yy / 2.0;
    assert (x2 - 2.0 * x) * yy == x2 * yy - 2.0 * (x * yy);
  }

  lemma HalvedSquare(y: real, s: real, r: real, yy: real)
    requires 0.8 <= y <= 1.22 && yy == y * y
    requires s == 759250125.0 * ULP && y * s - ULP < r <= y * s
    ensures -(5.0 * ULP) <= r * r - yy / 2.0 <= 5.0 * ULP
  {
    var p, d, ss := y * s, y * s - r, s * s;
    assert 0.5 - 2.0 * ULP <= ss <= 0.5 + 2.0 * ULP;
    MulMono(y, y, 1.22, 1.22);
    MulBound(yy, ss - 0.5, 1.5, 2.0 * ULP);
    assert p * p == yy * ss;
    MulMono(p, d, 0.87, ULP);
    MulMono(d, d, ULP, ULP);
    assert r * r == p * p - 2.0 * (p * d) + d * d;
  }

  // ----- rounding errors: reciprocal -----

  /** The residual 1 - x y of the reciprocal is squared by each exact step y (2 - x y). */
  lemma ReciprocalSquares(x: real, y: real)
    ensures 1.0 - x * (y * (2.0 - x * y)) == (1.0 - x * y) * (1.0 - x * y)
  {
    var p := x * y;
    assert x * (y * (2.0 - p)) == p * (2.0 - p);
  }

  /** What is still missing from x y = 1. */
  ghost function Missing(x: real, y: real): real {
    1.0 - x * y
  }

  ghost predicate Reciprocating(x: real, y: real) {
    && 0.81 <= x <= 1.19
    && 0.7 <= y <= 1.24
    && -0.001 <= Missing(x, y) <= 0.1
  }

  /** ... and by each computed step up to 1.4 ulps. */
  lemma ReciprocalStep(x: real, y: real, m: real, y1: real)
    requires 0.6 <= x <= 1.39 && 0.0 <= y && 0.0 <= x * y <= 1.01
    requires x * y - ULP < m <= x * y
    requires y * (2.0 - m) - ULP < y1 <= y * (2.0 - m)
    ensures -(1.4 * ULP) <= 1.0 - x * y1 - (1.0 - x * y) * (1.0 - x * y) <= 1.4 * ULP
  {
    var p := x * y;
    var d, e := p - m, y * (2.0 - m) - y1;
    ReciprocalSquares(x, y);
    assert y * (2.0 - m) == y * (2.0 - p) + y * d;
    assert x * y1 == x * (y * (2.0 - p)) + p * d - x * e by {
      assert y1 == y * (2.0 - p) + y * d - e;
      assert x * y1 == x * (y * (2.0 - p)) + x * (y * d) - x * e;
      assert x * (y * d) == p * d;
    }
    MulMono(p, d, 1.01, ULP);
    MulMono(x, e, 1.39, ULP);
  }

  /** Range of an iterate from its residual. */
  lemma ReciprocalRange(x: real, y: real)
    requires 0.81 <= x <= 1.19 && -0.001 <= Missing(x, y) <= 0.1
    ensures Reciprocating(x, y)
  {
    if y < 0.7 {
      if 0.0 <= y {
        MulMono(x, y, 1.19, 0.7);
      } else {
        MulMono(0.0, 0.0, x, -y);
      }
    }
    if 1.24 < y {
      MulMono(0.81, 1.24, x, y);
    }
  }

  /** A computed step squares the bound on the residual and adds its rounding. */
  lemma ReciprocalStepBound(x: real, y: real, m: real, y1: real, b: real, b1: real)
    requires Reciprocating(x, y) && -b <= Missing(x, y) <= b
    requires b <= 0.1 && b * b + 1.4 * ULP <= b1
    requires x * y - ULP < m <= x * y
    requires y * (2.0 - m) - ULP < y1 <= y * (2.0 - m)
    ensures Reciprocating(x, y1) && -b1 <= Missing(x, y1) <= b1
  {
    var p := x * y;
    assert 0.0 <= p <= 1.01 by { MulMono(x, y, 1.19, 1.24); }
    var q, q1 := 1.0 - p, Missing(x, y1);
    var qq, bb := q * q, b * b;
    assert 0.0 <= qq <= bb by { SquareBelow(q, b); }
    assert qq <= 0.01 by { SquareBelow(q, 0.1); }
    assert -(1.4 * ULP) <= q1 - qq <= 1.4 * ULP by { ReciprocalStep(x, y, m, y1); }
    ReciprocalRange(x, y1);
  }

  lemma SquareBelow(r: real, m: real)
    requires -m <= r <= m
    ensures 0.0 <= r * r <= m * m
  {
    MulBound(r, r, m, m);
  }

  /** The post-scaling by the factor `s` that was put on the argument: `x1` is x s rounded. */
  lemma ReciprocalOfScaled(x: real, x1: real, s: real, y: real, y2: real)
    requires 0.69 <= x <= 1.39 && 0.7 <= y <= 1.24
    requires x * s - ULP < x1 <= x * s && y * s - ULP < y2 <= y * s
    ensures -(3.0 * ULP) <= x * y2 - x1 * y <= 3.0 * ULP
  {
    var d, e := x * s - x1, y * s - y2;
    var xe, dy := x * e, d * y;
    assert 0.0 <= xe <= 1.39 * ULP by { MulMono(x, e, 1.39, ULP); }
    assert 0.0 <= dy <= 1.24 * ULP by { MulMono(d, y, ULP, 1.24); }
    assert x * y2 - x1 * y == dy - xe by { ScaledDifference(x, x1, s, y, y2); }
  }

  lemma ScaledDifference(x: real, x1: real, s: real, y: real, y2: real)
    ensures x * y2 - x1 * y == (x * s - x1) * y - x * (y * s - y2)
  {
    assert (x * s - x1) * y == x * s * y - x1 * y;
    assert x * (y * s - y2) == x * (y * s) - x * y2;
    assert x * s * y == x * (y * s);
  }

  lemma MissingOfScaled(x: real, x1: real, s: real, y: real, y2: real, b: real)
    requires 0.69 <= x <= 1.39 && 0.7 <= y <= 1.24
    requires x * s - ULP < x1 <= x * s && y * s - ULP < y2 <= y * s
    requires -b <= Missing(x1, y) <= b
    ensures -(b + 3.0 * ULP) <= Missing(x, y2) <= b + 3.0 * ULP
  {
    ReciprocalOfScaled(x, x1, s, y, y2);
  }

  lemma SquareLess(p: real, q: real)
    requires 0.0 <= q && p * p <= q * q
    ensures p <= q
  {
    var d, s := p - q, p + q;
    assert d * s == p * p - q * q;
    if p > q {
      MulPositive(d, s);
    }
  }

  lemma MulPositive(x: real, y: real)
    requires 0.0 < x && 0.0 < y
    ensures 0.0 < x * y
  {
  }
}
