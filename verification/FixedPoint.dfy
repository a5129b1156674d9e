/** Q30 fixed point (`ml_math_func.c`): 2^30 stands for 1.0. */
module FixedPoint {
  import opened Machine

  const ONE := 0x4000_0000
  const ULP: real := 1.0 / 1073741824.0

  /** `inv_q30_mult`: the 64-bit product shifted right by 30 (so rounded down), cut to 32 bits. */
  function Q30Mult(a: int32, b: int32): int32 {
    S32(a * b / ONE)
  }

  /** The real number a fixed-point integer stands for. */
  function Val(n: int): real {
    n as real / 1073741824.0
  }

  function AbsR(x: real): real { if x < 0.0 then -x else x }

  /** The multiplication is exact up to one unit in the last place, rounding down, whenever the
      product is representable; the cut to 32 bits then loses nothing. */
  lemma Q30MultVal(a: int32, b: int32)
    requires -2.0 <= Val(a) * Val(b) < 2.0
    ensures Val(a) * Val(b) - ULP < Val(Q30Mult(a, b)) <= Val(a) * Val(b)
  {
    hide S32;
    var p := a * b;
    ProductVal(a, b);
    ShiftedVal(p);
    Fits32(p / ONE);
  }

  lemma ProductVal(a: int, b: int)
    ensures Val(a) * Val(b) == ((a * b) as real) / 1073741824.0 / 1073741824.0
  {
    DivProduct(a as real, b as real);
    assert (a * b) as real == (a as real) * (b as real);
  }

  /** Shifting right by 30 rounds down, by less than one unit. */
  lemma ShiftedVal(p: int)
    ensures
      var v := (p as real) / 1073741824.0 / 1073741824.0;
      && v - ULP < Val(p / ONE) <= v
      && (-2.0 <= v < 2.0 ==> -TWO_31 <= p / ONE < TWO_31)
  {
    var m := p / ONE;
    assert p == ONE * m + p % ONE;
    assert p as real == 1073741824.0 * (m as real) + ((p % ONE) as real);
  }

  /** `inv_q30_mult` as the Newton-Raphson routines call it: the caller shows that the product is
      representable, and gets it rounded down. */
  method Multiply(a: int32, b: int32) returns (r: int32)
    requires -2.0 <= Val(a) * Val(b) < 2.0
    ensures Val(a) * Val(b) - ULP < Val(r) <= Val(a) * Val(b)
  {
    Q30MultVal(a, b);
    r := Q30Mult(a, b);
  }

  lemma DivProduct(x: real, y: real)
    ensures (x / 1073741824.0) * (y / 1073741824.0) == x * y / 1073741824.0 / 1073741824.0
  {
  }

  /** Arithmetic shift right by one. */
  lemma HalfVal(n: int)
    ensures Val(n) / 2.0 - ULP / 2.0 <= Val(n / 2) <= Val(n) / 2.0
  {
    assert n == 2 * (n / 2) + n % 2;
  }

  lemma MulBound(x: real, y: real, m: real, n: real)
    requires -m <= x <= m && -n <= y <= n
    ensures -(m * n) <= x * y <= m * n
  {
    var ax, ay := AbsR(x), AbsR(y);
    assert ax * ay <= m * ay <= m * n;
    assert AbsR(x * y) == ax * ay;
  }

  lemma MulMono(x: real, y: real, m: real, n: real)
    requires 0.0 <= x <= m && 0.0 <= y <= n
    ensures 0.0 <= x * y <= m * n
  {
    assert x * y <= m * y <= m * n;
  }

  /** A product of bounded numbers is representable. */
  lemma Representable(a: int, b: int, m: real, n: real)
    requires -m <= Val(a) <= m && -n <= Val(b) <= n && m * n < 2.0
    ensures -(m * n) <= Val(a) * Val(b) <= m * n
  {
    MulBound(Val(a), Val(b), m, n);
  }

  lemma RepresentablePositive(a: int, b: int, l: real, m: real, k: real, n: real)
    requires 0.0 <= l <= Val(a) <= m && 0.0 <= k <= Val(b) <= n && m * n < 2.0
    ensures l * k <= Val(a) * Val(b) <= m * n
  {
    MulMono(l, k, Val(a), Val(b));
    MulMono(Val(a), Val(b), m, n);
  }

  /** A product of bounded numbers, as a call. */
  method MultiplyBounded(a: int32, b: int32, ghost m: real, ghost n: real) returns (r: int32)
    requires -m <= Val(a) <= m && -n <= Val(b) <= n && m * n < 2.0
    ensures Val(a) * Val(b) - ULP < Val(r) <= Val(a) * Val(b)
    ensures -(m * n) - ULP < Val(r) <= m * n
  {
    Representable(a, b, m, n);
    r := Multiply(a, b);
  }
}
