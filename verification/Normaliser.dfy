/** The bit scan and the power-of-two normaliser in front of every Newton-Raphson routine of
    `ml_math_func.c`. */
module Normaliser {
  import opened Machine
  import opened FixedPoint

  // log(2), log(4), 0.9, 1.1, 0.99 and 1.01 in Q30
  const LOWER_LIMIT := 744261118
  const UPPER_LIMIT := 1488522236
  const ONE_ITER_LOW := 966367642
  const ONE_ITER_HIGH := 1181116006
  const ZERO_ITER_LOW := 1063004406
  const ZERO_ITER_HIGH := 1084479242

  /** `x` is `x0` brought into [log 2, log 4] by `pow` doublings; `pow` = -1 is one halving, the
      only case in which a bit can be lost. */
  ghost predicate Normalised(x0: int, x: int, pow: int) {
    && LOWER_LIMIT <= x <= UPPER_LIMIT
    && -1 <= pow <= 30
    && (pow >= 0 ==> At(x0, x, pow))
    && (pow == -1 ==> x == x0 / 2)
    && (pow == -1 <==> UPPER_LIMIT < x0)
    && (pow > 0 ==> x0 < LOWER_LIMIT)
  }

  /** How many iterations a normalised number needs, by its distance from 1. */
  ghost predicate IterationsFor(x: int, n: int) {
    && 1 <= n <= 3
    && (n == 1 <==> ZERO_ITER_LOW <= x <= ZERO_ITER_HIGH)
    && (n <= 2 <==> ONE_ITER_LOW <= x <= ONE_ITER_HIGH)
  }

  ghost predicate At(value: int, scaled: int, position: nat) {
    scaled == value * Pow2(position)
  }

  lemma Shift(value: int, scaled: int, position: nat, k: nat, factor: int)
    requires At(value, scaled, position) && factor == Pow2(k)
    ensures At(value, scaled * factor, position + k)
  {
    Pow2Add(position, k);
    var p := Pow2(position);
    assert value * p * factor == value * (p * factor);
  }

  lemma Pow2Of16()
    ensures Pow2(16) == 0x1_0000
  {
    Pow2Add(8, 8);
  }

  lemma Unshift(value: int, scaled: int, position: nat)
    requires At(value, scaled, position + 1)
    ensures At(value, scaled / 2, position)
    ensures scaled % 2 == 0
  {
    assert Pow2(position + 1) == 2 * Pow2(position);
    assert scaled == 2 * (value * Pow2(position));
  }

  /** One step of the bit scan: when the number is below `limit` its top `k` bits are clear, so it
      can be shifted left by `k` and nothing is lost. */
  method ShiftWhenClear(ghost value: u32, scaled: u32, position: nat, limit: int, k: nat, factor: int)
    returns (scaled': u32, position': nat)
    requires At(value, scaled, position)
    requires factor == Pow2(k) && limit * factor == TWO_32
    ensures At(value, scaled', position')
    ensures scaled < limit ==> scaled' == scaled * factor && position' == position + k
    ensures limit <= scaled ==> scaled' == scaled && position' == position
  {
    hide At, U32, Pow2;
    scaled', position' := scaled, position;
    if scaled < limit {
      Shift(value, scaled, position, k, factor);
      Below(scaled, limit, factor);
      position' := position + k;
      scaled' := U32(scaled * factor);
    }
  }

  lemma Below(x: nat, limit: int, factor: int)
    requires x < limit && 0 < factor && limit * factor == TWO_32
    ensures 0 <= x * factor < TWO_32 && U32(x * factor) == x * factor
  {
    MulLe(0, x, factor);
    MulLe(x + 1, limit, factor);
    assert (x + 1) * factor == x * factor + factor;
  }

  /** `get_highest_bit_position`: binary search for the leading one. The masks of the source test
      that the high bits are clear, which is a comparison with a power of two. */
  method GetHighestBitPosition(value: u32) returns (scaled: u32, position: int)
    ensures value == 0 ==> scaled == 0 && position == 0
    ensures 0 < value < TWO_31 ==>
              0 <= position <= 30 && At(value, scaled, position) && ONE <= scaled < TWO_31
    ensures TWO_31 <= value ==> position == -1 && scaled == value / 2
  {
    if value == 0 {
      return 0, 0;
    }
    assert Pow2(16) == 0x1_0000 by { Pow2Of16(); }
    scaled, position := ShiftWhenClear(value, value, 0, 0x1_0000, 16, 0x1_0000);
    scaled, position := ShiftWhenClear(value, scaled, position, 0x100_0000, 8, 0x100);
    scaled, position := ShiftWhenClear(value, scaled, position, 0x1000_0000, 4, 16);
    scaled, position := ShiftWhenClear(value, scaled, position, ONE, 2, 4);
    // too far, into the sign bit: one step back
    if scaled >= TWO_31 {
      ghost var full := scaled;
      position := position - 1;
      scaled := scaled / 2;
      if position >= 0 {
        Unshift(value, full, position);
      }
    }
  }

  /** `test_limits_and_scale`: after it the number lies in [log 2, log 4], the power of two says
      exactly how it got there, and the iteration count matches the region. */
  method TestLimitsAndScale(x0: int32) returns (x: int32, pow: int, iterations: int)
    requires x0 > 0
    ensures Normalised(x0, x, pow)
    ensures IterationsFor(x, iterations)
  {
    x := x0;
    if x > UPPER_LIMIT {
      x := x / 2;
      pow := -1;
    } else if x < LOWER_LIMIT {
      x, pow := GetHighestBitPosition(x);
      if x >= UPPER_LIMIT {
        assert pow > 0 by { assert At(x0, x0, 0); }
        Unshift(x0, x, pow - 1);
        x := x / 2;
        pow := pow - 1;
      } else if x < LOWER_LIMIT {
        // the scan never leaves a number this small
        assert false;
        x := S32(x * 2);
        pow := pow + 1;
      }
    } else {
      pow := 0;
    }
    if x < ONE_ITER_LOW || x > ONE_ITER_HIGH {
      return x, pow, 3;
    }
    if x < ZERO_ITER_LOW || x > ZERO_ITER_HIGH {
      return x, pow, 2;
    }
    return x, pow, 1;
  }
}
