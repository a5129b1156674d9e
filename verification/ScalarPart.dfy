/** `inv_compute_scalar_part` of `ml_math_func.c`: the real part that makes a quaternion unit. */
module ScalarPart {
  import opened Machine
  import opened FixedPoint
  import NewtonRoots

  function SquareNorm(v: seq<int>): int
    requires |v| == 3
  {
    v[0] * v[0] + v[1] * v[1] + v[2] * v[2]
  }

  /** What is left for the square of the real part, as the code rounds it. */
  function Remainder(v: seq<int>): int
    requires |v| == 3
  {
    ONE - v[0] * v[0] / ONE - v[1] * v[1] / ONE - v[2] * v[2] / ONE
  }

  /** The four elements have unit length up to one part in ten thousand plus a few ulps. */
  ghost predicate UnitLength(s: int, v: seq<int>)
    requires |v| == 3
  {
    10000 * Abs(s * s + SquareNorm(v) - ONE * ONE) <= ONE * ONE + 200000 * ONE
  }

  lemma RootGivesUnitLength(s: int, v: seq<int>)
    requires |v| == 3 && 0 < Remainder(v) <= ONE && 0 <= s
    requires NewtonRoots.IsSqrt(Remainder(v), s, 8)
    ensures UnitLength(s, v)
  {
    var t := Remainder(v) * ONE;
    assert 0 <= t - (ONE * ONE - SquareNorm(v)) <= 3 * ONE;
    assert s - 8 <= ONE by {
      if s - 8 > ONE {
        NewtonRoots.IntMono(ONE + 1, s - 8);
      }
    }
    assert (s - 8) * (s - 8) == s * s - 16 * s + 64;
    assert (s + 8) * (s + 8) == s * s + 16 * s + 64;
  }

  /** The squares and the remainder are 32-bit numbers, so nothing is cut or wraps. */
  predicate NoOverflow(v: seq<int>)
    requires |v| == 3
  {
    v[0] * v[0] / ONE < TWO_31 && v[1] * v[1] / ONE < TWO_31 && v[2] * v[2] / ONE < TWO_31 && -TWO_31 <= Remainder(v)
  }

  /** `inv_compute_scalar_part`: the vector part is kept; without overflow, which elements up to one never
      cause, the real part is zero for a vector part of length one or more, and else completes it to unit
      length. */
  method ComputeScalarPart(inQuat: seq<int32>) returns (outQuat: seq<int32>)
    requires |inQuat| == 3
    ensures |outQuat| == 4 && outQuat[1..] == inQuat && 0 <= outQuat[0]
    ensures NoOverflow(inQuat) ==>
      if Remainder(inQuat) <= 0 then outQuat[0] == 0 else UnitLength(outQuat[0], inQuat)
    ensures (forall k :: 0 <= k < 3 ==> -ONE <= inQuat[k] <= ONE) ==> NoOverflow(inQuat)
  {
    hide S32, UnitLength, Q30Mult, Remainder, NoOverflow;
    var a, b, c := Q30Mult(inQuat[0], inQuat[0]), Q30Mult(inQuat[1], inQuat[1]), Q30Mult(inQuat[2], inQuat[2]);
    var scalarPart := NewtonRoots.FastSqrt(S32(S32(S32(ONE - a) - b) - c));
    if forall k :: 0 <= k < 3 ==> -ONE <= inQuat[k] <= ONE {
      SmallIsSafe(inQuat);
    }
    if NoOverflow(inQuat) {
      RemainderComputed(inQuat);
      if 0 < Remainder(inQuat) {
        RootGivesUnitLength(scalarPart, inQuat);
      }
    }
    outQuat := [scalarPart] + inQuat;
  }

  lemma RemainderComputed(v: seq<int32>)
    requires |v| == 3 && NoOverflow(v)
    ensures Remainder(v) <= ONE
    ensures
      S32(S32(S32(ONE - Q30Mult(v[0], v[0])) - Q30Mult(v[1], v[1])) - Q30Mult(v[2], v[2])) == Remainder(v)
  {
    hide S32, Q30Mult;
    var p, q, r := v[0] * v[0] / ONE, v[1] * v[1] / ONE, v[2] * v[2] / ONE;
    SquareFits(v[0]);
    SquareFits(v[1]);
    SquareFits(v[2]);
    Fits32(ONE - p);
    Fits32(ONE - p - q);
    Fits32(ONE - p - q - r);
  }

  lemma SmallIsSafe(v: seq<int32>)
    requires |v| == 3 && forall k :: 0 <= k < 3 ==> -ONE <= v[k] <= ONE
    ensures NoOverflow(v)
  {
    SmallSquare(v[0]);
    SmallSquare(v[1]);
    SmallSquare(v[2]);
  }

  lemma SmallSquare(q: int32)
    requires -ONE <= q <= ONE
    ensures 0 <= q * q / ONE <= ONE
  {
    NewtonRoots.IntMono(Abs(q), ONE);
    assert q * q == Abs(q) * Abs(q);
  }

  /** The cut to 32 bits keeps a square exactly if it is below 2, in Q30. */
  lemma SquareFits(q: int32)
    ensures 0 <= q * q / ONE && (Q30Mult(q, q) == q * q / ONE <==> q * q / ONE < TWO_31)
  {
    NewtonRoots.IntMono(0, Abs(q));
    assert q * q == Abs(q) * Abs(q);
    Fits32(q * q / ONE);
  }
}
