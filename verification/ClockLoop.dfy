/** The feedback loop of `inv_adjust_sensor_ts` (`inv_mpu_ring.c`) that tracks the true period of
    the motion processor's tick: one adjustment as a function, and what holds over every run. */
module ClockLoop {
  import opened Machine

  const MAX_DIFF := 0x7fff_ffff
  const MIN_ADJ := 50_000

  /** `dmp_interval` and `dmp_interval_accum`. */
  datatype Clock = Clock(interval: u32, accum: int32)

  function BitLength(n: nat): nat {
    if n == 0 then 0 else 1 + BitLength(n / 2)
  }

  /** `inv_get_shift2`: the longer the measurement, the smaller the shift. */
  function Shift(count: int32): int {
    if count == 1 then 13
    else if count > 2000 then 2
    else if count <= 0 then 13
    else 13 - BitLength(count)
  }

  method GetShift2(count: int32) returns (i: int)
    ensures i == Shift(count)
    ensures count <= 1 ==> i == 13
    ensures 2000 < count ==> i == 2
    ensures 1 < count <= 2000 ==> 2 <= i <= 11 && Pow2(12 - i) <= count < Pow2(13 - i)
  {
    ShiftByLength(count);
    if count == 1 {
      return 13;
    }
    if count > 2000 {
      return 2;
    }
    i := 13;
    var c: int := count;
    while c > 0
      invariant 0 < count ==> 0 <= c && i - BitLength(c) == 13 - BitLength(count)
      invariant count <= 0 ==> c == count && i == 13
    {
      c := c / 2;
      i := i - 1;
    }
  }

  /** A signed 64-bit value from the low 64 bits. */
  function S64(x: int): int {
    var m := x % TWO_64;
    if m < TWO_64 / 2 then m else m - TWO_64
  }

  /** The 31-bit limit on the measured difference. */
  function Clamp(diff: int): int {
    Max(-MAX_DIFF, Min(MAX_DIFF, diff))
  }

  /** An error per tick, shifted down (`k` is the power of two) and limited. */
  function Correction(rate: int, k: int): int
    requires k > 0
  {
    var d := Min(Abs(rate) / k, MIN_ADJ);
    if rate < 0 then -d else d
  }

  /** The correction of one adjustment, from the elapsed time and the ticks counted in it. */
  function Delta(interval: u32, elapsed: u64, ticks: u32): int {
    var count := if S32(ticks) == 0 then 1 else S32(ticks);
    Correction(Quotient(Clamp(S64(elapsed - interval * count)), count), Pow2(ShiftNat(count)))
  }

  function ShiftNat(count: int32): nat {
    if Shift(count) < 0 then 0 else Shift(count)
  }

  /** The same, step by step as the source computes it. */
  method MeasureDelta(interval: u32, elapsed: u64, ticks: u32) returns (delta: int)
    ensures delta == Delta(interval, elapsed, ticks)
  {
    hide S64, S32, TruncDiv, Pow2, BitLength;
    var totalCount := S32(ticks);
    if totalCount == 0 {
      totalCount := 1;
    }
    var diff := S64(elapsed - interval * totalCount);
    if diff > MAX_DIFF {
      diff := MAX_DIFF;
    }
    if diff < -MAX_DIFF {
      diff := -MAX_DIFF;
    }
    var rateAdj := Quotient(diff, totalCount);
    var shift := GetShift2(totalCount);
    ShiftNotNegative(totalCount);
    delta := Min(Abs(rateAdj) / Pow2(shift), MIN_ADJ);
    if rateAdj < 0 {
      delta := -delta;
    }
  }

  lemma ShiftNotNegative(count: int32)
    ensures 0 <= Shift(count) <= 13
  {
    if 1 < count <= 2000 {
      ShiftOfMiddle(count);
    }
  }

  /** No tick counts as one. */
  lemma NoTicksCountAsOne(interval: u32, elapsed: u64)
    ensures Delta(interval, elapsed, 0) == Delta(interval, elapsed, 1)
  {
  }

  /** No correction moves the clock by more than 2^31 nanoseconds over the ticks it was measured in, however many
      they are. */
  lemma ClampLimits(interval: u32, elapsed: u64, ticks: u32)
    ensures Abs(Delta(interval, elapsed, ticks)) * Abs(S32(ticks)) <= 0x7fff_ffff
  {
    hide S64, S32, TruncDiv, Pow2, ShiftNat;
    var count := if S32(ticks) == 0 then 1 else S32(ticks);
    var diff := Clamp(S64(elapsed - interval * count));
    var rate, k := Quotient(diff, count), Pow2(ShiftNat(count));
    QuotientSize(diff, count);
    var a: nat := Abs(rate);
    QuotientBounds(a, k);
    var d := Abs(Delta(interval, elapsed, ticks));
    assert d <= a / k <= a;
    MulLe(d, a, Abs(count));
  }

  lemma QuotientSize(x: int, y: int)
    requires y != 0
    ensures Abs(Quotient(x, y)) * Abs(y) <= Abs(x)
  {
    var a: nat := Abs(x);
    QuotientBounds(a, Abs(y));
    QuotientIs(0, Abs(y), 0);
  }

  function Adjusted(c: Clock, elapsed: u64, ticks: u32): Clock {
    var accum := S32(c.accum / 2 + Delta(c.interval, elapsed, ticks));
    Clock(U32(c.interval + accum), accum)
  }

  // ----- the shift -----

  lemma {:induction false} BitLengthBounds(n: nat)
    requires n > 0
    ensures BitLength(n) >= 1
    ensures Pow2(BitLength(n) - 1) <= n < Pow2(BitLength(n))
  {
    if n > 1 {
      BitLengthBounds(n / 2);
    }
  }

  /** The shift undoes the length of the measurement: their product stays small. */
  lemma ShiftTimesCount(count: int32)
    requires 1 <= count <= 10_000
    ensures 2 <= Shift(count) <= 13
    ensures Pow2(ShiftNat(count)) * count <= 40_000
  {
    if 1 < count <= 2000 {
      ShiftOfMiddle(count);
    } else {
      assert Pow2(2) == 4 && Pow2(13) == 8192;
    }
  }

  lemma ShiftOfMiddle(count: int)
    requires 1 < count <= 2000
    ensures 2 <= BitLength(count) <= 11
    ensures Pow2(13 - BitLength(count)) * count <= 40_000
  {
    var b := BitLength(count);
    BitLengthBounds(count);
    BitLengthAtMost(count, 11);
    PowersOfThirteen(b, count);
  }

  /** Between 2 and 2000 ticks the shift is thirteen less the number of their bits. */
  lemma ShiftByLength(count: int32)
    ensures count <= 1 ==> Shift(count) == 13
    ensures 2000 < count ==> Shift(count) == 2
    ensures 1 < count <= 2000 ==>
      var i := Shift(count);
      2 <= i <= 11 && Pow2(12 - i) <= count < Pow2(13 - i)
  {
    if 1 < count <= 2000 {
      BitLengthBounds(count);
      ShiftOfMiddle(count);
    }
  }

  lemma PowersOfThirteen(b: nat, count: int)
    requires b <= 13 && 0 <= count < Pow2(b)
    ensures Pow2(13 - b) * count <= 8192
  {
    Pow2Add(13 - b, b);
    assert Pow2(13) == 8192;
    MulLe(count, Pow2(b), Pow2(13 - b));
  }

  lemma {:induction false} BitLengthAtMost(n: nat, k: nat)
    requires n < Pow2(k)
    ensures BitLength(n) <= k
  {
    if n > 0 {
      BitLengthAtMost(n / 2, k - 1);
    }
  }

  // ----- one adjustment against the true period -----

  /** With a true period `p` the correction opposes the error interval - p with a strength of
      its size / 2^shift, limited. The 31-bit clamp of the measured difference is never visible. */
  lemma DeltaOpposesError(interval: u32, p: u32, ticks: u32, elapsed: u64)
    requires 1 <= ticks <= 10_000 && elapsed == U64(p * ticks)
    ensures Delta(interval, elapsed, ticks) == Correction(p - interval, Pow2(ShiftNat(ticks)))
  {
    hide S64, Clamp, TruncDiv, Correction, Pow2, ShiftNat, U64;
    var k, d := Pow2(ShiftNat(ticks)), S64(elapsed - interval * ticks);
    assert Delta(interval, elapsed, ticks) == Correction(TruncDiv(Clamp(d), ticks), k);
    TrueDifference(interval, p, ticks);
    ShiftTimesCount(ticks);
    ClampInvisible(p - interval, ticks, k);
  }

  /** The 64-bit subtraction of the source does not wrap. */
  lemma TrueDifference(interval: u32, p: u32, ticks: u32)
    requires 1 <= ticks <= 10_000
    ensures S64(U64(p * ticks) - interval * ticks) == (p - interval) * ticks
  {
    SmallProduct(p, ticks);
    SmallProduct(p - interval, ticks);
    assert p * ticks - interval * ticks == (p - interval) * ticks;
  }

  lemma SmallProduct(w: int, ticks: int)
    requires -TWO_32 <= w <= TWO_32 && 0 <= ticks <= 10_000
    ensures -(TWO_32 * 10_000) <= w * ticks <= TWO_32 * 10_000
    ensures 0 <= w ==> 0 <= w * ticks
  {
    MulLe(w, TWO_32, ticks);
    MulLe(-TWO_32, w, ticks);
    MulLe(ticks, 10_000, TWO_32);
  }

  lemma ClampInvisible(w: int, n: int, k: int)
    requires n > 0 && k > 0 && k * n <= 40_000
    ensures Correction(TruncDiv(Clamp(w * n), n), k) == Correction(w, k)
  {
    hide TruncDiv, Clamp, Correction;
    var a: int := Abs(w);
    MulLe(0, a, n);
    ClampInvisibleSize(a, n, k);
    if w < 0 {
      assert w * n == -(a * n);
      NegativeCorrection(a * n, n, k);
      NegativeSize(a, k);
    } else {
      PositiveCorrection(a * n, n, k);
      PositiveSize(a, k);
    }
  }

  lemma PositiveCorrection(v: int, n: int, k: int)
    requires 0 <= v && n > 0 && k > 0
    ensures Correction(TruncDiv(Clamp(v), n), k) == Min((Min(v, MAX_DIFF) / n) / k, MIN_ADJ)
  {
    QuotientBounds(Min(v, MAX_DIFF), n);
  }

  lemma NegativeCorrection(v: int, n: int, k: int)
    requires 0 <= v && n > 0 && k > 0
    ensures Correction(TruncDiv(Clamp(-v), n), k) == -Min((Min(v, MAX_DIFF) / n) / k, MIN_ADJ)
  {
    QuotientBounds(Min(v, MAX_DIFF), n);
    QuotientIs(0, n, 0);
    QuotientIs(0, k, 0);
  }

  lemma PositiveSize(a: int, k: int)
    requires 0 <= a && k > 0
    ensures Correction(a, k) == Min(a / k, MIN_ADJ)
  {
  }

  lemma NegativeSize(a: int, k: int)
    requires 0 <= a && k > 0
    ensures Correction(-a, k) == -Min(a / k, MIN_ADJ)
  {
    QuotientIs(0, k, 0);
  }

  /** Either the difference is not clamped, and its rate is the error itself, or the clamped and the
      true rate are both past the limit. */
  lemma ClampInvisibleSize(a: nat, n: int, k: int)
    requires n > 0 && k > 0 && k * n <= 40_000
    ensures Min((Min(a * n, MAX_DIFF) / n) / k, MIN_ADJ) == Min(a / k, MIN_ADJ)
  {
    if a * n <= MAX_DIFF {
      QuotientIs(a * n, n, a);
    } else {
      Saturated(a, n, k);
    }
  }

  lemma Saturated(a: nat, n: int, k: int)
    requires n > 0 && k > 0 && k * n <= 40_000 && a * n > MAX_DIFF
    ensures a / k >= MIN_ADJ
    ensures (MAX_DIFF / n) / k >= MIN_ADJ
  {
    var m := MIN_ADJ * k;
    assert m * n == MIN_ADJ * (k * n);
    AtMostQuotient(m, n, MAX_DIFF);
    AtMostQuotient(MIN_ADJ, k, MAX_DIFF / n);
    CancelLess(m, a, n);
    AtMostQuotient(MIN_ADJ, k, a);
  }

  // ----- runs -----

  /** The error of the tracked period and the momentum, on mathematical integers. */
  function NextError(e: int, a: int, k: int): (int, int)
    requires k > 0
  {
    var a' := a / 2 + Correction(-e, k);
    (e + a', a')
  }

  /** The momentum is at most half of the bound. Momentum away from zero error is at most three
      eighths of the bound, less half the distance already gone: it came from a quarter of the error on
      the other side. (Halving rounds down, so a momentum of -1 never dies out by itself.) */
  ghost predicate Inside(e: int, a: int, bound: int) {
    && -bound <= e <= bound
    && -2 * (bound / 4) <= a <= 2 * (bound / 4)
    && (a >= 1 ==> e + 2 * a <= 3 * (bound / 4))
    && (a <= -2 ==> -3 * (bound / 4) <= e + 2 * a)
  }

  /** The correction is at most a quarter of the error, and not zero once the error reaches `k`. */
  lemma CorrectionBound(r: int, k: int)
    requires k >= 4
    ensures -MIN_ADJ <= Correction(r, k) <= MIN_ADJ
    ensures r >= 0 ==> 0 <= 4 * Correction(r, k) <= r
    ensures r <= 0 ==> r <= 4 * Correction(r, k) <= 0
    ensures r >= k ==> Correction(r, k) >= 1
    ensures r <= -k ==> Correction(r, k) <= -1
  {
    var a := Abs(r);
    var q := a / k;
    assert k * q <= a;
    MulLe(4, k, q);
    if a >= k {
      AtMostQuotient(1, k, a);
    }
  }

  lemma InsideStep(e: int, a: int, k: int, bound: int)
    requires 4 <= k <= bound && Inside(e, a, bound)
    ensures Inside(NextError(e, a, k).0, NextError(e, a, k).1, bound)
  {
    CorrectionBound(-e, k);
    InsideAfter(e, a, Correction(-e, k), bound);
  }

  /** The same for any correction that opposes the error with at most a quarter of it. */
  lemma InsideAfter(e: int, a: int, c: int, bound: int)
    requires 4 <= bound && Inside(e, a, bound)
    requires if e <= 0 then 0 <= 4 * c <= -e else 4 * c <= 0 && -e <= 4 * c
    requires (e == bound ==> c <= -1) && (e == -bound ==> c >= 1)
    ensures Inside(e + a / 2 + c, a / 2 + c, bound)
  {
    if e <= 0 {
      AfterBelow(e, a, a / 2, c, bound, bound / 4);
    } else {
      AfterAbove(e, a, a / 2, c, bound, bound / 4);
    }
  }

  lemma AfterBelow(e: int, a: int, h: int, c: int, b: int, q: int)
    requires -b <= e <= 0 && -2 * q <= a <= 2 * q && 4 * q <= b && 2 * h <= a <= 2 * h + 1
    requires a <= -2 ==> -3 * q <= e + 2 * a
    requires 0 <= 4 * c <= -e && c <= q && (e == -b ==> c >= 1)
    ensures -b <= e + h + c <= b && -2 * q <= h + c <= 2 * q
    ensures h + c >= 1 ==> e + 3 * (h + c) <= 3 * q
    ensures h + c <= -2 ==> -3 * q <= e + 3 * (h + c)
  {
  }

  lemma AfterAbove(e: int, a: int, h: int, c: int, b: int, q: int)
    requires 0 < e <= b && -2 * q <= a <= 2 * q && 4 * q <= b && 2 * h <= a <= 2 * h + 1
    requires a >= 1 ==> e + 2 * a <= 3 * q
    requires -e <= 4 * c <= 0 && -q <= c
    ensures -b <= e + h + c <= b && -2 * q <= h + c <= 2 * q
    ensures h + c >= 1 ==> e + 3 * (h + c) <= 3 * q
    ensures h + c <= -2 ==> -3 * q <= e + 3 * (h + c)
  {
  }

  /** One adjustment that sees the true period. */
  function AdjustedAt(c: Clock, p: u32, t: u32): Clock {
    Adjusted(c, U64(p * t), t)
  }

  /** Adjustments with a constant true period `p`: only the tick counts vary. */
  function Run(c: Clock, p: u32, ticks: seq<u32>): Clock
    decreases |ticks|
  {
    if ticks == [] then c else Run(AdjustedAt(c, p, ticks[0]), p, ticks[1..])
  }

  ghost predicate Measurement(t: u32, largest: int) {
    1 <= t <= 10_000 && Pow2(ShiftNat(t)) <= largest
  }

  ghost predicate Within(c: Clock, p: u32, bound: int) {
    Inside(c.interval - p, c.accum, bound) && -2 * MIN_ADJ <= c.accum <= 2 * MIN_ADJ
  }

  /** The bound fits in 32 bits on both sides of the period. */
  predicate Fits(p: u32, bound: int) {
    bound <= p < TWO_32 - bound
  }

  /** The 32-bit code follows the recurrence on integers as long as the error fits in 32 bits. */
  lemma AdjustedFollows(c: Clock, p: u32, t: u32, largest: int, bound: int)
    requires Measurement(t, largest) && largest <= bound && Fits(p, bound) && Within(c, p, bound)
    ensures var (e, a) := NextError(c.interval - p, c.accum, Pow2(ShiftNat(t)));
            var c' := AdjustedAt(c, p, t);
            && (c'.interval - p, c'.accum) == (e, a)
            && -2 * MIN_ADJ <= a <= 2 * MIN_ADJ && Inside(e, a, bound)
  {
    hide Delta, Adjusted, Inside;
    var k, elapsed := Pow2(ShiftNat(t)), U64(p * t);
    DeltaOpposesError(c.interval, p, t, elapsed);
    MeasurementShift(t, largest);
    InsideStep(c.interval - p, c.accum, k, bound);
    CorrectionBound(p - c.interval, k);
    InsideBounds(NextError(c.interval - p, c.accum, k).0, NextError(c.interval - p, c.accum, k).1, bound);
    WithoutWrap(c, p, t, elapsed, k, bound);
  }

  lemma InsideBounds(e: int, a: int, bound: int)
    requires Inside(e, a, bound)
    ensures -bound <= e <= bound
  {
  }

  lemma WithoutWrap(c: Clock, p: u32, t: u32, elapsed: u64, k: int, bound: int)
    requires k >= 4 && Fits(p, bound)
    requires Delta(c.interval, elapsed, t) == Correction(p - c.interval, k)
    requires -2 * MIN_ADJ <= c.accum <= 2 * MIN_ADJ
    requires -bound <= NextError(c.interval - p, c.accum, k).0 <= bound
    ensures var c' := Adjusted(c, elapsed, t);
            (c'.interval - p, c'.accum) == NextError(c.interval - p, c.accum, k)
  {
    hide Delta, Correction, S32, U32;
    CorrectionBound(p - c.interval, k);
    var accum := c.accum / 2 + Correction(p - c.interval, k);
    Fits32(accum);
    Fits32(c.interval + accum);
  }

  lemma MeasurementShift(t: u32, largest: int)
    requires Measurement(t, largest)
    ensures 1 <= t <= 10_000 && 4 <= Pow2(ShiftNat(t)) <= largest
  {
    ShiftTimesCount(t);
    Pow2Monotone(2, ShiftNat(t));
  }

  /** Every reachable state of every run stays within any bound that is at least the largest shift's
      power of two, whatever the mixture of shifts. */
  lemma {:induction false} StaysWithin(c: Clock, p: u32, ticks: seq<u32>, largest: int, bound: int)
    requires forall t :: t in ticks ==> Measurement(t, largest)
    requires largest <= bound && Fits(p, bound) && Within(c, p, bound)
    ensures Within(Run(c, p, ticks), p, bound)
    decreases |ticks|
  {
    hide AdjustedAt, Measurement, NextError, Inside;
    if ticks != [] {
      var t := ticks[0];
      assert t in ticks;
      AdjustedFollows(c, p, t, largest, bound);
      StaysWithin(AdjustedAt(c, p, t), p, ticks[1..], largest, bound);
    }
  }

  /** From zero momentum the tracking error never exceeds the initial error or the largest shift's power
      of two, whichever is larger, on any run. */
  lemma TrackingErrorBounded(c: Clock, p: u32, ticks: seq<u32>, largest: int)
    requires forall t :: t in ticks ==> Measurement(t, largest)
    requires c.accum == 0 && 4 <= largest && Fits(p, Max(Abs(c.interval - p), largest))
    ensures var bound := Max(Abs(c.interval - p), largest);
            && Abs(Run(c, p, ticks).interval - p) <= bound
            && 2 * Abs(Run(c, p, ticks).accum) <= bound
            && Abs(Run(c, p, ticks).accum) <= 2 * MIN_ADJ
  {
    StaysWithin(c, p, ticks, largest, Max(Abs(c.interval - p), largest));
  }
}
