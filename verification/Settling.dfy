/** How fast the clock loop of `inv_adjust_sensor_ts` (`inv_mpu_ring.c`) settles. */
module Settling {
  import opened Machine
  import opened ClockLoop

  // ----- one level: from a bound to three quarters of it -----

  /** On the way from one bound to the next one, `b`: far outside it, with at most `m` steps of `r` left;
      the same with a momentum of -1 against the way; inside with the momentum still falling towards what
      the corrections allow; or past zero with the momentum dying out. */
  datatype Phase = Far(m: nat) | Turning(m: nat) | Near(j: nat) | Crossed(i: nat)

  function StepsLeft(ph: Phase): nat {
    match ph
    case Far(m) => m + 36
    case Turning(m) => m + 37
    case Near(j) => j + 19
    case Crossed(i) => i + 1
  }

  ghost predicate At(ph: Phase, e: int, a: int, b: int, r: int) {
    match ph
    case Far(m) => (a <= 0 && b - 4 < e <= b - 4 + m * r) || (0 <= a && b - 4 < -e <= b - 4 + m * r)
    case Turning(m) => a == -1 && b - 4 < -e <= b - 4 + m * r
    case Near(j) =>
      j <= 17 && ((0 <= e <= b - 4 && -2 * (b / 4 - 1) - Pow2(j) <= a <= -2)
                  || (0 <= -e <= b - 4 && 2 <= a <= 2 * (b / 4 - 1) + Pow2(j)))
    case Crossed(i) => i <= 17 && ((e < 0 && 0 - Pow2(i) <= a <= -2) || (0 < e && 1 <= a <= Pow2(i)))
  }

  /** The corrections: against the error, at most a quarter of it, and at least `r` outside the bound. */
  ghost predicate Pulls(e: int, c: int, b: int, r: int) {
    && (if e <= 0 then 0 <= 4 * c <= -e else -e <= 4 * c <= 0)
    && (b - 4 < e && (b < e || 1 < r) ==> c <= -r)
    && (b - 4 < -e && (b < -e || 1 < r) ==> r <= c)
  }

  predicate Level(bound: int, b: int) {
    16 <= b <= bound && 3 * (bound / 4) + 4 <= b
  }

  predicate Slow(a: int) {
    -2 * MIN_ADJ <= a <= 2 * MIN_ADJ
  }

  lemma SlowBits(a: int)
    ensures Slow(a) ==> 0 - Pow2(17) <= a <= Pow2(17)
  {
    Pow2Add(10, 7);
    assert Pow2(10) == 1024 && Pow2(7) == 128;
  }

  /** Far outside every step goes `r` towards the bound. */
  lemma FarStep(e: int, a: int, c: int, bound: int, b: int, r: int, y: int)
    requires Level(bound, b) && 1 <= r && Pulls(e, c, b, r) && Inside(e, a, bound) && !Inside(e, a, b)
    requires (a <= 0 && b - 4 < e <= b - 4 + y) || (0 <= a && b - 4 < -e <= b - 4 + y)
    ensures b - 4 < e ==> a / 2 + c <= -1 && e + a / 2 + c <= b - 4 + y - r
    ensures b - 4 < -e ==> 1 <= a / 2 + c && -(e + a / 2 + c) <= b - 4 + y - r
    ensures 0 < y
  {
  }

  lemma TurningStep(e: int, c: int, bound: int, b: int, r: int)
    requires Level(bound, b) && 1 <= r && Pulls(e, c, b, r) && Inside(e, -1, bound) && !Inside(e, -1, b)
    requires b - 4 < -e
    ensures -1 / 2 + c >= 0
  {
  }

  /** Inside the momentum falls to what the corrections allow, or the error passes zero. */
  lemma NearStep(e: int, a: int, c: int, b: int, r: int, x: int, half: int)
    requires 16 <= b && Pulls(e, c, b, r) && !Inside(e, a, b)
    requires x == 2 * half || (x == 1 && half == 0)
    requires 0 <= e <= b - 4 && -2 * (b / 4 - 1) - x <= a <= -2
    ensures
      var a' := a / 2 + c;
      var e' := e + a';
      && a' <= -1 && e' <= b - 4
      && (x == 2 * half ==> -2 * (b / 4 - 1) - half <= a')
      && (x == 1 ==> e' < 0)
  {
    Sinks(e, a, a / 2, c, b, b / 4, x, half);
  }

  lemma Sinks(e: int, a: int, h: int, c: int, b: int, q: int, x: int, half: int)
    requires 4 <= q && 4 * q <= b <= 4 * q + 3 && 2 * h <= a <= 2 * h + 1
    requires a < -2 * q || e + 2 * a < -3 * q
    requires x == 2 * half || (x == 1 && half == 0)
    requires 0 <= e <= b - 4 && -2 * (q - 1) - x <= a <= -2 && -e <= 4 * c <= 0
    ensures h + c <= -1 && e + h + c <= b - 4
    ensures x == 2 * half ==> -2 * (q - 1) - half <= h + c
    ensures x == 1 ==> e + h + c < 0
  {
  }

  lemma NearStepUp(e: int, a: int, c: int, b: int, r: int, x: int, half: int)
    requires 16 <= b && Pulls(e, c, b, r) && !Inside(e, a, b)
    requires x == 2 * half || (x == 1 && half == 0)
    requires 0 <= -e <= b - 4 && 2 <= a <= 2 * (b / 4 - 1) + x
    ensures
      var a' := a / 2 + c;
      var e' := e + a';
      && 1 <= a' && -(b - 4) <= e'
      && (x == 2 * half ==> a' <= 2 * (b / 4 - 1) + half)
      && (x == 1 ==> 0 < e')
  {
    Climbs(e, a, a / 2, c, b, b / 4, x, half);
  }

  lemma Climbs(e: int, a: int, h: int, c: int, b: int, q: int, x: int, half: int)
    requires 4 <= q && 4 * q <= b <= 4 * q + 3 && 2 * h <= a <= 2 * h + 1
    requires 2 * q < a || 3 * q < e + 2 * a
    requires x == 2 * half || (x == 1 && half == 0)
    requires 0 <= -e <= b - 4 && 2 <= a <= 2 * (q - 1) + x && 0 <= 4 * c <= -e
    ensures 1 <= h + c && -(b - 4) <= e + h + c
    ensures x == 2 * half ==> h + c <= 2 * (q - 1) + half
    ensures x == 1 ==> 0 < e + h + c
  {
  }

  /** Past zero the momentum halves, or the new bound is reached. */
  lemma CrossedStep(e: int, a: int, c: int, bound: int, b: int, r: int, x: int, half: int)
    requires Level(bound, b) && Pulls(e, c, b, r) && Inside(e, a, bound)
    requires x == 2 * half || (x == 1 && half == 0)
    requires (e < 0 && -x <= a <= -2) || (0 < e && 1 <= a <= x)
    ensures
      var a' := a / 2 + c;
      var e' := e + a';
      || Inside(e', a', b)
      || (x == 2 * half && ((e' < 0 && -half <= a' <= -2) || (0 < e' && 1 <= a' <= half)))
  {
  }

  /** One adjustment reaches the new bound or comes one step closer. */
  lemma PhaseStep(ph: Phase, e: int, a: int, c: int, bound: int, b: int, r: int) returns (next: Phase)
    requires Level(bound, b) && 1 <= r && Pulls(e, c, b, r) && Inside(e, a, bound) && !Inside(e, a, b)
    requires At(ph, e, a, b, r) && Slow(a / 2 + c)
    ensures Inside(e + a / 2 + c, a / 2 + c, b)
         || (At(next, e + a / 2 + c, a / 2 + c, b, r) && StepsLeft(next) < StepsLeft(ph))
  {
    hide Pulls, Inside, Slow;
    match ph
    case Far(m) => next := FromFar(m, e, a, c, bound, b, r);
    case Turning(m) => next := FromTurning(m, e, c, bound, b, r);
    case Near(j) => next := FromNear(j, e, a, c, bound, b, r);
    case Crossed(i) => next := FromCrossed(i, e, a, c, bound, b, r);
  }

  lemma FromFar(m: nat, e: int, a: int, c: int, bound: int, b: int, r: int) returns (next: Phase)
    requires Level(bound, b) && 1 <= r && Pulls(e, c, b, r) && Inside(e, a, bound) && !Inside(e, a, b)
    requires At(Far(m), e, a, b, r) && Slow(a / 2 + c)
    ensures Inside(e + a / 2 + c, a / 2 + c, b)
         || (At(next, e + a / 2 + c, a / 2 + c, b, r) && StepsLeft(next) < m + 36)
  {
    hide Pulls, Inside, Pow2;
    var y := m * r;
    FarStep(e, a, c, bound, b, r, y);
    assert m != 0;
    OneLess(m, r);
    var e', a' := e + a / 2 + c, a / 2 + c;
    if 0 < e {
      next := Downward(m - 1, e, e', a', bound, b, r);
    } else {
      next := Upward(m - 1, e, e', a', bound, b, r);
    }
  }

  lemma OneLess(m: nat, r: int)
    requires 0 < m
    ensures (m - 1) * r == m * r - r
  {
  }

  /** After a step down from a positive error, */
  lemma Downward(m: nat, e: int, e': int, a': int, bound: int, b: int, r: int) returns (next: Phase)
    requires Level(bound, b) && 0 < e && e' == e + a' && a' <= -1 && Slow(a') && e' <= b - 4 + m * r
    ensures Inside(e', a', b) || (At(next, e', a', b, r) && StepsLeft(next) <= m + 36)
  {
    SlowBits(a');
    var p := Pow2(17);
    next := if b - 4 < e' then Far(m) else if 0 <= e' then Near(17) else Crossed(17);
  }

  /** and after a step up from a negative one. */
  lemma Upward(m: nat, e: int, e': int, a': int, bound: int, b: int, r: int) returns (next: Phase)
    requires Level(bound, b) && e < 0 && e' == e + a' && 0 <= a' && Slow(a') && -e' <= b - 4 + m * r
    ensures Inside(e', a', b) || (At(next, e', a', b, r) && StepsLeft(next) <= m + 36)
  {
    SlowBits(a');
    var p := Pow2(17);
    next := if b - 4 < -e' then Far(m) else if e' <= 0 then Near(17) else Crossed(17);
  }

  lemma FromTurning(m: nat, e: int, c: int, bound: int, b: int, r: int) returns (next: Phase)
    requires Level(bound, b) && 1 <= r && Pulls(e, c, b, r) && Inside(e, -1, bound) && !Inside(e, -1, b)
    requires At(Turning(m), e, -1, b, r) && Slow(-1 / 2 + c)
    ensures Inside(e + -1 / 2 + c, -1 / 2 + c, b)
         || (At(next, e + -1 / 2 + c, -1 / 2 + c, b, r) && StepsLeft(next) < m + 37)
  {
    hide Pulls, Inside, Pow2;
    TurningStep(e, c, bound, b, r);
    next := Upward(m, e, e + -1 / 2 + c, -1 / 2 + c, bound, b, r);
  }

  /** Half of a power of two, or one and zero. */
  function Half(j: nat): int {
    if j == 0 then 0 else Pow2(j - 1)
  }

  lemma HalfPower(j: nat)
    ensures if j == 0 then Pow2(j) == 1 && Half(j) == 0 else Pow2(j) == 2 * Half(j)
  {
  }

  lemma FromNear(j: nat, e: int, a: int, c: int, bound: int, b: int, r: int) returns (next: Phase)
    requires Level(bound, b) && Pulls(e, c, b, r) && Inside(e, a, bound) && !Inside(e, a, b)
    requires At(Near(j), e, a, b, r) && Slow(a / 2 + c)
    ensures Inside(e + a / 2 + c, a / 2 + c, b)
         || (At(next, e + a / 2 + c, a / 2 + c, b, r) && StepsLeft(next) < j + 19)
  {
    hide Pulls, Pow2;
    var e', a', x := e + a / 2 + c, a / 2 + c, Pow2(j);
    HalfPower(j);
    SlowBits(a');
    if a <= -2 {
      NearStep(e, a, c, b, r, x, Half(j));
      next := if 0 <= e' then Near(j - 1) else Crossed(17);
    } else {
      NearStepUp(e, a, c, b, r, x, Half(j));
      next := if e' <= 0 then Near(j - 1) else Crossed(17);
    }
  }

  lemma FromCrossed(i: nat, e: int, a: int, c: int, bound: int, b: int, r: int) returns (next: Phase)
    requires Level(bound, b) && Pulls(e, c, b, r) && Inside(e, a, bound)
    requires At(Crossed(i), e, a, b, r)
    ensures Inside(e + a / 2 + c, a / 2 + c, b)
         || (At(next, e + a / 2 + c, a / 2 + c, b, r) && StepsLeft(next) < i + 1)
  {
    hide Pulls, Inside, Pow2;
    HalfPower(i);
    CrossedStep(e, a, c, bound, b, r, Pow2(i), Half(i));
    next := if i == 0 then Crossed(0) else Crossed(i - 1);
  }

  /** Where a state inside the bound is. */
  lemma FindPhase(e: int, a: int, bound: int, b: int, r: int, m: nat) returns (ph: Phase)
    requires Level(bound, b) && Inside(e, a, bound) && !Inside(e, a, b) && Slow(a) && bound <= b - 4 + m * r
    ensures At(ph, e, a, b, r) && StepsLeft(ph) <= m + 37
  {
    hide Pow2;
    SlowBits(a);
    var p := Pow2(17);
    if (e < 0 && a <= -2) || (0 < e && 1 <= a) {
      ph := Crossed(17);
    } else if Abs(e) <= b - 4 {
      ph := Near(17);
    } else if e < 0 && a == -1 {
      ph := Turning(m);
    } else {
      ph := Far(m);
    }
  }

  // ----- the last swings, one step of the error at a time -----

  /** Falling through zero or rising through it, from an error within `b`, with at most `n` steps to
      go. */
  ghost predicate Swinging(e: int, a: int, b: int, largest: int, n: int) {
    && 4 <= largest <= b && Inside(e, a, b)
    && (if Falling(e, a) then e else -e + (if a == -1 then 1 else 0)) + 7 * b + 2 <= n
  }

  predicate Falling(e: int, a: int) {
    a <= 0 && (e >= 0 || a <= -2)
  }

  /** Every step either enters the band of `largest` or uses up one step of the budget; a swing that
      passes zero goes on with at most three quarters of the bound. */
  lemma SettleStep(e: int, a: int, k: int, b: int, largest: int, n: int) returns (b': int)
    requires 4 <= k <= largest && Swinging(e, a, b, largest, n)
    ensures b' <= b
    ensures
      var (e', a') := NextError(e, a, k);
      Inside(e', a', largest) || Swinging(e', a', b', largest, n - 1)
  {
    hide Correction, Inside, Swinging, Falling, Opposes;
    var c := Correction(-e, k);
    CorrectionOpposes(e, k, largest);
    SwingingInside(e, a, b, largest, n);
    InsideAfterOpposing(e, a, c, b, largest);
    if Falling(e, a) {
      b' := FallStep(e, a, c, b, largest, n);
    } else {
      b' := RiseStep(e, a, c, b, largest, n);
    }
  }

  lemma CorrectionOpposes(e: int, k: int, largest: int)
    requires 4 <= k <= largest
    ensures Opposes(e, Correction(-e, k), largest)
  {
    CorrectionBound(-e, k);
  }

  lemma InsideAfterOpposing(e: int, a: int, c: int, b: int, largest: int)
    requires 4 <= largest <= b && Inside(e, a, b) && Opposes(e, c, largest)
    ensures Inside(e + a / 2 + c, a / 2 + c, b)
  {
    InsideAfter(e, a, c, b);
  }

  lemma FallStep(e: int, a: int, c: int, b: int, largest: int, n: int) returns (b': int)
    requires Swinging(e, a, b, largest, n) && Falling(e, a) && Opposes(e, c, largest)
    requires Inside(e + a / 2 + c, a / 2 + c, b)
    ensures b' <= b
    ensures Inside(e + a / 2 + c, a / 2 + c, largest) || Swinging(e + a / 2 + c, a / 2 + c, b', largest, n - 1)
  {
    b' := if Falling(e + a / 2 + c, a / 2 + c) then b else Max(largest, 3 * (b / 4));
  }

  lemma RiseStep(e: int, a: int, c: int, b: int, largest: int, n: int) returns (b': int)
    requires Swinging(e, a, b, largest, n) && !Falling(e, a) && Opposes(e, c, largest)
    requires Inside(e + a / 2 + c, a / 2 + c, b)
    ensures b' <= b
    ensures Inside(e + a / 2 + c, a / 2 + c, largest) || Swinging(e + a / 2 + c, a / 2 + c, b', largest, n - 1)
  {
    b' := if !Falling(e + a / 2 + c, a / 2 + c) then b else Max(largest, 3 * (b / 4));
  }

  predicate Opposes(e: int, c: int, largest: int) {
    && (if e <= 0 then 0 <= 4 * c <= -e else 4 * c <= 0 && -e <= 4 * c)
    && (e >= largest ==> c <= -1) && (e <= -largest ==> c >= 1)
  }

  lemma {:induction false} Enters(c: Clock, p: u32, ticks: seq<u32>, largest: int, b: int, n: int)
    requires forall t :: t in ticks ==> Measurement(t, largest)
    requires 4 <= largest && Fits(p, largest) && n <= |ticks|
    requires Within(c, p, largest)
      || (Fits(p, b) && Within(c, p, b) && Swinging(c.interval - p, c.accum, b, largest, n))
    ensures Within(Run(c, p, ticks), p, largest)
    decreases |ticks|
  {
    hide AdjustedAt, Measurement, NextError, Inside, Swinging;
    if Within(c, p, largest) {
      StaysWithin(c, p, ticks, largest, largest);
    } else {
      BudgetLeft(c.interval - p, c.accum, b, largest, n);
      var t := ticks[0];
      assert t in ticks;
      MeasurementShift(t, largest);
      AdjustedFollows(c, p, t, largest, b);
      var b' := SettleStep(c.interval - p, c.accum, Pow2(ShiftNat(t)), b, largest, n);
      SwingingInside(AdjustedAt(c, p, t).interval - p, AdjustedAt(c, p, t).accum, b', largest, n - 1);
      Enters(AdjustedAt(c, p, t), p, ticks[1..], largest, b', n - 1);
    }
  }

  lemma BudgetLeft(e: int, a: int, b: int, largest: int, n: int)
    requires Swinging(e, a, b, largest, n)
    ensures n > 0 && largest <= b
  {
  }

  lemma SwingingInside(e: int, a: int, b: int, largest: int, n: int)
    ensures Swinging(e, a, b, largest, n) ==> Inside(e, a, b) && 4 <= largest <= b
  {
  }

  // ----- levels one after the other -----

  /** The next bound. */
  function Next(bound: nat, largest: int): int {
    Max(largest, 3 * (bound / 4) + 4)
  }

  /** What every correction far outside it is at least. */
  function Rate(b: int, largest: int): int
    requires 0 < largest
  {
    Max(1, Min((b - 4) / largest, MIN_ADJ))
  }

  /** Adjustments from one bound to the next one. */
  function LevelSteps(bound: nat, largest: int): nat
    requires 4 <= largest <= bound && 64 <= bound
  {
    var b := Next(bound, largest);
    (bound - (b - 4) + Rate(b, largest) - 1) / Rate(b, largest) + 37
  }

  lemma CorrectionPulls(e: int, k: int, largest: int, b: int)
    requires 4 <= k <= largest <= b
    ensures Pulls(e, Correction(-e, k), b, Rate(b, largest))
  {
    hide Correction, Rate;
    CorrectionBound(-e, k);
    if b - 4 < Abs(e) && (b < Abs(e) || 1 < Rate(b, largest)) {
      RateReached(Abs(e), largest, b);
      CorrectionAtLeast(-e, k, largest, Rate(b, largest));
    }
  }

  lemma RateReached(a: int, largest: int, b: int)
    requires 4 <= largest <= b && b - 4 < a && (b < a || 1 < Rate(b, largest))
    ensures 1 <= Rate(b, largest) <= MIN_ADJ && Rate(b, largest) * largest <= a
  {
    var r := Rate(b, largest);
    if 1 < r {
      var q := (b - 4) / largest;
      QuotientBounds(b - 4, largest);
      MulLe(r, q, largest);
    }
  }

  lemma CorrectionAtLeast(w: int, k: int, largest: int, r: int)
    requires 4 <= k <= largest && 1 <= r <= MIN_ADJ && r * largest <= Abs(w)
    ensures 0 < w ==> r <= Correction(w, k)
    ensures w < 0 ==> Correction(w, k) <= -r
  {
    MulLe(k, largest, r);
    AtMostQuotient(r, k, Abs(w));
  }

  // ----- runs -----

  /** From inside a bound, enough adjustments for the phase end inside the next one. */
  lemma {:induction false} LevelDown(c: Clock, p: u32, ticks: seq<u32>, largest: int, bound: int, b: int, ph: Phase)
    requires forall t :: t in ticks ==> Measurement(t, largest)
    requires 4 <= largest <= b && Level(bound, b) && Fits(p, bound) && Within(c, p, bound)
    requires Within(c, p, b)
          || (At(ph, c.interval - p, c.accum, b, Rate(b, largest)) && StepsLeft(ph) <= |ticks|)
    ensures Within(Run(c, p, ticks), p, b)
    decreases |ticks|
  {
    hide AdjustedAt, Measurement, Pulls, At, Inside, Rate;
    if Within(c, p, b) {
      StaysWithin(c, p, ticks, largest, b);
    } else {
      var t, e, a := ticks[0], c.interval - p, c.accum;
      assert t in ticks;
      MeasurementShift(t, largest);
      var k := Pow2(ShiftNat(t));
      AdjustedFollows(c, p, t, largest, bound);
      CorrectionPulls(e, k, largest, b);
      RateRange(b, largest);
      var next := PhaseStep(ph, e, a, Correction(-e, k), bound, b, Rate(b, largest));
      LevelDown(AdjustedAt(c, p, t), p, ticks[1..], largest, bound, b, next);
    }
  }

  lemma RateRange(b: int, largest: int)
    requires 4 <= largest <= b
    ensures 1 <= Rate(b, largest) <= MIN_ADJ
  {
  }

  lemma {:induction false} RunSplit(c: Clock, p: u32, ticks: seq<u32>, n: nat)
    requires n <= |ticks|
    ensures Run(c, p, ticks) == Run(Run(c, p, ticks[..n]), p, ticks[n..])
    decreases n
  {
    hide AdjustedAt;
    if n == 0 {
      assert ticks[..0] == [] && ticks[0..] == ticks;
    } else {
      RunSplit(AdjustedAt(c, p, ticks[0]), p, ticks[1..], n - 1);
      assert ticks[..n][1..] == ticks[1..][..n - 1];
      assert ticks[1..][n - 1..] == ticks[n..];
    }
  }

  /** One level takes at most this many adjustments. */
  lemma OneLevel(c: Clock, p: u32, ticks: seq<u32>, largest: int, bound: int)
    requires forall t :: t in ticks ==> Measurement(t, largest)
    requires 4 <= largest < bound && 64 < bound && Fits(p, bound) && Within(c, p, bound)
    requires LevelSteps(bound, largest) <= |ticks|
    ensures Within(Run(c, p, ticks), p, Next(bound, largest))
  {
    hide Measurement, Inside, At, Rate, Run;
    var b := Next(bound, largest);
    var r := Rate(b, largest);
    RateRange(b, largest);
    var m := (bound - (b - 4) + r - 1) / r;
    QuotientBounds(bound - (b - 4) + r - 1, r);
    assert bound <= b - 4 + m * r;
    var ph := Far(0);
    if !Within(c, p, b) {
      ph := FindPhase(c.interval - p, c.accum, bound, b, r, m);
    }
    LevelDown(c, p, ticks, largest, bound, b, ph);
  }

  /** All levels, and the last swings within 64 by steps of one. */
  function Steps(bound: nat, largest: int): nat
    requires 4 <= largest
    decreases bound
  {
    if bound <= largest then 0
    else if bound <= 64 then 8 * bound + 3
    else LevelSteps(bound, largest) + Steps(Next(bound, largest), largest)
  }

  lemma {:induction false} Descends(c: Clock, p: u32, ticks: seq<u32>, largest: int, bound: int)
    requires forall t :: t in ticks ==> Measurement(t, largest)
    requires 4 <= largest && 0 <= bound && Fits(p, Max(bound, largest)) && Within(c, p, bound)
    requires Steps(bound, largest) <= |ticks|
    ensures Within(Run(c, p, ticks), p, largest)
    decreases bound
  {
    hide Measurement, Inside, Run, LevelSteps;
    if bound <= largest {
      Wider(c.interval - p, c.accum, bound, largest);
      StaysWithin(c, p, ticks, largest, largest);
    } else if bound <= 64 {
      Swings(c.interval - p, c.accum, bound, largest);
      Enters(c, p, ticks, largest, bound, 8 * bound + 3);
    } else {
      var n, b := LevelSteps(bound, largest), Next(bound, largest);
      RunSplit(c, p, ticks, n);
      assert forall t :: t in ticks[..n] ==> t in ticks;
      assert forall t :: t in ticks[n..] ==> t in ticks;
      OneLevel(c, p, ticks[..n], largest, bound);
      Descends(Run(c, p, ticks[..n]), p, ticks[n..], largest, b);
    }
  }

  lemma Wider(e: int, a: int, bound: int, more: int)
    requires 0 <= bound <= more && Inside(e, a, bound)
    ensures Inside(e, a, more)
  {
    Quarters(bound, more);
  }

  lemma Quarters(bound: nat, more: nat)
    requires bound <= more
    ensures 0 <= bound / 4 <= more / 4
  {
  }

  lemma Swings(e: int, a: int, bound: int, largest: int)
    requires 4 <= largest <= bound && Inside(e, a, bound)
    ensures Swinging(e, a, bound, largest, 8 * bound + 3)
  {
  }

  // ----- how many adjustments that is -----

  /** Every level takes at most `largest` + 40 of them and one more for each limited correction. */
  lemma LevelCost(bound: nat, largest: int)
    requires 4 <= largest < bound && 64 < bound
    ensures Next(bound, largest) < bound
    ensures MIN_ADJ * LevelSteps(bound, largest) <= MIN_ADJ * (largest + 40) + (bound - Next(bound, largest))
  {
    hide Rate;
    var b := Next(bound, largest);
    var r, x := Rate(b, largest), bound - (b - 4);
    RateRange(b, largest);
    QuotientBounds(x + r - 1, r);
    if r < MIN_ADJ {
      RateTight(b, largest);
      FewSteps(x, r, largest);
    }
  }

  lemma FewSteps(x: int, r: int, largest: int)
    requires 4 <= largest && 1 <= r && 3 * x < 2 * (r * largest) + 9
    ensures (x + r - 1) / r <= largest + 3
  {
    var y, d := r * largest, (x + r - 1) / r;
    MulLe(4, largest, r);
    assert d * r <= x + r - 1;
    assert (largest + 4) * r == y + 4 * r;
    CancelLess(d, largest + 4, r);
  }

  lemma RateTight(b: int, largest: int)
    requires 4 <= largest <= b && Rate(b, largest) < MIN_ADJ
    ensures b - 4 < 2 * (Rate(b, largest) * largest)
  {
    var r, q := Rate(b, largest), (b - 4) / largest;
    QuotientBounds(b - 4, largest);
    if 1 <= q {
      MulLe(1, r, largest);
    }
  }

  /** Four levels halve the bound: tenths after n quarters of a halving. */
  function Reach(n: nat): nat {
    Pow2(n / 4) * [10, 12, 14, 17][n % 4]
  }

  lemma ReachStep(n: nat)
    requires 0 < n
    ensures 10 <= Reach(n - 1) && 13 * Reach(n) <= 16 * Reach(n - 1)
  {
    hide Pow2;
    var w := Pow2((n - 1) / 4);
    if n % 4 == 0 {
      assert (n - 1) % 4 == 3 && n / 4 == (n - 1) / 4 + 1;
      DoublePower((n - 1) / 4);
    } else {
      assert n / 4 == (n - 1) / 4 && (n - 1) % 4 == n % 4 - 1;
    }
  }

  lemma DoublePower(j: nat)
    ensures Pow2(j + 1) == 2 * Pow2(j)
  {
  }

  lemma {:induction false} StepsInLevels(bound: nat, largest: int, n: nat)
    requires 4 <= largest && 10 * bound <= Max(largest, 64) * Reach(n)
    ensures MIN_ADJ * Steps(bound, largest) <= MIN_ADJ * ((largest + 40) * n + 515) + bound
    decreases n
  {
    hide Reach, LevelSteps;
    MulLe(0, n, largest + 40);
    if largest < bound && 64 < bound {
      var b, w := Next(bound, largest), Max(largest, 64);
      LevelCost(bound, largest);
      NotYet(n);
      ReachStep(n);
      NextReached(bound, largest, w, Reach(n), Reach(n - 1));
      StepsInLevels(b, largest, n - 1);
      OneLevelMore(largest + 40, n);
    }
  }

  lemma NextReached(bound: nat, largest: int, w: int, now: int, later: int)
    requires 4 <= largest <= w && 64 < bound && 10 * bound <= w * now
    requires 10 <= later && 13 * now <= 16 * later
    ensures 10 * Next(bound, largest) <= w * later
  {
    var x, y := w * now, w * later;
    MulLe(10, later, w);
    assert 13 * x <= 16 * y by {
      MulLe(13 * now, 16 * later, w);
    }
  }

  lemma OneLevelMore(x: int, n: int)
    ensures x * n == x * (n - 1) + x
  {
  }

  lemma NotYet(n: nat)
    ensures n == 0 ==> Reach(n) == 10
  {
  }

  /** With `h` halvings from the error to 2^s, or to 64: 2^s + 40 adjustments for each quarter of a halving,
      one for every 50000 of the error, and the last swings. */
  lemma StepsBound(bound: nat, largest: int, h: nat)
    requires 4 <= largest && bound <= Max(largest, 64) * Pow2(h)
    ensures Steps(bound, largest) <= 4 * h * (largest + 40) + bound / MIN_ADJ + 515
  {
    hide Pow2, Steps;
    assert (4 * h) / 4 == h && (4 * h) % 4 == 0;
    var w := Max(largest, 64);
    assert w * (Pow2(h) * 10) == 10 * (w * Pow2(h));
    StepsInLevels(bound, largest, 4 * h);
  }

  /** Convergence: an error of at most 2^h times 2^s (or 64) is inside the band of 2^s after 4 h (2^s + 40) +
      |e| / 50000 + 515 adjustments, and after 8 |e| + 2 in any case; by `StaysWithin` it never leaves it. */
  lemma Converges(c: Clock, p: u32, ticks: seq<u32>, largest: int, h: nat)
    requires forall t :: t in ticks ==> Measurement(t, largest)
    requires c.accum == 0 && 4 <= largest && Fits(p, Max(Abs(c.interval - p), largest))
    requires
      var e := Abs(c.interval - p);
      || 8 * e + 2 <= |ticks|
      || (e <= Max(largest, 64) * Pow2(h) && 4 * h * (largest + 40) + e / MIN_ADJ + 515 <= |ticks|)
    ensures Within(Run(c, p, ticks), p, largest) && Abs(Run(c, p, ticks).interval - p) <= largest
  {
    hide Run, Measurement, Steps, Pow2;
    var e := Abs(c.interval - p);
    if 8 * e + 2 <= |ticks| {
      Enters(c, p, ticks, largest, e, 8 * e + 2);
    } else {
      StepsBound(e, largest, h);
      Descends(c, p, ticks, largest, e);
    }
  }
}
