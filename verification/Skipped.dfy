/** What a measurement without its adjustment does to the clock of `inv_read_fifo` (`inv_mpu_ring.c`): the ticks
    are read before the FIFO is known to be empty. */
module Skipped {
  import opened Machine
  import opened Fifo
  import opened Service
  import opened Tracking
  import ClockLoop
  import Ring

  /** Both corrections of an error `w` per tick, the true one and one that sees `extra` nanoseconds too many
      over `n` ticks, are the same only at the limit. */
  lemma ExtraTimeShows(w: int, n: int, k: int, extra: int)
    requires 0 < n && 0 < k && k * n <= 40_000 && Ring.MIN_TICK_READING_TIME <= extra
    ensures
      var v, m := extra + w * n, ClockLoop.MIN_ADJ * k;
      ClockLoop.Correction(w, k) == ClockLoop.Correction(TruncDiv(v, n), k) <==> m <= w || v <= -m * n
  {
    hide TruncDiv, ClockLoop.Correction;
    var v, m := extra + w * n, ClockLoop.MIN_ADJ * k;
    var r := TruncDiv(v, n);
    assert (w + 2 * k) * n <= v by {
      assert (w + 2 * k) * n == w * n + 2 * (k * n);
    }
    TruncAtLeast(v, n, w + 2 * k);
    TruncAtMost(v, n, m);
    CorrectionAtLimit(w, k);
    CorrectionAtLimit(r, k);
    if w < m && -m < r {
      CorrectionIncreases(w, r, k);
    }
  }

  lemma TruncAtLeast(v: int, n: int, b: int)
    requires 0 < n && b * n <= v
    ensures b <= TruncDiv(v, n)
  {
    if v < 0 {
      var q := (-v) / n;
      QuotientBounds(-v, n);
      assert q * n <= -v;
      CancelLess(q, -b + 1, n) by {
        assert (-b + 1) * n == n - b * n;
      }
    } else {
      AtMostQuotient(b, n, v);
    }
  }

  lemma TruncAtMost(v: int, n: int, m: int)
    requires 0 < n && 0 < m
    ensures v <= -m * n <==> TruncDiv(v, n) <= -m
  {
    var x := m * n;
    assert -m * n == -x;
    MulLe(1, m, n);
    if v < 0 {
      QuotientBounds(-v, n);
      var q := (-v) / n;
      if x <= -v {
        AtMostQuotient(m, n, -v);
      } else {
        CancelLess(q, m, n);
      }
    } else {
      QuotientBounds(v, n);
    }
  }

  /** The limit is reached exactly from `MIN_ADJ` times the power of two on. */
  lemma CorrectionAtLimit(r: int, k: int)
    requires 0 < k
    ensures -ClockLoop.MIN_ADJ <= ClockLoop.Correction(r, k) <= ClockLoop.MIN_ADJ
    ensures ClockLoop.Correction(r, k) == ClockLoop.MIN_ADJ <==> ClockLoop.MIN_ADJ * k <= r
    ensures ClockLoop.Correction(r, k) == -ClockLoop.MIN_ADJ <==> r <= -ClockLoop.MIN_ADJ * k
  {
    var a: nat := Abs(r);
    QuotientBounds(a, k);
    if ClockLoop.MIN_ADJ * k <= a {
      AtMostQuotient(ClockLoop.MIN_ADJ, k, a);
    } else {
      var q := a / k;
      CancelLess(q, ClockLoop.MIN_ADJ, k);
    }
  }

  lemma CorrectionIncreases(w: int, r: int, k: int)
    requires 0 < k && w + 2 * k <= r
    requires w < ClockLoop.MIN_ADJ * k && -ClockLoop.MIN_ADJ * k < r
    ensures ClockLoop.Correction(w, k) < ClockLoop.Correction(r, k)
  {
    var a: nat, b: nat := Abs(w), Abs(r);
    BelowLimit(w, k);
    BelowLimit(-r, k);
    QuotientBounds(a, k);
    QuotientBounds(b, k);
    QuotientIs(0, k, 0);
    if 0 <= w {
      LargerQuotient(a, b, k);
    } else if r < 0 {
      LargerQuotient(b, a, k);
    } else if k <= r {
      LargerQuotient(0, b, k);
    } else {
      LargerQuotient(0, a, k);
    }
  }

  lemma BelowLimit(w: int, k: int)
    requires 0 < k && w < ClockLoop.MIN_ADJ * k
    ensures 0 <= w ==> w / k < ClockLoop.MIN_ADJ
  {
    if 0 <= w {
      QuotientBounds(w, k);
      var q := w / k;
      CancelLess(q, ClockLoop.MIN_ADJ, k);
    }
  }

  lemma LargerQuotient(a: nat, b: nat, k: int)
    requires 0 < k && a + k <= b
    ensures a / k < b / k
  {
    QuotientBounds(a, k);
    var x := a / k;
    AtMostQuotient(x + 1, k, b) by {
      assert (x + 1) * k == x * k + k;
    }
  }

  /** A call that measures `n1` ticks and finds the FIFO empty, and the next one, `n2` ticks later, that adjusts:
      it sees all the time and only its own ticks. The clock is the one that the true period gives if and
      only if the correction is at the same limit for both. */
  lemma SkippedMeasurement(sl: Slaves, t: Tracker, p: u32, n1: nat, n2: nat, c1: Call, c2: Call)
    requires Ready(t, c1) && Ready(t, c2) && 1 <= n2 <= 10_000 && 0 <= p * (n1 + n2) < TWO_64 / 2
    requires Behind(t, p, n1, c1.now, c1.counter) && Measures(p, t.guards, n1, c1)
    requires c1.countError == 0 && c1.fifo == []
    requires c2.now == U64(t.prev + p * (n1 + n2)) && c2.counter == U32(c1.counter + n2)
    requires !Dropped(Guarded(t.guards, c1), c2) && c2.ticksError == 0 && Emptied(c2)
    ensures
      var u := Served(sl, Served(sl, t, c1).0, c2).0;
      var e, m := t.clock.interval - p, ClockLoop.MIN_ADJ * Pow2(ClockLoop.ShiftNat(n2));
      && u.clock == ClockLoop.Adjusted(t.clock, p * (n1 + n2), n2)
      && (u.clock == ClockLoop.AdjustedAt(t.clock, p, n2) <==> m <= -e || p * n1 - e * n2 <= -m * n2)
  {
    SkippedClock(sl, t, p, n1, n2, c1, c2);
    SkippedDelta(t.clock, p, n1, n2);
    SameClock(t.clock, p, p * (n1 + n2), n2);
  }

  lemma SkippedClock(sl: Slaves, t: Tracker, p: u32, n1: nat, n2: nat, c1: Call, c2: Call)
    requires Ready(t, c1) && Ready(t, c2) && n2 <= 10_000 && 0 <= p * (n1 + n2) < TWO_64
    requires Behind(t, p, n1, c1.now, c1.counter) && Measures(p, t.guards, n1, c1)
    requires c1.countError == 0 && c1.fifo == []
    requires c2.now == U64(t.prev + p * (n1 + n2)) && c2.counter == U32(c1.counter + n2)
    requires !Dropped(Guarded(t.guards, c1), c2) && c2.ticksError == 0 && Emptied(c2)
    ensures Served(sl, Served(sl, t, c1).0, c2).0.clock == ClockLoop.Adjusted(t.clock, p * (n1 + n2), n2)
  {
    hide Served, Dropped, Guarded, Measures, Emptied, U64, U32;
    MulLe(n1, n1 + n2, p);
    AfterEmpty(sl, t, p, n1, c1);
    AfterMeasurement(sl, Served(sl, t, c1).0, p * (n1 + n2), n2, c2) by {
      Late(p, t.guards, n1, n2, c1);
    }
  }

  lemma Late(p: u32, g: Guards, n1: nat, n2: nat, c: Call)
    requires Measures(p, g, n1, c)
    ensures Ring.MIN_TICK_READING_TIME <= p * (n1 + n2)
  {
    MulLe(n1, n1 + n2, p);
  }

  /** The reading moved the counter only. */
  lemma AfterEmpty(sl: Slaves, t: Tracker, p: u32, n: nat, c: Call)
    requires Ready(t, c) && 0 <= p * n < TWO_64 && Behind(t, p, n, c.now, c.counter) && Measures(p, t.guards, n, c)
    requires c.countError == 0 && c.fifo == []
    ensures
      var u := Served(sl, t, c).0;
      && u.guards == Guarded(t.guards, c) && u.clock == t.clock && u.prev == t.prev && u.counter == c.counter
      && u.core == t.core && u.rate == t.rate
  {
    hide Dropped, Guarded, Parse, ValidSensors, ClockLoop.Adjusted, U64, U32;
    var x := p * n;
    Elapsed(t.prev, x);
  }

  lemma AfterMeasurement(sl: Slaves, t: Tracker, x: int, n: nat, c: Call)
    requires Ready(t, c) && Ring.MIN_TICK_READING_TIME <= x < TWO_64 && n <= 10_000
    requires c.now == U64(t.prev + x) && c.counter == U32(t.counter + n)
    requires !Dropped(t.guards, c) && c.ticksError == 0 && Emptied(c)
    ensures Served(sl, t, c).0.clock == ClockLoop.Adjusted(t.clock, x, n)
  {
    hide Dropped, Guarded, Parse, ValidSensors, ClockLoop.Adjusted, Ring.WithDurations, U64, U32;
    Elapsed(t.prev, x);
    CountBack(t.counter, n);
  }

  lemma SkippedDelta(c: ClockLoop.Clock, p: u32, n1: nat, n2: nat)
    requires 1 <= n2 <= 10_000 && Ring.MIN_TICK_READING_TIME <= p * n1 && p * (n1 + n2) < TWO_64 / 2
    ensures
      var e, m := c.interval - p, ClockLoop.MIN_ADJ * Pow2(ClockLoop.ShiftNat(n2));
      (ClockLoop.Delta(c.interval, p * (n1 + n2), n2) == ClockLoop.Delta(c.interval, U64(p * n2), n2))
      <==> (m <= -e || p * n1 - e * n2 <= -m * n2)
  {
    hide ClockLoop.Delta, TruncDiv, ClockLoop.Correction, Pow2, ClockLoop.ShiftNat, U64;
    var w, k := p - c.interval, Pow2(ClockLoop.ShiftNat(n2));
    var extra := p * n1;
    ClockLoop.DeltaOpposesError(c.interval, p, n2, U64(p * n2));
    ClockLoop.ShiftTimesCount(n2);
    Regroup(p, c.interval, n1, n2);
    DeltaOfDifference(c.interval, p * (n1 + n2), n2, extra + w * n2);
    ExtraTimeShows(w, n2, k, extra);
  }

  /** The correction of any elapsed time: neither the 64-bit difference nor the clamp shows. */
  lemma DeltaOfDifference(interval: u32, elapsed: u64, n: u32, v: int)
    requires 1 <= n <= 10_000 && elapsed < TWO_64 / 2 && v == elapsed - interval * n
    ensures ClockLoop.Delta(interval, elapsed, n)
         == ClockLoop.Correction(TruncDiv(v, n), Pow2(ClockLoop.ShiftNat(n)))
  {
    hide ClockLoop.S64, ClockLoop.Clamp, TruncDiv, ClockLoop.Correction, Pow2, ClockLoop.ShiftNat;
    ClockLoop.ShiftTimesCount(n);
    ClockLoop.SmallProduct(interval, n);
    NoWrap64(elapsed, interval * n);
    ClampUnseen(v, n, Pow2(ClockLoop.ShiftNat(n)));
  }

  lemma Regroup(p: int, interval: int, n1: int, n2: int)
    ensures p * (n1 + n2) - interval * n2 == p * n1 + (p - interval) * n2
    ensures p * n1 - (interval - p) * n2 == p * n1 + (p - interval) * n2
  {
  }

  lemma NoWrap64(x: int, y: int)
    requires 0 <= x < TWO_64 / 2 && 0 <= y <= TWO_32 * 10_000
    ensures ClockLoop.S64(x - y) == x - y
  {
  }

  /** The 31-bit clamp of a difference is never visible in the correction. */
  lemma ClampUnseen(v: int, n: int, k: int)
    requires 0 < n && 0 < k && k * n <= 40_000
    ensures ClockLoop.Correction(TruncDiv(ClockLoop.Clamp(v), n), k) == ClockLoop.Correction(TruncDiv(v, n), k)
  {
    hide TruncDiv, ClockLoop.Correction;
    var m, max := ClockLoop.MIN_ADJ * k, ClockLoop.MAX_DIFF;
    assert m * n <= max by {
      assert m * n == ClockLoop.MIN_ADJ * (k * n);
    }
    CorrectionAtLimit(TruncDiv(ClockLoop.Clamp(v), n), k);
    CorrectionAtLimit(TruncDiv(v, n), k);
    if v < -max {
      TruncAtMost(v, n, m);
      TruncAtMost(-max, n, m);
    } else if max < v {
      TruncAtLeast(v, n, m);
      TruncAtLeast(max, n, m);
    }
  }

  lemma SameClock(c: ClockLoop.Clock, p: u32, elapsed: u64, n: u32)
    ensures ClockLoop.Adjusted(c, elapsed, n) == ClockLoop.AdjustedAt(c, p, n)
       <==> ClockLoop.Delta(c.interval, elapsed, n) == ClockLoop.Delta(c.interval, U64(p * n), n)
  {
    hide ClockLoop.Delta, U64, U32, S32;
    var d, d' := ClockLoop.Delta(c.interval, elapsed, n), ClockLoop.Delta(c.interval, U64(p * n), n);
    DeltaLimited(c.interval, elapsed, n);
    DeltaLimited(c.interval, U64(p * n), n);
    S32Tells(c.accum / 2 + d, c.accum / 2 + d');
  }

  lemma S32Tells(x: int, y: int)
    requires -100_000 <= x - y <= 100_000
    ensures S32(x) == S32(y) <==> x == y
  {
  }

  lemma DeltaLimited(interval: u32, elapsed: u64, n: u32)
    ensures -ClockLoop.MIN_ADJ <= ClockLoop.Delta(interval, elapsed, n) <= ClockLoop.MIN_ADJ
  {
    hide TruncDiv, Pow2, ClockLoop.ShiftNat, ClockLoop.Clamp, ClockLoop.S64, ClockLoop.Correction, U64, S32;
    var count := if S32(n) == 0 then 1 else S32(n);
    var k := Pow2(ClockLoop.ShiftNat(count));
    CorrectionAtLimit(Quotient(ClockLoop.Clamp(ClockLoop.S64(elapsed - interval * count)), count), k);
  }

  /** A clock that is right, an empty FIFO after one second and eight bytes after two: the interval is then
      wrong by 50000, where the bound of a driver that skips nothing is 32. */
  lemma EmptyFifoMisleads(sl: Slaves, t: Tracker, c1: Call, c2: Call)
    requires Ready(t, c1) && Ready(t, c2)
    requires t.clock == ClockLoop.Clock(5_000_000, 0) && t.prev == 0 && t.counter == 0 && t.guards == Guards(0, false)
    requires c1 == Call(1_000_000_000, 0, false, false, 1_000_000_000, 200, 0, 0, [], Ring.Quiet, None)
    requires c2 == Call(2_000_000_000, 0, false, false, 2_000_000_000, 400, 0, 0,
                        [0, 0, 0, 0, 0, 0, 0, 0], Ring.Quiet, None)
    ensures ClockLoop.Measurement(200, 32)
    ensures Run(sl, t, [c1, c2]).0.clock == ClockLoop.Clock(5_050_000, 50_000)
  {
    hide Parse, ValidSensors, ClockLoop.Adjusted;
    SkippedMeasurement(sl, t, 5_000_000, 200, 200, c1, c2);
    MisledStep();
    RunOfTwo(sl, t, c1, c2);
  }

  lemma RunOfTwo(sl: Slaves, t: Tracker, c1: Call, c2: Call)
    requires Ready(t, c1) && Ready(t, c2)
    ensures AllReady(t, [c1, c2])
    ensures Run(sl, t, [c1, c2]).0 == Served(sl, Served(sl, t, c1).0, c2).0
  {
    hide Served, ValidSensors;
    var u := Served(sl, t, c1).0;
    assert [c1, c2][1..] == [c2];
    assert Run(sl, t, [c1, c2]).0 == Run(sl, u, [c2]).0;
    var v := Served(sl, u, c2).0;
    assert [c2][1..] == [];
    assert Run(sl, u, [c2]).0 == Run(sl, v, []).0;
  }

  lemma MisledStep()
    ensures ClockLoop.Measurement(200, 32)
    ensures ClockLoop.Adjusted(ClockLoop.Clock(5_000_000, 0), 2_000_000_000, 200) == ClockLoop.Clock(5_050_000, 50_000)
  {
    hide ClockLoop.Shift, Pow2, TruncDiv;
    ShiftOf200();
    assert TruncDiv(1_000_000_000, 200) == 5_000_000 by {
      DividesExactly();
    }
  }

  lemma ShiftOf200()
    ensures ClockLoop.ShiftNat(200) == 5 && Pow2(5) == 32
  {
  }

  lemma DividesExactly()
    ensures TruncDiv(1_000_000_000, 200) == 5_000_000
  {
  }
}
