/** The sample periods of the driver (`inv_adjust_sensor_ts` in `inv_mpu_ring.c`) over a whole run of interrupts
    against a chip with a constant period. */
module Periods {
  import opened Machine
  import opened Fifo
  import opened Service
  import opened Tracking
  import Batch
  import ClockLoop
  import FifoTheorems
  import Records
  import Ring

  /** Every enabled sensor's period is its tick counter times the tracked interval, as a 32-bit number. */
  ghost predicate Paced(t: Tracker) {
    && |t.core.sensor| == SENSOR_NUM
    && forall i :: 0 <= i < SENSOR_NUM && t.core.sensor[i].on ==>
        t.core.sensor[i].dur == S32(t.clock.interval * t.core.sensor[i].counter)
  }

  /** No setting of a sensor changes, and no period of a disabled one. */
  ghost predicate SameSensors(t: Tracker, u: Tracker) {
    && |t.core.sensor| == |u.core.sensor| == SENSOR_NUM
    && forall i :: 0 <= i < SENSOR_NUM ==>
        var was, now := t.core.sensor[i], u.core.sensor[i];
        && now == was.(ts := now.ts, dur := now.dur)
        && (!was.on ==> now.dur == was.dur)
  }

  ghost predicate SamePeriods(t: Tracker, u: Tracker) {
    && |t.core.sensor| == |u.core.sensor| == SENSOR_NUM
    && forall i :: 0 <= i < SENSOR_NUM ==> u.core.sensor[i].dur == t.core.sensor[i].dur
  }

  // ----- one call -----

  lemma BatchedPeriods(sl: Slaves, t: Tracker, c: Call)
    requires Ready(t, c)
    ensures
      var u := Batched(sl, t, c).0;
      && SameSensors(t, u)
      && (t.adjust && |c.fifo| <= HARDWARE_FIFO_SIZE && Ring.Error(c.bus, |c.fifo|) == 0 ==> Paced(u))
      && (!t.adjust ==> SamePeriods(t, u) && u.clock == t.clock)
  {
    hide Parse, ClockLoop.Adjusted, Ring.WithDurations, Ring.WithTs, Ring.ResetTime;
    var (st, left) := Ring.Started(t.core, t.left, |c.fifo|, t.last, t.rate);
    FifoTheorems.ParseKeepsSettings(sl, st, left + c.fifo);
  }

  /** A call that measures paces the sensors; any other one leaves periods and clock as they were. */
  lemma ServedPeriods(sl: Slaves, t: Tracker, p: u32, n: nat, c: Call)
    requires Ready(t, c) && Behind(t, p, n, c.now, c.counter) && 0 <= p * n < TWO_64
    requires !Flushes(p, t.guards, n, c)
    requires Measures(p, t.guards, n, c) ==> Emptied(c)
    ensures
      var u := Served(sl, t, c).0;
      && SameSensors(t, u)
      && (if Measures(p, t.guards, n, c) then Paced(u) else SamePeriods(t, u) && u.clock == t.clock)
  {
    hide Dropped, Guarded, Batched, Paced, U64, U32;
    var x := p * n;
    Elapsed(t.prev, x);
    var w := t.(guards := Guarded(t.guards, c));
    BatchedPeriods(sl, Timed(w, c), c);
  }

  // ----- every run -----

  /** Once a measurement was made, every enabled sensor's period is its counter times the driver's
      interval, at the end of every run. */
  lemma {:induction false} PacedOverRun(sl: Slaves, t: Tracker, p: u32, pending: nat, now: u64, counter: u32,
                                        ticks: seq<nat>, calls: seq<Call>, largest: int)
    requires AllReady(t, calls) && Behind(t, p, pending, now, counter)
    requires Ticking(p, now, counter, ticks, calls) && Readings(p, t.guards, pending, ticks, calls, largest)
    ensures
      var u := Run(sl, t, calls).0;
      && SameSensors(t, u)
      && (Tracking.Measured(p, t.guards, pending, ticks, calls, largest) != [] || Paced(t) ==> Paced(u))
    decreases |calls|
  {
    hide Served, Dropped, Guarded, Emptied, Flushes, Measures, Behind, ClockLoop.AdjustedAt, ClockLoop.Measurement;
    if calls != [] {
      var n, c := pending + ticks[0], calls[0];
      assert c in calls;
      StillBehind(t, p, pending, ticks[0], now, counter);
      ServedClock(sl, t, p, n, c);
      ServedPeriods(sl, t, p, n, c);
      var u := Served(sl, t, c).0;
      AfterCall(t, u, p, n, c);
      var left := if Measures(p, t.guards, n, c) then 0 else n;
      PacedOverRun(sl, u, p, left, c.now, c.counter, ticks[1..], calls[1..], largest);
    }
  }

  /** A paced sensor is as far from the chip's own period as the clock is from the tick's, for each tick it
      counts. */
  lemma PeriodError(own: Sensor, interval: u32, p: u32, bound: int)
    requires own.dur == S32(interval * own.counter) && -bound <= interval - p <= bound
    requires 0 <= own.counter && (p + bound) * own.counter < TWO_31
    ensures Abs(own.dur - p * own.counter) <= bound * own.counter
  {
    var c := own.counter;
    MulLe(interval, p + bound, c);
    MulLe(0, interval, c);
    Fits32(interval * c);
    MulLe(interval - p, bound, c);
    MulLe(-bound, interval - p, c);
    assert (interval - p) * c == interval * c - p * c && -bound * c == -(bound * c);
  }

  /** The driver: with no momentum at the start, once a measurement was made every enabled sensor's period is
      within its counter times the clock's bound of the chip's own sample period. */
  method TrackPeriods(d: Ring.Driver, sl: Slaves, p: u32, calls: seq<Call>, ghost ticks: seq<nat>, ghost largest: int)
    requires d.Valid() && AllReady(Of(d), calls)
    requires Ticking(p, d.prevTs, d.dmpCounter, ticks, calls)
    requires Readings(p, Of(d).guards, 0, ticks, calls, largest)
    requires d.dmpIntervalAccum == 0 && 4 <= largest && ClockLoop.Fits(p, Max(Abs(d.dmpInterval - p), largest))
    modifies d, d.fifoData, d.leftOver
    ensures d.Valid()
    ensures Tracking.Measured(p, old(Of(d)).guards, 0, ticks, calls, largest) != [] ==>
      var bound := Max(Abs(old(d.dmpInterval) - p), largest);
      forall i :: 0 <= i < SENSOR_NUM && d.sensor[i].on ==>
        var own := d.sensor[i];
        && own.dur == S32(d.dmpInterval * own.counter)
        && (0 <= own.counter && (p + bound) * own.counter < TWO_31 ==>
             Abs(own.dur - p * own.counter) <= bound * own.counter)
    ensures forall i :: 0 <= i < SENSOR_NUM ==>
      d.sensor[i] == old(d.sensor)[i].(ts := d.sensor[i].ts, dur := d.sensor[i].dur)
  {
    hide Run, Ticking, Readings, Tracking.Measured, AllReady, Records.Encodes, ClockLoop.Run, ClockLoop.Fits, S32;
    ghost var t, bound := Of(d), Max(Abs(d.dmpInterval - p), largest);
    ghost var all := Tracking.Measured(p, t.guards, 0, ticks, calls, largest);
    ClockOverRun(sl, t, p, 0, t.prev, t.counter, ticks, calls, largest);
    ClockLoop.TrackingErrorBounded(t.clock, p, all, largest);
    PacedOverRun(sl, t, p, 0, t.prev, t.counter, ticks, calls, largest);
    Serve(d, sl, calls);
    if all != [] {
      AllPeriods(d.sensor, d.dmpInterval, p, bound);
    }
  }

  lemma AllPeriods(sensor: seq<Sensor>, interval: u32, p: u32, bound: int)
    requires -bound <= interval - p <= bound
    ensures forall own :: own in sensor ==>
      (own.dur == S32(interval * own.counter) && 0 <= own.counter && (p + bound) * own.counter < TWO_31 ==>
        Abs(own.dur - p * own.counter) <= bound * own.counter)
  {
    hide S32;
    forall own | own in sensor && own.dur == S32(interval * own.counter)
        && 0 <= own.counter && (p + bound) * own.counter < TWO_31
      ensures Abs(own.dur - p * own.counter) <= bound * own.counter
    {
      PeriodError(own, interval, p, bound);
    }
  }

  /** A sensor set up for a rate of 1 to 200 counts the ticks of the chip's own sample period, so its period is
      that of the chip; and if the rate divides 200, `rate` of its periods are 200 ticks. */
  lemma RateKept(was: Sensor, own: Sensor, p: u32, bound: int)
    requires was.on && 1 <= was.rate <= 200 && Batch.CountsTicks(was, own.(ts := was.ts, dur := was.dur))
    requires 0 <= bound && Abs(own.dur - p * own.counter) <= bound * own.counter
    ensures own.on && Abs(own.dur - p * Batch.Period(was.rate)) <= bound * Batch.Period(was.rate)
    ensures 200 % was.rate == 0 ==> Abs(own.dur * was.rate - p * 200) <= bound * 200
  {
    hide Batch.Period;
    Batch.TicksOfPeriod(own.counter, was.rate);
    if 200 % was.rate == 0 {
      var e, c, r: int := own.dur - p * own.counter, own.counter, was.rate;
      MulLe(e, bound * c, r);
      MulLe(-(bound * c), e, r);
      assert (bound * c) * r == bound * (c * r) && -(bound * c) * r == -((bound * c) * r);
      assert own.dur * r - p * (c * r) == e * r;
    }
  }
}
