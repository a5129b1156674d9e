/** The interrupts of `inv_read_fifo` (`inv_mpu_ring.c`) against a chip with a constant period: the driver's
    clock makes the run of the clock loop, and the times of the samples stay in order, under conditions
    on the starting state and on the readings alone. */
module Tracking {
  import opened Machine
  import opened Fifo
  import opened Service
  import ClockLoop
  import Records
  import Ring

  /** The chip ticks every `p` nanoseconds; the first call reads it after ticks[0] ticks, the next one after
      ticks[1] more, and so on. */
  ghost predicate Ticking(p: u32, now: u64, counter: u32, ticks: seq<nat>, calls: seq<Call>)
    decreases |ticks|
  {
    && |ticks| == |calls|
    && (ticks != [] ==>
      && calls[0].now == U64(now + p * ticks[0]) && calls[0].counter == U32(counter + ticks[0])
      && Ticking(p, calls[0].now, calls[0].counter, ticks[1..], calls[1..]))
  }

  /** A call `n` ticks after the last measurement takes one. */
  predicate Measures(p: u32, g: Guards, n: nat, c: Call) {
    !Dropped(g, c) && Ring.MIN_TICK_READING_TIME <= p * n && c.ticksError == 0
  }

  /** The FIFO is found with bytes in it, and read. */
  predicate Emptied(c: Call) {
    && c.countError == 0 && 0 < |c.fifo| <= HARDWARE_FIFO_SIZE && |c.fifo| % 2 == 0
    && Ring.Error(c.bus, |c.fifo|) == 0
  }

  /** The call flushes both FIFOs, with all that this resets. */
  predicate Flushes(p: u32, g: Guards, n: nat, c: Call) {
    && !Dropped(g, c) && (p * n < Ring.MIN_TICK_READING_TIME || c.ticksError == 0)
    && c.countError == 0 && |c.fifo| % 2 == 1
  }

  /** Every measurement is followed by its adjustment, and is one that `ClockLoop` can use; nothing is
      flushed. What a call does not measure stays pending. Calls that are dropped, come early, or fail to read
      the ticks are free. */
  ghost predicate Readings(p: u32, g: Guards, pending: nat, ticks: seq<nat>, calls: seq<Call>, largest: int)
    decreases |ticks|
  {
    && |ticks| == |calls|
    && (ticks != [] ==>
      var n, c := pending + ticks[0], calls[0];
      && 0 <= p * n < TWO_64 && !Flushes(p, g, n, c)
      && (Measures(p, g, n, c) ==> Emptied(c) && n <= 10_000 && ClockLoop.Measurement(n, largest))
      && Readings(p, Guarded(g, c), if Measures(p, g, n, c) then 0 else n, ticks[1..], calls[1..], largest))
  }

  /** The tick counts that are measured. */
  ghost function Measured(p: u32, g: Guards, pending: nat, ticks: seq<nat>, calls: seq<Call>, largest: int)
    : (r: seq<u32>)
    requires Readings(p, g, pending, ticks, calls, largest)
    ensures forall t :: t in r ==> ClockLoop.Measurement(t, largest)
    decreases |ticks|
  {
    if ticks == [] then []
    else
      var n, c := pending + ticks[0], calls[0];
      if Measures(p, g, n, c) then [n] + Measured(p, Guarded(g, c), 0, ticks[1..], calls[1..], largest)
      else Measured(p, Guarded(g, c), n, ticks[1..], calls[1..], largest)
  }

  // ----- one call -----

  /** What the driver last measured lies `n` ticks behind the chip. */
  ghost predicate Behind(t: Tracker, p: u32, n: nat, now: u64, counter: u32) {
    now == U64(t.prev + p * n) && counter == U32(t.counter + n)
  }

  lemma StillBehind(t: Tracker, p: u32, pending: nat, more: nat, now: u64, counter: u32)
    requires Behind(t, p, pending, now, counter)
    ensures Behind(t, p, pending + more, U64(now + p * more), U32(counter + more))
  {
    assert p * (pending + more) == p * pending + p * more;
    U64Twice(t.prev, p * pending, p * more);
    U32Twice(t.counter, pending, more);
  }

  lemma U64Twice(x: int, y: int, z: int)
    ensures U64(U64(x + y) + z) == U64(x + (y + z))
  {
  }

  lemma U32Twice(x: int, y: int, z: int)
    ensures U32(U32(x + y) + z) == U32(x + (y + z))
  {
  }

  lemma Elapsed(prev: u64, x: int)
    requires 0 <= x < TWO_64
    ensures U64(U64(prev + x) - prev) == x == U64(x)
  {
  }

  lemma CountBack(before: u32, t: u32)
    ensures U32(U32(before + t) - before) == t
  {
  }

  /** A call that measures adjusts the clock by what the true period gives; any other one leaves the
      measurement where it was. */
  lemma ServedClock(sl: Slaves, t: Tracker, p: u32, n: nat, c: Call)
    requires Ready(t, c) && Behind(t, p, n, c.now, c.counter) && 0 <= p * n < TWO_64
    requires !Flushes(p, t.guards, n, c)
    requires Measures(p, t.guards, n, c) ==> Emptied(c) && n <= 10_000
    ensures
      var u := Served(sl, t, c).0;
      && u.guards == Guarded(t.guards, c)
      && (if Measures(p, t.guards, n, c) then
            u.clock == ClockLoop.AdjustedAt(t.clock, p, n) && u.prev == c.now && u.counter == c.counter
          else u.clock == t.clock && u.prev == t.prev && u.counter == t.counter)
  {
    hide Dropped, Guarded, Parse, ValidSensors, ClockLoop.Adjusted, Ring.WithDurations, U64, U32;
    var x := p * n;
    Elapsed(t.prev, x);
    if Measures(p, t.guards, n, c) {
      CountBack(t.counter, n);
    }
  }

  // ----- the clock over every run -----

  /** Over every such run of interrupts the driver's clock makes the run of the clock loop over the readings
      that are measurements. */
  lemma {:induction false} ClockOverRun(sl: Slaves, t: Tracker, p: u32, pending: nat, now: u64, counter: u32,
                                        ticks: seq<nat>, calls: seq<Call>, largest: int)
    requires AllReady(t, calls) && Behind(t, p, pending, now, counter)
    requires Ticking(p, now, counter, ticks, calls) && Readings(p, t.guards, pending, ticks, calls, largest)
    ensures Run(sl, t, calls).0.clock
         == ClockLoop.Run(t.clock, p, Measured(p, t.guards, pending, ticks, calls, largest))
    decreases |calls|
  {
    hide Served, Dropped, Guarded, Emptied, Flushes, Measures, Behind, ValidSensors;
    hide ClockLoop.AdjustedAt, ClockLoop.Measurement;
    if calls != [] {
      var n, c := pending + ticks[0], calls[0];
      assert c in calls;
      StillBehind(t, p, pending, ticks[0], now, counter);
      ServedClock(sl, t, p, n, c);
      var u := Served(sl, t, c).0;
      var left := if Measures(p, t.guards, n, c) then 0 else n;
      AfterCall(t, u, p, n, c);
      ClockOverRun(sl, u, p, left, c.now, c.counter, ticks[1..], calls[1..], largest);
      var more := Measured(p, u.guards, left, ticks[1..], calls[1..], largest);
      assert ([n] + more)[1..] == more;
    }
  }

  lemma AfterCall(t: Tracker, u: Tracker, p: u32, n: nat, c: Call)
    requires Behind(t, p, n, c.now, c.counter)
    requires if Measures(p, t.guards, n, c) then u.prev == c.now && u.counter == c.counter
             else u.prev == t.prev && u.counter == t.counter
    ensures Behind(u, p, if Measures(p, t.guards, n, c) then 0 else n, c.now, c.counter)
  {
    hide Measures, U64, U32;
    OwnReading(u.prev, u.counter);
  }

  lemma OwnReading(now: u64, counter: u32)
    ensures U64(now) == now && U32(counter) == counter
  {
  }

  /** The running driver against a chip with a constant period: with no momentum at the start, its error
      never exceeds the bound of the clock loop. */
  method TrackClock(d: Ring.Driver, sl: Slaves, p: u32, calls: seq<Call>, ghost ticks: seq<nat>, ghost largest: int)
    requires d.Valid() && AllReady(Of(d), calls)
    requires Ticking(p, d.prevTs, d.dmpCounter, ticks, calls)
    requires Readings(p, Of(d).guards, 0, ticks, calls, largest)
    requires d.dmpIntervalAccum == 0 && 4 <= largest && ClockLoop.Fits(p, Max(Abs(d.dmpInterval - p), largest))
    modifies d, d.fifoData, d.leftOver
    ensures d.Valid()
    ensures d.TickClock()
         == ClockLoop.Run(old(d.TickClock()), p, Measured(p, old(Of(d)).guards, 0, ticks, calls, largest))
    ensures Abs(d.dmpInterval - p) <= Max(Abs(old(d.dmpInterval) - p), largest)
  {
    hide Run, Ticking, Readings, Measured, AllReady, Records.Encodes, ClockLoop.Run, ClockLoop.Fits;
    ghost var t := Of(d);
    ClockOverRun(sl, t, p, 0, t.prev, t.counter, ticks, calls, largest);
    ClockLoop.TrackingErrorBounded(t.clock, p, Measured(p, t.guards, 0, ticks, calls, largest), largest);
    Serve(d, sl, calls);
  }
}
