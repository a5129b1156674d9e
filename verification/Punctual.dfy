/** When the samples of a sensor stay in order over a whole run of interrupts (`inv_mpu_ring.c`): conditions on
    the starting state, the chip's period and the settings. */
module Punctual {
  import opened Machine
  import opened Fifo
  import opened Service
  import opened Tracking
  import ClockLoop
  import FifoTheorems
  import FifoTimes
  import Records
  import Ring

  /** While the clock is within `bound` of the true period `p`, the sensor's period stays between fifteen
      nanoseconds and `longest`. */
  predicate Regular(own: Sensor, p: u32, bound: int, longest: int32) {
    && 15 <= own.dur <= longest
    && (own.on ==> 1 <= own.counter && bound + 15 <= p && (p + bound) * own.counter <= longest)
  }

  function Bytes(calls: seq<Call>): nat {
    if calls == [] then 0 else |calls[0].fifo| + Bytes(calls[1..])
  }

  /** The time that all these bytes can take, eight of them to a packet, ends below 2^64. */
  predicate EndsInTime(own: Sensor, bytes: nat, longest: int32) {
    8 * own.ts + bytes * longest < 8 * TWO_64
  }

  ghost predicate Plain(c: Call) {
    |c.fifo| < HARDWARE_FIFO_SIZE && |c.fifo| % 2 == 0
  }

  // ----- one call -----

  /** A sensor after a call: its stamp has moved, and its period may have followed the clock. */
  ghost predicate HasFollowed(was: Sensor, own: Sensor, interval: u32) {
    own == was.(ts := own.ts) || (was.on && own == was.(ts := own.ts, dur := S32(interval * was.counter)))
  }

  lemma ParsedSensor(sl: Slaves, st: State, b: seq<byte>, s: nat, longest: int32)
    requires ValidSensors(st.sensor) && s < SENSOR_NUM && s != STEP
    requires 15 <= st.sensor[s].dur <= longest && EndsInTime(st.sensor[s], |b|, longest)
    ensures
      var p := Parse(sl, st, b);
      && p.st.sensor[s] == st.sensor[s].(ts := p.st.sensor[s].ts)
      && 8 * p.st.sensor[s].ts + |p.rest| * longest <= 8 * st.sensor[s].ts + |b| * longest
  {
    hide Parse;
    var p := Parse(sl, st, b);
    var dur := st.sensor[s].dur;
    FifoTheorems.ParseKeepsSettings(sl, st, b);
    FifoTheorems.ParseStops(sl, st, b);
    MulLe(dur, longest, |b|);
    FifoTimes.TimePerByte(sl, st, b, s);
    LongerPeriod(|b|, |p.rest|, dur, longest);
  }

  lemma LongerPeriod(size: nat, rest: nat, dur: int, longest: int)
    requires rest <= size && dur <= longest
    ensures size * dur - rest * dur <= size * longest - rest * longest
  {
    MulLe(dur, longest, size - rest);
    assert size * dur - rest * dur == dur * (size - rest);
    assert size * longest - rest * longest == longest * (size - rest);
  }

  lemma RoomToMove(own: Sensor, size: nat, longest: int32)
    requires 15 <= own.dur <= longest && EndsInTime(own, size, longest)
    ensures own.ts + (size / 8) * own.dur < TWO_64
  {
    var n := size / 8;
    MulLe(8 * n, size, own.dur);
    assert 8 * (n * own.dur) == (8 * n) * own.dur;
    MulLe(own.dur, longest, size);
  }

  lemma BatchedSensor(sl: Slaves, t: Tracker, c: Call, s: nat, longest: int32)
    requires Ready(t, c) && Plain(c) && s < SENSOR_NUM && s != STEP
    requires 15 <= t.core.sensor[s].dur <= longest
    requires EndsInTime(t.core.sensor[s], |t.left| + |c.fifo|, longest)
    ensures
      var u := Batched(sl, t, c).0;
      && HasFollowed(t.core.sensor[s], u.core.sensor[s], u.clock.interval)
      && 8 * u.core.sensor[s].ts + |u.left| * longest
      <= 8 * t.core.sensor[s].ts + (|t.left| + |c.fifo|) * longest
  {
    hide Parse, ClockLoop.Adjusted, Ring.WithDurations;
    MulLe(|t.left|, |t.left| + |c.fifo|, longest);
    ParsedSensor(sl, t.core, t.left + c.fifo, s, longest);
    assert Ring.Started(t.core, t.left, |c.fifo|, t.last, t.rate) == (t.core, t.left);
    var q := Parse(sl, t.core, t.left + c.fifo);
    var was, own := t.core.sensor[s], q.st.sensor[s];
    var clock := ClockLoop.Adjusted(t.clock, U64(t.last - t.prev), t.ticks);
    assert was.(ts := own.ts) == own;
    assert q.st.sensor[s] == own;
  }

  lemma ServedSensor(sl: Slaves, t: Tracker, c: Call, s: nat, longest: int32)
    requires Ready(t, c) && Plain(c) && s < SENSOR_NUM && s != STEP
    requires 15 <= t.core.sensor[s].dur <= longest
    requires EndsInTime(t.core.sensor[s], |t.left| + |c.fifo|, longest)
    ensures OnTime(t, c, s)
    ensures
      var u := Served(sl, t, c).0;
      && HasFollowed(t.core.sensor[s], u.core.sensor[s], u.clock.interval)
      && 8 * u.core.sensor[s].ts + |u.left| * longest
      <= 8 * t.core.sensor[s].ts + (|t.left| + |c.fifo|) * longest
  {
    hide Batched, Dropped, Guarded, Early, Restarted;
    RoomToMove(t.core.sensor[s], |t.left + c.fifo|, longest);
    MulLe(|t.left|, |t.left| + |c.fifo|, longest);
    BatchedSensor(sl, Timed(t.(guards := Guarded(t.guards, c)), c), c, s, longest);
  }

  lemma StaysRegular(was: Sensor, own: Sensor, c: ClockLoop.Clock, p: u32, bound: int, longest: int32)
    requires Regular(was, p, bound, longest) && HasFollowed(was, own, c.interval) && ClockLoop.Within(c, p, bound)
    ensures Regular(own, p, bound, longest)
  {
    if was.on {
      ClockLoop.InsideBounds(c.interval - p, c.accum, bound);
      MulLe(c.interval, p + bound, was.counter);
      MulLe(1, was.counter, c.interval);
      Fits32(c.interval * was.counter);
    }
  }

  // ----- the whole run -----

  /** With a chip of constant period and a clock that is no further than `bound` from it, a sensor whose settings
      keep its period regular is steady at every call of the run, whatever happens in it. */
  lemma {:induction false} SteadyFromStart(
    sl: Slaves, t: Tracker, p: u32, pending: nat, now: u64, counter: u32, ticks: seq<nat>, calls: seq<Call>,
    largest: int, s: nat, bound: int, longest: int32)
    requires AllReady(t, calls) && Behind(t, p, pending, now, counter)
    requires Ticking(p, now, counter, ticks, calls) && Readings(p, t.guards, pending, ticks, calls, largest)
    requires largest <= bound && ClockLoop.Fits(p, bound) && ClockLoop.Within(t.clock, p, bound)
    requires forall c :: c in calls ==> Plain(c)
    requires s < SENSOR_NUM && s != STEP && Regular(t.core.sensor[s], p, bound, longest)
    requires EndsInTime(t.core.sensor[s], |t.left| + Bytes(calls), longest)
    ensures Steady(sl, t, calls, s)
    decreases |calls|
  {
    hide Served, Dropped, Guarded, Emptied, Flushes, Measures, Behind, OnTime, HasFollowed, Regular, Plain;
    hide ClockLoop.AdjustedAt, ClockLoop.Measurement, ClockLoop.Within, ClockLoop.Fits;
    if calls != [] {
      var n, c := pending + ticks[0], calls[0];
      assert c in calls;
      StillBehind(t, p, pending, ticks[0], now, counter);
      ServedClock(sl, t, p, n, c);
      var u := Served(sl, t, c).0;
      AfterCall(t, u, p, n, c);
      ClockStays(t, u, p, n, c, largest, bound);
      RegularPeriod(t.core.sensor[s], p, bound, longest);
      MulLe(|t.left| + |c.fifo|, |t.left| + Bytes(calls), longest);
      ServedSensor(sl, t, c, s, longest);
      StaysRegular(t.core.sensor[s], u.core.sensor[s], u.clock, p, bound, longest);
      TimeLeft(t.core.sensor[s].ts, u.core.sensor[s].ts, |t.left| + |c.fifo|, |u.left|, Bytes(calls[1..]), longest);
      SteadyFromStart(sl, u, p, if Measures(p, t.guards, n, c) then 0 else n, c.now, c.counter,
                      ticks[1..], calls[1..], largest, s, bound, longest);
    }
  }

  lemma RegularPeriod(own: Sensor, p: u32, bound: int, longest: int32)
    requires Regular(own, p, bound, longest)
    ensures 15 <= own.dur <= longest
  {
  }

  lemma TimeLeft(was: u64, ts: u64, had: nat, left: nat, more: nat, longest: int)
    requires 8 * ts + left * longest <= 8 * was + had * longest
    ensures 8 * ts + (left + more) * longest <= 8 * was + (had + more) * longest
  {
    assert (left + more) * longest == left * longest + more * longest;
    assert (had + more) * longest == had * longest + more * longest;
  }

  lemma ClockStays(t: Tracker, u: Tracker, p: u32, n: nat, c: Call, largest: int, bound: int)
    requires largest <= bound && ClockLoop.Fits(p, bound) && ClockLoop.Within(t.clock, p, bound)
    requires if Measures(p, t.guards, n, c) then
               n <= 10_000 && ClockLoop.Measurement(n, largest) && u.clock == ClockLoop.AdjustedAt(t.clock, p, n)
             else u.clock == t.clock
    ensures ClockLoop.Within(u.clock, p, bound)
  {
    hide Measures;
    if Measures(p, t.guards, n, c) {
      ClockLoop.AdjustedFollows(t.clock, p, n, largest, bound);
    }
  }

  /** The running driver: started with no momentum, and with settings that fit the chip's period, it keeps the
      times of a sensor in order over every run of interrupts. */
  method ServePunctually(d: Ring.Driver, sl: Slaves, p: u32, calls: seq<Call>, ghost ticks: seq<nat>,
                         ghost largest: int, ghost s: nat, ghost longest: int32)
    requires d.Valid() && AllReady(Of(d), calls) && forall c :: c in calls ==> Plain(c)
    requires Ticking(p, d.prevTs, d.dmpCounter, ticks, calls)
    requires Readings(p, Of(d).guards, 0, ticks, calls, largest)
    requires d.dmpIntervalAccum == 0 && 4 <= largest && ClockLoop.Fits(p, Max(Abs(d.dmpInterval - p), largest))
    requires s < SENSOR_NUM && s != STEP
    requires Regular(d.sensor[s], p, Max(Abs(d.dmpInterval - p), largest), longest)
    requires EndsInTime(d.sensor[s], d.leftOverSize + Bytes(calls), longest)
    modifies d, d.fifoData, d.leftOver
    ensures d.Valid() && old(d.pushed) <= d.pushed
    ensures
      var xs := FifoTimes.Times(d.pushed[|old(d.pushed)|..], s);
      FifoTimes.Increasing(xs) && FifoTimes.Within(xs, old(d.sensor)[s].ts, d.sensor[s].ts)
  {
    hide Run, Ticking, Readings, Steady, AllReady, Plain, Regular, EndsInTime, Records.Encodes, FifoTimes.Times;
    ghost var t, bound := Of(d), Max(Abs(d.dmpInterval - p), largest);
    assert Behind(t, p, 0, t.prev, t.counter);
    SteadyFromStart(sl, t, p, 0, t.prev, t.counter, ticks, calls, largest, s, bound, longest);
    ServeInOrder(d, sl, calls, s);
  }
}
