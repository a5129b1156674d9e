/** `inv_read_fifo` (`inv_mpu_ring.c`) with the DMP on, over whole runs of interrupts: the guards in front,
    the reading of time and ticks, the FIFO parsed, the clock adjusted, and the flush of an odd count. */
module Service {
  import opened Machine
  import opened Records
  import opened Fifo
  import ClockLoop
  import FifoTimes
  import Ring

  const DMP_MIN_RUN_TIME := 37_000_000

  /** What one interrupt finds. In front: when it came, how the read of the interrupt status ended, whether
      that shows significant motion, whether only events are wanted. Then the time, the chip's tick
      counter and the error of reading it, the error of reading the FIFO's count, its bytes, and how their
      transfers end. Last, the time of the reset that an odd count causes, or nothing if that fails. */
  datatype Call = Call(
    arrived: u64, statusError: int, motion: bool, eventsOnly: bool,
    now: u64, counter: u32, ticksError: int, countError: int, fifo: seq<byte>, bus: Ring.Bus,
    reset: Option<u64>)

  /** What decides whether an interrupt is served at all. */
  datatype Guards = Guards(lastRun: u64, smd: bool)

  /** The driver as these interrupts see it. */
  datatype Tracker = Tracker(
    core: State, left: seq<byte>, clock: ClockLoop.Clock,
    adjust: bool, ticks: u32, counter: u32, last: u64, prev: u64, rate: u16, guards: Guards)

  /** Interrupts within 37 ms of the last one served are dropped, unless significant motion was seen. */
  predicate Dropped(g: Guards, c: Call) {
    || c.statusError != 0 || c.eventsOnly
    || (!g.smd && !c.motion && U64(c.arrived - g.lastRun) < DMP_MIN_RUN_TIME)
  }

  function Guarded(g: Guards, c: Call): Guards {
    if c.statusError != 0 then g
    else if Dropped(g, c) then g.(smd := g.smd || c.motion)
    else if g.smd || c.motion then g.(smd := false)
    else g.(lastRun := c.arrived)
  }

  /** Significant motion gets itself served, or, if only events were wanted, the next interrupt that is read;
      that uses it up and leaves the 37 ms as they were. */
  lemma MotionIsServed(g: Guards, c: Call, next: Call)
    requires c.statusError == 0 && c.motion && next.statusError == 0 && !next.eventsOnly
    ensures if c.eventsOnly then
              Dropped(g, c) && !Dropped(Guarded(g, c), next)
              && Guarded(Guarded(g, c), next) == Guards(g.lastRun, false)
            else !Dropped(g, c) && Guarded(g, c) == Guards(g.lastRun, false)
  {
  }

  /** When the interrupts came that were served. */
  function Arrivals(g: Guards, calls: seq<Call>): seq<u64>
    decreases |calls|
  {
    if calls == [] then []
    else (if Dropped(g, calls[0]) then [] else [calls[0].arrived]) + Arrivals(Guarded(g, calls[0]), calls[1..])
  }

  ghost predicate Apart(first: u64, xs: seq<u64>)
    decreases |xs|
  {
    xs != [] ==> U64(xs[0] - first) >= 37_000_000 && Apart(xs[0], xs[1..])
  }

  /** Without significant motion, the interrupts served over a whole run are 37 ms apart. */
  lemma {:induction false} ServedApart(g: Guards, calls: seq<Call>)
    requires !g.smd && forall c :: c in calls ==> !c.motion
    ensures Apart(g.lastRun, Arrivals(g, calls))
    decreases |calls|
  {
    if calls != [] {
      var rest := Arrivals(Guarded(g, calls[0]), calls[1..]);
      assert ([calls[0].arrived] + rest)[1..] == rest && [] + rest == rest;
      ServedApart(Guarded(g, calls[0]), calls[1..]);
    }
  }

  predicate Early(t: Tracker, c: Call) {
    U64(c.now - t.prev) < Ring.MIN_TICK_READING_TIME
  }

  /** A reading within a second of the last adjustment is not one. */
  function Timed(t: Tracker, c: Call): Tracker {
    if Early(t, c) then t.(last := c.now, adjust := false)
    else if c.ticksError != 0 then t.(last := c.now)
    else t.(last := c.now, ticks := U32(c.counter - t.counter), counter := c.counter, adjust := true)
  }

  /** The call ends before it looks at the count, or finds nothing to read. */
  predicate Ended(t: Tracker, c: Call) {
    (!Early(t, c) && c.ticksError != 0) || c.countError != 0 || c.fifo == []
  }

  function Restarted(t: Tracker, now: u64): Tracker {
    t.(core := State(Ring.WithTs(t.core.sensor, now), false, false, now), left := [],
       clock := ClockLoop.Clock(Ring.DMP_INTERVAL_INIT, 0), last := now, prev := now,
       guards := t.guards.(lastRun := now))
  }

  /** `inv_process_batchmode`. */
  function Batched(sl: Slaves, t: Tracker, c: Call): (r: (Tracker, seq<Record>))
    requires Ready(t, c)
    ensures ValidSensors(r.0.core.sensor) && r.0.rate == t.rate && r.0.guards == t.guards
  {
    var (st, left) := Ring.Started(t.core, t.left, |c.fifo|, t.last, t.rate);
    if |c.fifo| > HARDWARE_FIFO_SIZE then (t, [])
    else if Ring.Error(c.bus, |c.fifo|) != 0 then (t.(core := st, left := left), [])
    else
      var p := Parse(sl, st, left + c.fifo);
      if t.adjust then
        var clock := ClockLoop.Adjusted(t.clock, U64(t.last - t.prev), t.ticks);
        (t.(core := p.st.(sensor := Ring.WithDurations(p.st.sensor, clock.interval)),
            left := p.rest, clock := clock, prev := t.last), p.out)
      else (t.(core := p.st, left := p.rest), p.out)
  }

  /** A full FIFO divides by the byte rate. */
  ghost predicate Ready(t: Tracker, c: Call) {
    ValidSensors(t.core.sensor) && (|c.fifo| == HARDWARE_FIFO_SIZE ==> 0 < t.rate)
  }

  /** One interrupt: the new state and the records pushed. */
  function Served(sl: Slaves, t: Tracker, c: Call): (r: (Tracker, seq<Record>))
    requires Ready(t, c)
    ensures ValidSensors(r.0.core.sensor) && r.0.rate == t.rate
  {
    var w := t.(guards := Guarded(t.guards, c));
    if Dropped(t.guards, c) then (w, [])
    else
      var u := Timed(w, c);
      if Ended(w, c) then (u, [])
      else if |c.fifo| % 2 == 1 then (if c.reset.None? then u else Restarted(u, c.reset.value), [])
      else Batched(sl, u, c)
  }

  // ----- what the other branches do -----

  /** A dropped interrupt touches the guards only. */
  lemma DroppedDoesNothing(sl: Slaves, t: Tracker, c: Call)
    requires Ready(t, c) && Dropped(t.guards, c)
    ensures Served(sl, t, c) == (t.(guards := Guarded(t.guards, c)), [])
  {
  }

  /** With an empty FIFO, or without the ticks or the count, nothing is parsed and the clock stays. */
  lemma EndedParsesNothing(sl: Slaves, t: Tracker, c: Call)
    requires Ready(t, c) && !Dropped(t.guards, c)
    requires c.fifo == [] || c.countError != 0
      || (c.ticksError != 0 && U64(c.now - t.prev) >= 1_000_000_000)
    ensures
      var (u, out) := Served(sl, t, c);
      out == [] && u.core == t.core && u.left == t.left && u.clock == t.clock && u.prev == t.prev
  {
  }

  /** An odd count flushes both FIFOs: what was left over is dropped, every sensor starts from the time of the
      reset, and the clock from 5 ms. */
  lemma OddCountFlushes(sl: Slaves, t: Tracker, c: Call)
    requires Ready(t, c) && !Dropped(t.guards, c) && c.countError == 0 && |c.fifo| % 2 == 1
    requires c.ticksError == 0 || U64(c.now - t.prev) < 1_000_000_000
    ensures
      var (u, out) := Served(sl, t, c);
      && out == []
      && (c.reset.None? ==> u.core == t.core && u.left == t.left && u.clock == t.clock)
      && (c.reset.Some? ==>
           && u.left == [] && u.clock == ClockLoop.Clock(5_000_000, 0)
           && u.prev == u.last == u.guards.lastRun == u.core.stepBase == c.reset.value
           && !u.core.compassNormal && !u.core.pressureNormal
           && |u.core.sensor| == SENSOR_NUM
           && forall i :: 0 <= i < SENSOR_NUM ==>
                u.core.sensor[i] == t.core.sensor[i].(ts := c.reset.value))
  {
  }

  /** A full FIFO drops what was left over and dates all sensors back before it is parsed; more bytes than it
      can hold are not read at all. */
  lemma FullFifoStartsOver(sl: Slaves, t: Tracker, c: Call, s: nat)
    requires Ready(t, c) && !t.adjust && s < SENSOR_NUM
    ensures |c.fifo| == 1024 && Ring.Error(c.bus, 1024) == 0 ==>
      var back := Ring.ResetTime(t.last, t.rate);
      var dated := t.core.(sensor := Ring.WithTs(t.core.sensor, back));
      var p := Parse(sl, dated, c.fifo);
      && dated.sensor[s].ts == back
      && Batched(sl, t, c).0.core == p.st && Batched(sl, t, c).0.left == p.rest && Batched(sl, t, c).1 == p.out
    ensures |c.fifo| > 1024 ==> Batched(sl, t, c) == (t, [])
  {
    hide Parse, Ring.ResetTime;
    assert [] + c.fifo == c.fifo;
  }

  ghost predicate AllReady(t: Tracker, calls: seq<Call>) {
    ValidSensors(t.core.sensor) && forall c :: c in calls ==> |c.fifo| == HARDWARE_FIFO_SIZE ==> 0 < t.rate
  }

  function Run(sl: Slaves, t: Tracker, calls: seq<Call>): (r: (Tracker, seq<Record>))
    requires AllReady(t, calls)
    ensures ValidSensors(r.0.core.sensor)
    decreases |calls|
  {
    if calls == [] then (t, [])
    else
      var one := Served(sl, t, calls[0]);
      var rest := Run(sl, one.0, calls[1..]);
      (rest.0, one.1 + rest.1)
  }

  // ----- the running driver -----

  ghost function Of(d: Ring.Driver): Tracker
    requires d.leftOverSize <= d.leftOver.Length
    reads d, d.leftOver
  {
    Tracker(d.Core(), d.LeftOver(), d.TickClock(), d.adjustTime, d.dmpTicks, d.dmpCounter, d.lastTs, d.prevTs,
            d.bytesPerSec, Guards(d.lastRunTime, d.smdTriggered))
  }

  /** The guards in front. */
  method Wake(d: Ring.Driver, c: Call) returns (go: bool)
    requires d.Valid()
    modifies d`smdTriggered, d`lastRunTime
    ensures d.Valid() && go == !Dropped(old(Of(d)).guards, c)
    ensures Of(d) == old(Of(d)).(guards := Guarded(old(Of(d)).guards, c))
    ensures c.statusError != 0 ==> !go && unchanged(d)
    ensures c.statusError == 0 ==>
      var smd := old(d.smdTriggered) || c.motion;
      if c.eventsOnly then !go && d.smdTriggered == smd && d.lastRunTime == old(d.lastRunTime)
      else
        && (go <==> smd || U64(c.arrived - old(d.lastRunTime)) >= 37_000_000)
        && !d.smdTriggered
        && d.lastRunTime == if go && !smd then c.arrived else old(d.lastRunTime)
  {
    hide Encodes, ValidSensors;
    if c.statusError != 0 {
      return false;
    }
    if c.motion {
      d.smdTriggered := true;
    }
    if c.eventsOnly {
      return false;
    }
    if !d.smdTriggered {
      if U64(c.arrived - d.lastRunTime) < DMP_MIN_RUN_TIME {
        return false;
      }
      d.lastRunTime := c.arrived;
    } else {
      d.smdTriggered := false;
    }
    return true;
  }

  /** `inv_read_fifo`, with the DMP on and its buffer enabled. */
  method ReadFifo(d: Ring.Driver, sl: Slaves, c: Call)
    requires d.Valid() && Ready(Of(d), c)
    modifies d, d.fifoData, d.leftOver
    ensures d.Valid() && (Of(d), d.pushed) == Pushed(old(d.pushed), Served(sl, old(Of(d)), c))
  {
    hide Dropped, Guarded, Encodes, ValidSensors, Batched, Timed, Early, Restarted;
    assert d.pushed + [] == d.pushed;
    var go := Wake(d, c);
    if !go {
      return;
    }
    var res := ReadTicks(d, c);
    if res != 0 || c.countError != 0 {
      return;
    }
    if |c.fifo| % 2 == 1 {
      Flush(d, c);
      return;
    }
    if c.fifo == [] {
      return;
    }
    ProcessBatchmode(d, sl, c);
  }

  method ReadTicks(d: Ring.Driver, c: Call) returns (res: int)
    requires d.Valid()
    modifies d`lastTs, d`adjustTime, d`dmpCounter, d`dmpTicks, d`prevTs
    ensures d.Valid() && Of(d) == Timed(old(Of(d)), c)
    ensures res == if Early(old(Of(d)), c) then 0 else c.ticksError
  {
    hide Encodes, ValidSensors, U64, U32;
    res := d.ReadTimeAndTicks(c.now, c.counter, c.ticksError, false);
  }

  /** The flush of both FIFOs. */
  method Flush(d: Ring.Driver, c: Call)
    requires d.Valid()
    modifies d
    ensures d.Valid() && d.pushed == old(d.pushed)
    ensures Of(d) == if c.reset.None? then old(Of(d)) else Restarted(old(Of(d)), c.reset.value)
  {
    hide Encodes, ValidSensors, Ring.WithTs;
    if c.reset.Some? {
      d.Restart(c.reset.value);
    }
  }

  method ProcessBatchmode(d: Ring.Driver, sl: Slaves, c: Call)
    requires d.Valid() && Ready(Of(d), c)
    modifies d, d.fifoData, d.leftOver
    ensures d.Valid() && (Of(d), d.pushed) == Pushed(old(d.pushed), Batched(sl, old(Of(d)), c))
  {
    hide Parse, Encodes, ClockLoop.Adjusted, Ring.WithDurations, Ring.Started, ValidSensors;
    assert d.pushed + [] == d.pushed;
    var res := d.ProcessBatchmode(sl, c.fifo, c.bus);
  }

  ghost function Pushed(was: seq<Record>, r: (Tracker, seq<Record>)): (Tracker, seq<Record>) {
    (r.0, was + r.1)
  }

  /** A series of interrupts on the running driver is the run from its state. */
  method Serve(d: Ring.Driver, sl: Slaves, calls: seq<Call>)
    requires d.Valid() && AllReady(Of(d), calls)
    modifies d, d.fifoData, d.leftOver
    ensures d.Valid() && (Of(d), d.pushed) == Pushed(old(d.pushed), Run(sl, old(Of(d)), calls))
  {
    hide Served, Encodes, ValidSensors;
    ghost var t, was := Of(d), d.pushed;
    assert calls[0..] == calls;
    var i := 0;
    while i < |calls|
      invariant i <= |calls| && d.Valid() && AllReady(Of(d), calls[i..])
      invariant Pushed(d.pushed, Run(sl, Of(d), calls[i..])) == Pushed(was, Run(sl, t, calls))
    {
      assert calls[i] in calls[i..];
      ghost var now, u := d.pushed, Of(d);
      assert calls[i..][1..] == calls[i + 1..];
      ReadFifo(d, sl, calls[i]);
      ghost var one, rest := Served(sl, u, calls[i]), Run(sl, Of(d), calls[i + 1..]);
      assert now + (one.1 + rest.1) == (now + one.1) + rest.1;
      i := i + 1;
    }
    assert calls[i..] == [] && d.pushed + [] == d.pushed;
  }

  // ----- times -----

  /** At every call the period of sensor `s` has at least fifteen nanoseconds, and its time stays below
      2^64; nothing dates samples back: no full FIFO, and no reset to an earlier time. */
  ghost predicate Steady(sl: Slaves, t: Tracker, calls: seq<Call>, s: nat)
    requires AllReady(t, calls) && s < SENSOR_NUM
    decreases |calls|
  {
    calls != [] ==>
      OnTime(t, calls[0], s) && Steady(sl, Served(sl, t, calls[0]).0, calls[1..], s)
  }

  ghost predicate OnTime(t: Tracker, c: Call, s: nat)
    requires ValidSensors(t.core.sensor) && s < SENSOR_NUM
  {
    var own := t.core.sensor[s];
    && 15 <= own.dur && own.ts + (|t.left + c.fifo| / 8) * own.dur < TWO_64
    && |c.fifo| != HARDWARE_FIFO_SIZE
    && (|c.fifo| % 2 == 1 && c.reset.Some? ==> own.ts <= c.reset.value)
  }

  ghost predicate Moved(r: (Tracker, seq<Record>), ts: u64, s: nat)
    requires ValidSensors(r.0.core.sensor) && s < SENSOR_NUM
  {
    var xs := FifoTimes.Times(r.1, s);
    FifoTimes.Increasing(xs) && FifoTimes.Within(xs, ts, r.0.core.sensor[s].ts) && ts <= r.0.core.sensor[s].ts
  }

  lemma NothingMoved(t: Tracker, ts: u64, s: nat)
    requires ValidSensors(t.core.sensor) && s < SENSOR_NUM && ts <= t.core.sensor[s].ts
    ensures Moved((t, []), ts, s)
  {
    FifoTimes.NoTimes(s, ts, t.core.sensor[s].ts);
  }

  lemma BatchedTimes(sl: Slaves, t: Tracker, c: Call, s: nat)
    requires Ready(t, c) && s < SENSOR_NUM && s != STEP && OnTime(t, c, s)
    ensures Moved(Batched(sl, t, c), t.core.sensor[s].ts, s)
  {
    hide Parse, FifoTimes.Times, ClockLoop.Adjusted;
    NothingMoved(t, t.core.sensor[s].ts, s);
    FifoTimes.TimesMoveForward(sl, t.core, t.left + c.fifo, s);
  }

  lemma ServedTimes(sl: Slaves, t: Tracker, c: Call, s: nat)
    requires Ready(t, c) && s < SENSOR_NUM && s != STEP && OnTime(t, c, s)
    ensures Moved(Served(sl, t, c), t.core.sensor[s].ts, s)
  {
    hide Moved, Batched, Dropped, Guarded, Early;
    var w := t.(guards := Guarded(t.guards, c));
    var u := Timed(w, c);
    NothingMoved(w, t.core.sensor[s].ts, s);
    NothingMoved(u, t.core.sensor[s].ts, s);
    if |c.fifo| % 2 == 1 && c.reset.Some? {
      NothingMoved(Restarted(u, c.reset.value), t.core.sensor[s].ts, s);
    }
    BatchedTimes(sl, u, c, s);
  }

  /** Over a whole run, with the clock adjusted between interrupts and the periods following it, the times
      pushed for a sensor strictly increase from the stamp it had, interpolated steps included. */
  lemma {:induction false} TimesOverRun(sl: Slaves, t: Tracker, calls: seq<Call>, s: nat)
    requires AllReady(t, calls) && s < SENSOR_NUM && s != STEP && Steady(sl, t, calls, s)
    ensures Moved(Run(sl, t, calls), t.core.sensor[s].ts, s)
    decreases |calls|
  {
    hide Served, OnTime, FifoTimes.Times, FifoTimes.Increasing, FifoTimes.Within;
    if calls == [] {
      NothingMoved(t, t.core.sensor[s].ts, s);
    } else {
      var one := Served(sl, t, calls[0]);
      var rest := Run(sl, one.0, calls[1..]);
      ServedTimes(sl, t, calls[0], s);
      TimesOverRun(sl, one.0, calls[1..], s);
      FifoTimes.TimesConcat(one.1, rest.1, s);
      FifoTimes.JoinIncreasing(FifoTimes.Times(one.1, s), FifoTimes.Times(rest.1, s),
                               t.core.sensor[s].ts, one.0.core.sensor[s].ts, rest.0.core.sensor[s].ts);
    }
  }

  /** The same of the running driver: what it adds to the buffer. */
  method ServeInOrder(d: Ring.Driver, sl: Slaves, calls: seq<Call>, ghost s: nat)
    requires d.Valid() && AllReady(Of(d), calls)
    requires s < SENSOR_NUM && s != STEP && Steady(sl, Of(d), calls, s)
    modifies d, d.fifoData, d.leftOver
    ensures d.Valid() && old(d.pushed) <= d.pushed
    ensures
      var xs := FifoTimes.Times(d.pushed[|old(d.pushed)|..], s);
      FifoTimes.Increasing(xs) && FifoTimes.Within(xs, old(d.sensor)[s].ts, d.sensor[s].ts)
  {
    hide Run, Steady, Encodes, FifoTimes.Times, FifoTimes.Increasing, FifoTimes.Within;
    ghost var t, was := Of(d), d.pushed;
    Serve(d, sl, calls);
    TimesOverRun(sl, t, calls, s);
    assert d.pushed[|was|..] == Run(sl, t, calls).1;
  }
}
