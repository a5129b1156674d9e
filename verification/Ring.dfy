/** The driver's FIFO pipeline (`inv_mpu_ring.c`) as it runs: a buffer refilled by each interrupt, the
    left-over bytes carried between calls, and the clock that turns ticks into nanoseconds. */
module Ring {
  import opened Machine
  import opened Records
  import opened Fifo
  import opened ClockLoop
  import FifoTheorems

  const MAX_READ_SIZE := 64
  const NSEC_PER_SEC := 1_000_000_000
  const USEC_PER_SEC := 1_000_000
  const MIN_TICK_READING_TIME := NSEC_PER_SEC
  const DMP_INTERVAL_INIT := 5_000_000
  const INIT_DMP_OUTPUT_RATE := 25

  /** How the reads of a FIFO end: the read of burst number `burst`, of 64 bytes, may return `code`, and
      only a negative one is an error. */
  datatype Bus = Quiet | Fails(burst: nat, code: int)

  function Error(bus: Bus, count: nat): int {
    if bus.Fails? && bus.code < 0 && bus.burst * MAX_READ_SIZE < count then bus.code else 0
  }

  /** Durations after an adjustment: enabled sensors follow the tracked interval. */
  function WithDurations(sensor: seq<Sensor>, interval: u32): (r: seq<Sensor>)
    ensures |r| == |sensor|
    ensures forall i :: 0 <= i < |r| && sensor[i].on ==> r[i] == sensor[i].(dur := S32(interval * sensor[i].counter))
    ensures forall i :: 0 <= i < |r| && !sensor[i].on ==> r[i] == sensor[i]
  {
    seq(|sensor|, i requires 0 <= i < |sensor| =>
      if sensor[i].on then sensor[i].(dur := S32(interval * sensor[i].counter)) else sensor[i])
  }

  /** All time stamps set back by the time a full FIFO takes to fill: 1024 bytes at the byte rate, counted
      in steps of 1024 microseconds. */
  function ResetTime(lastTs: u64, bytesPerSec: u16): (t: u64)
    requires bytesPerSec > 0
    ensures
      var back := U64(lastTs - t);
      && back % 1_024_000 == 0
      && back * bytesPerSec <= 1024 * 1_000_000_000 < (back + 1_024_000) * bytesPerSec
  {
    TimeBack(lastTs, bytesPerSec);
    U64(lastTs - U32(USEC_PER_SEC / bytesPerSec * 1024) * 1000)
  }

  lemma TimeBack(lastTs: u64, b: u16)
    requires b > 0
    ensures
      var back := U64(lastTs - U64(lastTs - U32(USEC_PER_SEC / b * 1024) * 1000));
      && back % 1_024_000 == 0
      && back * b <= 1024 * 1_000_000_000 < (back + 1_024_000) * b
  {
    hide U32, U64;
    var q := USEC_PER_SEC / b;
    QuotientBounds(USEC_PER_SEC, b);
    Fits32(q * 1024);
    var x := q * 1_024_000;
    BackAgain(lastTs, x);
    assert x * b == (b * q) * 1_024_000;
    assert (x + 1_024_000) * b == (b * q + b) * 1_024_000;
  }

  lemma BackAgain(t: u64, x: int)
    requires 0 <= x < TWO_64
    ensures U64(t - U64(t - x)) == x
  {
  }

  function WithTs(sensor: seq<Sensor>, ts: u64): (r: seq<Sensor>)
    ensures |r| == |sensor|
    ensures forall i :: 0 <= i < |r| ==> r[i] == sensor[i].(ts := ts)
  {
    seq(|sensor|, i requires 0 <= i < |sensor| => sensor[i].(ts := ts))
  }

  /** What a call starts from: a full FIFO drops the old left-over and dates all sensors back. */
  function Started(st: State, left: seq<byte>, count: nat, lastTs: u64, bytesPerSec: u16): (State, seq<byte>)
    requires count == HARDWARE_FIFO_SIZE ==> 0 < bytesPerSec
  {
    if count == HARDWARE_FIFO_SIZE then
      (st.(sensor := WithTs(st.sensor, ResetTime(lastTs, bytesPerSec))), [])
    else (st, left)
  }

  lemma NoIndicators(s: nat, sensor: Sensor, steps: nat)
    requires steps <= 1
    ensures Indicated(s, sensor, steps) == []
  {
  }

  function InitialSensor(i: nat, now: u64): (s: Sensor)
    ensures s.ts == now && !s.on && s.counter == 0
    ensures if i == STEP then s.dur == 1_000_000_000 && s.rate == 1 else s.dur == 40_000_000 && s.rate == 25
    ensures s.sampleSize == if i == SIXQ || i == LPQ then 16 else if i <= PEDQ then 8 else s.sampleSize
  {
    if i == STEP then Sensor(now, NSEC_PER_SEC, 1, 0, false, InitialSize(i))
    else Sensor(now, NSEC_PER_SEC / INIT_DMP_OUTPUT_RATE, INIT_DMP_OUTPUT_RATE, 0, false, InitialSize(i))
  }

  class Driver {
    const fifoData: array<byte>
    const leftOver: array<byte>
    var leftOverSize: nat
    var sensor: seq<Sensor>
    var compassNormal: bool
    var pressureNormal: bool
    var stepDetectorBaseTs: u64
    var adjustTime: bool
    var dmpTicks: u32
    var dmpCounter: u32
    var dmpInterval: u32
    var dmpIntervalAccum: int32
    var lastTs: u64
    var prevTs: u64
    var bytesPerSec: u16
    var lastRunTime: u64
    var smdTriggered: bool
    /** The bytes in the IIO buffer, and the records they stand for. */
    var buffer: seq<byte>
    ghost var pushed: seq<Record>

    ghost predicate Valid()
      reads this
    {
      && fifoData.Length == HARDWARE_FIFO_SIZE + HEADERED_Q_BYTES
      && leftOver.Length == HEADERED_Q_BYTES
      && fifoData != leftOver
      && leftOverSize < HEADERED_Q_BYTES
      && ValidSensors(sensor)
      && Encodes(pushed, buffer)
    }

    ghost function Core(): State
      reads this
    {
      State(sensor, compassNormal, pressureNormal, stepDetectorBaseTs)
    }

    ghost function LeftOver(): seq<byte>
      reads this, leftOver
      requires leftOverSize <= leftOver.Length
    {
      leftOver[..leftOverSize]
    }

    ghost function TickClock(): Clock
      reads this
    {
      Clock(dmpInterval, dmpIntervalAccum)
    }

    /** Everything that neither parsing nor pushing touches. */
    twostate predicate SameClock()
      reads this
    {
      && TickClock() == old(TickClock()) && adjustTime == old(adjustTime)
      && lastTs == old(lastTs) && prevTs == old(prevTs)
      && dmpTicks == old(dmpTicks) && dmpCounter == old(dmpCounter) && bytesPerSec == old(bytesPerSec)
    }

    /** `inv_init_sensor_struct`, on a driver whose FIFO was just reset at time `now`. */
    constructor (now: u64)
      ensures Valid() && LeftOver() == [] && pushed == [] && buffer == []
      ensures TickClock() == Clock(DMP_INTERVAL_INIT, 0)
      ensures forall i :: 0 <= i < SENSOR_NUM ==> sensor[i] == InitialSensor(i, now) && sensor[i].dur > 15
      ensures !compassNormal && !pressureNormal && stepDetectorBaseTs == now && !adjustTime && prevTs == now
      ensures lastRunTime == now && !smdTriggered
      ensures fresh(fifoData) && fresh(leftOver)
    {
      fifoData := new byte[HARDWARE_FIFO_SIZE + HEADERED_Q_BYTES];
      leftOver := new byte[HEADERED_Q_BYTES];
      leftOverSize := 0;
      sensor := seq(SENSOR_NUM, i requires 0 <= i < SENSOR_NUM => InitialSensor(i, now));
      compassNormal, pressureNormal, stepDetectorBaseTs := false, false, now;
      adjustTime, dmpTicks, dmpCounter, dmpInterval, dmpIntervalAccum := false, 0, 0, DMP_INTERVAL_INIT, 0;
      lastTs, prevTs, bytesPerSec := now, now, 0;
      lastRunTime, smdTriggered := now, false;
      buffer, pushed := [], [];
    }

    // ----- pushing -----

    /** `inv_push_marker_to_buffer`: six of the eight bytes are never set. */
    method PushMarker(hdr: u16)
      requires Valid()
      modifies `buffer, `pushed
      ensures Valid() && pushed == old(pushed) + [Marker(hdr)]
    {
      hide Encodes, ValidSensors, Le16;
      var unset: seq<byte> := *;
      if |unset| != 6 {
        unset := [0, 0, 0, 0, 0, 0];
      }
      var word := Le16(hdr) + unset;
      EncodesAppend(pushed, buffer, Marker(hdr), word);
      buffer := buffer + word;
      pushed := pushed + [Marker(hdr)];
    }

    /** `inv_push_8bytes_buffer`; `r` is the record it stands for, an event when the caller's vector
        was never set. */
    method Push8Bytes(hdr: u16, t: u64, d: Vec16, ghost r: Record)
      requires Valid()
      requires (r.Sample? && r == Sample(r.sensor, hdr, d, t)) || (r.Event? && r == Event(r.sensor, hdr, t))
      modifies `buffer, `pushed
      ensures Valid() && pushed == old(pushed) + [r]
    {
      hide Encodes, ValidSensors, Le16, U16, Le64;
      var word := Le16(hdr) + Le16(U16(d.x)) + Le16(U16(d.y)) + Le16(U16(d.z));
      ghost var w := word + Le64(t);
      assert Wire(r, w);
      EncodesAppend(pushed, buffer, r, w);
      assert buffer + word + Le64(t) == buffer + w;
      buffer := buffer + word;
      buffer := buffer + Le64(t);
      pushed := pushed + [r];
    }

    /** `inv_push_16bytes_buffer`: two bytes behind the header are never set. */
    method Push16Bytes(hdr: u16, t: u64, q: Vec32, ghost r: Record)
      requires Valid()
      requires r.Quaternion? && r == Quaternion(r.sensor, hdr, q, t)
      modifies `buffer, `pushed
      ensures Valid() && pushed == old(pushed) + [r]
    {
      hide Encodes, ValidSensors, Le16, Le32, U32, Le64;
      var u0: byte, u1: byte := *, *;
      var word := Le16(hdr) + [u0, u1] + Le32(U32(q.x));
      var word2 := Le32(U32(q.y)) + Le32(U32(q.z));
      ghost var w := word + word2 + Le64(t);
      assert Wire(r, w);
      EncodesAppend(pushed, buffer, r, w);
      assert buffer + word + word2 + Le64(t) == buffer + w;
      buffer := buffer + word;
      buffer := buffer + word2;
      buffer := buffer + Le64(t);
      pushed := pushed + [r];
    }

    /** `inv_push_step_indicator`. */
    method PushStepIndicator(s: nat, steps: nat)
      requires Valid() && s < SENSOR_NUM && 1 < steps
      modifies `buffer, `pushed
      ensures Valid() && pushed == old(pushed) + Indicated(s, sensor[s], steps)
    {
      hide Encodes, U64, S32, TruncDiv;
      var dur := TruncDiv(sensor[s].dur, steps);
      var base := sensor[s].ts;
      var i := 1;
      while i < steps
        invariant 1 <= i <= steps && Valid()
        invariant pushed + StepIndicators(s, base, dur, i, steps)
               == old(pushed) + StepIndicators(s, base, dur, 1, steps)
      {
        var sen: Vec16 := *;
        var t := U64(base + S32(i * dur));
        Push8Bytes(STEP_INDICATOR_HDR, t, sen, Event(s, STEP_INDICATOR_HDR, t));
        i := i + 1;
      }
    }

    // ----- parsing -----

    /** The loop body of `inv_process_batchmode` on the unread bytes `b`: how far to move, or that
        the packet is not complete yet. */
    method ProcessPacket(sl: Slaves, b: seq<byte>) returns (size: nat, doneFlag: bool)
      requires Valid() && HEADERED_NORMAL_BYTES <= |b|
      modifies `sensor, `compassNormal, `pressureNormal, `buffer, `pushed
      ensures Valid()
      ensures
        var n := Next(sl, old(Core()), b);
        if n.Stop? then doneFlag && Core() == old(Core()) && pushed == old(pushed)
        else !doneFlag && size == n.size && Core() == n.st && pushed == old(pushed) + n.out
    {
      hide Encodes, FromBe16, FromBe32, S16, S32, U64, Indicated;
      size, doneFlag := 0, false;
      var raw := FromBe16(b);
      var steps := Steps(raw);
      var hdr := Header(raw);
      var s := SensorOf(hdr);
      // error packet
      if s == INVALID || !sensor[s].on {
        size := HEADERED_NORMAL_BYTES;
        return;
      }
      // incomplete packet
      if |b| < sensor[s].sampleSize {
        doneFlag := true;
        return;
      }
      if s == STEP {
        var sen: Vec16 := *;
        var time := U64(stepDetectorBaseTs + S32(FromBe32(b[4..8])) * STEP_TICK_NS);
        Push8Bytes(hdr, time, sen, Event(STEP, hdr, time));
        size := HEADERED_NORMAL_BYTES;
        return;
      }
      if steps > 1 {
        PushStepIndicator(s, steps);
      }
      ghost var indicated := old(pushed) + Indicated(s, sensor[s], steps);
      assert pushed == indicated by {
        if steps <= 1 {
          NoIndicators(s, sensor[s], steps);
        }
      }
      sensor := sensor[s := sensor[s].(ts := U64(sensor[s].ts + sensor[s].dur))];
      size := PushPayload(sl, s, hdr, steps, b);
    }

    /** The end of the loop body, for a packet of sensor `s` that has its time: the first compass and
        the first pressure packet are dropped, a slave may fail, and the rest is pushed. */
    method PushPayload(sl: Slaves, s: nat, hdr: u16, steps: nat, b: seq<byte>) returns (size: nat)
      requires Valid() && s < SENSOR_NUM && s != STEP && sensor[s].sampleSize <= |b|
      requires s == SensorOf(hdr) && hdr % 16 == 0
      modifies `compassNormal, `pressureNormal, `buffer, `pushed
      ensures Valid() && size == sensor[s].sampleSize && Core() == Measured(old(Core()), s)
      ensures pushed == old(pushed) + Payload(sl, old(Core()), s, hdr, steps, sensor[s].ts, b)
    {
      hide Encodes, FromBe16, FromBe32, S16, S32;
      var t := sensor[s].ts;
      size := HEADERED_NORMAL_BYTES;
      if s == COMPASS {
        if !compassNormal {
          compassNormal := true;
        } else if hdr == COMPASS_HDR {
          var r := sl.compass(b[2..8]);
          if r.Some? {
            Push8Bytes(OutHeader(hdr, steps), t, r.value, Sample(s, OutHeader(hdr, steps), r.value, t));
          }
        } else if hdr == COMPASS_HDR_2 {
          PushMarker(hdr);
        }
        return;
      }
      if s == PRESSURE {
        if !pressureNormal {
          pressureNormal := true;
        } else {
          var r := sl.pressure(b[2..8]);
          if r.Some? {
            Push8Bytes(OutHeader(hdr, steps), t, r.value, Sample(s, OutHeader(hdr, steps), r.value, t));
          }
        }
        return;
      }
      if sensor[s].sampleSize == HEADERED_Q_BYTES {
        var q := Vec32(S32(FromBe32(b[4..8])), S32(FromBe32(b[8..12])), S32(FromBe32(b[12..16])));
        Push16Bytes(OutHeader(hdr, steps), t, q, Quaternion(s, OutHeader(hdr, steps), q, t));
      } else {
        var sen := Vec16(S16(FromBe16(b[2..4])), S16(FromBe16(b[4..6])), S16(FromBe16(b[6..8])));
        Push8Bytes(OutHeader(hdr, steps), t, sen, Sample(s, OutHeader(hdr, steps), sen, t));
      }
      size := sensor[s].sampleSize;
    }

    /** `inv_reset_ts`: all samples of a full FIFO are dated back. */
    method ResetTs()
      requires Valid() && 0 < bytesPerSec
      modifies `sensor
      ensures Valid() && sensor == WithTs(old(sensor), ResetTime(lastTs, bytesPerSec))
      ensures forall i :: 0 <= i < SENSOR_NUM ==>
        && sensor[i] == old(sensor)[i].(ts := sensor[i].ts)
        && var back := U64(lastTs - sensor[i].ts);
           back % 1_024_000 == 0
           && back * bytesPerSec <= 1024 * 1_000_000_000 < (back + 1_024_000) * bytesPerSec
    {
      hide Encodes;
      var dur := USEC_PER_SEC / bytesPerSec;
      dur := U32(dur * 1024);
      StampAll(U64(lastTs - dur * 1000));
    }

    /** The reading loop: `fifo` arrives in bursts of at most 64 bytes behind the left-over, until one of
        them fails. */
    method ReadFifo(start: nat, fifo: seq<byte>, bus: Bus) returns (res: int)
      requires start + |fifo| <= fifoData.Length
      modifies fifoData
      ensures res == Error(bus, |fifo|)
      ensures res == if bus.Fails? && bus.code < 0 && 64 * bus.burst < |fifo| then bus.code else 0
      ensures res == 0 ==> fifoData[..] == Splice(old(fifoData[..]), start, fifo)
    {
      hide Splice;
      ghost var was := fifoData[..];
      SpliceNothing(was, start);
      assert fifo[..0] == [];
      var targetBytes, dptr := |fifo|, start;
      ghost var n := 0;
      res := 0;
      while targetBytes > 0
        invariant 0 <= targetBytes <= |fifo| && dptr == start + |fifo| - targetBytes
        invariant fifoData[..] == Splice(was, start, fifo[..|fifo| - targetBytes])
        invariant targetBytes > 0 ==> dptr == start + MAX_READ_SIZE * n
        invariant |fifo| - targetBytes <= MAX_READ_SIZE * n
        invariant bus.Fails? && bus.code < 0 ==> n <= bus.burst
      {
        var tmp := if targetBytes < MAX_READ_SIZE then targetBytes else MAX_READ_SIZE;
        if bus.Fails? && bus.burst * MAX_READ_SIZE == dptr - start {
          res := bus.code;
        }
        if res < 0 {
          return;
        }
        res := 0;
        var from := |fifo| - targetBytes;
        Copy(fifoData, dptr, fifo[from..from + tmp]);
        SpliceAfter(was, start, fifo[..from], fifo[from..from + tmp]);
        Rejoin(fifo, 0, from, from + tmp);
        dptr := dptr + tmp;
        targetBytes := targetBytes - tmp;
        n := n + 1;
      }
      assert fifo[..|fifo|] == fifo;
    }

    /** `inv_adjust_sensor_ts`: one step of the clock loop, then every enabled sensor's duration. */
    method AdjustSensorTs()
      requires Valid()
      modifies `dmpInterval, `dmpIntervalAccum, `sensor, `prevTs
      ensures Valid()
      ensures !adjustTime ==> unchanged(this)
      ensures adjustTime ==>
                && TickClock() == Adjusted(old(TickClock()), U64(lastTs - old(prevTs)), dmpTicks)
                && sensor == WithDurations(old(sensor), dmpInterval)
                && prevTs == lastTs
      ensures adjustTime ==> forall i :: 0 <= i < SENSOR_NUM ==>
                sensor[i] == if old(sensor)[i].on
                             then old(sensor)[i].(dur := S32(dmpInterval * old(sensor)[i].counter))
                             else old(sensor)[i]
    {
      hide Encodes, S32, U32, U64, Delta;
      if !adjustTime {
        return;
      }
      var delta := MeasureDelta(dmpInterval, U64(lastTs - prevTs), dmpTicks);
      dmpIntervalAccum := S32(dmpIntervalAccum / 2 + delta);
      dmpInterval := U32(dmpInterval + dmpIntervalAccum);
      UpdateDurations();
      prevTs := lastTs;
    }

    method UpdateDurations()
      requires Valid()
      modifies `sensor
      ensures Valid() && sensor == WithDurations(old(sensor), dmpInterval)
    {
      hide Encodes, S32;
      var i := 0;
      ghost var was := sensor;
      while i < SENSOR_NUM
        invariant 0 <= i <= SENSOR_NUM && |sensor| == SENSOR_NUM
        invariant forall k :: 0 <= k < i ==>
          sensor[k] == if was[k].on then was[k].(dur := S32(dmpInterval * was[k].counter)) else was[k]
        invariant forall k :: i <= k < SENSOR_NUM ==> sensor[k] == was[k]
      {
        if sensor[i].on {
          sensor := sensor[i := sensor[i].(dur := S32(dmpInterval * sensor[i].counter))];
        }
        i := i + 1;
      }
    }

    /** The clock after a call: adjusted once if a tick measurement is pending, else untouched. The
        durations of `sensor` follow. */
    twostate predicate ClockAdjusted(parsed: State)
      reads this
    {
      if adjustTime then
        && TickClock() == Adjusted(old(TickClock()), U64(lastTs - old(prevTs)), dmpTicks)
        && Core() == parsed.(sensor := WithDurations(parsed.sensor, dmpInterval))
        && prevTs == lastTs
      else
        TickClock() == old(TickClock()) && Core() == parsed && prevTs == old(prevTs)
    }

    /** `inv_process_batchmode`: what one interrupt with the bytes `fifo` in the hardware FIFO does.
        Everything pushed, stamped and kept is what the stream parser says about the left-over bytes
        followed by `fifo`; then the clock is adjusted. Neither overflow clamp can act. */
    method ProcessBatchmode(sl: Slaves, fifo: seq<byte>, bus: Bus) returns (res: int)
      requires Valid() && (|fifo| == HARDWARE_FIFO_SIZE ==> 0 < bytesPerSec)
      modifies `sensor, `compassNormal, `pressureNormal, `buffer, `pushed
      modifies `dmpInterval, `dmpIntervalAccum, `prevTs, `leftOverSize, fifoData, leftOver
      ensures Valid()
      ensures res == if |fifo| <= HARDWARE_FIFO_SIZE then Error(bus, |fifo|) else 0
      ensures |fifo| > HARDWARE_FIFO_SIZE ==>
                Core() == old(Core()) && LeftOver() == old(LeftOver()) && pushed == old(pushed) && SameClock()
      ensures |fifo| <= HARDWARE_FIFO_SIZE ==>
        var (st, left) := Started(old(Core()), old(LeftOver()), |fifo|, old(lastTs), old(bytesPerSec));
        var p := Parse(sl, st, left + fifo);
        if res != 0 then
          Core() == st && LeftOver() == left && pushed == old(pushed) && SameClock()
        else
          LeftOver() == p.rest && pushed == old(pushed) + p.out && ClockAdjusted(p.st)
          && (adjustTime ==> forall i :: 0 <= i < SENSOR_NUM ==>
               sensor[i] == if p.st.sensor[i].on
                            then p.st.sensor[i].(dur := S32(dmpInterval * p.st.sensor[i].counter))
                            else p.st.sensor[i])
    {
      hide Encodes, Parse, Adjusted, WithTs, WithDurations;
      if HARDWARE_FIFO_SIZE < |fifo| {
        return 0;
      }
      BeginBatch(|fifo|);
      res := ParseBatch(sl, fifo, bus);
    }

    /** The rest of the call: the left-over and the new bytes are put together, parsed, and what is
        not complete is kept. */
    method ParseBatch(sl: Slaves, fifo: seq<byte>, bus: Bus) returns (res: int)
      requires Valid() && |fifo| <= HARDWARE_FIFO_SIZE
      modifies `sensor, `compassNormal, `pressureNormal, `buffer, `pushed
      modifies `dmpInterval, `dmpIntervalAccum, `prevTs, `leftOverSize, fifoData, leftOver
      ensures Valid()
      ensures res == Error(bus, |fifo|)
      ensures
        var p := Parse(sl, old(Core()), old(LeftOver()) + fifo);
        if res != 0 then
          Core() == old(Core()) && LeftOver() == old(LeftOver()) && pushed == old(pushed) && SameClock()
        else
          LeftOver() == p.rest && pushed == old(pushed) + p.out && ClockAdjusted(p.st)
    {
      hide Encodes, Parse, Next, Adjusted, WithDurations, ValidSensors, InitialSize;
      var targetBytes;
      res, targetBytes := FillBuffer(fifo, bus);
      if res == 0 {
        FinishBatch(sl, targetBytes);
      }
    }

    /** The buffer is parsed, the clock adjusted, and the incomplete packet at the end kept. */
    method FinishBatch(sl: Slaves, targetBytes: nat)
      requires Valid() && targetBytes <= fifoData.Length
      modifies `sensor, `compassNormal, `pressureNormal, `buffer, `pushed
      modifies `dmpInterval, `dmpIntervalAccum, `prevTs, `leftOverSize, leftOver
      ensures Valid()
      ensures
        var p := Parse(sl, old(Core()), old(fifoData[..targetBytes]));
        LeftOver() == p.rest && pushed == old(pushed) + p.out && ClockAdjusted(p.st)
    {
      hide Encodes, Parse, Next, Adjusted, WithDurations, ValidSensors, InitialSize;
      FifoTheorems.ParseStops(sl, Core(), fifoData[..targetBytes]);
      var rest := ParseBuffer(sl, targetBytes);
      AdjustSensorTs();
      KeepLeftOver(rest, targetBytes);
    }

    /** The left-over and the bytes of the hardware FIFO, one behind the other in the buffer. */
    method FillBuffer(fifo: seq<byte>, bus: Bus) returns (res: int, targetBytes: nat)
      requires Valid() && |fifo| <= HARDWARE_FIFO_SIZE
      modifies fifoData
      ensures Valid() && LeftOver() == old(LeftOver())
      ensures res == Error(bus, |fifo|)
      ensures res == 0 ==> targetBytes <= fifoData.Length && fifoData[..targetBytes] == LeftOver() + fifo
    {
      hide Encodes, ValidSensors;
      ghost var left := LeftOver();
      targetBytes := |fifo| + leftOverSize;
      var dptr := LoadLeftOver();
      ghost var loaded := fifoData[..];
      res := ReadFifo(dptr, fifo, bus);
      if res == 0 {
        JoinBuffer(loaded, left, fifo);
      }
    }

    lemma JoinBuffer(loaded: seq<byte>, left: seq<byte>, fifo: seq<byte>)
      requires |left| + |fifo| <= |loaded| && loaded[..|left|] == left
      ensures Splice(loaded, |left|, fifo)[..|left| + |fifo|] == left + fifo
    {
    }

    /** A full FIFO means bytes were lost: the left-over is stale and all samples are dated back. */
    method BeginBatch(count: nat)
      requires Valid() && (count == HARDWARE_FIFO_SIZE ==> 0 < bytesPerSec)
      modifies `sensor, `leftOverSize
      ensures Valid()
      ensures (Core(), LeftOver()) == Started(old(Core()), old(LeftOver()), count, lastTs, bytesPerSec)
      ensures count == 1024 ==>
        && LeftOver() == []
        && forall i :: 0 <= i < SENSOR_NUM ==>
             sensor[i] == old(sensor)[i].(ts := ResetTime(lastTs, bytesPerSec))
      ensures count != 1024 ==> LeftOver() == old(LeftOver()) && sensor == old(sensor)
    {
      hide Encodes;
      if count == HARDWARE_FIFO_SIZE {
        ResetTs();
        leftOverSize := 0;
      }
    }

    /** The left-over of the previous call goes to the front of the buffer. */
    method LoadLeftOver() returns (dptr: nat)
      requires Valid()
      modifies fifoData
      ensures dptr == leftOverSize && fifoData[..dptr] == LeftOver()
    {
      hide Encodes, ValidSensors;
      dptr := 0;
      if leftOverSize > 0 {
        // the source limits leftOverSize to 16 here
        assert leftOverSize <= HEADERED_Q_BYTES;
        dptr := leftOverSize;
        forall k | 0 <= k < leftOverSize {
          fifoData[k] := leftOver[k];
        }
      }
    }

    method KeepLeftOver(from: nat, to: nat)
      requires Valid() && from <= to <= fifoData.Length && to - from < HEADERED_Q_BYTES
      modifies `leftOverSize, leftOver
      ensures Valid() && LeftOver() == fifoData[from..to]
    {
      hide Encodes, ValidSensors;
      leftOverSize := to - from;
      if leftOverSize > 0 {
        // ... and here
        assert leftOverSize <= HEADERED_Q_BYTES;
        forall k | 0 <= k < leftOverSize {
          leftOver[k] := fifoData[from + k];
        }
      }
    }

    /** The parsing loop over the first `targetBytes` bytes of the buffer; `dptr` is where it ends. */
    method ParseBuffer(sl: Slaves, targetBytes: nat) returns (dptr: nat)
      requires Valid() && targetBytes <= fifoData.Length
      modifies `sensor, `compassNormal, `pressureNormal, `buffer, `pushed
      ensures Valid()
      ensures
        var p := Parse(sl, old(Core()), fifoData[..targetBytes]);
        dptr <= targetBytes && fifoData[dptr..targetBytes] == p.rest
        && Core() == p.st && pushed == old(pushed) + p.out
    {
      hide Encodes, Parse, Next;
      ghost var p := Parse(sl, Core(), fifoData[..targetBytes]);
      dptr := 0;
      var doneFlag := false;
      while dptr + HEADERED_NORMAL_BYTES <= targetBytes && !doneFlag
        invariant Valid() && dptr <= targetBytes
        invariant
          var q := Parse(sl, Core(), fifoData[dptr..targetBytes]);
          p.st == q.st && p.rest == q.rest && old(pushed) + p.out == pushed + q.out
        invariant doneFlag ==> Next(sl, Core(), fifoData[dptr..targetBytes]).Stop?
        decreases targetBytes - dptr, !doneFlag
      {
        var b := fifoData[dptr..targetBytes];
        ghost var was, st := pushed, Core();
        FifoTheorems.ParseUnfold(sl, st, b);
        var size;
        size, doneFlag := ProcessPacket(sl, b);
        if !doneFlag {
          ghost var n := Next(sl, st, b);
          ghost var q := Parse(sl, n.st, b[size..]);
          assert was + (n.out + q.out) == (was + n.out) + q.out;
          dptr := dptr + size;
          assert b[size..] == fifoData[dptr..targetBytes];
        }
      }
      FifoTheorems.ParseUnfold(sl, Core(), fifoData[dptr..targetBytes]);
    }

    /** The end of `reset_fifo_itg`, after its register writes: everything starts again at `now`, except
        the durations and the counter last read. */
    method Restart(now: u64)
      requires Valid()
      modifies `lastTs, `prevTs, `lastRunTime, `dmpInterval, `dmpIntervalAccum, `leftOverSize
      modifies `sensor, `compassNormal, `pressureNormal, `stepDetectorBaseTs
      ensures Valid() && LeftOver() == []
      ensures Core() == State(WithTs(old(sensor), now), false, false, now)
      ensures TickClock() == Clock(DMP_INTERVAL_INIT, 0) && lastTs == now && prevTs == now
      ensures lastRunTime == now
    {
      hide Encodes, ValidSensors, WithTs;
      lastTs, prevTs, lastRunTime := now, now, now;
      dmpInterval, dmpIntervalAccum := DMP_INTERVAL_INIT, 0;
      RestartParsing(now);
    }

    method RestartParsing(now: u64)
      requires Valid()
      modifies `leftOverSize, `sensor, `compassNormal, `pressureNormal, `stepDetectorBaseTs
      ensures Valid() && LeftOver() == []
      ensures Core() == State(WithTs(old(sensor), now), false, false, now)
    {
      hide Encodes, ValidSensors, WithTs;
      stepDetectorBaseTs, compassNormal, pressureNormal := now, false, false;
      leftOverSize := 0;
      StampAll(now);
    }

    method StampAll(t: u64)
      requires Valid()
      modifies `sensor
      ensures Valid() && sensor == WithTs(old(sensor), t)
    {
      hide Encodes;
      var i := 0;
      ghost var was := sensor;
      while i < SENSOR_NUM
        invariant 0 <= i <= SENSOR_NUM && |sensor| == SENSOR_NUM
        invariant forall k :: 0 <= k < i ==> sensor[k] == was[k].(ts := t)
        invariant forall k :: i <= k < SENSOR_NUM ==> sensor[k] == was[k]
      {
        sensor := sensor[i := sensor[i].(ts := t)];
        i := i + 1;
      }
    }

    /** `inv_read_time_and_ticks` at time `now` with the chip's tick counter reading `counter`. */
    method ReadTimeAndTicks(now: u64, counter: u32, error: int, resume: bool) returns (res: int)
      requires Valid()
      modifies `lastTs, `adjustTime, `dmpCounter, `dmpTicks, `prevTs
      ensures Valid() && lastTs == now
      ensures
        var early := U64(now - old(prevTs)) < MIN_TICK_READING_TIME && !resume;
        if early then
          res == 0 && !adjustTime
          && dmpCounter == old(dmpCounter) && dmpTicks == old(dmpTicks) && prevTs == old(prevTs)
        else if error != 0 then
          res == error && adjustTime == old(adjustTime)
          && dmpCounter == old(dmpCounter) && dmpTicks == old(dmpTicks) && prevTs == old(prevTs)
        else if resume then
          res == 0 && adjustTime == old(adjustTime)
          && dmpCounter == counter && dmpTicks == old(dmpTicks) && prevTs == now
        else
          res == 0 && adjustTime
          && dmpCounter == counter && dmpTicks == U32(counter - old(dmpCounter)) && prevTs == old(prevTs)
    {
      lastTs := now;
      if U64(lastTs - prevTs) < MIN_TICK_READING_TIME && !resume {
        adjustTime := false;
        return 0;
      }
      if error != 0 {
        return error;
      }
      if resume {
        dmpCounter := counter;
        prevTs := lastTs;
        return 0;
      }
      if counter > dmpCounter {
        dmpTicks := counter - dmpCounter;
      } else {
        dmpTicks := U32(0xffff_ffff - dmpCounter + counter + 1);
      }
      dmpCounter := counter;
      adjustTime := true;
      return 0;
    }
  }
}
