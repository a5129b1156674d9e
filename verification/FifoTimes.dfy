/** Time stamps: per sensor they move forward, and the interpolated step times lie strictly between
    two packets. */
module FifoTimes {
  import opened Machine
  import opened Records
  import opened Fifo
  import FifoTheorems

  /** Times of the records of sensor `s`, in order. */
  function Times(out: seq<Record>, s: nat): seq<u64> {
    if out == [] then []
    else (if !out[0].Marker? && out[0].sensor == s then [out[0].t] else []) + Times(out[1..], s)
  }

  ghost predicate Increasing(xs: seq<int>) {
    forall i, j :: 0 <= i < j < |xs| ==> xs[i] < xs[j]
  }

  ghost predicate Within(xs: seq<int>, lo: int, hi: int) {
    forall i :: 0 <= i < |xs| ==> lo < xs[i] <= hi
  }

  lemma {:induction false} TimesConcat(a: seq<Record>, b: seq<Record>, s: nat)
    ensures Times(a + b, s) == Times(a, s) + Times(b, s)
  {
    if a == [] {
      assert a + b == b;
    } else {
      assert (a + b)[1..] == a[1..] + b;
      TimesConcat(a[1..], b, s);
    }
  }

  // ----- joining -----

  lemma JoinIncreasing(xs: seq<int>, ys: seq<int>, lo: int, mid: int, hi: int)
    requires Increasing(xs) && Within(xs, lo, mid)
    requires Increasing(ys) && Within(ys, mid, hi)
    requires lo <= mid <= hi
    ensures Increasing(xs + ys) && Within(xs + ys, lo, hi)
  {
  }

  lemma NoTimes(s: nat, lo: int, hi: int)
    ensures Times([], s) == [] && Increasing(Times([], s)) && Within(Times([], s), lo, hi)
  {
  }

  lemma SingleTime(r: Record, s: nat)
    ensures Times([r], s) == if !r.Marker? && r.sensor == s then [r.t] else []
  {
    assert [r][1..] == [];
  }

  // ----- step indicators -----

  lemma NoWrap(ts: u64, x: int, dur: int32)
    requires 0 <= x <= dur && ts + dur < TWO_64
    ensures U64(ts + S32(x)) == ts + x
  {
  }

  /** Indicators `q` apart, from the i-th on: `x` is i times `q` and `top` is `steps` times `q`. */
  lemma {:induction false} IndicatorsIncrease(s: nat, ts: u64, dur: int32, q: int, i: nat, steps: nat, x: int, top: int)
    requires ts + dur < TWO_64 && 1 <= q && i <= steps
    requires x == i * q && 0 <= x && top <= dur && x + (steps - i) * q == top
    ensures
      var xs := Times(StepIndicators(s, ts, q, i, steps), s);
      Increasing(xs) && Within(xs, ts + x - 1, ts + top - 1)
    decreases steps - i
  {
    hide Times, U64, S32, Increasing, Within;
    if i >= steps {
      NoTimes(s, ts + x - 1, ts + top - 1);
    } else {
      assert x + q <= top by {
        MulLe(1, steps - i, q);
      }
      assert (i + 1) * q == x + q;
      assert (steps - i) * q == (steps - (i + 1)) * q + q;
      IndicatorsIncrease(s, ts, dur, q, i + 1, steps, x + q, top);
      NoWrap(ts, x, dur);
      var first := Event(s, STEP_INDICATOR_HDR, ts + x);
      TimesConcat([first], StepIndicators(s, ts, q, i + 1, steps), s);
      SingleTime(first, s);
      OneTime(ts + x, q);
      var later := Times(StepIndicators(s, ts, q, i + 1, steps), s);
      JoinIncreasing([ts + x], later, ts + x - 1, ts + x + q - 1, ts + top - 1);
    }
  }

  lemma OneTime(t: int, q: int)
    requires 1 <= q
    ensures Increasing([t]) && Within([t], t - 1, t + q - 1)
  {
  }

  /** The indicators lie strictly between the previous packet's time and the next one's, in order,
      exactly when the sample period has at least one nanosecond for every step. */
  lemma IndicatorsBetweenPackets(s: nat, ts: u64, dur: int32, steps: nat)
    requires 1 < steps <= 15 && 0 <= dur && ts + dur < TWO_64
    ensures
      var xs := Times(StepIndicators(s, ts, dur / steps, 1, steps), s);
      (Increasing(xs) && Within(xs, ts, ts + dur - 1)) <==> steps <= dur
  {
    hide Times, StepIndicators, Increasing;
    var q := dur / steps;
    if steps <= dur {
      AtMostQuotient(1, steps, dur);
      var top := steps * q;
      assert top <= dur;
      assert q + (steps - 1) * q == top;
      IndicatorsIncrease(s, ts, dur, q, 1, steps, q, top);
    } else {
      QuotientIs(dur, steps, 0);
      FirstIndicator(s, ts, steps);
      assert Times(StepIndicators(s, ts, 0, 1, steps), s)[0] == ts;
    }
  }

  /** With no room at all the first indicator repeats the previous packet's time. */
  lemma FirstIndicator(s: nat, ts: u64, steps: nat)
    requires 1 < steps
    ensures var xs := Times(StepIndicators(s, ts, 0, 1, steps), s); |xs| > 0 && xs[0] == ts
  {
    var rest := StepIndicators(s, ts, 0, 2, steps);
    TimesConcat([Event(s, STEP_INDICATOR_HDR, ts)], rest, s);
    SingleTime(Event(s, STEP_INDICATOR_HDR, ts), s);
  }

  // ----- the whole stream -----

  /** A packet of sensor `s` yields times between its previous and its new time stamp. */
  lemma OwnTimes(s: nat, was: Sensor, steps: nat, payload: seq<Record>)
    requires 15 <= was.dur && was.ts + was.dur < TWO_64 && steps <= 15
    requires Times(payload, s) == [] || Times(payload, s) == [was.ts + was.dur]
    ensures
      var xs := Times(Indicated(s, was, steps) + payload, s);
      Increasing(xs) && Within(xs, was.ts, was.ts + was.dur)
  {
    hide Times, StepIndicators;
    TimesConcat(Indicated(s, was, steps), payload, s);
    var xs := Times(Indicated(s, was, steps), s);
    if steps > 1 {
      IndicatorsBetweenPackets(s, was.ts, was.dur, steps);
    } else {
      NoTimes(s, was.ts, was.ts + was.dur - 1);
    }
    JoinIncreasing(xs, Times(payload, s), was.ts, was.ts + was.dur - 1, was.ts + was.dur);
  }

  lemma {:induction false} OtherTimes(s: nat, other: nat, ts: u64, q: int, i: nat, steps: nat)
    requires s != other
    ensures Times(StepIndicators(other, ts, q, i, steps), s) == []
    decreases steps - i
  {
    if i < steps {
      var first := [Event(other, STEP_INDICATOR_HDR, U64(ts + S32(i * q)))];
      TimesConcat(first, StepIndicators(other, ts, q, i + 1, steps), s);
      OtherTimes(s, other, ts, q, i + 1, steps);
    }
  }

  lemma PayloadTimes(sl: Slaves, st: State, own: nat, hdr: u16, steps: nat, ts: u64, b: seq<byte>, s: nat)
    requires own < SENSOR_NUM && |b| >= InitialSize(own) && hdr % 16 == 0
    ensures
      var xs := Times(Payload(sl, st, own, hdr, steps, ts, b), s);
      xs == [] || (s == own && xs == [ts])
  {
    hide Vector16, Vector32, OutHeader;
    var out := Payload(sl, st, own, hdr, steps, ts, b);
    assert out == [] || (|out| == 1 && (out[0].Marker? || (out[0].sensor == own && out[0].t == ts)));
    if out != [] {
      assert out[1..] == [];
    }
  }

  /** One packet, seen by sensor `s`. */
  lemma PacketTimes(sl: Slaves, st: State, b: seq<byte>, s: nat)
    requires ValidSensors(st.sensor) && Next(sl, st, b).Packet?
    requires s < SENSOR_NUM && s != STEP
    requires 15 <= st.sensor[s].dur && st.sensor[s].ts + st.sensor[s].dur < TWO_64
    ensures
      var n := Next(sl, st, b);
      var xs := Times(n.out, s);
      && Increasing(xs) && Within(xs, st.sensor[s].ts, n.st.sensor[s].ts)
      && st.sensor[s].ts <= n.st.sensor[s].ts <= st.sensor[s].ts + st.sensor[s].dur
  {
    hide FromBe16, FromBe32, StepTime, Payload, Times, Indicated, S32, TruncDiv;
    var steps, hdr := Steps(FromBe16(b)), Header(FromBe16(b));
    var own := SensorOf(hdr);
    var n := Next(sl, st, b);
    NoTimes(s, st.sensor[s].ts, st.sensor[s].ts);
    if own == INVALID || !st.sensor[own].on {
    } else if own == STEP {
      assert n.out == [Event(STEP, hdr, StepTime(st, b))];
      SingleTime(n.out[0], s);
    } else {
      var was := st.sensor[own];
      var ts := U64(was.ts + was.dur);
      var st' := st.(sensor := st.sensor[own := was.(ts := ts)]);
      var payload := Payload(sl, st, own, hdr, steps, ts, b);
      assert n.out == Indicated(own, was, steps) + payload;
      PayloadTimes(sl, st, own, hdr, steps, ts, b, s);
      if own == s {
        OwnTimes(s, was, steps, payload);
      } else {
        TimesConcat(Indicated(own, was, steps), payload, s);
        OtherIndicated(s, own, was, steps);
      }
    }
  }

  lemma OtherIndicated(s: nat, other: nat, was: Sensor, steps: nat)
    requires s != other
    ensures Times(Indicated(other, was, steps), s) == []
  {
    if steps > 1 {
      OtherTimes(s, other, was.ts, TruncDiv(was.dur, steps), 1, steps);
    }
  }

  /** Per sensor the pushed times strictly increase over the whole stream, starting after the time
      stamp the sensor had before, interpolated steps included. */
  lemma {:induction false} TimesMoveForward(sl: Slaves, st: State, b: seq<byte>, s: nat)
    requires ValidSensors(st.sensor) && s < SENSOR_NUM && s != STEP
    requires 15 <= st.sensor[s].dur && st.sensor[s].ts + (|b| / 8) * st.sensor[s].dur < TWO_64
    ensures
      var p := Parse(sl, st, b);
      var xs := Times(p.out, s);
      && Increasing(xs) && Within(xs, st.sensor[s].ts, p.st.sensor[s].ts)
      && st.sensor[s].ts <= p.st.sensor[s].ts
    decreases |b|
  {
    hide Next, Times, Increasing, Within;
    match Next(sl, st, b)
    case Stop =>
      NoTimes(s, st.sensor[s].ts, st.sensor[s].ts);
    case Packet(n, st', out) =>
      var dur := st.sensor[s].dur;
      FifoTheorems.NextKeepsSettings(sl, st, b);
      EnoughRoom(|b|, n, dur);
      PacketTimes(sl, st, b, s);
      TimesMoveForward(sl, st', b[n..], s);
      var p := Parse(sl, st', b[n..]);
      TimesConcat(out, p.out, s);
      JoinIncreasing(Times(out, s), Times(p.out, s), st.sensor[s].ts, st'.sensor[s].ts, p.st.sensor[s].ts);
  }

  lemma EnoughRoom(size: nat, n: nat, dur: nat)
    requires 8 <= n <= size
    ensures dur + ((size - n) / 8) * dur <= (size / 8) * dur
    ensures dur <= (size / 8) * dur
  {
    MulLe((size - n) / 8 + 1, size / 8, dur);
    MulLe(1, size / 8, dur);
    assert ((size - n) / 8 + 1) * dur == ((size - n) / 8) * dur + dur;
  }

  /** Every eight bytes move a sensor's time by at most one period. */
  lemma {:induction false} TimePerByte(sl: Slaves, st: State, b: seq<byte>, s: nat)
    requires ValidSensors(st.sensor) && s < SENSOR_NUM && s != STEP
    requires 15 <= st.sensor[s].dur && 8 * st.sensor[s].ts + |b| * st.sensor[s].dur < 8 * TWO_64
    ensures
      var p := Parse(sl, st, b);
      8 * p.st.sensor[s].ts + |p.rest| * st.sensor[s].dur <= 8 * st.sensor[s].ts + |b| * st.sensor[s].dur
    decreases |b|
  {
    hide Next, Times, Increasing, Within;
    match Next(sl, st, b)
    case Stop =>
    case Packet(n, st', out) =>
      var dur := st.sensor[s].dur;
      FifoTheorems.NextKeepsSettings(sl, st, b);
      EightUsed(|b|, n, dur);
      PacketTimes(sl, st, b, s);
      TimePerByte(sl, st', b[n..], s);
  }

  lemma EightUsed(size: nat, n: nat, dur: nat)
    requires 8 <= n <= size
    ensures 0 <= (size - n) * dur && (size - n) * dur + 8 * dur <= size * dur
  {
    MulLe(8, n, dur);
    assert size * dur == (size - n) * dur + n * dur;
  }
}
