/** What a DMP FIFO byte stream means (`inv_parse_header`, `inv_process_batchmode` and
    `inv_push_step_indicator` in `inv_mpu_ring.c`): a parser over the whole, uncut stream. */
module Fifo {
  import opened Machine
  import opened Records

  const GYRO := 0
  const ACCEL := 1
  const COMPASS := 2
  const PRESSURE := 3
  const STEP := 4
  const PEDQ := 5
  const SIXQ := 6
  const LPQ := 7
  const SENSOR_NUM := 8
  const INVALID := 9

  const HARDWARE_FIFO_SIZE := 1024
  const HEADERED_NORMAL_BYTES := 8
  const HEADERED_Q_BYTES := 16
  const STEP_INDICATOR_MASK := 0xf
  const STEP_TICK_NS := 5_000_000

  /** `struct inv_sensor`, without its function pointers. */
  datatype Sensor = Sensor(ts: u64, dur: int32, rate: int32, counter: int32, on: bool, sampleSize: nat)

  /** The part of the driver state that parsing reads and writes. */
  datatype State = State(sensor: seq<Sensor>, compassNormal: bool, pressureNormal: bool, stepBase: u64)

  datatype Option<T> = None | Some(value: T)

  /** `read_data` of the compass and pressure slaves: six payload bytes in, a vector or an error. */
  datatype Slaves = Slaves(compass: seq<byte> -> Option<Vec16>, pressure: seq<byte> -> Option<Vec16>)

  /** Sample sizes as `inv_init_sensor_struct` sets them. */
  function InitialSize(s: nat): nat {
    if s < SIXQ then HEADERED_NORMAL_BYTES else HEADERED_Q_BYTES
  }

  ghost predicate ValidSensors(sensor: seq<Sensor>) {
    && |sensor| == SENSOR_NUM
    && forall s :: 0 <= s < SENSOR_NUM ==> sensor[s].sampleSize == InitialSize(s)
  }

  /** `inv_parse_header`. */
  function SensorOf(hdr: u16): nat {
    if hdr == ACCEL_HDR then ACCEL
    else if hdr == GYRO_HDR then GYRO
    else if hdr == PEDQUAT_HDR then PEDQ
    else if hdr == LPQUAT_HDR then LPQ
    else if hdr == SIXQUAT_HDR then SIXQ
    else if hdr == COMPASS_HDR || hdr == COMPASS_HDR_2 then COMPASS
    else if hdr == PRESSURE_HDR then PRESSURE
    else if hdr == STEP_DETECTOR_HDR then STEP
    else INVALID
  }

  /** The header numbers of each sensor, without the step bits. */
  predicate Names(hdr: u16, s: nat) {
    || (hdr == 0x2000 && s == GYRO)
    || (hdr == 0x4000 && s == ACCEL)
    || (hdr in {0x1000, 0x1800} && s == COMPASS)
    || (hdr == 0x8000 && s == PRESSURE)
    || (hdr == 0x0100 && s == STEP)
    || (hdr == 0x0200 && s == PEDQ)
    || (hdr == 0x0400 && s == SIXQ)
    || (hdr == 0x0800 && s == LPQ)
  }

  /** A header belongs to the sensor that it names, and to none if it names none. */
  lemma SensorIsNamed(hdr: u16)
    ensures forall s :: Names(hdr, s) <==> s == SensorOf(hdr) < SENSOR_NUM
    ensures (forall s :: !Names(hdr, s)) <==> SensorOf(hdr) == INVALID
  {
    if SensorOf(hdr) != INVALID {
      assert Names(hdr, SensorOf(hdr));
    }
  }

  /** The low four bits of a header count steps, the rest names the sensor. */
  function Steps(raw: u16): nat { raw % 16 }

  function Header(raw: u16): u16 { raw - raw % 16 }

  /** Records pushed for the steps between the previous packet, at `ts`, and this one: they are
      `q` apart. */
  function StepIndicators(s: nat, ts: u64, q: int, i: nat, steps: nat): seq<Record>
    decreases steps - i
  {
    if i >= steps then []
    else [Event(s, STEP_INDICATOR_HDR, U64(ts + S32(i * q)))] + StepIndicators(s, ts, q, i + 1, steps)
  }

  function Indicated(s: nat, sensor: Sensor, steps: nat): seq<Record> {
    if steps > 1 then StepIndicators(s, sensor.ts, TruncDiv(sensor.dur, steps), 1, steps) else []
  }

  /** The header of a pushed record keeps only whether there were steps. */
  function OutHeader(hdr: u16, steps: nat): int {
    hdr + if steps > 0 then 1 else 0
  }

  datatype Step =
    | Stop
    | Packet(size: nat, st: State, out: seq<Record>)

  /** The first packet of `b`: an unknown or disabled header skips eight bytes; an incomplete
      packet stops the parser. */
  function Next(sl: Slaves, st: State, b: seq<byte>): (r: Step)
    requires ValidSensors(st.sensor)
    ensures r.Packet? ==> 8 <= r.size <= 16 && r.size <= |b| && ValidSensors(r.st.sensor)
    ensures r.Stop? ==> |b| < HEADERED_Q_BYTES
  {
    if |b| < HEADERED_NORMAL_BYTES then Stop
    else
      var steps, hdr := Steps(FromBe16(b)), Header(FromBe16(b));
      var s := SensorOf(hdr);
      if s == INVALID || !st.sensor[s].on then Packet(HEADERED_NORMAL_BYTES, st, [])
      else if |b| < st.sensor[s].sampleSize then Stop
      else if s == STEP then
        Packet(HEADERED_NORMAL_BYTES, st, [Event(STEP, hdr, StepTime(st, b))])
      else
        var ts := U64(st.sensor[s].ts + st.sensor[s].dur);
        var st' := st.(sensor := st.sensor[s := st.sensor[s].(ts := ts)]);
        Packet(
          st.sensor[s].sampleSize,
          Measured(st', s),
          Indicated(s, st.sensor[s], steps) + Payload(sl, st, s, hdr, steps, ts, b))
  }

  /** Time of a detected step: ticks of 5 ms since the FIFO was reset. */
  function StepTime(st: State, b: seq<byte>): u64
    requires |b| >= HEADERED_NORMAL_BYTES
  {
    U64(st.stepBase + S32(FromBe32(b[4..8])) * STEP_TICK_NS)
  }

  /** The first compass and the first pressure packet after a reset are dropped. */
  function Measured(st: State, s: nat): State {
    if s == COMPASS then st.(compassNormal := true)
    else if s == PRESSURE then st.(pressureNormal := true)
    else st
  }

  function Vector16(b: seq<byte>): Vec16
    requires |b| >= 8
  {
    Vec16(S16(FromBe16(b[2..4])), S16(FromBe16(b[4..6])), S16(FromBe16(b[6..8])))
  }

  function Vector32(b: seq<byte>): Vec32
    requires |b| >= 16
  {
    Vec32(S32(FromBe32(b[4..8])), S32(FromBe32(b[8..12])), S32(FromBe32(b[12..16])))
  }

  function Payload(sl: Slaves, st: State, s: nat, hdr: u16, steps: nat, ts: u64, b: seq<byte>): seq<Record>
    requires s < SENSOR_NUM && |b| >= InitialSize(s) && hdr % 16 == 0
  {
    if s == COMPASS then
      if !st.compassNormal then []
      else if hdr == COMPASS_HDR then FromSlave(sl.compass(b[2..8]), s, OutHeader(hdr, steps), ts)
      else [Marker(hdr)]
    else if s == PRESSURE then
      if !st.pressureNormal then [] else FromSlave(sl.pressure(b[2..8]), s, OutHeader(hdr, steps), ts)
    else if InitialSize(s) == HEADERED_Q_BYTES then
      [Quaternion(s, OutHeader(hdr, steps), Vector32(b), ts)]
    else
      [Sample(s, OutHeader(hdr, steps), Vector16(b), ts)]
  }

  function FromSlave(r: Option<Vec16>, s: nat, hdr: u16, ts: u64): seq<Record> {
    match r
    case None => []
    case Some(d) => [Sample(s, hdr, d, ts)]
  }

  /** What is left after parsing: the new state, the records pushed and the bytes kept. */
  datatype Parsed = Parsed(st: State, out: seq<Record>, rest: seq<byte>)

  function Parse(sl: Slaves, st: State, b: seq<byte>): (p: Parsed)
    requires ValidSensors(st.sensor)
    ensures ValidSensors(p.st.sensor)
    decreases |b|
  {
    match Next(sl, st, b)
    case Stop => Parsed(st, [], b)
    case Packet(n, st', out) =>
      var p := Parse(sl, st', b[n..]);
      Parsed(p.st, out + p.out, p.rest)
  }
}
