/** What the FIFO parser guarantees: independence of how the stream is cut, conservation of bytes,
    and forward-moving time stamps. */
module FifoTheorems {
  import opened Machine
  import opened Records
  import opened Fifo

  // ----- cutting the stream -----

  /** A complete packet is recognised from its own bytes, whatever follows. */
  lemma NextOfPrefix(sl: Slaves, st: State, a: seq<byte>, b: seq<byte>)
    requires ValidSensors(st.sensor) && Next(sl, st, a).Packet?
    ensures Next(sl, st, a + b) == Next(sl, st, a)
  {
    hide FromBe16, FromBe32, S16, S32, U64, TruncDiv, Indicated;
    HeaderOfPrefix(a, b);
    assert (a + b)[2..4] == a[2..4] && (a + b)[4..6] == a[4..6] && (a + b)[6..8] == a[6..8];
    assert (a + b)[4..8] == a[4..8] && (a + b)[2..8] == a[2..8];
    if |a| >= 16 {
      assert (a + b)[8..12] == a[8..12] && (a + b)[12..16] == a[12..16];
    }
  }

  lemma HeaderOfPrefix(a: seq<byte>, b: seq<byte>)
    requires |a| >= 2
    ensures FromBe16(a + b) == FromBe16(a)
  {
  }

  /** Parsing two pieces one after the other, with the left-over bytes of the first put in front
      of the second, is parsing them in one go. */
  lemma {:induction false} ParseOfPieces(sl: Slaves, st: State, a: seq<byte>, b: seq<byte>)
    requires ValidSensors(st.sensor)
    ensures
      var p := Parse(sl, st, a);
      var q := Parse(sl, p.st, p.rest + b);
      Parse(sl, st, a + b) == Parsed(q.st, p.out + q.out, q.rest)
    decreases |a|
  {
    hide Next;
    match Next(sl, st, a)
    case Stop =>
      assert [] + Parse(sl, st, a + b).out == Parse(sl, st, a + b).out;
    case Packet(n, st', out) =>
      NextOfPrefix(sl, st, a, b);
      assert (a + b)[n..] == a[n..] + b;
      ParseOfPieces(sl, st', a[n..], b);
      var p := Parse(sl, st', a[n..]);
      var q := Parse(sl, p.st, p.rest + b);
      assert out + (p.out + q.out) == (out + p.out) + q.out;
  }

  /** The driver's view: each piece is parsed behind the bytes the previous call left over. */
  function ParsePieces(sl: Slaves, st: State, left: seq<byte>, pieces: seq<seq<byte>>): Parsed
    requires ValidSensors(st.sensor)
    decreases |pieces|
  {
    if pieces == [] then Parsed(st, [], left)
    else
      var p := Parse(sl, st, left + pieces[0]);
      var q := ParsePieces(sl, p.st, p.rest, pieces[1..]);
      Parsed(q.st, p.out + q.out, q.rest)
  }

  /** Any way of cutting a stream gives the same records, time stamps, flags and final left-over. */
  lemma {:induction false} CutsDoNotMatter(sl: Slaves, st: State, left: seq<byte>, pieces: seq<seq<byte>>)
    requires ValidSensors(st.sensor) && Next(sl, st, left).Stop?
    ensures ParsePieces(sl, st, left, pieces) == Parse(sl, st, left + Concat(pieces))
    decreases |pieces|
  {
    hide Next;
    if pieces == [] {
      assert left + Concat(pieces) == left;
    } else {
      hide Parse;
      var p := Parse(sl, st, left + pieces[0]);
      ParseStops(sl, st, left + pieces[0]);
      CutsDoNotMatter(sl, p.st, p.rest, pieces[1..]);
      ParseOfPieces(sl, st, left + pieces[0], Concat(pieces[1..]));
      assert left + Concat(pieces) == (left + pieces[0]) + Concat(pieces[1..]);
    }
  }

  // ----- conservation -----

  /** The parser stops only on an incomplete packet, shorter than 16 bytes, so the left-over fits
      its 16-byte store and the overflow clamps of the source never act. */
  lemma {:induction false} ParseStops(sl: Slaves, st: State, b: seq<byte>)
    requires ValidSensors(st.sensor)
    ensures
      var p := Parse(sl, st, b);
      && Next(sl, p.st, p.rest).Stop?
      && |p.rest| <= 15
      && |p.rest| <= |b| && p.rest == b[|b| - |p.rest|..]
    decreases |b|
  {
    hide Next;
    match Next(sl, st, b)
    case Stop =>
    case Packet(n, st', out) =>
      NextOfPrefix(sl, st, b, []);
      ParseStops(sl, st', b[n..]);
  }

  lemma ParseUnfold(sl: Slaves, st: State, b: seq<byte>)
    requires ValidSensors(st.sensor)
    ensures
      var n := Next(sl, st, b);
      if n.Stop? then Parse(sl, st, b) == Parsed(st, [], b)
      else
        var p := Parse(sl, n.st, b[n.size..]);
        Parse(sl, st, b) == Parsed(p.st, n.out + p.out, p.rest)
  {
    hide Next;
  }

  /** No byte is lost or used twice: the bytes in front of the left-over are exactly the ones that
      made the records. */
  lemma {:induction false} BytesConserved(sl: Slaves, st: State, b: seq<byte>)
    requires ValidSensors(st.sensor)
    ensures
      var p := Parse(sl, st, b);
      && |p.rest| <= |b|
      && Parse(sl, st, b[..|b| - |p.rest|]) == Parsed(p.st, p.out, [])
    decreases |b|
  {
    hide Next, Parse;
    ParseUnfold(sl, st, b);
    match Next(sl, st, b)
    case Stop =>
      assert b[..0] == [];
      ParseUnfold(sl, st, []);
    case Packet(n, st', out) =>
      ParseStops(sl, st', b[n..]);
      BytesConserved(sl, st', b[n..]);
      var k := |b| - |Parse(sl, st', b[n..]).rest|;
      NextOfUsed(sl, st, b, k);
      ParseUnfold(sl, st, b[..k]);
      assert b[..k][n..] == b[n..][..k - n];
  }

  /** A packet is recognised as soon as all its bytes are there. */
  lemma NextOfUsed(sl: Slaves, st: State, b: seq<byte>, k: nat)
    requires ValidSensors(st.sensor) && Next(sl, st, b).Packet? && Next(sl, st, b).size <= k <= |b|
    ensures Next(sl, st, b[..k]) == Next(sl, st, b)
  {
    NextOfPrefix(sl, st, b, []);
    var a := b[..k];
    assert FromBe16(a) == FromBe16(b);
    if Next(sl, st, a).Packet? {
      NextOfPrefix(sl, st, a, b[k..]);
      assert a + b[k..] == b;
    }
  }

  // ----- packets and their bytes -----

  /** What the motion processor writes into the FIFO for sensor `s`, big-endian behind a two-byte
      header. */
  datatype DmpPacket =
    | Motion(s: nat, hdr: u16, steps: nat, d: Vec16)
    | Attitude(s: nat, hdr: u16, steps: nat, pad: seq<byte>, q: Vec32)
    | External(s: nat, hdr: u16, steps: nat, payload: seq<byte>)
    | StepDetected(steps: nat, pad: seq<byte>, count: int32)

  /** A packet of an enabled sensor, under one of its header numbers. */
  ghost predicate Sent(st: State, p: DmpPacket) {
    && |st.sensor| == SENSOR_NUM
    && p.steps <= STEP_INDICATOR_MASK
    && match p
       case Motion(s, hdr, _, _) => s in {GYRO, ACCEL, PEDQ} && Names(hdr, s) && st.sensor[s].on
       case Attitude(s, hdr, _, pad, _) => s in {SIXQ, LPQ} && Names(hdr, s) && |pad| == 2 && st.sensor[s].on
       case External(s, hdr, _, payload) =>
         s in {COMPASS, PRESSURE} && Names(hdr, s) && |payload| == 6 && st.sensor[s].on
       case StepDetected(_, pad, _) => |pad| == 2 && st.sensor[STEP].on
  }

  function PacketHeader(p: DmpPacket): u16 {
    if p.StepDetected? then 0x0100 else p.hdr
  }

  function PacketBytes(p: DmpPacket): seq<byte> {
    Be16(U16(PacketHeader(p) + p.steps)) +
    match p
    case Motion(_, _, _, d) => Be16(U16(d.x)) + Be16(U16(d.y)) + Be16(U16(d.z))
    case Attitude(_, _, _, pad, q) => pad + (Be32(U32(q.x)) + (Be32(U32(q.y)) + Be32(U32(q.z))))
    case External(_, _, _, payload) => payload
    case StepDetected(_, pad, count) => pad + Be32(U32(count))
  }

  /** Between two packets with `steps` steps there is one record fewer, a whole fraction of the sample
      period apart. */
  function Interpolated(s: nat, was: Sensor, steps: nat): seq<Record> {
    if steps <= 1 then []
    else
      seq(steps - 1, k requires 0 <= k < steps - 1 =>
        Event(s, 0x0001, U64(was.ts + (k + 1) * TruncDiv(was.dur, steps))))
  }

  /** What the driver owes the user for one packet: the interpolated steps, then the measurement one
      sample period after the previous one, marked if there were steps. The first packet of a compass
      or a pressure sensor is dropped, and what its slave cannot read. */
  function Meaning(sl: Slaves, st: State, p: DmpPacket): (State, seq<Record>)
    requires Sent(st, p)
  {
    if p.StepDetected? then
      (st, [Event(STEP, 0x0100, U64(st.stepBase + p.count * 5_000_000))])
    else
      var was := st.sensor[p.s];
      var ts := U64(was.ts + was.dur);
      var st' := State(st.sensor[p.s := was.(ts := ts)], st.compassNormal || p.s == COMPASS,
                       st.pressureNormal || p.s == PRESSURE, st.stepBase);
      var hdr := p.hdr + if p.steps > 0 then 1 else 0;
      (st', Interpolated(p.s, was, p.steps) +
        match p
        case Motion(s, _, _, d) => [Sample(s, hdr, d, ts)]
        case Attitude(s, _, _, _, q) => [Quaternion(s, hdr, q, ts)]
        case External(s, _, _, payload) =>
          if s == COMPASS && p.hdr == 0x1800 then (if st.compassNormal then [Marker(0x1800)] else [])
          else
            var r := if s == COMPASS then sl.compass(payload) else sl.pressure(payload);
            if r.None? || !(if s == COMPASS then st.compassNormal else st.pressureNormal) then []
            else [Sample(s, hdr, r.value, ts)])
  }

  lemma HeaderOfPacket(p: DmpPacket, st: State, tail: seq<byte>)
    requires Sent(st, p)
    ensures
      var raw := FromBe16(PacketBytes(p) + tail);
      Header(raw) == PacketHeader(p) && Steps(raw) == p.steps
  {
    hide Be16, FromBe16, Be32;
    var raw := U16(PacketHeader(p) + p.steps);
    var b := PacketBytes(p) + tail;
    assert b == Be16(raw) + b[2..];
    Be16RoundTrip(raw, b[2..]);
    StepBits(PacketHeader(p), p.steps) by {
      assert Names(0x0100, STEP);
    }
  }

  /** The header number and the steps share a word without touching. */
  lemma StepBits(hdr: u16, steps: nat)
    requires steps <= 15 && exists s :: Names(hdr, s)
    ensures Header(U16(hdr + steps)) == hdr && Steps(U16(hdr + steps)) == steps
  {
  }

  /** Three big-endian 16-bit numbers come back as they went in. */
  lemma MotionBytes(p: DmpPacket, st: State, tail: seq<byte>)
    requires Sent(st, p) && p.Motion?
    ensures Vector16(PacketBytes(p) + tail) == p.d
  {
    var b := PacketBytes(p) + tail;
    assert b[2..4] == Be16(U16(p.d.x)) + [];
    assert b[4..6] == Be16(U16(p.d.y)) + [];
    assert b[6..8] == Be16(U16(p.d.z)) + [];
    Be16RoundTrip(U16(p.d.x), []);
    Be16RoundTrip(U16(p.d.y), []);
    Be16RoundTrip(U16(p.d.z), []);
    SignedRoundTrip(p.d.x, 0);
    SignedRoundTrip(p.d.y, 0);
    SignedRoundTrip(p.d.z, 0);
  }

  lemma AttitudeBytes(p: DmpPacket, st: State, tail: seq<byte>)
    requires Sent(st, p) && p.Attitude?
    ensures |PacketBytes(p)| == 16 && Vector32(PacketBytes(p) + tail) == p.q
  {
    hide Be32, FromBe32, S32, U32;
    var b := PacketBytes(p) + tail;
    assert b[4..8] == Be32(U32(p.q.x)) + [];
    assert b[8..12] == Be32(U32(p.q.y)) + [];
    assert b[12..16] == Be32(U32(p.q.z)) + [];
    Be32RoundTrip(U32(p.q.x), []);
    Be32RoundTrip(U32(p.q.y), []);
    Be32RoundTrip(U32(p.q.z), []);
    SignedRoundTrip(0, p.q.x);
    SignedRoundTrip(0, p.q.y);
    SignedRoundTrip(0, p.q.z);
  }

  lemma StepBytes(p: DmpPacket, st: State, tail: seq<byte>)
    requires Sent(st, p) && p.StepDetected?
    ensures S32(FromBe32((PacketBytes(p) + tail)[4..8])) == p.count
  {
    hide Be32, FromBe32, S32, U32;
    var b := PacketBytes(p) + tail;
    assert b[4..8] == Be32(U32(p.count)) + [];
    Be32RoundTrip(U32(p.count), []);
    SignedRoundTrip(0, p.count);
  }

  /** The loop that pushes step indicators makes the interpolated ones. */
  lemma IndicatedIs(s: nat, was: Sensor, steps: nat)
    requires steps <= STEP_INDICATOR_MASK
    ensures Indicated(s, was, steps) == Interpolated(s, was, steps)
  {
    if steps > 1 {
      IndicatorsFrom(s, was, 1, steps);
      assert Interpolated(s, was, steps)[0..] == Interpolated(s, was, steps);
    }
  }

  lemma {:induction false} IndicatorsFrom(s: nat, was: Sensor, i: nat, steps: nat)
    requires 1 <= i <= steps && 1 < steps
    ensures StepIndicators(s, was.ts, TruncDiv(was.dur, steps), i, steps) == Interpolated(s, was, steps)[i - 1..]
    decreases steps - i
  {
    hide U64, S32, TruncDiv;
    if i < steps {
      FractionFits(was.dur, i, steps);
      IndicatorsFrom(s, was, i + 1, steps);
      var all := Interpolated(s, was, steps);
      assert all[i - 1..] == [all[i - 1]] + all[i..];
    }
  }

  lemma FractionFits(dur: int32, i: nat, steps: nat)
    requires 1 <= i < steps
    ensures S32(i * TruncDiv(dur, steps)) == i * TruncDiv(dur, steps)
  {
    hide S32;
    var a: nat := Abs(dur);
    var q := a / steps;
    QuotientBounds(a, steps);
    MulLe(i, steps, q);
    MulLe(0, i, q);
    var z := i * q;
    if dur < 0 {
      assert i * -q == -z;
      Fits32(-z);
    } else {
      Fits32(z);
    }
  }

  /** The parser reads a packet for what it means. */
  lemma NextOfPacket(sl: Slaves, st: State, p: DmpPacket, tail: seq<byte>)
    requires ValidSensors(st.sensor) && Sent(st, p)
    ensures
      var (st', out) := Meaning(sl, st, p);
      Next(sl, st, PacketBytes(p) + tail) == Packet(|PacketBytes(p)|, st', out)
  {
    hide FromBe16, Be32, FromBe32, S16, U16, S32, U32, TruncDiv, Indicated, Interpolated, SensorOf;
    var b := PacketBytes(p) + tail;
    HeaderOfPacket(p, st, tail);
    SensorIsNamed(PacketHeader(p));
    match p
    case Motion(s, _, _, _) => MotionBytes(p, st, tail); IndicatedIs(s, st.sensor[s], p.steps);
    case Attitude(s, _, _, _, _) => AttitudeBytes(p, st, tail); IndicatedIs(s, st.sensor[s], p.steps);
    case External(s, _, _, payload) => assert b[2..8] == payload; IndicatedIs(s, st.sensor[s], p.steps);
    case StepDetected(_, _, _) => StepBytes(p, st, tail); assert Names(0x0100, STEP);
  }

  /** If the header names no sensor, or one that is off, eight bytes are skipped: nothing is pushed and
      nothing changes. */
  lemma OthersSkipped(sl: Slaves, st: State, b: seq<byte>)
    requires ValidSensors(st.sensor) && |b| >= HEADERED_NORMAL_BYTES
    requires forall s: nat :: s < SENSOR_NUM && Names(FromBe16(b) - FromBe16(b) % 16, s) ==> !st.sensor[s].on
    ensures Next(sl, st, b) == Packet(8, st, [])
  {
    hide FromBe16, SensorOf, Names;
    SensorIsNamed(Header(FromBe16(b)));
  }

  /** If it names an enabled one, the parser waits for the eight or sixteen bytes of its packet. */
  lemma IncompleteWaits(sl: Slaves, st: State, b: seq<byte>, s: nat)
    requires ValidSensors(st.sensor) && |b| >= HEADERED_NORMAL_BYTES
    requires s < SENSOR_NUM && Names(FromBe16(b) - FromBe16(b) % 16, s) && st.sensor[s].on
    ensures Next(sl, st, b).Stop? <==> |b| < if s in {SIXQ, LPQ} then 16 else 8
  {
    hide FromBe16, SensorOf, Names;
    SensorIsNamed(Header(FromBe16(b)));
  }

  function StreamBytes(ps: seq<DmpPacket>): seq<byte> {
    if ps == [] then [] else PacketBytes(ps[0]) + StreamBytes(ps[1..])
  }

  ghost predicate AllSent(st: State, ps: seq<DmpPacket>) {
    forall p :: p in ps ==> Sent(st, p)
  }

  /** Parsing changes time stamps and discard-first flags only. */
  ghost predicate SameSettings(st: State, st': State) {
    && |st.sensor| == |st'.sensor|
    && st.stepBase == st'.stepBase
    && forall s :: 0 <= s < |st.sensor| ==>
        && st'.sensor[s] == st.sensor[s].(ts := st'.sensor[s].ts)
        && (!st.sensor[s].on ==> st'.sensor[s] == st.sensor[s])
  }

  lemma NextKeepsSettings(sl: Slaves, st: State, b: seq<byte>)
    requires ValidSensors(st.sensor) && Next(sl, st, b).Packet?
    ensures SameSettings(st, Next(sl, st, b).st)
  {
    hide FromBe16, FromBe32, S16, S32, TruncDiv, StepIndicators, Payload;
  }

  lemma {:induction false} ParseKeepsSettings(sl: Slaves, st: State, b: seq<byte>)
    requires ValidSensors(st.sensor)
    ensures SameSettings(st, Parse(sl, st, b).st)
    decreases |b|
  {
    hide Next;
    if Next(sl, st, b).Packet? {
      NextKeepsSettings(sl, st, b);
      ParseKeepsSettings(sl, Next(sl, st, b).st, b[Next(sl, st, b).size..]);
    }
  }

  /** The meaning of a stream is the meaning of its packets in order. */
  function MeaningOfStream(sl: Slaves, st: State, ps: seq<DmpPacket>): (State, seq<Record>)
    requires ValidSensors(st.sensor) && AllSent(st, ps)
    decreases |ps|
  {
    if ps == [] then (st, [])
    else
      var (st', out) := Meaning(sl, st, ps[0]);
      assert ValidSensors(st'.sensor) && AllSent(st', ps[1..]) by {
        MeaningKeepsSettings(sl, st, ps[0]);
        StaySent(st, st', ps);
      }
      var (st'', more) := MeaningOfStream(sl, st', ps[1..]);
      (st'', out + more)
  }

  lemma MeaningKeepsSettings(sl: Slaves, st: State, p: DmpPacket)
    requires ValidSensors(st.sensor) && Sent(st, p)
    ensures ValidSensors(Meaning(sl, st, p).0.sensor) && SameSettings(st, Meaning(sl, st, p).0)
  {
    hide Meaning, Next, Sent;
    NextOfPacket(sl, st, p, []);
    NextKeepsSettings(sl, st, PacketBytes(p) + []);
  }

  lemma StaySent(st: State, st': State, ps: seq<DmpPacket>)
    requires SameSettings(st, st') && AllSent(st, ps)
    ensures AllSent(st', ps)
  {
  }

  ghost predicate CameFrom(s: nat, ps: seq<DmpPacket>) {
    exists p :: p in ps && p.External? && p.s == s
  }

  /** Only the first packet of the compass or of the pressure sensor is dropped: one of them ends it. */
  lemma {:induction false} FirstIsDropped(sl: Slaves, st: State, ps: seq<DmpPacket>)
    requires ValidSensors(st.sensor) && AllSent(st, ps)
    ensures
      var st' := MeaningOfStream(sl, st, ps).0;
      && (st'.compassNormal <==> st.compassNormal || CameFrom(COMPASS, ps))
      && (st'.pressureNormal <==> st.pressureNormal || CameFrom(PRESSURE, ps))
    decreases |ps|
  {
    hide PacketBytes, Names;
    if ps != [] {
      var st' := Meaning(sl, st, ps[0]).0;
      MeaningKeepsSettings(sl, st, ps[0]);
      StaySent(st, st', ps);
      FirstIsDropped(sl, st', ps[1..]);
      assert ps == [ps[0]] + ps[1..];
    }
  }

  /** Parsing inverts encoding: the byte stream of any packets yields exactly what they mean, with
      nothing left over. With `CutsDoNotMatter` the same holds for any way of cutting it. */
  lemma {:induction false} ParseOfStream(sl: Slaves, st: State, ps: seq<DmpPacket>)
    requires ValidSensors(st.sensor) && AllSent(st, ps)
    ensures
      var (st', out) := MeaningOfStream(sl, st, ps);
      Parse(sl, st, StreamBytes(ps)) == Parsed(st', out, [])
    decreases |ps|
  {
    hide Next, Meaning, PacketBytes, Sent;
    if ps == [] {
      assert Next(sl, st, []).Stop?;
    } else {
      var (st', out) := Meaning(sl, st, ps[0]);
      var tail := StreamBytes(ps[1..]);
      NextOfPacket(sl, st, ps[0], tail);
      MeaningKeepsSettings(sl, st, ps[0]);
      StaySent(st, st', ps);
      ParseOfStream(sl, st', ps[1..]);
      var b := PacketBytes(ps[0]) + tail;
      assert b[|PacketBytes(ps[0])|..] == tail;
    }
  }
}
