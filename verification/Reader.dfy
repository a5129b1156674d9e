/** The user-space side: the decode loop of `read_data` in `stress_iio.c`, and what it recovers of the
    records the driver pushed. */
module Reader {
  import opened Machine
  import opened Records
  import Fifo

  /** One line the reader prints. */
  datatype Report =
    | Pressure(value: int, t: u64)
    | Accel(d: Vec16, t: u64)
    | Gyro(d: Vec16, t: u64)
    | Compass(d: Vec16, t: u64)
    | Pedometer(d: Vec16, t: u64)
    | LpQuaternion(q: Vec32, t: u64)
    | SixQuaternion(q: Vec32, t: u64)
    | StepDetector(t: u64)
    | Empty
    | End
    | BadCompass
    | Other(t: u64)

  /** What the loop body makes of the bytes in front of it. `Overrun`: the default case skips 16 bytes
      without looking how many there are. */
  datatype Reading =
    | Wait
    | Got(size: nat, report: Report)
    | Overrun

  function SensorData(b: seq<byte>): Vec16
    requires |b| >= 8
  {
    Vec16(S16(FromLe16(b[2..4])), S16(FromLe16(b[4..6])), S16(FromLe16(b[6..8])))
  }

  function QuatData(b: seq<byte>): Vec32
    requires |b| >= 16
  {
    Vec32(S32(FromLe32(b[4..8])), S32(FromLe32(b[8..12])), S32(FromLe32(b[12..16])))
  }

  function Time(b: seq<byte>, at: nat): u64
    requires at + 8 <= |b|
  {
    FromLe64(b[at..at + 8])
  }

  function PressureValue(d: Vec16): int {
    var high: int := d.y;
    high * 0x1_0000 + U16(d.z)
  }

  function One(b: seq<byte>): (r: Reading)
    requires |b| >= 8
    ensures r.Got? ==> 8 <= r.size <= |b| && r.size % 8 == 0
    ensures r.Got? && |b| % 8 == 0 ==> (|b| - r.size) % 8 == 0
    ensures r.Wait? ==> |b| < 24
    ensures r.Overrun? ==> |b| < 16
  {
    var hdr := FromLe16(b);
    var kind := hdr - hdr % 16;
    if kind == LPQUAT_HDR || kind == SIXQUAT_HDR then
      if |b| < 24 then Wait
      else Got(24, if kind == LPQUAT_HDR then LpQuaternion(QuatData(b), Time(b, 16))
                   else SixQuaternion(QuatData(b), Time(b, 16)))
    else if kind in {PRESSURE_HDR, ACCEL_HDR, GYRO_HDR, COMPASS_HDR, PEDQUAT_HDR, STEP_DETECTOR_HDR} then
      if |b| < 16 then Wait else Got(16, ShortReport(kind, SensorData(b), Time(b, 8)))
    else if hdr == EMPTY_MARKER then Got(8, Empty)
    else if hdr == END_MARKER then Got(8, End)
    else if hdr == COMPASS_HDR_2 then Got(8, BadCompass)
    else if |b| < 16 then Overrun
    else Got(16, Other(Time(b, 8)))
  }

  function ShortReport(kind: u16, d: Vec16, t: u64): Report
    requires kind in {PRESSURE_HDR, ACCEL_HDR, GYRO_HDR, COMPASS_HDR, PEDQUAT_HDR, STEP_DETECTOR_HDR}
  {
    if kind == PRESSURE_HDR then Pressure(PressureValue(d), t)
    else if kind == ACCEL_HDR then Accel(d, t)
    else if kind == GYRO_HDR then Gyro(d, t)
    else if kind == COMPASS_HDR then Compass(d, t)
    else if kind == PEDQUAT_HDR then Pedometer(d, t)
    else StepDetector(t)
  }

  /** All reports of a buffer, and the incomplete record at its end. */
  datatype Outcome = Done(reports: seq<Report>, rest: seq<byte>) | Lost(reports: seq<Report>)

  function Read(b: seq<byte>): (o: Outcome)
    requires |b| % 8 == 0
    ensures o.Done? ==> |o.rest| < 24 && |o.rest| % 8 == 0 && |o.rest| <= |b|
    decreases |b|
  {
    if b == [] then Done([], [])
    else
      var r := One(b);
      if r.Wait? then Done([], b)
      else if r.Overrun? then Lost([])
      else
        var o := Read(b[r.size..]);
        o.(reports := [r.report] + o.reports)
  }

  /** What the driver can push: the header names the sensor, whatever the step bits. */
  ghost predicate Pushable(r: Record) {
    match r
    case Sample(s, hdr, _, _) =>
      s in {Fifo.GYRO, Fifo.ACCEL, Fifo.COMPASS, Fifo.PRESSURE, Fifo.PEDQ} && Fifo.Names(hdr - hdr % 16, s)
      && hdr - hdr % 16 != 0x1800
    case Quaternion(s, hdr, _, _) => s in {Fifo.SIXQ, Fifo.LPQ} && Fifo.Names(hdr - hdr % 16, s)
    case Event(s, hdr, _) => (s == Fifo.STEP && hdr == 0x0100) || hdr == 0x0001
    case Marker(hdr) => hdr in {0x1800, 0x0010, 0x0020}
  }

  /** What the user should see of it: the sensor's own kind of report, with its values and time. */
  function Expected(r: Record): Report
    requires Pushable(r)
  {
    match r
    case Sample(s, _, d, t) =>
      if s == Fifo.GYRO then Gyro(d, t)
      else if s == Fifo.ACCEL then Accel(d, t)
      else if s == Fifo.COMPASS then Compass(d, t)
      else if s == Fifo.PEDQ then Pedometer(d, t)
      else Pressure(65536 * d.y + (if d.z < 0 then d.z + 65536 else d.z), t)
    case Quaternion(s, _, q, t) => if s == Fifo.SIXQ then SixQuaternion(q, t) else LpQuaternion(q, t)
    case Event(_, hdr, t) => if hdr == 0x0001 then Other(t) else StepDetector(t)
    case Marker(hdr) => if hdr == 0x0020 then Empty else if hdr == 0x0010 then End else BadCompass
  }

  ghost predicate AllPushable(rs: seq<Record>) {
    forall r :: r in rs ==> Pushable(r)
  }

  function ExpectedAll(rs: seq<Record>): seq<Report>
    requires AllPushable(rs)
  {
    if rs == [] then [] else [Expected(rs[0])] + ExpectedAll(rs[1..])
  }

  // ----- one record -----

  lemma HeaderOf(r: Record, w: seq<byte>, tail: seq<byte>)
    requires Wire(r, w)
    ensures FromLe16(w + tail) == r.hdr
  {
    assert w + tail == Le16(r.hdr) + (w[2..] + tail);
    Le16RoundTrip(r.hdr, w[2..] + tail);
  }

  lemma SampleBack(r: Record, w: seq<byte>, tail: seq<byte>)
    requires Wire(r, w) && r.Sample?
    ensures SensorData(w + tail) == r.d
  {
    hide Le16, FromLe16, U16, S16;
    var b := w + tail;
    assert b[2..4] == Le16(U16(r.d.x)) + [];
    assert b[4..6] == Le16(U16(r.d.y)) + [];
    assert b[6..8] == Le16(U16(r.d.z)) + [];
    Le16RoundTrip(U16(r.d.x), []);
    Le16RoundTrip(U16(r.d.y), []);
    Le16RoundTrip(U16(r.d.z), []);
    SignedRoundTrip(r.d.x, 0);
    SignedRoundTrip(r.d.y, 0);
    SignedRoundTrip(r.d.z, 0);
  }

  lemma QuaternionBack(r: Record, w: seq<byte>, tail: seq<byte>)
    requires Wire(r, w) && r.Quaternion?
    ensures QuatData(w + tail) == r.q
  {
    hide Le32, FromLe32, U32, S32;
    var b := w + tail;
    assert b[4..8] == Le32(U32(r.q.x)) + [];
    assert b[8..12] == Le32(U32(r.q.y)) + [];
    assert b[12..16] == Le32(U32(r.q.z)) + [];
    Le32RoundTrip(U32(r.q.x), []);
    Le32RoundTrip(U32(r.q.y), []);
    Le32RoundTrip(U32(r.q.z), []);
    SignedRoundTrip(0, r.q.x);
    SignedRoundTrip(0, r.q.y);
    SignedRoundTrip(0, r.q.z);
  }

  lemma TimeBack(t: u64, w: seq<byte>, at: nat, tail: seq<byte>)
    requires at + 8 == |w| && w[at..at + 8] == Le64(t)
    ensures Time(w + tail, at) == t
  {
    hide Le64, FromLe64;
    assert (w + tail)[at..at + 8] == Le64(t) + [];
    Le64RoundTrip(t, []);
  }

  lemma LowHalf(z: int16)
    ensures U16(z) == if z < 0 then z + 65536 else z
  {
  }

  /** A complete record is read back, whatever follows. */
  lemma OneOfRecord(r: Record, w: seq<byte>, tail: seq<byte>)
    requires Wire(r, w) && Pushable(r)
    ensures One(w + tail) == Got(Size(r), Expected(r))
  {
    hide Le16, FromLe16, Le32, Le64, Time, SensorData, QuatData, U16, U32;
    HeaderOf(r, w, tail);
    match r
    case Sample(_, _, d, t) => SampleBack(r, w, tail); TimeBack(t, w, 8, tail); LowHalf(d.z);
    case Quaternion(_, _, _, t) => QuaternionBack(r, w, tail); TimeBack(t, w, 16, tail);
    case Event(_, _, t) => TimeBack(t, w, 8, tail);
    case Marker(_) =>
  }

  /** A step indicator, whose size the reader does not check. */
  predicate IsIndicator(r: Record) {
    r.Event? && r.hdr == STEP_INDICATOR_HDR
  }

  /** The beginning of a record makes the reader wait, except for a step indicator. */
  lemma OneOfBeginning(r: Record, w: seq<byte>, n: nat)
    requires Wire(r, w) && Pushable(r) && 8 <= n < Size(r) && n % 8 == 0
    ensures One(w[..n]) == if IsIndicator(r) then Overrun else Wait
  {
    hide Le16, FromLe16, Le32, Le64, Time, SensorData, QuatData, U16, U32;
    var a := w[..n];
    assert FromLe16(a) == r.hdr by {
      assert a == Le16(r.hdr) + a[2..];
      Le16RoundTrip(r.hdr, a[2..]);
    }
  }

  // ----- a whole buffer, cut at `n` -----

  /** Whether the first `n` bytes end inside a step indicator. */
  ghost predicate Straddles(rs: seq<Record>, n: nat) {
    if rs == [] then false
    else if Size(rs[0]) <= n then Straddles(rs[1..], n - Size(rs[0]))
    else 0 < n && IsIndicator(rs[0])
  }

  /** How many records lie within the first `n` bytes, */
  function Whole(rs: seq<Record>, n: nat): (k: nat)
    ensures k <= |rs|
  {
    if rs == [] || n < Size(rs[0]) then 0 else 1 + Whole(rs[1..], n - Size(rs[0]))
  }

  /** and how many bytes the first `k` of them take. */
  function Offset(rs: seq<Record>, k: nat): nat
    requires k <= |rs|
  {
    if k == 0 then 0 else Size(rs[0]) + Offset(rs[1..], k - 1)
  }

  lemma {:induction false} EncodesSize(rs: seq<Record>, b: seq<byte>)
    requires Encodes(rs, b)
    ensures |b| == Offset(rs, |rs|) && |b| % 8 == 0
  {
    if rs != [] {
      EncodesSize(rs[1..], b[Size(rs[0])..]);
    }
  }

  lemma {:induction false} WholeFits(rs: seq<Record>, n: nat)
    ensures Offset(rs, Whole(rs, n)) <= n
  {
    if rs != [] && Size(rs[0]) <= n {
      WholeFits(rs[1..], n - Size(rs[0]));
    }
  }

  lemma ReadUnfold(b: seq<byte>)
    requires |b| % 8 == 0
    ensures b == [] ==> Read(b) == Done([], [])
    ensures b != [] && One(b).Wait? ==> Read(b) == Done([], b)
    ensures b != [] && One(b).Overrun? ==> Read(b) == Lost([])
    ensures b != [] && One(b).Got? ==>
      var o := Read(b[One(b).size..]);
      Read(b) == o.(reports := [One(b).report] + o.reports)
  {
    hide One;
  }

  lemma ReadOfFirst(r: Record, b: seq<byte>, n: nat)
    requires Size(r) <= n <= |b| && n % 8 == 0 && Wire(r, b[..Size(r)]) && Pushable(r)
    ensures
      var o := Read(b[Size(r)..][..n - Size(r)]);
      Read(b[..n]) == o.(reports := [Expected(r)] + o.reports)
  {
    hide One, Wire, Pushable, Expected, Read;
    var size := Size(r);
    OneOfRecord(r, b[..size], b[size..n]);
    CutPrefix(b, size, n);
    ReadUnfold(b[..n]);
  }

  /** All complete records of the first `n` bytes come back, in order, and the rest waits, except
      that a cut inside a step indicator, and only that, loses the place. */
  ghost predicate CutRead(rs: seq<Record>, b: seq<byte>, n: nat)
    requires AllPushable(rs) && n <= |b| && n % 8 == 0
  {
    var o, k := Read(b[..n]), Whole(rs, n);
    && (o.Lost? <==> Straddles(rs, n))
    && Offset(rs, k) <= n
    && o.reports == ExpectedAll(rs[..k])
    && (!Straddles(rs, n) ==> o.rest == b[Offset(rs, k)..n])
  }

  /** Reading the first `n` bytes of what the driver pushed. */
  lemma {:induction false} ReadOfCut(rs: seq<Record>, b: seq<byte>, n: nat)
    requires Encodes(rs, b) && AllPushable(rs) && n <= |b| && n % 8 == 0
    ensures CutRead(rs, b, n)
    decreases |rs|
  {
    hide Wire, Pushable, CutRead;
    if rs != [] && Size(rs[0]) <= n {
      ReadOfCut(rs[1..], b[Size(rs[0])..], n - Size(rs[0]));
      ReadOfCutStep(rs, b, n);
    } else {
      ReadOfCutEnd(rs, b, n);
    }
  }

  lemma ReadOfCutStep(rs: seq<Record>, b: seq<byte>, n: nat)
    requires AllPushable(rs) && rs != [] && Size(rs[0]) <= n <= |b| && n % 8 == 0
    requires Wire(rs[0], b[..Size(rs[0])])
    requires CutRead(rs[1..], b[Size(rs[0])..], n - Size(rs[0]))
    ensures CutRead(rs, b, n)
  {
    hide One, Wire, Pushable, Expected, ExpectedAll, Read, Encodes;
    var size := Size(rs[0]);
    var k := Whole(rs[1..], n - size);
    ReadOfFirst(rs[0], b, n);
    ExpectedOfTake(rs, k);
    assert b[size..] == b[size..|b|];
    SliceOfSlice(b, size, |b|, Offset(rs[1..], k), n - size);
  }

  lemma ReadOfCutEnd(rs: seq<Record>, b: seq<byte>, n: nat)
    requires Encodes(rs, b) && AllPushable(rs) && n <= |b| && n % 8 == 0
    requires rs == [] || n < Size(rs[0])
    ensures CutRead(rs, b, n)
  {
    hide One, Wire, Pushable, Expected, ExpectedAll, Read;
    NoneExpected();
    assert rs[..0] == [];
    ReadUnfold(b[..n]);
    if rs == [] || n == 0 {
      assert b[..n] == [];
    } else {
      var w := b[..Size(rs[0])];
      assert b[..n] == w[..n];
      OneOfBeginning(rs[0], w, n);
    }
  }

  lemma NoneExpected()
    ensures ExpectedAll([]) == []
  {
  }

  lemma ExpectedUnfold(rs: seq<Record>)
    requires AllPushable(rs) && rs != []
    ensures ExpectedAll(rs) == [Expected(rs[0])] + ExpectedAll(rs[1..])
  {
  }

  lemma ExpectedOfTake(rs: seq<Record>, k: nat)
    requires AllPushable(rs) && k < |rs|
    ensures ExpectedAll(rs[..k + 1]) == [Expected(rs[0])] + ExpectedAll(rs[1..][..k])
  {
    hide Pushable, Expected;
    assert rs[..k + 1][1..] == rs[1..][..k];
  }

  /** Reading everything at once recovers every record. */
  lemma {:induction false} ReadBack(rs: seq<Record>, b: seq<byte>)
    requires Encodes(rs, b) && AllPushable(rs)
    ensures |b| % 8 == 0 && Read(b) == Done(ExpectedAll(rs), [])
  {
    hide Read, Encodes, ExpectedAll;
    EncodesSize(rs, b);
    WholeOfAll(rs);
    ReadOfCut(rs, b, |b|);
    assert b[..|b|] == b;
    assert rs[..|rs|] == rs;
  }

  lemma {:induction false} WholeOfAll(rs: seq<Record>)
    ensures Whole(rs, Offset(rs, |rs|)) == |rs| && !Straddles(rs, Offset(rs, |rs|))
  {
    if rs != [] {
      WholeOfAll(rs[1..]);
    }
  }

  // ----- any number of reads -----

  ghost predicate Words(pieces: seq<seq<byte>>) {
    forall p :: p in pieces ==> |p| % 8 == 0
  }

  lemma WordsTogether(a: seq<byte>, b: seq<byte>)
    requires |a| % 8 == 0 && |b| % 8 == 0
    ensures |a + b| % 8 == 0
  {
  }

  /** The reader over successive reads: each is decoded behind what the previous one left. */
  function ReadPieces(left: seq<byte>, pieces: seq<seq<byte>>): Outcome
    requires |left| % 8 == 0 && Words(pieces)
    decreases |pieces|
  {
    if pieces == [] then Done([], left)
    else
      WordsTogether(left, pieces[0]);
      var o := Read(left + pieces[0]);
      if o.Lost? then o
      else
        var more := ReadPieces(o.rest, pieces[1..]);
        more.(reports := o.reports + more.reports)
  }

  /** No read ends inside a step indicator; `n` bytes were there before. */
  ghost predicate CleanCuts(rs: seq<Record>, n: nat, pieces: seq<seq<byte>>)
    decreases |pieces|
  {
    pieces == [] || (!Straddles(rs, n + |pieces[0]|) && CleanCuts(rs, n + |pieces[0]|, pieces[1..]))
  }

  lemma {:induction false} EncodesDrop(rs: seq<Record>, b: seq<byte>, k: nat)
    requires Encodes(rs, b) && k <= |rs|
    ensures Offset(rs, k) <= |b| && Encodes(rs[k..], b[Offset(rs, k)..])
    decreases k
  {
    hide Wire;
    if k == 0 {
      assert rs[0..] == rs && b[0..] == b;
    } else {
      var size := Size(rs[0]);
      EncodesDrop(rs[1..], b[size..], k - 1);
      assert rs[1..][k - 1..] == rs[k..];
      assert b[size..][Offset(rs[1..], k - 1)..] == b[Offset(rs, k)..];
    }
  }

  /** The first record lies within both cuts. */
  lemma WholeUnfold(rs: seq<Record>, n: nat, m: nat)
    requires rs != [] && Size(rs[0]) <= n <= m
    ensures 0 < Size(rs[0])
    ensures Whole(rs, n) == 1 + Whole(rs[1..], n - Size(rs[0]))
    ensures Straddles(rs, m) <==> Straddles(rs[1..], m - Size(rs[0]))
    ensures
      var k := Whole(rs[1..], n - Size(rs[0]));
      Offset(rs, 1 + k) == Size(rs[0]) + Offset(rs[1..], k)
  {
  }

  lemma WholeNone(rs: seq<Record>, n: nat)
    requires rs == [] || n < Size(rs[0])
    ensures Whole(rs, n) == 0 && Offset(rs, 0) == 0
  {
  }

  lemma {:induction false} WholeDrop(rs: seq<Record>, n: nat, m: nat)
    requires n <= m
    ensures Offset(rs, Whole(rs, n)) <= n
    ensures Whole(rs[Whole(rs, n)..], n - Offset(rs, Whole(rs, n))) == 0
    ensures Straddles(rs[Whole(rs, n)..], m - Offset(rs, Whole(rs, n))) <==> Straddles(rs, m)
    decreases |rs|
  {
    hide Whole, Straddles, Offset, Size;
    WholeFits(rs, n);
    if rs != [] && Size(rs[0]) <= n {
      var size := Size(rs[0]);
      WholeUnfold(rs, n, m);
      WholeDrop(rs[1..], n - size, m - size);
      var k := Whole(rs[1..], n - size);
      assert rs[1..][k..] == rs[1 + k..];
    } else {
      WholeNone(rs, n);
      assert rs[0..] == rs;
    }
  }

  lemma {:induction false} CleanDrop(rs: seq<Record>, n: nat, m: nat, pieces: seq<seq<byte>>)
    requires n <= m
    ensures Offset(rs, Whole(rs, n)) <= n
    ensures CleanCuts(rs[Whole(rs, n)..], m - Offset(rs, Whole(rs, n)), pieces) <==> CleanCuts(rs, m, pieces)
    decreases |pieces|
  {
    hide Straddles, Whole, Offset;
    WholeDrop(rs, n, m);
    if pieces != [] {
      WholeDrop(rs, n, m + |pieces[0]|);
      CleanDrop(rs, n, m + |pieces[0]|, pieces[1..]);
    }
  }

  lemma {:induction false} ExpectedSplit(rs: seq<Record>, k: nat)
    requires AllPushable(rs) && k <= |rs|
    ensures ExpectedAll(rs) == ExpectedAll(rs[..k]) + ExpectedAll(rs[k..])
    decreases k
  {
    hide Pushable, Expected, ExpectedAll;
    if k == 0 {
      NoneExpected();
      assert rs[..0] == [] && rs[0..] == rs;
    } else {
      ExpectedSplit(rs[1..], k - 1);
      ExpectedOfTake(rs, k - 1);
      ExpectedUnfold(rs);
      assert rs[1..][k - 1..] == rs[k..];
    }
  }

  /** One read: it fails on a straddling cut; otherwise it reports the first `k` records and leaves
      the beginning of the others. */
  lemma ReadOfPiece(rs: seq<Record>, left: seq<byte>, piece: seq<byte>, more: seq<byte>) returns (k: nat)
    requires (|left| + |piece|) % 8 == 0 && AllPushable(rs) && Encodes(rs, left + (piece + more))
    ensures Read(left + piece).Lost? <==> Straddles(rs, |left| + |piece|)
    ensures k == Whole(rs, |left| + |piece|) <= |rs|
    ensures !Straddles(rs, |left| + |piece|) ==>
      var o := Read(left + piece);
      && o.reports + ExpectedAll(rs[k..]) == ExpectedAll(rs)
      && |o.rest| + Offset(rs, k) == |left| + |piece|
      && Encodes(rs[k..], o.rest + more)
      && Whole(rs[k..], |o.rest|) == 0 && !Straddles(rs[k..], |o.rest|)
  {
    hide Read, Encodes, Straddles, Whole, Offset, ExpectedAll, Pushable;
    var b, n := left + (piece + more), |left| + |piece|;
    assert b[..n] == left + piece;
    ReadOfCut(rs, b, n);
    k := Whole(rs, n);
    EncodesDrop(rs, b, k);
    WholeDrop(rs, n, n);
    ExpectedSplit(rs, k);
    assert b[Offset(rs, k)..n] + more == b[Offset(rs, k)..];
  }

  /** Driver and reader are inverse over any reads at multiples of eight bytes: every record the
      driver pushed is reported once, in order, with nothing left, if no read ends inside a step
      indicator; and if one does, the reader loses its place. */
  lemma {:induction false} ReaderInvertsDriver(rs: seq<Record>, left: seq<byte>, pieces: seq<seq<byte>>)
    requires |left| % 8 == 0 && Words(pieces) && AllPushable(rs)
    requires Encodes(rs, left + Concat(pieces))
    requires Whole(rs, |left|) == 0 && !Straddles(rs, |left|)
    ensures ReadPieces(left, pieces).Done? <==> CleanCuts(rs, |left|, pieces)
    ensures CleanCuts(rs, |left|, pieces) ==> ReadPieces(left, pieces) == Done(ExpectedAll(rs), [])
    decreases |pieces|
  {
    hide Read, Encodes, Straddles, Whole, Offset, ExpectedAll, Pushable;
    if pieces == [] {
      NothingPending(rs, left);
    } else {
      var n := |left| + |pieces[0]|;
      var k := ReadOfPiece(rs, left, pieces[0], Concat(pieces[1..]));
      if !Straddles(rs, n) {
        CleanDrop(rs, n, n, pieces[1..]);
        ReaderInvertsDriver(rs[k..], Read(left + pieces[0]).rest, pieces[1..]);
      }
    }
  }

  /** A step indicator, at time zero, read as eight bytes and eight bytes: the reader is lost. */
  lemma CutIndicatorLost()
    ensures
      var word, time := Le16(STEP_INDICATOR_HDR) + [0, 0, 0, 0, 0, 0], Le64(0);
      && Encodes([Event(0, STEP_INDICATOR_HDR, 0)], word + time)
      && ReadPieces([], [word + time]) == Done([Other(0)], [])
      && ReadPieces([], [word, time]).Lost?
  {
    hide Le16, Le64, Read, One;
    var r, word, time := Event(0, STEP_INDICATOR_HDR, 0), Le16(STEP_INDICATOR_HDR) + [0, 0, 0, 0, 0, 0], Le64(0);
    assert (word + time)[..2] == Le16(STEP_INDICATOR_HDR) && (word + time)[8..16] == time;
    EncodesOne(r, word + time);
    ConcatOne(word + time);
    ConcatTwo(word, time);
    assert [] + Concat([word + time]) == word + time && [] + Concat([word, time]) == word + time;
    assert Size(r) == 16 && [r][1..] == [];
    OneEvent(r);
    ReaderInvertsDriver([r], [], [word + time]);
    ReaderInvertsDriver([r], [], [word, time]);
  }

  lemma OneEvent(r: Record)
    requires r == Event(0, STEP_INDICATOR_HDR, 0)
    ensures AllPushable([r]) && ExpectedAll([r]) == [Other(0)] && Whole([r], 0) == 0
    ensures !Straddles([r], 0) && !Straddles([r], 16) && Straddles([r], 8)
  {
    assert [r][1..] == [];
  }

  lemma NothingStraddles(rs: seq<Record>)
    ensures Whole(rs, 0) == 0 && !Straddles(rs, 0)
  {
  }

  lemma NothingPending(rs: seq<Record>, left: seq<byte>)
    requires AllPushable(rs) && Encodes(rs, left + []) && Whole(rs, |left|) == 0
    ensures rs == [] && left == [] && ExpectedAll(rs) == []
  {
    assert left + [] == left;
    EncodesSize(rs, left);
    WholeOfAll(rs);
  }

  // ----- the thread -----

  /** Of the outcome `all`, with `before` in front, `now` is reported and `o` is still to come. */
  ghost predicate Owes(all: Outcome, o: Outcome, before: seq<Report>, now: seq<Report>) {
    && all.Done? == o.Done? && before + all.reports == now + o.reports
    && (o.Done? ==> all.rest == o.rest)
  }

  lemma OwesAll(all: Outcome, now: seq<Report>)
    ensures Owes(all, all, now, now)
  {
  }

  lemma OwesLess(all: Outcome, o: Outcome, before: seq<Report>, now: seq<Report>, made: seq<Report>)
    requires Owes(all, o.(reports := made + o.reports), before, now)
    ensures Owes(all, o, before, now + made)
  {
    assert now + (made + o.reports) == (now + made) + o.reports;
  }

  lemma OwesNothing(all: Outcome, o: Outcome, before: seq<Report>, now: seq<Report>)
    requires Owes(all, o, before, now) && o.reports == []
    ensures o.Done? ==> all == Done(all.reports, o.rest) && before + all.reports == now
    ensures o.Lost? ==> all.Lost? && before + all.reports == now
  {
    assert now + [] == now;
  }

  /** What one turn of the decode loop leaves to come, for a complete record */
  lemma OwesAfterGot(all: Outcome, b: seq<byte>, before: seq<Report>, was: seq<Report>)
    requires b != [] && |b| % 8 == 0 && One(b).Got? && Owes(all, Read(b), before, was)
    ensures Owes(all, Read(b[One(b).size..]), before, was + [One(b).report])
  {
    hide Read, One, Owes;
    ReadUnfold(b);
    OwesLess(all, Read(b[One(b).size..]), before, was, [One(b).report]);
  }

  /** and for a step indicator cut short. */
  lemma OwesAfterOverrun(all: Outcome, b: seq<byte>, before: seq<Report>, was: seq<Report>)
    requires b != [] && |b| % 8 == 0 && One(b).Overrun? && Owes(all, Read(b), before, was)
    ensures |b| == 8 && all.Lost? && was == before + all.reports
  {
    hide Read, One, Owes;
    ReadUnfold(b);
    OwesNothing(all, Read(b), before, was);
  }

  /** What is left after a read waits for more. */
  lemma {:induction false} RestWaits(b: seq<byte>)
    requires |b| % 8 == 0 && Read(b).Done?
    ensures Read(Read(b).rest) == Done([], Read(b).rest)
    decreases |b|
  {
    hide One;
    if b != [] && One(b).Got? {
      RestWaits(b[One(b).size..]);
    }
  }

  lemma PiecesUnfold(left: seq<byte>, pieces: seq<seq<byte>>)
    requires |left| % 8 == 0 && Words(pieces) && pieces != []
    ensures |left + pieces[0]| % 8 == 0
    ensures
      var o, all := Read(left + pieces[0]), ReadPieces(left, pieces);
      if o.Lost? then all == o
      else
        var more := ReadPieces(o.rest, pieces[1..]);
        all == more.(reports := o.reports + more.reports)
  {
    hide Read;
  }

  /** `read_data`: a 2048-byte buffer, and 24 bytes carried between reads. */
  class Thread {
    const data: array<byte>
    const tmp: array<byte>
    var leftOverSize: int
    var reports: seq<Report>

    ghost predicate Valid()
      reads this
    {
      data.Length == 2048 && tmp.Length == 24 && data != tmp
    }

    /** False once a step indicator was cut: the next read would go in front of the buffer. */
    ghost predicate InPlace()
      reads this
    {
      0 <= leftOverSize < 24 && leftOverSize % 8 == 0
    }

    ghost function Left(): seq<byte>
      requires Valid() && InPlace()
      reads this, tmp
    {
      tmp[..leftOverSize]
    }

    constructor ()
      ensures Valid() && InPlace() && Left() == [] && reports == []
    {
      data := new byte[2048];
      tmp := new byte[24];
      leftOverSize := 0;
      reports := [];
    }

    /** One round of the loop: `chunk` is what `read` returned. */
    method ReadData(chunk: seq<byte>)
      requires Valid() && InPlace() && |chunk| <= 2000 && |chunk| % 8 == 0
      modifies this, data, tmp
      ensures chunk == [] ==> InPlace() && Left() == old(Left()) && reports == old(reports)
      ensures chunk != [] ==>
        var o := Read(old(Left()) + chunk);
        var n := |old(Left())| + |chunk|;
        if o.Done? then InPlace() && Left() == o.rest && reports == old(reports) + o.reports
        else leftOverSize == -8 && reports == old(reports) + o.reports + [Other(FromLe64(old(data[n..n + 8])))]
    {
      hide Read;
      forall k | 0 <= k < leftOverSize {
        data[k] := tmp[k];
      }
      if chunk == [] {
        assert tmp[..leftOverSize] == old(Left());
        return;
      }
      ghost var b := Left() + chunk;
      var ind := |chunk| + leftOverSize;
      forall k | leftOverSize <= k < ind {
        data[k] := chunk[k - leftOverSize];
      }
      assert data[..ind] == b;
      assert data[ind..ind + 8] == old(data[ind..ind + 8]);
      var dptr := Decode(ind);
      Keep(dptr, ind);
    }

    /** The thread, round after round until it loses its place: what it reports is the reading of the
        chunks one behind the other. */
    method ReadRounds(chunks: seq<seq<byte>>)
      requires Valid() && InPlace() && Words(chunks) && forall c :: c in chunks ==> |c| <= 2000
      requires Read(Left()) == Done([], Left())
      modifies this, data, tmp
      ensures
        var o := ReadPieces(old(Left()), chunks);
        if o.Done? then InPlace() && Left() == o.rest && reports == old(reports) + o.reports
        else leftOverSize == -8 && exists x :: reports == old(reports) + o.reports + [Other(x)]
    {
      hide Read, ReadPieces, Owes;
      ghost var all, before := ReadPieces(Left(), chunks), reports;
      var i := 0;
      assert chunks[0..] == chunks;
      OwesAll(all, reports);
      while i < |chunks|
        invariant i <= |chunks| && InPlace() && Read(Left()) == Done([], Left())
        invariant Owes(all, ReadPieces(Left(), chunks[i..]), before, reports)
      {
        assert chunks[i] in chunks;
        assert chunks[i..][1..] == chunks[i + 1..];
        ReadRound(chunks[i], chunks[i..], all, before);
        if leftOverSize < 0 {
          return;
        }
        i := i + 1;
      }
      assert chunks[i..] == [];
      NoPieces(Left());
      OwesNothing(all, Done([], Left()), before, reports);
    }

    method ReadRound(chunk: seq<byte>, ghost chunks: seq<seq<byte>>, ghost all: Outcome, ghost before: seq<Report>)
      requires Valid() && InPlace() && Words(chunks) && chunks != [] && chunks[0] == chunk && |chunk| <= 2000
      requires Read(Left()) == Done([], Left()) && Owes(all, ReadPieces(Left(), chunks), before, reports)
      modifies this, data, tmp
      ensures
        if leftOverSize < 0 then
          leftOverSize == -8 && all.Lost? && exists x :: reports == before + all.reports + [Other(x)]
        else
          InPlace() && Read(Left()) == Done([], Left())
          && Owes(all, ReadPieces(Left(), chunks[1..]), before, reports)
    {
      hide Read, ReadPieces, Owes, FromLe64;
      ghost var left, was := Left(), reports;
      ghost var o := Read(left + chunk);
      PiecesUnfold(left, chunks);
      NoneRead(left, chunk, was);
      ReadData(chunk);
      if leftOverSize < 0 {
        assert o.reports + [] == o.reports;
        OwesLess(all, Lost([]), before, was, o.reports);
        OwesNothing(all, Lost([]), before, was + o.reports);
      } else {
        RestWaits(left + chunk);
        OwesLess(all, ReadPieces(o.rest, chunks[1..]), before, was, o.reports);
      }
    }

    lemma NoneRead(left: seq<byte>, chunk: seq<byte>, was: seq<Report>)
      ensures (chunk == [] ==> left + chunk == left) && was + [] == was
    {
    }

    lemma NoPieces(left: seq<byte>)
      requires |left| % 8 == 0
      ensures ReadPieces(left, []) == Done([], left)
    {
    }

    /** What is not decoded goes to `tmp`, unless the loop ran past the end. */
    method Keep(dptr: nat, ind: nat)
      requires Valid() && dptr <= ind + 8 && ind <= 2032 && ind < dptr + 24
      modifies `leftOverSize, tmp
      ensures leftOverSize == ind - dptr
      ensures dptr <= ind ==> tmp[..leftOverSize] == data[dptr..ind]
    {
      leftOverSize := ind - dptr;
      if leftOverSize > 0 {
        forall k | 0 <= k < leftOverSize {
          tmp[k] := data[dptr + k];
        }
      }
    }

    /** The decode loop over the first `ind` bytes; `dptr` is where it stops. A step indicator cut short
        is reported with the eight bytes that an earlier read left behind the end. */
    method Decode(ind: nat) returns (dptr: nat)
      requires Valid() && ind <= 2032 && ind % 8 == 0
      modifies `reports
      ensures
        var o := Read(data[..ind]);
        if o.Done? then dptr <= ind && data[dptr..ind] == o.rest && reports == old(reports) + o.reports
        else dptr == ind + 8 && reports == old(reports) + o.reports + [Other(FromLe64(data[ind..ind + 8]))]
    {
      hide Read, One, FromLe64, Owes;
      ghost var all := Read(data[..ind]);
      dptr := 0;
      var bufSize: int := ind;
      var doneFlag := false;
      assert data[0..ind] == data[..ind];
      OwesAll(all, reports);
      while bufSize > 0 && !doneFlag
        invariant bufSize == ind - dptr && (bufSize >= 0 || bufSize == -8) && bufSize % 8 == 0
        invariant bufSize >= 0 ==> Owes(all, Read(data[dptr..ind]), old(reports), reports)
        invariant bufSize >= 0 && doneFlag ==> Read(data[dptr..ind]) == Done([], data[dptr..ind])
        invariant bufSize < 0 ==>
          all.Lost? && reports == old(reports) + all.reports + [Other(FromLe64(data[ind..ind + 8]))]
        decreases bufSize, !doneFlag
      {
        ghost var b, was := data[dptr..ind], reports;
        if One(b).Wait? {
          ReadUnfold(b);
        } else if One(b).Got? {
          OwesAfterGot(all, b, old(reports), was);
        } else {
          OwesAfterOverrun(all, b, old(reports), was);
        }
        dptr, doneFlag := DecodeOne(dptr, ind);
        assert One(b).Got? ==> b[One(b).size..] == data[dptr..ind];
        bufSize := ind - dptr;
      }
      if bufSize == 0 {
        ReadUnfold(data[dptr..ind]);
      }
      if bufSize >= 0 {
        OwesNothing(all, Read(data[dptr..ind]), old(reports), reports);
      }
    }

    /** One turn: the switch on the header at `dptr`. */
    method DecodeOne(dptr: nat, ind: nat) returns (next: nat, doneFlag: bool)
      requires Valid() && dptr + 8 <= ind <= 2032 && (ind - dptr) % 8 == 0
      modifies `reports
      ensures
        var r := One(data[dptr..ind]);
        && (r.Wait? ==> doneFlag && next == dptr && reports == old(reports))
        && (r.Got? ==> !doneFlag && next == dptr + r.size && reports == old(reports) + [r.report])
        && (r.Overrun? ==>
             !doneFlag && next == dptr + 16
             && reports == old(reports) + [Other(FromLe64(data[dptr + 8..dptr + 16]))])
    {
      hide FromLe16, FromLe64, SensorData, QuatData, ShortReport;
      next, doneFlag := dptr, false;
      var bufSize := ind - dptr;
      var b := data[dptr..ind];
      TimeBytes(data[..], dptr, ind);
      var hdr := FromLe16(b);
      var kind := hdr - hdr % 16;
      if kind in {PRESSURE_HDR, ACCEL_HDR, GYRO_HDR, COMPASS_HDR, PEDQUAT_HDR, STEP_DETECTOR_HDR} {
        if bufSize >= 16 {
          var sensor := SensorData(b);
          next := dptr + 8;
          PrintShort(kind, sensor, FromLe64(data[next..next + 8]));
        } else {
          doneFlag := true;
        }
      } else if kind == LPQUAT_HDR || kind == SIXQUAT_HDR {
        if bufSize >= 24 {
          var q := QuatData(b);
          next := dptr + 16;
          var t := FromLe64(data[next..next + 8]);
          reports := reports + [if kind == LPQUAT_HDR then LpQuaternion(q, t) else SixQuaternion(q, t)];
        } else {
          doneFlag := true;
        }
      } else if hdr == EMPTY_MARKER {
        reports := reports + [Empty];
      } else if hdr == END_MARKER {
        reports := reports + [End];
      } else if hdr == COMPASS_HDR_2 {
        reports := reports + [BadCompass];
      } else {
        next := dptr + 8;
        reports := reports + [Other(FromLe64(data[next..next + 8]))];
      }
      if !doneFlag {
        next := next + 8;
      }
    }

    lemma TimeBytes(all: seq<byte>, dptr: nat, ind: nat)
      requires dptr <= ind <= |all|
      ensures dptr + 16 <= ind ==> all[dptr..ind][8..16] == all[dptr + 8..dptr + 16]
      ensures dptr + 24 <= ind ==> all[dptr..ind][16..24] == all[dptr + 16..dptr + 24]
    {
      if dptr + 16 <= ind {
        SliceOfSlice(all, dptr, ind, 8, 16);
      }
      if dptr + 24 <= ind {
        SliceOfSlice(all, dptr, ind, 16, 24);
      }
    }

    /** The cases of the switch for three 16-bit numbers and for none. */
    method PrintShort(kind: u16, sensor: Vec16, t: u64)
      requires kind in {PRESSURE_HDR, ACCEL_HDR, GYRO_HDR, COMPASS_HDR, PEDQUAT_HDR, STEP_DETECTOR_HDR}
      modifies `reports
      ensures reports == old(reports) + [ShortReport(kind, sensor, t)]
    {
      var report :=
        if kind == PRESSURE_HDR then
          var high: int := sensor.y;
          Pressure(high * 0x1_0000 + U16(sensor.z), t)
        else if kind == ACCEL_HDR then Accel(sensor, t)
        else if kind == GYRO_HDR then Gyro(sensor, t)
        else if kind == COMPASS_HDR then Compass(sensor, t)
        else if kind == PEDQUAT_HDR then Pedometer(sensor, t)
        else StepDetector(t);
      reports := reports + [report];
    }
  }
}
