/** From the motion processor's packets to the user's reports, through the driver and the reader. */
module Pipeline {
  import opened Machine
  import opened Records
  import opened Fifo
  import FifoTheorems
  import Reader
  import Ring

  // ----- what the parser pushes can be read -----

  lemma {:induction false} IndicatorsPushable(s: nat, ts: u64, q: int, i: nat, steps: nat)
    ensures Reader.AllPushable(StepIndicators(s, ts, q, i, steps))
    decreases steps - i
  {
    if i < steps {
      IndicatorsPushable(s, ts, q, i + 1, steps);
    }
  }

  lemma PacketPushable(sl: Slaves, st: State, b: seq<byte>)
    requires ValidSensors(st.sensor) && Next(sl, st, b).Packet?
    ensures Reader.AllPushable(Next(sl, st, b).out)
  {
    hide FromBe16, Vector16, Vector32, StepTime, StepIndicators, TruncDiv;
    var n := Next(sl, st, b);
    var steps, hdr := Steps(FromBe16(b)), Header(FromBe16(b));
    var s := SensorOf(hdr);
    if s != INVALID && st.sensor[s].on && s != STEP {
      var ts := U64(st.sensor[s].ts + st.sensor[s].dur);
      var st' := st.(sensor := st.sensor[s := st.sensor[s].(ts := ts)]);
      PayloadPushable(sl, st, s, hdr, steps, ts, b);
      if steps > 1 {
        IndicatorsPushable(s, st.sensor[s].ts, TruncDiv(st.sensor[s].dur, steps), 1, steps);
      }
    }
  }

  lemma PayloadPushable(sl: Slaves, st: State, s: nat, hdr: u16, steps: nat, ts: u64, b: seq<byte>)
    requires s < SENSOR_NUM && |b| >= InitialSize(s) && hdr % 16 == 0 && s == SensorOf(hdr) && s != STEP
    ensures Reader.AllPushable(Payload(sl, st, s, hdr, steps, ts, b))
  {
    hide FromBe16, Vector16, Vector32;
  }

  /** Every record that any byte stream makes the driver push is one the reader knows. */
  lemma {:induction false} ParsePushable(sl: Slaves, st: State, b: seq<byte>)
    requires ValidSensors(st.sensor)
    ensures Reader.AllPushable(Parse(sl, st, b).out)
    decreases |b|
  {
    hide Next, Reader.Pushable;
    if Next(sl, st, b).Packet? {
      var n := Next(sl, st, b);
      PacketPushable(sl, st, b);
      ParsePushable(sl, n.st, b[n.size..]);
    }
  }

  /** End to end: packets of enabled sensors, however the FIFO delivers them (`pieces`), reach the user
      as exactly the reports they mean, however the IIO buffer is read (`chunks`), as long as no read
      ends inside a step indicator. `buffer` holds the driver's bytes, unset ones included. */
  lemma EndToEnd(sl: Slaves, st: State, ps: seq<FifoTheorems.DmpPacket>, pieces: seq<seq<byte>>,
                 buffer: seq<byte>, chunks: seq<seq<byte>>)
    requires ValidSensors(st.sensor) && FifoTheorems.AllSent(st, ps)
    requires Concat(pieces) == FifoTheorems.StreamBytes(ps)
    requires Encodes(FifoTheorems.ParsePieces(sl, st, [], pieces).out, buffer)
    requires Reader.Words(chunks) && Concat(chunks) == buffer
    requires Reader.CleanCuts(FifoTheorems.MeaningOfStream(sl, st, ps).1, 0, chunks)
    ensures Reader.AllPushable(FifoTheorems.MeaningOfStream(sl, st, ps).1)
    ensures Reader.ReadPieces([], chunks)
         == Reader.Done(Reader.ExpectedAll(FifoTheorems.MeaningOfStream(sl, st, ps).1), [])
  {
    hide Next, Parse, Encodes, Reader.ExpectedAll, Reader.CleanCuts, FifoTheorems.MeaningOfStream;
    var out := FifoTheorems.MeaningOfStream(sl, st, ps).1;
    FifoTheorems.CutsDoNotMatter(sl, st, [], pieces);
    assert [] + Concat(pieces) == FifoTheorems.StreamBytes(ps);
    FifoTheorems.ParseOfStream(sl, st, ps);
    ParsePushable(sl, st, FifoTheorems.StreamBytes(ps));
    assert [] + Concat(chunks) == buffer;
    Reader.NothingStraddles(out);
    Reader.ReaderInvertsDriver(out, [], chunks);
  }

  /** The same on the running driver: a series of interrupts, none of them with a full FIFO or a
      pending clock adjustment, pushes what one pass over all the bytes would. */
  method Interrupts(d: Ring.Driver, sl: Slaves, pieces: seq<seq<byte>>)
    requires d.Valid() && !d.adjustTime
    requires forall p :: p in pieces ==> |p| < HARDWARE_FIFO_SIZE
    requires Next(sl, d.Core(), d.LeftOver()).Stop?
    modifies d, d.fifoData, d.leftOver
    ensures d.Valid()
    ensures
      var p := Parse(sl, old(d.Core()), old(d.LeftOver()) + Concat(pieces));
      d.Core() == p.st && d.pushed == old(d.pushed) + p.out && d.LeftOver() == p.rest
  {
    hide Next, Parse, Encodes, ValidSensors;
    ghost var st, left, was := d.Core(), d.LeftOver(), d.pushed;
    var i := 0;
    assert pieces[0..] == pieces;
    while i < |pieces|
      invariant i <= |pieces| && d.Valid() && !d.adjustTime
      invariant
        var p := FifoTheorems.ParsePieces(sl, st, left, pieces);
        var q := FifoTheorems.ParsePieces(sl, d.Core(), d.LeftOver(), pieces[i..]);
        p.st == q.st && p.rest == q.rest && was + p.out == d.pushed + q.out
    {
      assert pieces[i] in pieces;
      ghost var now, had, st' := d.pushed, d.LeftOver(), d.Core();
      ghost var p := Parse(sl, st', had + pieces[i]);
      ghost var q := FifoTheorems.ParsePieces(sl, p.st, p.rest, pieces[i + 1..]);
      var res := d.ProcessBatchmode(sl, pieces[i], Ring.Quiet);
      assert pieces[i..][1..] == pieces[i + 1..];
      assert now + (p.out + q.out) == (now + p.out) + q.out;
      i := i + 1;
    }
    assert pieces[i..] == [];
    FifoTheorems.CutsDoNotMatter(sl, st, left, pieces);
  }

  // ----- both ends running -----

  function Sum(sizes: seq<nat>): nat {
    if sizes == [] then 0 else sizes[0] + Sum(sizes[1..])
  }

  /** A buffer in pieces of these sizes. */
  function Cut(b: seq<byte>, sizes: seq<nat>): (chunks: seq<seq<byte>>)
    requires Sum(sizes) == |b|
    ensures |chunks| == |sizes| && forall i :: 0 <= i < |sizes| ==> |chunks[i]| == sizes[i]
  {
    if sizes == [] then [] else [b[..sizes[0]]] + Cut(b[sizes[0]..], sizes[1..])
  }

  lemma {:induction false} CutTogether(b: seq<byte>, sizes: seq<nat>)
    requires Sum(sizes) == |b|
    ensures Concat(Cut(b, sizes)) == b
    decreases |sizes|
  {
    if sizes != [] {
      var n := sizes[0];
      CutTogether(b[n..], sizes[1..]);
      assert b[..n] + b[n..] == b;
      assert Cut(b, sizes)[1..] == Cut(b[n..], sizes[1..]);
    }
  }

  lemma CutFits(chunks: seq<seq<byte>>, sizes: seq<nat>)
    requires |chunks| == |sizes| && forall i :: 0 <= i < |sizes| ==> |chunks[i]| == sizes[i]
    requires forall n :: n in sizes ==> n % 8 == 0 && n <= 2000
    ensures Reader.Words(chunks) && forall c :: c in chunks ==> |c| <= 2000
  {
    assert forall i :: 0 <= i < |sizes| ==> sizes[i] in sizes;
  }

  /** Driver and reader thread as they run: the packets' bytes arrive over a series of interrupts, the thread
      reads the buffer in pieces of any sizes, and it keeps its place, and has reported exactly what the
      packets mean, if and only if no read ends inside a step indicator. */
  method DriveAndRead(d: Ring.Driver, t: Reader.Thread, sl: Slaves, ghost ps: seq<FifoTheorems.DmpPacket>,
                      pieces: seq<seq<byte>>, sizes: seq<nat>)
    requires d.Valid() && !d.adjustTime && d.LeftOver() == [] && d.pushed == []
    requires {d, d.fifoData, d.leftOver} !! {t, t.data, t.tmp}
    requires FifoTheorems.AllSent(d.Core(), ps) && Concat(pieces) == FifoTheorems.StreamBytes(ps)
    requires forall p :: p in pieces ==> |p| < HARDWARE_FIFO_SIZE
    requires t.Valid() && t.InPlace() && t.Left() == []
    requires forall n :: n in sizes ==> n % 8 == 0 && n <= 2000
    requires var out := FifoTheorems.MeaningOfStream(sl, d.Core(), ps).1; Sum(sizes) == Reader.Offset(out, |out|)
    modifies d, d.fifoData, d.leftOver, t, t.data, t.tmp
    ensures d.Valid() && d.pushed == FifoTheorems.MeaningOfStream(sl, old(d.Core()), ps).1
    ensures Sum(sizes) == |d.buffer| && Reader.AllPushable(d.pushed)
    ensures t.InPlace() <==> Reader.CleanCuts(d.pushed, 0, Cut(d.buffer, sizes))
    ensures t.InPlace() ==> t.Left() == [] && t.reports == old(t.reports) + Reader.ExpectedAll(d.pushed)
  {
    hide Next, Parse, Encodes, ValidSensors, Reader.Read, Reader.ReadPieces, Reader.CleanCuts, Reader.ExpectedAll;
    hide FifoTheorems.MeaningOfStream, FifoTheorems.AllSent, FifoTheorems.StreamBytes;
    hide Reader.Offset, Reader.Pushable, Cut;
    ghost var st := d.Core();
    StartsAtRest(sl, st);
    Interrupts(d, sl, pieces);
    assert [] + Concat(pieces) == FifoTheorems.StreamBytes(ps);
    assert d.pushed == Parse(sl, st, FifoTheorems.StreamBytes(ps)).out;
    FifoTheorems.ParseOfStream(sl, st, ps);
    ParsePushable(sl, st, FifoTheorems.StreamBytes(ps));
    Reader.EncodesSize(d.pushed, d.buffer);
    var chunks := Cut(d.buffer, sizes);
    CutTogether(d.buffer, sizes);
    CutFits(chunks, sizes);
    assert [] + Concat(chunks) == d.buffer;
    Reader.NothingStraddles(d.pushed);
    Reader.ReaderInvertsDriver(d.pushed, [], chunks);
    t.ReadRounds(chunks);
  }

  lemma StartsAtRest(sl: Slaves, st: State)
    requires ValidSensors(st.sensor)
    ensures Next(sl, st, []).Stop? && Reader.Read([]) == Reader.Done([], [])
  {
  }

  // ----- one packet, byte by byte -----

  /** An accelerometer packet as the chip sends it, while that sensor is on with a period of 20 ms, */
  lemma AccelPacketParsed(sl: Slaves, st: State)
    requires ValidSensors(st.sensor)
    requires st.sensor[ACCEL].on && st.sensor[ACCEL].dur == 20_000_000 && st.sensor[ACCEL].ts < 1_000_000_000_000
    ensures
      var t := st.sensor[ACCEL].ts + 20_000_000;
      Parse(sl, st, [0x40, 0, 0, 1, 0, 2, 0, 3])
      == Parsed(st.(sensor := st.sensor[ACCEL := st.sensor[ACCEL].(ts := t)]),
                [Sample(ACCEL, 0x4000, Vec16(1, 2, 3), t)], [])
  {
    hide TruncDiv, StepIndicators;
    var b: seq<byte> := [0x40, 0, 0, 1, 0, 2, 0, 3];
    assert b[2..4] == [0, 1] && b[4..6] == [0, 2] && b[6..8] == [0, 3] && b[8..] == [];
    FifoTheorems.ParseUnfold(sl, st, b);
    FifoTheorems.ParseUnfold(sl, Next(sl, st, b).st, []);
  }

  lemma KnownRecord(b: seq<byte>)
    requires |b| == 16 && b[..8] == [0, 0x40, 1, 0, 2, 0, 3, 0] && b[8..16] == [7, 6, 5, 4, 3, 2, 1, 0]
    ensures Reader.One(b) == Reader.Got(16, Reader.Accel(Vec16(1, 2, 3), 0x0001_0203_0405_0607))
  {
    hide FromLe16, FromLe64, Reader.SensorData;
    KnownTime();
    KnownPayload(b);
  }

  lemma KnownPayload(b: seq<byte>)
    requires |b| == 16 && b[..8] == [0, 0x40, 1, 0, 2, 0, 3, 0]
    ensures FromLe16(b) == 0x4000 && Reader.SensorData(b) == Vec16(1, 2, 3)
  {
    var a := b[..8];
    assert b[2..4] == a[2..4] == [1, 0] && b[4..6] == a[4..6] == [2, 0] && b[6..8] == a[6..8] == [3, 0];
    assert b[0] == a[0] && b[1] == a[1];
  }

  lemma KnownTime()
    ensures FromLe64([7, 6, 5, 4, 3, 2, 1, 0]) == 0x0001_0203_0405_0607
  {
    var b: seq<byte> := [7, 6, 5, 4, 3, 2, 1, 0];
    assert b[..4] == [7, 6, 5, 4] && b[4..8] == [3, 2, 1, 0];
    assert b[..4][..2] == [7, 6] && b[..4][2..4] == [5, 4] && b[4..8][..2] == [3, 2] && b[4..8][2..4] == [1, 0];
  }

  /** and its record as the user reads it. */
  lemma AccelRecordRead()
    ensures Reader.Read([0, 0x40, 1, 0, 2, 0, 3, 0, 7, 6, 5, 4, 3, 2, 1, 0])
         == Reader.Done([Reader.Accel(Vec16(1, 2, 3), 0x0001_0203_0405_0607)], [])
  {
    hide Reader.One, Reader.Read;
    var b: seq<byte> := [0, 0x40, 1, 0, 2, 0, 3, 0, 7, 6, 5, 4, 3, 2, 1, 0];
    assert b[..8] == [0, 0x40, 1, 0, 2, 0, 3, 0] && b[8..16] == [7, 6, 5, 4, 3, 2, 1, 0] && b[16..] == [];
    KnownRecord(b);
    Reader.ReadUnfold(b);
    Reader.ReadUnfold([]);
  }
}
