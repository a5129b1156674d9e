/** Batch mode (`inv_set_dmp_sysfs`, `inv_set_rate` and `inv_batchmode_calc` in `inv_mpu_ring.c`): how
    many ticks the chip may collect before the host must read its FIFO, and how many bytes that is. */
module Batch {
  import opened Machine
  import opened Fifo

  const MPU_DEFAULT_DMP_FREQ := 200
  const MAX_DMP_OUTPUT_RATE := 200
  const FIFO_SIZE := 992
  const ONE_K_HZ := 1000
  const MSEC_PER_SEC := 1000
  const EINVAL := 22

  // ----- rates -----

  /** Bytes per second of the enabled sensors. */
  function Rates(sensor: seq<Sensor>): int {
    if sensor == [] then 0
    else (if sensor[0].on then sensor[0].rate * sensor[0].sampleSize else 0) + Rates(sensor[1..])
  }

  /** Bytes of one sample of every enabled sensor. */
  function Sizes(sensor: seq<Sensor>): nat {
    if sensor == [] then 0
    else (if sensor[0].on then sensor[0].sampleSize else 0) + Sizes(sensor[1..])
  }

  /** The least rate of the enabled sensors, compared as unsigned, and at most 200. */
  function MinRate(sensor: seq<Sensor>): (r: u32)
    requires AllRated(sensor)
    ensures 1 <= r <= MAX_DMP_OUTPUT_RATE
  {
    if sensor == [] then MAX_DMP_OUTPUT_RATE
    else
      assert sensor[0] in sensor;
      var rest := MinRate(sensor[1..]);
      if sensor[0].on && U32(sensor[0].rate) < rest then U32(sensor[0].rate) else rest
  }

  predicate Rated(s: Sensor) {
    s.on ==> s.rate != 0
  }

  predicate AllRated(sensor: seq<Sensor>) {
    forall s :: s in sensor ==> Rated(s)
  }

  /** No enabled sensor has a smaller rate, and one has this one, unless it is 200. */
  lemma {:induction false} LeastRate(sensor: seq<Sensor>)
    requires AllRated(sensor)
    ensures forall s :: s in sensor && s.on ==> MinRate(sensor) <= U32(s.rate)
    ensures MinRate(sensor) == 200 || exists s :: s in sensor && s.on && U32(s.rate) == MinRate(sensor)
  {
    hide U32;
    if sensor != [] {
      assert sensor[0] in sensor && sensor == [sensor[0]] + sensor[1..];
      LeastRate(sensor[1..]);
    }
  }

  predicate Divides(s: Sensor) {
    s.on ==> 1 <= s.rate <= MAX_DMP_OUTPUT_RATE && MPU_DEFAULT_DMP_FREQ % s.rate == 0
  }

  predicate AllDivide(sensor: seq<Sensor>): (r: bool)
    ensures r ==> AllRated(sensor)
  {
    forall s :: s in sensor ==> Divides(s)
  }

  /** The counter after `inv_set_dmp_sysfs`. */
  function Counted(s: Sensor): Sensor
    requires Rated(s)
  {
    if s.on then s.(counter := Quotient(MPU_DEFAULT_DMP_FREQ, s.rate)) else s
  }

  /** How often the rate goes into 200, with its sign. */
  predicate GoesInto200(counter: int, rate: int32) {
    && Abs(counter) * Abs(rate) <= 200 < (Abs(counter) + 1) * Abs(rate)
    && (counter != 0 ==> (0 < counter <==> 0 < rate))
  }

  /** A sensor after the set-up: enabled, it counts the ticks of its sample period; nothing else changes. */
  ghost predicate CountsTicks(was: Sensor, s: Sensor) {
    if was.on then s == was.(counter := s.counter) && GoesInto200(s.counter, was.rate) else s == was
  }

  lemma CountedCounts(s: Sensor)
    requires Rated(s)
    ensures CountsTicks(s, Counted(s))
  {
    if s.on {
      var a: nat := Abs(s.rate);
      QuotientBounds(200, a);
      assert (200 / a + 1) * a == 200 / a * a + a;
    }
  }

  /** For a rate of 1 to 200 the counter is the number of ticks between two samples of the chip; if the
      rate divides 200, that number is exact; a rate above 200 leaves nothing to count. */
  lemma TicksOfPeriod(counter: int, rate: int32)
    requires rate != 0 && GoesInto200(counter, rate)
    ensures 1 <= rate <= 200 ==> counter == Period(rate) && counter * rate <= 200 < (counter + 1) * rate
    ensures 1 <= rate <= 200 && 200 % rate == 0 ==> counter * rate == 200
    ensures 200 < rate ==> counter == 0
  {
    hide Period;
    if 1 <= rate <= 200 {
      var c: nat := Abs(counter);
      assert (c + 1) * rate == c * rate + rate;
      QuotientIs(200, rate, c);
      MulLe(0, c, rate);
    } else if 200 < rate && counter != 0 {
      MulLe(1, Abs(counter), rate);
    }
  }

  /** Ticks of the chip's 200 Hz clock between two samples. The chip gets one less, as a 16-bit word
      (`inv_set_rate`), so a rate above 200 and a negative one make it wait very long. */
  function Period(rate: int32): (c: int)
    requires rate != 0
    ensures 1 <= c <= TWO_16
    ensures 1 <= rate <= MPU_DEFAULT_DMP_FREQ ==> c == MPU_DEFAULT_DMP_FREQ / rate
    ensures rate > MPU_DEFAULT_DMP_FREQ ==> c == TWO_16
  {
    DividerBounds(rate);
    U16(Quotient(MPU_DEFAULT_DMP_FREQ, rate) - 1) + 1
  }

  lemma DividerBounds(rate: int32)
    requires rate != 0
    ensures
      var q := Quotient(MPU_DEFAULT_DMP_FREQ, rate);
      && -MPU_DEFAULT_DMP_FREQ <= q <= MPU_DEFAULT_DMP_FREQ
      && (1 <= rate <= MPU_DEFAULT_DMP_FREQ ==> 1 <= q && q == MPU_DEFAULT_DMP_FREQ / rate)
      && (rate > MPU_DEFAULT_DMP_FREQ ==> q == 0)
  {
    QuotientBounds(MPU_DEFAULT_DMP_FREQ, Abs(rate));
    if 1 <= rate <= MPU_DEFAULT_DMP_FREQ {
      AtMostQuotient(1, rate, MPU_DEFAULT_DMP_FREQ);
    } else if rate > MPU_DEFAULT_DMP_FREQ {
      QuotientIs(MPU_DEFAULT_DMP_FREQ, rate, 0);
    }
  }

  // ----- what a batch produces -----

  /** Bytes the chip writes in `ticks` ticks, `from` ticks after its rate counters were zeroed: no
      batch but the first one starts with them at zero. */
  function Made(sensor: seq<Sensor>, from: nat, ticks: nat): int
    requires AllRated(sensor)
  {
    if sensor == [] then 0
    else
      assert sensor[0] in sensor;
      (if sensor[0].on then Samples(Period(sensor[0].rate), from, ticks) * sensor[0].sampleSize else 0)
      + Made(sensor[1..], from, ticks)
  }

  function Samples(c: int, from: nat, ticks: nat): (n: nat)
    requires 1 <= c
  {
    SamplesBounds(c, from, ticks);
    (from + ticks) / c - from / c
  }

  /** Every enabled sensor as often as `ticks` ticks can hold: a sample at once and then one a
      period. */
  function Worst(sensor: seq<Sensor>, ticks: nat): int
    requires AllRated(sensor)
  {
    if sensor == [] then 0
    else
      assert sensor[0] in sensor;
      (if sensor[0].on then CeilDiv(ticks, Period(sensor[0].rate)) * sensor[0].sampleSize else 0)
      + Worst(sensor[1..], ticks)
  }

  function CeilDiv(x: nat, c: int): nat
    requires 1 <= c
  {
    (x + c - 1) / c
  }

  ghost predicate EveryBatchFits(sensor: seq<Sensor>, ticks: nat, limit: int)
    requires AllRated(sensor)
  {
    forall from: nat :: Made(sensor, from, ticks) <= limit
  }

  lemma SamplesBounds(c: int, from: nat, ticks: nat)
    requires 1 <= c
    ensures 0 <= (from + ticks) / c - from / c <= CeilDiv(ticks, c)
  {
    var r, qc := from % c, from / c * c;
    assert from == qc + r;
    Shifted(from / c, c, qc, r + ticks);
    QuotientMonotone(r + ticks, ticks + c - 1, c);
  }

  lemma Shifted(q: int, c: int, qc: int, x: int)
    requires 1 <= c && qc == q * c
    ensures (qc + x) / c == q + x / c
  {
    var d := x / c;
    assert x == c * d + x % c;
    var dc := d * c;
    assert (q + d) * c == qc + dc;
    QuotientIs(qc + x, c, q + d);
  }

  lemma QuotientMonotone(x: int, y: int, c: int)
    requires 1 <= c && 0 <= x <= y
    ensures 0 <= x / c <= y / c
  {
    QuotientBounds(x, c);
    AtMostQuotient(x / c, c, y);
  }

  lemma {:induction false} MadeAtMostWorst(sensor: seq<Sensor>, from: nat, ticks: nat)
    requires AllRated(sensor)
    ensures 0 <= Made(sensor, from, ticks) <= Worst(sensor, ticks)
  {
    hide Samples, CeilDiv, Period;
    if sensor != [] {
      var s := sensor[0];
      assert s in sensor;
      MadeAtMostWorst(sensor[1..], from, ticks);
      if s.on {
        SamplesAtMost(Period(s.rate), from, ticks);
        MulLe(0, Samples(Period(s.rate), from, ticks), s.sampleSize);
        MulLe(Samples(Period(s.rate), from, ticks), CeilDiv(ticks, Period(s.rate)), s.sampleSize);
      }
    }
  }

  lemma SamplesAtMost(c: int, from: nat, ticks: nat)
    requires 1 <= c
    ensures Samples(c, from, ticks) <= CeilDiv(ticks, c)
  {
    SamplesBounds(c, from, ticks);
  }

  /** A number of ticks that all periods divide. */
  function Common(sensor: seq<Sensor>): (m: int)
    requires AllRated(sensor)
    ensures m >= 1
  {
    if sensor == [] then 1
    else
      assert sensor[0] in sensor;
      var m, c := Common(sensor[1..]), if sensor[0].on then Period(sensor[0].rate) else 1;
      MulLe(1, m, c);
      m * c
  }

  /** One tick before all sensors sample together. */
  lemma {:induction false} WorstIsMade(sensor: seq<Sensor>, k: int, ticks: nat)
    requires AllRated(sensor) && 1 <= k
    ensures 1 <= k * Common(sensor)
    ensures Made(sensor, k * Common(sensor) - 1, ticks) == Worst(sensor, ticks)
  {
    hide Samples, CeilDiv, Period;
    MulLe(1, k, Common(sensor));
    if sensor != [] {
      var s := sensor[0];
      assert s in sensor;
      var m, c := Common(sensor[1..]), if s.on then Period(s.rate) else 1;
      MulLe(1, k, c);
      WorstIsMade(sensor[1..], k * c, ticks);
      assert k * (m * c) == (k * c) * m == (k * m) * c by { Regroup3(k, m, c); }
      if s.on {
        MulLe(1, k, m);
        SamplesBefore(c, k * m, ticks);
      }
    }
  }

  lemma Regroup3(k: int, m: int, c: int)
    ensures k * (m * c) == (k * c) * m == (k * m) * c
  {
  }

  lemma SamplesBefore(c: int, q: int, ticks: nat)
    requires 1 <= c && 1 <= q
    ensures 1 <= q * c && Samples(c, q * c - 1, ticks) == CeilDiv(ticks, c)
  {
    MulLe(1, q, c);
    var qc, before := q * c, (q - 1) * c;
    assert before == qc - c;
    Shifted(q - 1, c, before, c - 1);
    Shifted(q - 1, c, before, ticks + c - 1);
    QuotientIs(c - 1, c, 0);
  }

  /** For all rates: whatever the phase of the rate counters, a batch of `ticks` ticks stays within
      `limit` bytes, exactly when every sensor's rounded-up number of samples does. */
  lemma EveryBatch(sensor: seq<Sensor>, ticks: nat, limit: int)
    requires AllRated(sensor)
    ensures EveryBatchFits(sensor, ticks, limit) <==> Worst(sensor, ticks) <= limit
  {
    hide Made, Worst, Common;
    if Worst(sensor, ticks) <= limit {
      forall from: nat
        ensures Made(sensor, from, ticks) <= limit
      {
        MadeAtMostWorst(sensor, from, ticks);
      }
    } else {
      WorstIsMade(sensor, 1, ticks);
      var from := 1 * Common(sensor) - 1;
      assert Made(sensor, from, ticks) > limit;
    }
  }

  // ----- rates that divide 200 -----

  /** With a dividing rate the samples of the first batch are the rate's share of it, less at most
      one; */
  lemma FirstSamples(rate: int32, size: nat, ticks: nat)
    requires 1 <= rate <= MAX_DMP_OUTPUT_RATE && MPU_DEFAULT_DMP_FREQ % rate == 0
    ensures
      var made := MPU_DEFAULT_DMP_FREQ * (Samples(Period(rate), 0, ticks) * size);
      ticks * (rate * size) - MPU_DEFAULT_DMP_FREQ * size <= made <= ticks * (rate * size)
  {
    hide Period;
    var c, n, unit := Period(rate), Samples(Period(rate), 0, ticks), rate * size;
    DividingPeriod(rate, size);
    QuotientIs(0, c, 0);
    QuotientBounds(ticks, c);
    Regroup(c, rate, n, size);
    Band(ticks, n * c, c, unit);
  }

  /** and of any batch at most one more. */
  lemma MostSamples(rate: int32, size: nat, ticks: nat)
    requires 1 <= rate <= MAX_DMP_OUTPUT_RATE && MPU_DEFAULT_DMP_FREQ % rate == 0
    ensures MPU_DEFAULT_DMP_FREQ * (CeilDiv(ticks, Period(rate)) * size)
         <= ticks * (rate * size) + MPU_DEFAULT_DMP_FREQ * size - rate * size
  {
    hide Period;
    var c, m, unit := Period(rate), CeilDiv(ticks, Period(rate)), rate * size;
    DividingPeriod(rate, size);
    QuotientBounds(ticks + c - 1, c);
    Regroup(c, rate, m, size);
    MulLe(m * c, ticks + c - 1, unit);
    Spread(ticks, c, unit);
  }

  lemma DividingPeriod(rate: int32, size: nat)
    requires 1 <= rate <= MAX_DMP_OUTPUT_RATE && MPU_DEFAULT_DMP_FREQ % rate == 0
    ensures Period(rate) * rate == MPU_DEFAULT_DMP_FREQ
    ensures 0 <= rate * size && Period(rate) * (rate * size) == MPU_DEFAULT_DMP_FREQ * size
  {
    MulLe(0, rate, size);
    Regroup(Period(rate), rate, 1, size);
  }

  lemma Spread(ticks: int, c: int, unit: int)
    ensures (ticks + c - 1) * unit == ticks * unit + c * unit - unit
  {
  }

  lemma Band(x: int, m: int, c: int, unit: int)
    requires m <= x <= m + c && 0 <= unit
    ensures m * unit <= x * unit <= m * unit + c * unit
  {
    MulLe(m, x, unit);
    MulLe(x, m + c, unit);
  }

  lemma Regroup(c: int, rate: int, n: int, size: int)
    ensures (c * rate) * (n * size) == (n * c) * (rate * size)
  {
    assert (c * rate) * (n * size) == c * (rate * (n * size)) == c * (n * (rate * size)) == (c * n) * (rate * size);
  }

  /** What the chip makes of dividing rates: in the first batch what they promise, less at most one
      sample of each sensor; in any batch that, and at most one sample of each more. */
  lemma {:induction false} ProducedBounds(sensor: seq<Sensor>, ticks: nat)
    requires AllDivide(sensor)
    ensures MPU_DEFAULT_DMP_FREQ * Made(sensor, 0, ticks) <= ticks * Rates(sensor)
    ensures ticks * Rates(sensor) <= MPU_DEFAULT_DMP_FREQ * (Made(sensor, 0, ticks) + Sizes(sensor))
    ensures MPU_DEFAULT_DMP_FREQ * Worst(sensor, ticks)
         <= ticks * Rates(sensor) + MPU_DEFAULT_DMP_FREQ * Sizes(sensor) - Rates(sensor)
  {
    hide Samples, CeilDiv, Period;
    if sensor != [] {
      var s := sensor[0];
      assert s in sensor && Divides(s);
      ProducedBounds(sensor[1..], ticks);
      if s.on {
        FirstSamples(s.rate, s.sampleSize, ticks);
        MostSamples(s.rate, s.sampleSize, ticks);
        Distribute(ticks, s.rate * s.sampleSize, Rates(sensor[1..]));
      } else {
        assert Rates(sensor) == Rates(sensor[1..]);
      }
    }
  }

  lemma Distribute(t: int, x: int, y: int)
    ensures t * (x + y) == t * x + t * y
  {
  }

  /** Eight sensors with dividing rates never come near 16 bits. */
  lemma {:induction false} DividingRates(sensor: seq<Sensor>)
    requires AllDivide(sensor)
    ensures 0 <= Rates(sensor) <= MAX_DMP_OUTPUT_RATE * Sizes(sensor)
  {
    if sensor != [] {
      var s := sensor[0];
      assert s in sensor && Divides(s);
      DividingRates(sensor[1..]);
      if s.on {
        MulLe(0, s.rate, s.sampleSize);
        MulLe(s.rate, MAX_DMP_OUTPUT_RATE, s.sampleSize);
      }
    }
  }

  // ----- the configured batch -----

  /** The sum of `inv_set_dmp_sysfs`, cut to the sixteen bits of `bytes_per_sec`. */
  function ByteRate(sensor: seq<Sensor>): u16 {
    U16(Rates(sensor))
  }

  /** What the source compares with the FIFO size: the product is 32 bits wide and read as signed. */
  function Demand(timeout: u32, bytesPerSec: u16): int32 {
    S32(timeout * bytesPerSec)
  }

  /** The timeout in milliseconds that is turned into ticks. */
  function Capped(timeout: u32, bytesPerSec: u16, overflowOn: bool): int {
    if Demand(timeout, bytesPerSec) > FIFO_SIZE * ONE_K_HZ && !overflowOn then
      if bytesPerSec == 0 then 0 else FIFO_SIZE * ONE_K_HZ / bytesPerSec
    else S32(timeout)
  }

  /** The timeout is raised to one period of the slowest sensor. */
  function Raised(timeout: u32, minRate: u32): u32
    requires minRate > 0
  {
    if timeout < MSEC_PER_SEC / minRate then MSEC_PER_SEC / minRate else timeout
  }

  /** The ticks of a batch, from the settings alone. */
  function Ticks(sensor: seq<Sensor>, timeout: u32, overflowOn: bool): (t: int)
    requires AllRated(sensor) && timeout < TWO_31
    ensures t >= 0
  {
    CappedSize(Raised(timeout, MinRate(sensor)), ByteRate(sensor), overflowOn);
    Capped(Raised(timeout, MinRate(sensor)), ByteRate(sensor), overflowOn) / 5
  }

  /** The bytes per second times the ticks: within the FIFO if the cap acts, near the demand if not. */
  lemma CappedSize(timeout: u32, b: u16, overflowOn: bool)
    requires timeout < TWO_31
    ensures
      var ticks := Capped(timeout, b, overflowOn) / 5;
      && ticks >= 0 && 0 <= timeout * b
      && (timeout * b < TWO_31 ==> Demand(timeout, b) == timeout * b)
      && (if Demand(timeout, b) > FIFO_SIZE * ONE_K_HZ && !overflowOn then 5 * (ticks * b) <= FIFO_SIZE * ONE_K_HZ
          else 5 * (ticks * b) <= timeout * b <= 5 * (ticks * b) + 4 * b)
  {
    hide S32;
    MulLe(0, timeout, b);
    SmallTimeout(timeout);
    if timeout * b < TWO_31 {
      SmallTimeout(timeout * b);
    }
    if Demand(timeout, b) > FIFO_SIZE * ONE_K_HZ && !overflowOn {
      NoDemand(timeout, b);
      QuotientBounds(FIFO_SIZE * ONE_K_HZ, b);
      FifthBand(FIFO_SIZE * ONE_K_HZ / b, b);
    } else {
      FifthBand(timeout, b);
    }
  }

  /** The 32-bit product does not hide the demand from the cap. */
  predicate DemandSeen(timeout: u32, bytesPerSec: u16) {
    timeout * bytesPerSec < TWO_31 || Demand(timeout, bytesPerSec) > FIFO_SIZE * ONE_K_HZ
  }

  /** Dividing rates and no overflow allowed: the first batch is within the FIFO size exactly when the
      cap sees the demand, and then every later one is within it and one sample of each sensor. */
  lemma BatchFits(sensor: seq<Sensor>, timeout: u32)
    requires ValidSensors(sensor) && AllDivide(sensor) && timeout < TWO_31
    ensures
      var seen := DemandSeen(Raised(timeout, MinRate(sensor)), ByteRate(sensor));
      var ticks := Ticks(sensor, timeout, false);
      && (Made(sensor, 0, ticks) <= FIFO_SIZE <==> seen)
      && (seen ==> EveryBatchFits(sensor, ticks, FIFO_SIZE + Sizes(sensor)))
  {
    hide Made, Worst, Rates, Sizes, Demand, Capped, Raised, MinRate, AllDivide, AllRated, ValidSensors, EveryBatchFits;
    SizesOfSensors(sensor);
    DividingRates(sensor);
    var t, b := Raised(timeout, MinRate(sensor)), ByteRate(sensor);
    assert b == Rates(sensor);
    RaisedBound(timeout, MinRate(sensor));
    var ticks := Ticks(sensor, timeout, false);
    CappedSize(t, b, false);
    ProducedBounds(sensor, ticks);
    EveryBatch(sensor, ticks, FIFO_SIZE + Sizes(sensor));
    CapDecides(t * b, b, Demand(t, b), ticks * b, 200 * Made(sensor, 0, ticks), 200 * Sizes(sensor));
  }

  lemma RaisedBound(timeout: u32, minRate: u32)
    requires timeout < TWO_31 && 1 <= minRate
    ensures Raised(timeout, minRate) < TWO_31
  {
    QuotientBounds(MSEC_PER_SEC, minRate);
  }

  /** The timeout is raised to one period of the slowest rate, in whole milliseconds, and no further. */
  lemma RaisedToPeriod(timeout: u32, minRate: u32)
    requires 1 <= minRate
    ensures
      var t := Raised(timeout, minRate);
      timeout <= t && (t == timeout || t * minRate <= 1000) && 1000 < (t + 1) * minRate
  {
    var q := MSEC_PER_SEC / minRate;
    QuotientBounds(MSEC_PER_SEC, minRate);
    MulLe(q + 1, Raised(timeout, minRate) + 1, minRate);
    assert (q + 1) * minRate == q * minRate + minRate;
  }

  /** The arithmetic of the cap: `made` and `sizes` are bytes times 200. */
  lemma CapDecides(product: int, b: u16, demand: int, used: int, made: int, sizes: int)
    requires 0 <= product && (product < TWO_31 ==> demand == product)
    requires used - sizes <= made <= used && 0 <= sizes <= 200 * 80
    requires
      if demand > FIFO_SIZE * ONE_K_HZ then 5 * used <= FIFO_SIZE * ONE_K_HZ
      else 5 * used <= product <= 5 * used + 4 * b
    ensures made <= 200 * FIFO_SIZE <==> product < TWO_31 || demand > FIFO_SIZE * ONE_K_HZ
    ensures product < TWO_31 || demand > FIFO_SIZE * ONE_K_HZ ==> used <= 200 * FIFO_SIZE
  {
  }

  lemma FifthBand(x: int, b: int)
    requires 0 <= b
    ensures 5 * (x / 5 * b) <= x * b <= 5 * (x / 5 * b) + 4 * b
  {
    var q := x / 5;
    assert 5 * q <= x <= 5 * q + 4;
    Band(x, 5 * q, 4, b);
    assert 5 * q * b == 5 * (q * b);
  }

  lemma NoDemand(timeout: u32, bytesPerSec: u16)
    ensures Demand(timeout, bytesPerSec) > FIFO_SIZE * ONE_K_HZ ==> 0 < bytesPerSec
  {
  }

  lemma SmallTimeout(timeout: u32)
    requires timeout < TWO_31
    ensures S32(timeout) == timeout
  {
  }

  /** All sensors together: one sample of each is at most 80 bytes. */
  lemma {:induction false} SizesOfSensors(sensor: seq<Sensor>)
    requires ValidSensors(sensor)
    ensures Sizes(sensor) <= 80
  {
    SizesBound(sensor, 0);
    assert sensor[0..] == sensor;
  }

  lemma {:induction false} SizesBound(sensor: seq<Sensor>, i: nat)
    requires ValidSensors(sensor) && i <= SENSOR_NUM
    ensures Sizes(sensor[i..]) <= 8 * (SENSOR_NUM - i) + (if i <= SIXQ then 16 else 8 * (SENSOR_NUM - i))
    decreases SENSOR_NUM - i
  {
    if i < SENSOR_NUM {
      SizesBound(sensor, i + 1);
      assert sensor[i..][1..] == sensor[i + 1..];
    }
  }

  // ----- inputs at the edge -----

  /** The sensors in `which`, all at one rate. */
  function Enabled(which: set<nat>, rate: int32): (sensor: seq<Sensor>)
    ensures ValidSensors(sensor)
  {
    seq(SENSOR_NUM, i requires 0 <= i < SENSOR_NUM => Sensor(0, 0, rate, 0, i in which, InitialSize(i)))
  }

  /** Sensors at one rate sample together. */
  lemma {:induction false} Uniform(sensor: seq<Sensor>, rate: int32, from: nat, ticks: nat)
    requires rate != 0 && forall s :: s in sensor ==> s.rate == rate && s.sampleSize > 0
    ensures AllRated(sensor)
    ensures Made(sensor, from, ticks) == Samples(Period(rate), from, ticks) * Sizes(sensor)
    ensures Worst(sensor, ticks) == CeilDiv(ticks, Period(rate)) * Sizes(sensor)
    ensures Rates(sensor) == rate * Sizes(sensor)
    ensures MinRate(sensor) == if Sizes(sensor) > 0 then Min(U32(rate), MAX_DMP_OUTPUT_RATE) else MAX_DMP_OUTPUT_RATE
  {
    hide Samples, CeilDiv, Period, U32;
    if sensor != [] {
      var s, rest := sensor[0], sensor[1..];
      assert s in sensor;
      Uniform(rest, rate, from, ticks);
      if s.on {
        Distribute(Samples(Period(rate), from, ticks), s.sampleSize, Sizes(rest));
        Distribute(CeilDiv(ticks, Period(rate)), s.sampleSize, Sizes(rest));
        Distribute(rate, s.sampleSize, Sizes(rest));
      }
    }
  }

  function SizeOf(s: Sensor): nat {
    if s.on then s.sampleSize else 0
  }

  lemma SizesUnfold(sensor: seq<Sensor>, i: nat)
    requires i < |sensor|
    ensures Sizes(sensor[i..]) == SizeOf(sensor[i]) + Sizes(sensor[i + 1..])
  {
    assert sensor[i..][1..] == sensor[i + 1..];
  }

  lemma SizesOfFour(sensor: seq<Sensor>, i: nat)
    requires i + 4 <= |sensor|
    ensures Sizes(sensor[i..]) == SizeOf(sensor[i]) + SizeOf(sensor[i + 1]) + SizeOf(sensor[i + 2])
                                + SizeOf(sensor[i + 3]) + Sizes(sensor[i + 4..])
  {
    hide Sizes, SizeOf;
    SizesUnfold(sensor, i);
    SizesUnfold(sensor, i + 1);
    SizesUnfold(sensor, i + 2);
    SizesUnfold(sensor, i + 3);
  }

  lemma SizesOfEnabled(sensor: seq<Sensor>)
    requires |sensor| == SENSOR_NUM
    ensures Sizes(sensor) ==
      SizeOf(sensor[0]) + SizeOf(sensor[1]) + SizeOf(sensor[2]) + SizeOf(sensor[3])
      + SizeOf(sensor[4]) + SizeOf(sensor[5]) + SizeOf(sensor[6]) + SizeOf(sensor[7])
  {
    hide Sizes, SizeOf;
    SizesOfFour(sensor, 0);
    SizesOfFour(sensor, 4);
    NoSizes(sensor);
  }

  lemma NoSizes(sensor: seq<Sensor>)
    ensures sensor[0..] == sensor && Sizes(sensor[|sensor|..]) == 0
  {
  }

  /** Six sensors at 5 Hz and 5000 ms: the first batch has 960 bytes, the second one starts in the
      middle of a period and fills the hardware FIFO to the last byte. */
  lemma SecondBatchFillsFifo()
    ensures
      var sensor := Enabled({GYRO, ACCEL, COMPASS, PRESSURE, SIXQ, LPQ}, 5);
      && AllDivide(sensor)
      && Ticks(sensor, 5000, false) == 620
      && Made(sensor, 0, 620) == 960 && Made(sensor, 620, 620) == HARDWARE_FIFO_SIZE
  {
    var sensor := Enabled({GYRO, ACCEL, COMPASS, PRESSURE, SIXQ, LPQ}, 5);
    SizesOfEnabled(sensor);
    Uniform(sensor, 5, 0, 620);
    Uniform(sensor, 5, 620, 620);
  }

  /** 320 bytes a second for 13421773 ms: the product wraps to 64, and the cap does not act. */
  lemma WrappedBatchOverflows(sensor: seq<Sensor>)
    requires ValidSensors(sensor) && AllDivide(sensor) && Rates(sensor) == 320
    ensures Demand(13_421_773, 320) == 64
    ensures Made(sensor, 0, Ticks(sensor, 13_421_773, false)) > FIFO_SIZE
  {
    BatchFits(sensor, 13_421_773);
  }

  /** A rate that does not divide 200: 150 Hz runs at 200, and a gyro alone makes 1320 bytes in every
      batch of 826 ms, which the cap lets through. */
  lemma RoundedRateOverflows()
    ensures
      var sensor := Enabled({GYRO}, 150);
      && AllRated(sensor)
      && Ticks(sensor, 826, false) == 165
      && Made(sensor, 0, 165) == Worst(sensor, 165) == 1320 > FIFO_SIZE
      && !EveryBatchFits(sensor, 165, HARDWARE_FIFO_SIZE)
  {
    hide Made, Worst, Sizes, Rates, Samples, CeilDiv, EveryBatchFits, Ticks;
    var sensor := Enabled({GYRO}, 150);
    GyroAlone(sensor);
    Uniform(sensor, 150, 0, 165);
    EveryTick();
    RoundedTicks();
    EveryBatch(sensor, 165, HARDWARE_FIFO_SIZE);
  }

  lemma GyroAlone(sensor: seq<Sensor>)
    requires sensor == Enabled({GYRO}, 150)
    ensures Sizes(sensor) == 8
  {
    SizesOfEnabled(sensor);
  }

  lemma EveryTick()
    ensures Samples(Period(150), 0, 165) == CeilDiv(165, Period(150)) == 165
  {
  }

  lemma RoundedTicks()
    ensures AllRated(Enabled({GYRO}, 150)) && Ticks(Enabled({GYRO}, 150), 826, false) == 165
  {
    hide Sizes, MinRate;
    var sensor := Enabled({GYRO}, 150);
    GyroAlone(sensor);
    Uniform(sensor, 150, 0, 165);
  }

  /** A gyro rate of 8192 makes a byte rate of zero, by which a full FIFO would divide. */
  lemma ByteRateVanishes()
    ensures ByteRate(Enabled({GYRO}, 8192)) == 0
  {
    var sensor := Enabled({GYRO}, 8192);
    SizesOfEnabled(sensor);
    Uniform(sensor, 8192, 0, 0);
  }

  // ----- setting up -----

  class Setup {
    var sensor: seq<Sensor>
    var minRate: u32
    var bytesPerSec: u16
    var timeout: u32
    var counter: u32
    var on: bool
    var overflowOn: bool

    ghost predicate Valid()
      reads this
    {
      ValidSensors(sensor) && timeout < TWO_31
    }

    constructor (sensor: seq<Sensor>, timeout: u32, overflowOn: bool)
      requires ValidSensors(sensor) && timeout < TWO_31
      ensures Valid() && this.sensor == sensor && this.timeout == timeout && this.overflowOn == overflowOn
    {
      this.sensor, this.timeout, this.overflowOn := sensor, timeout, overflowOn;
      minRate, bytesPerSec, counter, on := MAX_DMP_OUTPUT_RATE, 0, 0, false;
    }

    /** The sensor loop of `inv_set_dmp_sysfs`, for rates of any size and sign: an enabled sensor
        without a rate is an error, rates are compared as unsigned, and the sum is cut to 16 bits, so it
        is the true byte rate exactly if that has sixteen bits. */
    method Configure() returns (res: int)
      requires Valid()
      modifies `sensor, `minRate, `bytesPerSec
      ensures Valid()
      ensures res == if AllRated(old(sensor)) then 0 else -EINVAL
      ensures res == 0 ==>
        && (forall k :: 0 <= k < SENSOR_NUM ==> Rated(old(sensor)[k]) && CountsTicks(old(sensor)[k], sensor[k]))
        && bytesPerSec == ByteRate(old(sensor)) && minRate == MinRate(old(sensor))
        && (bytesPerSec == Rates(old(sensor)) <==> 0 <= Rates(old(sensor)) < TWO_16)
    {
      hide Rates, MinRate, Quotient, U16, U32, S32, GoesInto200;
      ghost var was := sensor;
      var s: int32 := 0;
      minRate := MAX_DMP_OUTPUT_RATE;
      var i := 0;
      AllAndNone(was);
      CutIsExact(Rates(was));
      while i < SENSOR_NUM
        invariant 0 <= i <= SENSOR_NUM && |sensor| == SENSOR_NUM
        invariant forall k :: 0 <= k < i ==> Rated(was[k]) && CountsTicks(was[k], sensor[k])
        invariant forall k :: i <= k < SENSOR_NUM ==> sensor[k] == was[k]
        invariant 1 <= minRate <= MAX_DMP_OUTPUT_RATE
        invariant AllRated(was) ==> AllRated(was[i..]) && Min(minRate, MinRate(was[i..])) == MinRate(was)
        invariant U16(s + Rates(was[i..])) == U16(Rates(was))
      {
        OneMore(was, i);
        if sensor[i].on {
          if sensor[i].rate == 0 {
            assert was[i] in was && !Rated(was[i]);
            return -EINVAL;
          }
          var rate := U32(sensor[i].rate);
          NotZero(sensor[i].rate);
          if rate < minRate {
            minRate := rate;
          }
          SumOnly16(s, was[i].rate * was[i].sampleSize, Rates(was[i + 1..]));
          s := S32(s + S32(sensor[i].rate * sensor[i].sampleSize));
          CountedCounts(sensor[i]);
          sensor := sensor[i := Counted(sensor[i])];
        }
        i := i + 1;
      }
      bytesPerSec := U16(s);
      return 0;
    }

    /** `inv_batchmode_calc`. */
    method BatchmodeCalc()
      requires Valid() && 1 <= minRate <= MAX_DMP_OUTPUT_RATE
      modifies `timeout, `counter, `on
      ensures Valid() && timeout == Raised(old(timeout), minRate)
      ensures counter == Capped(timeout, bytesPerSec, overflowOn) / 5
      ensures on == (old(on) || Capped(timeout, bytesPerSec, overflowOn) != 0)
      ensures timeout == old(timeout) || timeout * minRate <= 1000
      ensures old(timeout) <= timeout && 1000 < (timeout + 1) * minRate
      ensures if S32(timeout * bytesPerSec) > 992_000 && !overflowOn then
                (5 * counter) * bytesPerSec <= 992_000 < (5 * counter + 5) * bytesPerSec
              else 5 * counter <= timeout < 5 * counter + 5
    {
      hide S32, U32, ValidSensors, Demand;
      NoDemand(Raised(timeout, minRate), bytesPerSec);
      RaisedBound(timeout, minRate);
      RaisedToPeriod(timeout, minRate);
      var rateDur := MSEC_PER_SEC / minRate;
      if timeout < rateDur {
        timeout := rateDur;
      }
      var b := S32(U32(timeout * bytesPerSec));
      DemandComputed(timeout, bytesPerSec);
      SmallTimeout(timeout);
      CappedSize(timeout, bytesPerSec, overflowOn);
      CappedTicks(timeout, bytesPerSec, overflowOn);
      var t: int := timeout;
      if b > FIFO_SIZE * ONE_K_HZ && !overflowOn {
        t := FIFO_SIZE * ONE_K_HZ / bytesPerSec;
      }
      counter := t / 5;
      if t != 0 {
        on := true;
      }
    }

    /** `inv_set_dmp_sysfs` with the batch set-up it ends in. For all rates: every batch of the counter
        it sets stays within a limit exactly when the rounded-up samples do. With dividing rates and no
        overflow allowed, the first batch fits exactly when the cap sees the demand, and then every later
        one fits with one sample of each sensor to spare. */
    method SetDmpSysfs() returns (res: int)
      requires Valid()
      modifies this
      ensures Valid() && overflowOn == old(overflowOn)
      ensures res == if AllRated(old(sensor)) then 0 else -EINVAL
      ensures res == 0 ==>
        forall k :: 0 <= k < SENSOR_NUM ==> Rated(old(sensor)[k]) && CountsTicks(old(sensor)[k], sensor[k])
      ensures res == 0 && old(timeout) > 0 ==>
        && counter == Ticks(old(sensor), old(timeout), overflowOn)
        && forall limit :: EveryBatchFits(old(sensor), counter, limit) <==> Worst(old(sensor), counter) <= limit
      ensures res == 0 && old(timeout) > 0 && !overflowOn && AllDivide(old(sensor)) ==>
        var seen := DemandSeen(Raised(old(timeout), MinRate(old(sensor))), ByteRate(old(sensor)));
        && (Made(old(sensor), 0, counter) <= FIFO_SIZE <==> seen)
        && (seen ==> EveryBatchFits(old(sensor), counter, FIFO_SIZE + Sizes(old(sensor))))
    {
      hide Rates, Made, Worst, Demand, Capped, MinRate, ByteRate, Raised, EveryBatchFits, AllDivide, AllRated, Sizes,
        DemandSeen, CountsTicks;
      ghost var was, before := sensor, timeout;
      res := Configure();
      if res != 0 {
        return;
      }
      if timeout > 0 {
        BatchmodeCalc();
        forall limit
          ensures EveryBatchFits(was, counter, limit) <==> Worst(was, counter) <= limit
        {
          EveryBatch(was, counter, limit);
        }
        if AllDivide(was) && !overflowOn {
          BatchFits(was, before);
        }
      }
    }
  }

  /** The counter is the largest number of ticks of 5 ms within the cap, or within the timeout. */
  lemma CappedTicks(timeout: u32, b: u16, overflowOn: bool)
    requires timeout < TWO_31
    ensures
      var c := Capped(timeout, b, overflowOn) / 5;
      if S32(timeout * b) > 992_000 && !overflowOn then (5 * c) * b <= 992_000 < (5 * c + 5) * b
      else 5 * c <= timeout < 5 * c + 5
  {
    hide S32;
    SmallTimeout(timeout);
    NoDemand(timeout, b);
    if Demand(timeout, b) > FIFO_SIZE * ONE_K_HZ && !overflowOn {
      var q := FIFO_SIZE * ONE_K_HZ / b;
      QuotientBounds(FIFO_SIZE * ONE_K_HZ, b);
      var c := q / 5;
      MulLe(5 * c, q, b);
      MulLe(q + 1, 5 * c + 5, b);
      assert (q + 1) * b == q * b + b;
    }
  }

  lemma DemandComputed(timeout: u32, bytesPerSec: u16)
    ensures S32(U32(timeout * bytesPerSec)) == Demand(timeout, bytesPerSec)
  {
    S32OfU32(timeout * bytesPerSec);
  }

  lemma AllAndNone(sensor: seq<Sensor>)
    ensures sensor[0..] == sensor && sensor[|sensor|..] == []
    ensures Rates([]) == 0 && AllRated([]) && MinRate([]) == MAX_DMP_OUTPUT_RATE
  {
  }

  lemma OneMore(sensor: seq<Sensor>, i: nat)
    requires i < |sensor|
    ensures Rates(sensor[i..]) ==
      (if sensor[i].on then sensor[i].rate * sensor[i].sampleSize else 0) + Rates(sensor[i + 1..])
    ensures AllRated(sensor) ==>
      && AllRated(sensor[i..]) && AllRated(sensor[i + 1..])
      && MinRate(sensor[i..]) ==
        if sensor[i].on then Min(U32(sensor[i].rate), MinRate(sensor[i + 1..])) else MinRate(sensor[i + 1..])
  {
    hide U32, Rated;
    assert sensor[i..][1..] == sensor[i + 1..];
  }

  lemma NotZero(rate: int32)
    requires rate != 0
    ensures 1 <= U32(rate)
  {
  }

  lemma CutIsExact(x: int)
    ensures U16(x) == x <==> 0 <= x < TWO_16
  {
  }

  /** Wrapping the sum to 32 bits does not change its low sixteen. */
  lemma SumOnly16(s: int32, x: int, rest: int)
    ensures U16(S32(s + S32(x)) + rest) == U16(s + (x + rest))
  {
    Low16(x, s + rest);
    Low16(s + S32(x), rest);
  }

  lemma Low16(x: int, y: int)
    ensures U16(S32(x) + y) == U16(x + y)
  {
    var q := if x % TWO_32 < TWO_31 then x / TWO_32 else x / TWO_32 + 1;
    assert S32(x) == x - TWO_32 * q;
    Same16(x + y, -TWO_16 * q);
  }

  lemma Same16(x: int, k: int)
    ensures U16(x + TWO_16 * k) == U16(x)
  {
  }
}
