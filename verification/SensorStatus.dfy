/** The status words of `data_builder.c`, sensor by sensor, over whole runs. A word is the set of its
    flags: the flags are different bits of it, and the code only sets, clears and tests them. */
module SensorStatus {
  datatype Flag =
    | Contiguous | Calibrated | NewData | RawData | SensorOn | BiasApplied | Quat6Axis | Quat9Axis | Quat3Axis
    | DmpBiasApplied | Quat3Element

  type Word = set<Flag>

  const QUAT_MARKS: Word := {Quat3Axis, Quat6Axis, Quat9Axis, BiasApplied, DmpBiasApplied, Quat3Element}

  datatype Sensor = Gyro | Accel | Compass | Temp | Quat | Pressure

  /** One call: `inv_init_data_builder`, an `inv_build_*` with its status argument, an
      `inv_*_was_turned_off`, or `inv_execute_on_data`. There is no call that turns the pressure sensor
      off. */
  datatype Event = Init | Build(sensor: Sensor, given: Word) | TurnOff(off: Sensor) | Execute

  /** The flags that a build sets. */
  function Marks(x: Sensor, given: Word): Word {
    match x
    case Gyro => {NewData, RawData, SensorOn, Calibrated}
    case Accel | Compass =>
      if Calibrated in given then {NewData, SensorOn, Calibrated} else {NewData, SensorOn, RawData, Calibrated}
    case Temp => {NewData, RawData, SensorOn}
    case Quat => {NewData, RawData, SensorOn} + QUAT_MARKS * given
    case Pressure => {NewData}
  }

  function WithContiguous(s: Word): Word {
    if NewData in s then s + {Contiguous} else s
  }

  /** `inv_set_contiguous` on one word; it clears the pressure sensor's new-data flag and no more. */
  function Settled(x: Sensor, s: Word): Word {
    (if x != Pressure then WithContiguous(s) else s) - {NewData}
  }

  /** What an execute does to a word, flag by flag. */
  ghost predicate Executed(x: Sensor, was: Word, now: Word) {
    && NewData !in now
    && (Contiguous in now <==> Contiguous in was || (NewData in was && x != Pressure))
    && forall b :: b !in {NewData, Contiguous} ==> (b in now <==> b in was)
  }

  lemma SettledIsExecuted(x: Sensor, s: Word)
    ensures Executed(x, s, Settled(x, s))
  {
  }

  function Next(x: Sensor, s: Word, e: Event): Word {
    match e
    case Init => {}
    case Build(y, given) => if x == y then s + Marks(x, given) else s
    case TurnOff(y) => if x == y && x != Pressure then {} else s
    case Execute => Settled(x, s)
  }

  /** The status after a run. */
  function After(x: Sensor, run: seq<Event>): Word {
    if run == [] then {} else Next(x, After(x, run[..|run| - 1]), run[|run| - 1])
  }

  predicate Resets(e: Event, x: Sensor) {
    e.Init? || (e == TurnOff(x) && x != Pressure)
  }

  /** A build of this sensor that sets flag `b`, flag by flag. */
  predicate Sets(e: Event, x: Sensor, b: Flag) {
    && e.Build? && e.sensor == x
    && match b
       case NewData => true
       case SensorOn => x != Pressure
       case RawData => x in {Gyro, Temp, Quat} || (x in {Accel, Compass} && Calibrated !in e.given)
       case Calibrated => x in {Gyro, Accel, Compass}
       case Contiguous => false
       case _ => x == Quat && b in e.given
  }

  /** A build marks exactly the flags that it sets. */
  lemma MarksAreSet(x: Sensor, given: Word)
    ensures forall b :: b in Marks(x, given) <==> Sets(Build(x, given), x, b)
  {
  }

  lemma BuildSets(x: Sensor, s: Word, e: Event, b: Flag)
    requires e.Build?
    ensures b in Next(x, s, e) <==> b in s || Sets(e, x, b)
  {
    hide Marks, Sets;
    MarksAreSet(e.sensor, e.given);
    OtherBuild(x, e, b);
  }

  lemma NextMarks(x: Sensor, s: Word, e: Event, b: Flag)
    requires b != NewData && b != Contiguous
    ensures b in Next(x, s, e) <==> Sets(e, x, b) || (b in s && !Resets(e, x))
  {
    hide Marks, Sets;
    OtherBuild(x, e, b);
    if e.Build? {
      BuildSets(x, s, e, b);
    }
  }

  lemma OtherBuild(x: Sensor, e: Event, b: Flag)
    ensures Sets(e, x, b) ==> e.Build? && e.sensor == x
  {
  }

  // ----- what a run says about a sensor -----

  ghost predicate KeptFrom(x: Sensor, run: seq<Event>, i: int)
    requires -1 <= i < |run|
  {
    forall k :: i < k < |run| ==> !Resets(run[k], x)
  }

  /** A build that sets flag `b`, with no turn-off since. */
  ghost predicate Marked(x: Sensor, run: seq<Event>, b: Flag) {
    exists i :: 0 <= i < |run| && Sets(run[i], x, b) && KeptFrom(x, run, i)
  }

  /** A build, with neither a turn-off nor an execute since. */
  ghost predicate Fresh(x: Sensor, run: seq<Event>) {
    exists i :: 0 <= i < |run| && Sets(run[i], x, NewData) && KeptFrom(x, run, i)
      && forall k :: i < k < |run| ==> run[k] != Execute
  }

  /** An execute, with no turn-off since, that found a fresh sample. */
  ghost predicate Processed(x: Sensor, run: seq<Event>) {
    exists j :: 0 <= j < |run| && run[j] == Execute && KeptFrom(x, run, j) && Fresh(x, run[..j])
  }

  // ----- one more call -----

  lemma KeptFromStep(x: Sensor, run: seq<Event>, e: Event, i: int)
    requires -1 <= i < |run|
    ensures KeptFrom(x, run + [e], i) <==> KeptFrom(x, run, i) && !Resets(e, x)
  {
    var r := run + [e];
    assert r[|run|] == e;
    if KeptFrom(x, r, i) {
      forall k | i < k < |run|
        ensures !Resets(run[k], x)
      {
        assert r[k] == run[k];
      }
    }
  }

  lemma MarkedStep(x: Sensor, run: seq<Event>, e: Event, b: Flag)
    ensures Marked(x, run + [e], b) <==> Sets(e, x, b) || (Marked(x, run, b) && !Resets(e, x))
  {
    hide KeptFrom, Sets, Resets;
    var r, n := run + [e], |run|;
    if Sets(e, x, b) {
      assert r[n] == e && KeptFrom(x, r, n) by { LastIsKept(x, r); }
    }
    if Marked(x, run, b) && !Resets(e, x) {
      var i :| 0 <= i < n && Sets(run[i], x, b) && KeptFrom(x, run, i);
      KeptFromStep(x, run, e, i);
      assert r[i] == run[i];
    }
    if Marked(x, r, b) && !Sets(e, x, b) {
      var i :| 0 <= i < |r| && Sets(r[i], x, b) && KeptFrom(x, r, i);
      assert i < n && r[i] == run[i];
      KeptFromStep(x, run, e, i);
    }
  }

  lemma LastIsKept(x: Sensor, run: seq<Event>)
    requires run != []
    ensures KeptFrom(x, run, |run| - 1)
  {
  }

  lemma FreshStep(x: Sensor, run: seq<Event>, e: Event)
    ensures Fresh(x, run + [e]) <==>
      Sets(e, x, NewData) || (Fresh(x, run) && !Resets(e, x) && e != Execute)
  {
    hide KeptFrom, Sets, Resets;
    var r, n := run + [e], |run|;
    if Sets(e, x, NewData) {
      assert r[n] == e && KeptFrom(x, r, n) by { LastIsKept(x, r); }
    }
    if Fresh(x, run) && !Resets(e, x) && e != Execute {
      var i :| 0 <= i < n && Sets(run[i], x, NewData) && KeptFrom(x, run, i)
        && forall k :: i < k < n ==> run[k] != Execute;
      KeptFromStep(x, run, e, i);
      assert r[i] == run[i];
    }
    if Fresh(x, r) && !Sets(e, x, NewData) {
      var i :| 0 <= i < |r| && Sets(r[i], x, NewData) && KeptFrom(x, r, i)
        && forall k :: i < k < |r| ==> r[k] != Execute;
      assert i < n && r[i] == run[i] && r[n] == e;
      KeptFromStep(x, run, e, i);
      forall k | i < k < n
        ensures run[k] != Execute
      {
        assert r[k] == run[k];
      }
    }
  }

  lemma ProcessedStep(x: Sensor, run: seq<Event>, e: Event)
    ensures Processed(x, run + [e]) <==>
      (e == Execute && Fresh(x, run)) || (Processed(x, run) && !Resets(e, x))
  {
    hide KeptFrom, Fresh, Resets;
    var r, n := run + [e], |run|;
    assert r[..n] == run && r[n] == e;
    LastIsKept(x, r);
    if Processed(x, run) && !Resets(e, x) {
      var j :| 0 <= j < n && run[j] == Execute && KeptFrom(x, run, j) && Fresh(x, run[..j]);
      KeptFromStep(x, run, e, j);
      assert r[j] == run[j] && r[..j] == run[..j];
    }
    if Processed(x, r) && !(e == Execute && Fresh(x, run)) {
      var j :| 0 <= j < |r| && r[j] == Execute && KeptFrom(x, r, j) && Fresh(x, r[..j]);
      assert j < n && r[j] == run[j] && r[..j] == run[..j];
      KeptFromStep(x, run, e, j);
    }
  }

  // ----- every run -----

  lemma NothingYet(x: Sensor, b: Flag)
    ensures !Fresh(x, []) && !Processed(x, []) && !Marked(x, [], b)
  {
  }

  /** New-data means a sample that no execute has seen. */
  lemma {:induction false} NewDataMeansFresh(x: Sensor, run: seq<Event>)
    ensures NewData in After(x, run) <==> Fresh(x, run)
  {
    hide Fresh;
    if run == [] {
      NothingYet(x, NewData);
    } else {
      var n := |run| - 1;
      NewDataMeansFresh(x, run[..n]);
      FreshStep(x, run[..n], run[n]);
      assert run == run[..n] + [run[n]];
    }
  }

  /** On every run and for every sensor but pressure, the contiguous flag is set exactly when, since the
      sensor was last turned off or initialised, some execute saw a fresh sample. */
  lemma {:induction false} ContiguousMeansProcessed(x: Sensor, run: seq<Event>)
    requires x != Pressure
    ensures Contiguous in After(x, run) <==> Processed(x, run)
  {
    hide Fresh, Processed;
    if run == [] {
      NothingYet(x, NewData);
    } else {
      var n := |run| - 1;
      ContiguousMeansProcessed(x, run[..n]);
      NewDataMeansFresh(x, run[..n]);
      ProcessedStep(x, run[..n], run[n]);
      assert run == run[..n] + [run[n]];
    }
  }

  /** The other flags are sticky: any of them is set exactly when a build asked for it and no turn-off
      came since, however many later builds did not ask. */
  lemma {:induction false} MarksAreSticky(x: Sensor, run: seq<Event>, b: Flag)
    requires b != NewData && b != Contiguous
    ensures b in After(x, run) <==> Marked(x, run, b)
  {
    hide Marked, Next, Sets, Resets;
    if run == [] {
      NothingYet(x, b);
    } else {
      var n := |run| - 1;
      MarksAreSticky(x, run[..n], b);
      MarkedStep(x, run[..n], run[n], b);
      NextMarks(x, After(x, run[..n]), run[n], b);
      assert run == run[..n] + [run[n]];
    }
  }

  /** Raw data: some sample of the accelerometer or the compass was not calibrated outside, since the sensor
      was last turned off or initialised. */
  lemma RawMeansUncalibrated(x: Sensor, run: seq<Event>)
    requires x in {Accel, Compass}
    ensures RawData in After(x, run) <==>
      exists i :: 0 <= i < |run| && run[i].Build? && run[i].sensor == x && Calibrated !in run[i].given
        && forall k :: i < k < |run| ==> run[k] != Init && run[k] != TurnOff(x)
  {
    hide After;
    MarksAreSticky(x, run, RawData);
  }

  /** What a quaternion carries: some sample carried it, since the sensor was last turned off or
      initialised. */
  lemma QuaternionMeansGiven(run: seq<Event>, b: Flag)
    requires b in {Quat3Axis, Quat6Axis, Quat9Axis, BiasApplied, DmpBiasApplied, Quat3Element}
    ensures b in After(Quat, run) <==>
      exists i :: 0 <= i < |run| && run[i].Build? && run[i].sensor == Quat && b in run[i].given
        && forall k :: i < k < |run| ==> run[k] != Init && run[k] != TurnOff(Quat)
  {
    hide After;
    MarksAreSticky(Quat, run, b);
  }

  /** The pressure status has nothing but new-data, so it is never contiguous. */
  lemma {:induction false} PressureOnlyNew(run: seq<Event>)
    ensures After(Pressure, run) <= {NewData}
  {
    if run != [] {
      PressureOnlyNew(run[..|run| - 1]);
    }
  }

  /** Right after an execute no status says new-data. */
  lemma NothingNewAfterExecute(x: Sensor, run: seq<Event>)
    requires run != [] && run[|run| - 1] == Execute
    ensures NewData !in After(x, run)
  {
  }
}
