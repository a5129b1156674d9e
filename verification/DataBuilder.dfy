/** `inv_data_builder` and the status words of `sensors` (`data_builder.c`): the callback array changed
    in place, and dispatch. */
module DataBuilder {
  import opened Machine
  import opened SensorStatus
  import opened Callbacks

  const SUCCESS := 0
  const INVALID_PARAMETER := 22
  const MEMORY_EXHAUSTED := 12

  class Builder {
    var numCb: nat
    const process: array<Process>
    var mode: set<Sensor>
    var gyro: Word
    var accel: Word
    var compass: Word
    var temp: Word
    var quat: Word
    var pressure: Word
    /** Every call so far. */
    ghost var history: seq<Event>

    function Status(x: Sensor): Word
      reads this
    {
      match x
      case Gyro => gyro
      case Accel => accel
      case Compass => compass
      case Temp => temp
      case Quat => quat
      case Pressure => pressure
    }

    ghost function Registered(): (s: seq<Process>)
      requires numCb <= process.Length
      reads `numCb, process
    {
      process[..numCb]
    }

    /** The array is sorted by priority, holds each function once and at most twenty; every status word
        is what the history of calls makes it. */
    ghost predicate Valid()
      reads this, process
    {
      && ValidCallbacks()
      && ValidStatus()
    }

    ghost predicate ValidCallbacks()
      reads `numCb, process
    {
      process.Length == MAX_DATA_CB && numCb <= MAX_DATA_CB && Sorted(Registered()) && UniqueFuncs(Registered())
    }

    ghost predicate ValidStatus()
      reads this
    {
      forall x :: Status(x) == After(x, history)
    }

    /** `inv_init_data_builder`. */
    constructor ()
      ensures Valid() && fresh(process) && Registered() == [] && history == [] && forall x :: Status(x) == {}
    {
      process := new Process[MAX_DATA_CB](_ => Process(0, 0, {}));
      numCb, mode, history := 0, {}, [];
      gyro, accel, compass, temp, quat, pressure := {}, {}, {}, {}, {}, {};
    }

    /** The same on a builder in use. */
    method Init()
      requires Valid()
      modifies this
      ensures Valid() && Registered() == [] && history == old(history) + [Event.Init]
      ensures forall x :: Status(x) == {}
    {
      numCb, mode := 0, {};
      gyro, accel, compass, temp, quat, pressure := {}, {}, {}, {}, {}, {};
      Record(Event.Init);
    }

    /** One more call, after the status words have been changed. */
    ghost method Record(e: Event)
      requires ValidCallbacks() && forall x :: Status(x) == Next(x, After(x, history), e)
      modifies `history
      ensures Valid() && history == old(history) + [e]
    {
      history := history + [e];
      assert history[..|history| - 1] == old(history);
    }

    // ----- registry -----

    /** `inv_register_data_cb`: puts the callback where its priority belongs, moving the later ones up. */
    method RegisterDataCb(func: int, priority: int32, sensorType: set<Sensor>) returns (result: int)
      requires Valid()
      modifies `numCb, process
      ensures Valid()
      ensures
        var p := Process(func, priority, sensorType);
        if !Free(old(Registered()), p) then result == INVALID_PARAMETER && Registered() == old(Registered())
        else if |old(Registered())| == MAX_DATA_CB then
          result == MEMORY_EXHAUSTED && Registered() == old(Registered())
        else result == SUCCESS && Registered() == Insert(old(Registered()), p)
    {
      hide After, Insert, Sorted, UniqueFuncs;
      ghost var s := Registered();
      var p := Process(func, priority, sensorType);
      var kk := 0;
      while kk < numCb
        invariant kk <= numCb
        invariant forall i :: 0 <= i < kk ==> s[i].func != func && s[i].priority != priority
      {
        if process[kk].func == func || process[kk].priority == priority {
          assert s[kk] in s;
          return INVALID_PARAMETER;
        }
        kk := kk + 1;
      }
      assert Free(s, p);
      if numCb > MAX_DATA_CB - 1 {
        return MEMORY_EXHAUSTED;
      }
      InsertKeepsOrder(s, p);
      AddCallback(p);
      return SUCCESS;
    }

    /** The new callback goes in front of the first one with a higher priority number. */
    method AddCallback(p: Process)
      requires process.Length == MAX_DATA_CB && numCb < MAX_DATA_CB && Free(Registered(), p)
      modifies `numCb, process
      ensures numCb == old(numCb) + 1 && Registered() == Insert(old(Registered()), p)
    {
      hide Insert;
      ghost var s := Registered();
      var kk := 0;
      if numCb != 0 {
        while kk < numCb && process[kk].priority < p.priority
          invariant kk <= numCb
          invariant forall i :: 0 <= i < kk ==> s[i].priority < p.priority
        {
          kk := kk + 1;
        }
        if kk != numCb {
          MakeRoom(kk);
        }
      }
      InsertAt(s, p, kk);
      process[kk] := p;
      numCb := numCb + 1;
      assert process[..kk] == s[..kk] && process[kk + 1..numCb] == s[kk..];
      Around(process[..], kk, numCb);
    }

    static lemma Around(a: seq<Process>, k: nat, n: nat)
      requires k < n <= |a|
      ensures a[..n] == a[..k] + [a[k]] + a[k + 1..n]
    {
    }

    /** The loop that moves the callbacks from `kk` on up by one, last one first. */
    method MakeRoom(kk: nat)
      requires process.Length == MAX_DATA_CB && kk < numCb < MAX_DATA_CB
      modifies process
      ensures process[..kk] == old(process[..kk])
      ensures process[kk + 1..numCb + 1] == old(process[kk..numCb])
    {
      var nn := numCb;
      while nn > kk
        invariant kk <= nn <= numCb
        invariant process[..nn] == old(process[..nn])
        invariant forall i :: nn < i <= numCb ==> process[i] == old(process[i - 1])
      {
        process[nn] := process[nn - 1];
        nn := nn - 1;
      }
    }

    /** `inv_unregister_data_cb`; a function that was never registered is no error. */
    method UnregisterDataCb(func: int) returns (result: int)
      requires Valid()
      modifies `numCb, process
      ensures Valid() && result == SUCCESS
      ensures Registered() == Remove(old(Registered()), func)
    {
      hide After, Remove, Sorted, UniqueFuncs;
      ghost var s := Registered();
      RemoveKeepsOrder(s, func);
      var kk := 0;
      while kk < numCb
        invariant kk <= numCb
        invariant forall i :: 0 <= i < kk ==> s[i].func != func
      {
        if process[kk].func == func {
          RemoveAt(s, func, kk);
          TakeOut(kk);
          return SUCCESS;
        }
        kk := kk + 1;
      }
      RemoveNothing(s, func);
      return SUCCESS;
    }

    method TakeOut(kk: nat)
      requires process.Length == MAX_DATA_CB && kk < numCb <= MAX_DATA_CB
      modifies `numCb, process
      ensures numCb == old(numCb) - 1 && Registered() == old(Registered())[..kk] + old(Registered())[kk + 1..]
    {
      ghost var was := process[..];
      CloseGap(kk);
      GapClosed(was, process[..], kk, numCb);
      numCb := numCb - 1;
    }

    static lemma GapClosed(was: seq<Process>, now: seq<Process>, k: nat, n: nat)
      requires k < n <= |was| == |now| && now[..k] == was[..k] && now[k..n - 1] == was[k + 1..n]
      ensures now[..n - 1] == was[..n][..k] + was[..n][k + 1..]
    {
      assert now[..n - 1] == now[..k] + now[k..n - 1];
      assert was[..n][k + 1..] == was[k + 1..n];
    }

    /** The loop that moves the callbacks behind `kk` down by one. */
    method CloseGap(kk: nat)
      requires process.Length == MAX_DATA_CB && kk < numCb <= MAX_DATA_CB
      modifies process
      ensures process[..kk] == old(process[..kk])
      ensures process[kk..numCb - 1] == old(process[kk + 1..numCb])
    {
      ghost var was := process[..];
      var nn := kk + 1;
      while nn < numCb
        invariant kk + 1 <= nn <= numCb
        invariant forall i :: 0 <= i < kk ==> process[i] == was[i]
        invariant forall i :: kk <= i < nn - 1 ==> process[i] == was[i + 1]
        invariant forall i :: nn <= i < numCb ==> process[i] == was[i]
      {
        process[nn - 1] := process[nn];
        nn := nn + 1;
      }
    }

    // ----- new data -----

    /** `inv_build_gyro`, its status word; calibration is applied on every sample. */
    method BuildGyro()
      requires Valid()
      modifies `gyro, `history
      ensures Valid() && Registered() == old(Registered()) && history == old(history) + [Build(Gyro, {})]
      ensures {NewData, RawData, SensorOn, Calibrated} <= gyro
      ensures forall f :: f !in {NewData, RawData, SensorOn, Calibrated} ==> (f in gyro <==> f in old(gyro))
    {
      gyro := gyro + {NewData, RawData, SensorOn};
      gyro := gyro + {Calibrated};
      Record(Build(Gyro, {}));
    }

    /** `inv_build_accel`, its status word. */
    method BuildAccel(status: Word)
      requires Valid()
      modifies `accel, `history
      ensures Valid() && Registered() == old(Registered()) && history == old(history) + [Build(Accel, status)]
      ensures {NewData, SensorOn, Calibrated} <= accel
      ensures RawData in accel <==> RawData in old(accel) || Calibrated !in status
      ensures forall f :: f !in {NewData, RawData, SensorOn, Calibrated} ==> (f in accel <==> f in old(accel))
    {
      if Calibrated !in status {
        accel := accel + {RawData};
        accel := accel + {Calibrated};
      } else {
        accel := accel + {Calibrated};
      }
      accel := accel + {NewData, SensorOn};
      Record(Build(Accel, status));
    }

    /** `inv_build_compass`, its status word. */
    method BuildCompass(status: Word)
      requires Valid()
      modifies `compass, `history
      ensures Valid() && Registered() == old(Registered()) && history == old(history) + [Build(Compass, status)]
      ensures {NewData, SensorOn, Calibrated} <= compass
      ensures RawData in compass <==> RawData in old(compass) || Calibrated !in status
      ensures forall f :: f !in {NewData, RawData, SensorOn, Calibrated} ==> (f in compass <==> f in old(compass))
    {
      if Calibrated !in status {
        compass := compass + {Calibrated};
        compass := compass + {RawData};
      } else {
        compass := compass + {Calibrated};
      }
      compass := compass + {NewData, SensorOn};
      Record(Build(Compass, status));
    }

    /** `inv_build_temp`, its status word. */
    method BuildTemp()
      requires Valid()
      modifies `temp, `history
      ensures Valid() && Registered() == old(Registered()) && history == old(history) + [Build(Temp, {})]
      ensures {NewData, RawData, SensorOn} <= temp
      ensures forall f :: f !in {NewData, RawData, SensorOn} ==> (f in temp <==> f in old(temp))
    {
      temp := temp + {NewData, RawData, SensorOn};
      Record(Build(Temp, {}));
    }

    /** `inv_build_quat`, its status word. */
    method BuildQuat(status: Word)
      requires Valid()
      modifies `quat, `history
      ensures Valid() && Registered() == old(Registered()) && history == old(history) + [Build(Quat, status)]
      ensures {NewData, RawData, SensorOn} <= quat
      ensures forall f :: f in {Quat3Axis, Quat6Axis, Quat9Axis, BiasApplied, DmpBiasApplied, Quat3Element} ==>
                (f in quat <==> f in old(quat) || f in status)
      ensures (Contiguous in quat <==> Contiguous in old(quat)) && (Calibrated in quat <==> Calibrated in old(quat))
    {
      hide After, Sorted, UniqueFuncs;
      ghost var was := quat;
      MarkQuat(status);
      assert quat == was + Marks(Quat, status);
      Record(Build(Quat, status));
    }

    method MarkQuat(status: Word)
      modifies `quat
      ensures forall g :: g in quat <==>
        g in old(quat) || g in {NewData, RawData, SensorOn} || (g in QUAT_MARKS && g in status)
    {
      quat := quat + {NewData, RawData, SensorOn};
      TakeFlag(Quat3Axis, status);
      TakeFlag(Quat6Axis, status);
      TakeFlag(Quat9Axis, status);
      TakeFlag(BiasApplied, status);
      TakeFlag(DmpBiasApplied, status);
      TakeFlag(Quat3Element, status);
    }

    method TakeFlag(f: Flag, status: Word)
      modifies `quat
      ensures forall g :: g in quat <==> g in old(quat) || (g == f && f in status)
    {
      quat := quat + {f} * status;
    }

    /** `inv_build_pressure`. */
    method BuildPressure()
      requires Valid()
      modifies `pressure, `history
      ensures Valid() && Registered() == old(Registered()) && history == old(history) + [Build(Pressure, {})]
      ensures NewData in pressure
      ensures forall f :: f !in {NewData} ==> (f in pressure <==> f in old(pressure))
    {
      pressure := pressure + {NewData};
      Record(Build(Pressure, {}));
    }

    /** `inv_gyro_was_turned_off`, and the same for the other four sensors. */
    method WasTurnedOff(x: Sensor)
      requires Valid() && x != Pressure
      modifies this
      ensures Valid() && Registered() == old(Registered()) && history == old(history) + [TurnOff(x)]
      ensures Status(x) == {} && forall y :: y != x ==> Status(y) == old(Status(y))
    {
      match x {
        case Gyro => gyro := {};
        case Accel => accel := {};
        case Compass => compass := {};
        case Temp => temp := {};
        case Quat => quat := {};
        case Pressure =>
      }
      Record(TurnOff(x));
    }

    // ----- execute -----

    /** `inv_execute_on_data`: calls, by increasing priority, exactly the callbacks that asked for some
        sensor with a sample no execute has seen, and gives the first error back. `answers` is what
        each callback returns. */
    method ExecuteOnData(answers: int -> int32) returns (firstError: int32, called: seq<Process>)
      requires Valid()
      modifies this
      ensures Valid() && Registered() == old(Registered()) && history == old(history) + [Execute]
      ensures forall x :: Executed(x, old(Status(x)), Status(x))
      ensures forall x :: x in mode <==> Fresh(x, old(history))
      ensures Sorted(called) && forall p :: p in called <==> p in Registered() && p.dataRequired * mode != {}
      ensures firstError == 0 <==> forall p :: p in called ==> answers(p.func) == 0
      ensures firstError != 0 ==> IsFirstError(called, answers, firstError)
    {
      hide After, Fresh, Settled, Sorted, UniqueFuncs, IsFirstError, Executed;
      CollectMode();
      assert forall x :: x in mode <==> NewData in Status(x);
      FreshIsNew(history);
      firstError, called := Dispatch(answers);
      Settle();
    }

    /** The end of an execute. */
    method Settle()
      requires Valid()
      modifies `gyro, `accel, `compass, `temp, `quat, `pressure, `history
      ensures Valid() && history == old(history) + [Execute]
      ensures forall x :: Executed(x, old(Status(x)), Status(x))
    {
      hide After, Settled, Sorted, UniqueFuncs, Executed;
      SetContiguous();
      Record(Execute);
    }

    /** The new-data flags as a mask of sensors. */
    method CollectMode()
      modifies `mode
      ensures (Gyro in mode <==> NewData in gyro) && (Accel in mode <==> NewData in accel)
      ensures (Compass in mode <==> NewData in compass) && (Temp in mode <==> NewData in temp)
      ensures (Quat in mode <==> NewData in quat) && (Pressure in mode <==> NewData in pressure)
    {
      mode := {};
      MarkNew(Gyro, gyro);
      MarkNew(Accel, accel);
      MarkNew(Compass, compass);
      MarkNew(Temp, temp);
      MarkNew(Quat, quat);
      MarkNew(Pressure, pressure);
    }

    method MarkNew(x: Sensor, status: Word)
      modifies `mode
      ensures forall y :: y in mode <==> y in old(mode) || (y == x && NewData in status)
    {
      if NewData in status {
        mode := mode + {x};
      }
    }

    lemma FreshIsNew(run: seq<Event>)
      ensures forall x :: NewData in After(x, run) <==> Fresh(x, run)
    {
      hide After, Fresh;
      forall x
        ensures NewData in After(x, run) <==> Fresh(x, run)
      {
        NewDataMeansFresh(x, run);
      }
    }

    /** The loop over the callbacks. */
    method Dispatch(answers: int -> int32) returns (firstError: int32, called: seq<Process>)
      requires ValidCallbacks()
      ensures Sorted(called) && forall p :: p in called <==> p in Registered() && p.dataRequired * mode != {}
      ensures firstError == 0 <==> forall p :: p in called ==> answers(p.func) == 0
      ensures firstError != 0 ==> IsFirstError(called, answers, firstError)
    {
      hide Sorted, UniqueFuncs, IsFirstError, Wanted, FirstError;
      ghost var s := Registered();
      NothingWanted(s, mode, answers);
      firstError, called := 0, [];
      var kk := 0;
      while kk < numCb
        invariant kk <= numCb
        invariant called == Wanted(s[..kk], mode) && firstError == FirstError(called, answers)
      {
        WantedStep(s, kk, mode);
        FirstErrorStep(called, s[kk], answers);
        if mode * process[kk].dataRequired != {} {
          var result := answers(process[kk].func);
          if result != 0 && firstError == 0 {
            firstError := result;
          }
          called := called + [process[kk]];
        }
        kk := kk + 1;
      }
      assert s[..kk] == s;
      WantedMeans(s, mode);
      FirstErrorMeans(called, answers);
    }

    /** `inv_set_contiguous`. */
    method SetContiguous()
      modifies `gyro, `accel, `compass, `temp, `quat, `pressure
      ensures forall x :: Status(x) == Settled(x, old(Status(x))) && Executed(x, old(Status(x)), Status(x))
    {
      hide WithContiguous, Executed;
      forall x
        ensures Executed(x, Status(x), Settled(x, Status(x)))
      {
        SettledIsExecuted(x, Status(x));
      }
      MarkContiguous();
      gyro := gyro - {NewData};
      accel := accel - {NewData};
      compass := compass - {NewData};
      temp := temp - {NewData};
      quat := quat - {NewData};
      pressure := pressure - {NewData};
    }

    /** Its first half. */
    method MarkContiguous()
      modifies `gyro, `accel, `compass, `temp, `quat
      ensures gyro == WithContiguous(old(gyro)) && accel == WithContiguous(old(accel))
      ensures compass == WithContiguous(old(compass)) && temp == WithContiguous(old(temp))
      ensures quat == WithContiguous(old(quat))
    {
      if NewData in gyro {
        gyro := gyro + {Contiguous};
      }
      if NewData in accel {
        accel := accel + {Contiguous};
      }
      if NewData in compass {
        compass := compass + {Contiguous};
      }
      if NewData in temp {
        temp := temp + {Contiguous};
      }
      if NewData in quat {
        quat := quat + {Contiguous};
      }
    }
  }

  // ----- dispatch as functions -----

  /** The callbacks that asked for one of the sensors in `mode`. */
  function Wanted(s: seq<Process>, mode: set<Sensor>): seq<Process> {
    if s == [] then []
    else
      var n := |s| - 1;
      Wanted(s[..n], mode) + (if mode * s[n].dataRequired != {} then [s[n]] else [])
  }

  /** The first answer that is not zero. */
  function FirstError(called: seq<Process>, answers: int -> int32): int32 {
    if called == [] then 0
    else
      var n := |called| - 1;
      var e := FirstError(called[..n], answers);
      if e != 0 then e else answers(called[n].func)
  }

  lemma NothingWanted(s: seq<Process>, mode: set<Sensor>, answers: int -> int32)
    ensures Wanted(s[..0], mode) == [] && FirstError([], answers) == 0
  {
  }

  lemma WantedStep(s: seq<Process>, k: nat, mode: set<Sensor>)
    requires k < |s|
    ensures Wanted(s[..k + 1], mode) == Wanted(s[..k], mode) + if mode * s[k].dataRequired != {} then [s[k]] else []
  {
    assert s[..k + 1][..k] == s[..k];
  }

  lemma FirstErrorStep(called: seq<Process>, p: Process, answers: int -> int32)
    ensures
      var e := FirstError(called, answers);
      FirstError(called + [p], answers) == if e != 0 then e else answers(p.func)
  {
    assert (called + [p])[..|called|] == called;
  }

  lemma {:induction false} WantedMeans(s: seq<Process>, mode: set<Sensor>)
    requires Sorted(s)
    ensures Sorted(Wanted(s, mode))
    ensures forall p :: p in Wanted(s, mode) <==> p in s && p.dataRequired * mode != {}
  {
    if s != [] {
      var n := |s| - 1;
      WantedMeans(s[..n], mode);
      var front, p := Wanted(s[..n], mode), s[n];
      assert mode * p.dataRequired == p.dataRequired * mode;
      assert s == s[..n] + [p];
      forall j | 0 <= j < |front|
        ensures front[j].priority < p.priority
      {
        assert front[j] in front;
      }
    }
  }

  /** `e` is the answer of one of the called, and all before it answered zero. */
  ghost predicate IsFirstError(called: seq<Process>, answers: int -> int32, e: int32) {
    exists i :: 0 <= i < |called| && answers(called[i].func) == e
      && forall j :: 0 <= j < i ==> answers(called[j].func) == 0
  }

  lemma {:induction false} FirstErrorMeans(called: seq<Process>, answers: int -> int32)
    ensures
      var e := FirstError(called, answers);
      && (e == 0 <==> forall p :: p in called ==> answers(p.func) == 0)
      && (e != 0 ==> IsFirstError(called, answers, e))
  {
    if called != [] {
      var n := |called| - 1;
      var front, e := called[..n], FirstError(called[..n], answers);
      FirstErrorMeans(front, answers);
      assert called == front + [called[n]];
      if e != 0 {
        var i :| 0 <= i < n && answers(front[i].func) == e
          && forall j :: 0 <= j < i ==> answers(front[j].func) == 0;
        assert called[i] == front[i];
        assert forall j :: 0 <= j < i ==> called[j] == front[j];
      } else {
        assert forall j :: 0 <= j < n ==> front[j] in front;
      }
    }
  }
}
