/** The package prototype __init__.py: an emulator over an FMU that hands the inputs to
    the simulation as a table, periodic boundary conditions, prediction and state
    estimation objects wrapping user functions, a controller that stamps its plan with the
    horizon grid, and an MPC loop that resumes from the emulator's last instant. */
module InitPrototype {
  import opened Wrappers
  import opened Numeric
  import opened Legacy
  import Ctl = Control

  // ---------------------------------------------------------------------------
  // The input tuple of pyfmi

  /** A 1-D array or a 2-D array given by its rows. */
  datatype Signal = Vec(v: seq<real>) | Mat(rows: seq<seq<real>>)

  /** (input.keys(), values): the input names and the table of their values. */
  datatype InputTuple = InputTuple(names: seq<string>, values: Signal)

  /** The FMU: simulate(start_time, final_time, input) returning its result record. */
  type Simulator = (real, real, InputTuple) -> Trace

  /** Every named input is an array as long as the time vector, so np.vstack accepts it. */
  predicate Stackable(time: seq<real>, names: seq<string>, input: Trace)
    requires forall j :: 0 <= j < |names| ==> names[j] in input
  {
    forall j :: 0 <= j < |names| ==> |input[names[j]]| == |time|
  }

  /** The rows np.vstack builds: time, then each input in order. */
  function Stacked(time: seq<real>, names: seq<string>, input: Trace): (r: seq<seq<real>>)
    requires forall j :: 0 <= j < |names| ==> names[j] in input
    ensures |r| == |names| + 1 && r[0] == time
    ensures forall j :: 0 <= j < |names| ==> r[j + 1] == input[names[j]]
  {
    [time] + seq(|names|, j requires 0 <= j < |names| => input[names[j]])
  }

  /** np.transpose of rows that all hold width samples. */
  function Transpose(rows: seq<seq<real>>, width: nat): seq<seq<real>>
    requires forall j :: 0 <= j < |rows| ==> |rows[j]| == width
  {
    seq(width, i requires 0 <= i < width => seq(|rows|, j requires 0 <= j < |rows| => rows[j][i]))
  }

  /** _create_input_tuple(time, input): the bare time vector when there are no inputs, else
      the transposed stack of time and the inputs; an input of another length makes
      np.vstack raise ValueError. */
  function InputTable(time: seq<real>, names: seq<string>, input: Trace): (r: Result<InputTuple>)
    requires forall j :: 0 <= j < |names| ==> names[j] in input
    ensures r.Err? <==> |names| > 0 && !Stackable(time, names, input)
    ensures r.Err? ==> r.error == LengthMismatch
    ensures r.Ok? ==> r.value.names == names
  {
    if |names| == 0 then Ok(InputTuple([], Vec(time)))
    else if !Stackable(time, names, input) then Err(LengthMismatch)
    else Ok(InputTuple(names, Mat(Transpose(Stacked(time, names, input), |time|))))
  }

  /** Row i of the table is the sample at time[i]: the instant first, then every input's
      value at it in the order of the names. */
  lemma InputTableSamples(time: seq<real>, names: seq<string>, input: Trace)
    requires forall j :: 0 <= j < |names| ==> names[j] in input
    requires |names| > 0 && Stackable(time, names, input)
    ensures InputTable(time, names, input).Ok?
    ensures var m := InputTable(time, names, input).value.values;
      && m.Mat? && |m.rows| == |time|
      && forall i :: 0 <= i < |time| ==>
           && |m.rows[i]| == |names| + 1 && m.rows[i][0] == time[i]
           && forall j :: 0 <= j < |names| ==> m.rows[i][j + 1] == input[names[j]][i]
  {
    var rows := Stacked(time, names, input);
    var m := Transpose(rows, |time|);
    forall i, j | 0 <= i < |time| && 0 <= j < |names|
      ensures m[i][j + 1] == input[names[j]][i]
    {
      assert rows[j + 1] == input[names[j]];
    }
  }

  /** _create_input_tuple: np.vstack the inputs one by one onto time, then transpose. */
  method CreateInputTuple(time: seq<real>, names: seq<string>, input: Trace) returns (r: Result<InputTuple>)
    requires forall j :: 0 <= j < |names| ==> names[j] in input
    ensures r == InputTable(time, names, input)
  {
    if |names| == 0 {
      return Ok(InputTuple([], Vec(time)));
    }
    var rows: seq<seq<real>> := [time];
    for j := 0 to |names|
      invariant rows == Stacked(time, names[..j], input)
      invariant forall i :: 0 <= i < j ==> |input[names[i]]| == |time|
    {
      if |input[names[j]]| != |time| {
        return Err(LengthMismatch);
      }
      rows := rows + [input[names[j]]];
    }
    assert names[..|names|] == names;
    r := Ok(InputTuple(names, Mat(Transpose(rows, |time|))));
  }

  // ---------------------------------------------------------------------------
  // The order of the input dict

  /** The keys of the dict the MPC loop fills, in insertion order: every listed key that
      one of the records holds, at its first occurrence. */
  function InsertionOrder(keys: seq<string>, present: set<string>): (r: seq<string>)
    ensures forall i :: 0 <= i < |r| ==> r[i] in present && r[i] in keys
    decreases |keys|
  {
    if |keys| == 0 then []
    else
      var front := InsertionOrder(keys[..|keys| - 1], present);
      var k := keys[|keys| - 1];
      if k in present && k !in front then front + [k] else front
  }

  /** The insertion order lists each key at most once, and exactly the listed keys that are
      present. */
  lemma {:induction false} InsertionOrderKeys(keys: seq<string>, present: set<string>)
    ensures var r := InsertionOrder(keys, present);
      && (forall k :: k in r <==> k in keys && k in present)
      && (forall i, j :: 0 <= i < j < |r| ==> r[i] != r[j])
    decreases |keys|
  {
    if |keys| > 0 {
      InsertionOrderKeys(keys[..|keys| - 1], present);
      assert keys == keys[..|keys| - 1] + [keys[|keys| - 1]];
    }
  }

  /** The input dict the MPC loop fills from {} holds exactly the keys of its insertion
      order. */
  lemma InputOrder(time: seq<real>, bcs: Trace, plan: Trace, keys: seq<string>)
    requires Inputs(map[], time, bcs, plan, keys).Ok?
    ensures forall k :: k in Inputs(map[], time, bcs, plan, keys).value <==> k in InsertionOrder(keys, bcs.Keys + plan.Keys)
  {
    InsertionOrderKeys(keys, bcs.Keys + plan.Keys);
    forall k
      ensures k in Inputs(map[], time, bcs, plan, keys).value <==> k in InsertionOrder(keys, bcs.Keys + plan.Keys)
    {
      InputPriority(map[], time, bcs, plan, keys, k);
    }
  }

  // ---------------------------------------------------------------------------
  // The emulator

  class Emulator {
    /** The names of the model inputs. */
    const inputs: seq<string>
    const simulate: Simulator
    var res: Trace

    /** Emulator(filename, inputs): the FMU is loaded and initialized, the trace is empty. */
    constructor(inputs: seq<string>, simulate: Simulator)
      ensures this.inputs == inputs && this.simulate == simulate && res == map[]
    {
      this.inputs := inputs;
      this.simulate := simulate;
      res := map[];
    }

    /** The FMU reports every instant it simulated, so a simulation from a to b reports a
        time axis covering [a, b]. */
    ghost predicate Covering()
      reads this
    {
      forall a, b, input :: a <= b ==> SpanCovers(simulate(a, b, input), a, b)
    }

    /** __call__(time, input), where names is the key order of the dict input: simulates
        from time[0] to time[-1] with the input table and merges the result onto time. */
    method Call(time: seq<real>, names: seq<string>, input: Trace) returns (failed: Option<Error>)
      requires forall k :: k in input <==> k in names
      modifies this
      ensures |time| == 0 ==> failed == Some(EmptyTime) && res == old(res)
      ensures |time| > 0 && InputTable(time, names, input).Err? ==> failed == Some(LengthMismatch) && res == old(res)
      ensures |time| > 0 && InputTable(time, names, input).Ok? ==>
        var sim := simulate(time[0], Last(time), InputTable(time, names, input).value);
        && (failed.None? <==> SpliceDefined(old(res), time, sim))
        && (failed.None? ==> res == Spliced(old(res), time, sim))
        && (failed.Some? ==>
              (exists done :: SplicedOn(old(res), res, time, sim, done))
              && exists k :: k in SpliceKeys(old(res), sim) && SpliceEntry(old(res), time, sim, k) == Err(failed.value))
    {
      if |time| == 0 {
        return Some(EmptyTime);
      }
      var table := CreateInputTuple(time, names, input);
      if table.Err? {
        return Some(table.error);
      }
      var sim := simulate(time[0], Last(time), table.value);
      res, failed := Splice(res, time, sim);
    }
  }

  // ---------------------------------------------------------------------------
  // Prediction and control

  /** Prediction(boundaryconditions, prediction_function). */
  datatype Prediction = Prediction(boundary: Boundary, predictionFunction: Trace -> Trace)
  {
    /** __call__(time): the prediction function applied to the boundary conditions on time;
        the interpolation raises on an entry of another length. */
    function Call(time: seq<real>): (r: Result<Trace>)
      requires boundary.Valid()
      ensures r.Ok? <==> boundary.CallDefined()
      ensures r.Ok? ==> r.value == predictionFunction(boundary.Called(time))
    {
      if boundary.CallDefined() then Ok(predictionFunction(boundary.Called(time))) else Err(LengthMismatch)
    }
  }

  /** Control(stateestimation, prediction, control_function, horizon, timestep, receding);
      the state estimation applies its function to the emulator, here to its trace. */
  datatype Control = Control(estimation: Trace -> Trace, prediction: Prediction, controlFunction: (Trace, Trace) -> Trace,
                             horizon: real, timestep: real, receding: real)
  {
    predicate Valid()
    {
      timestep > 0.0 && prediction.boundary.Valid()
    }

    /** The horizon grid np.arange(starttime, starttime + horizon + 0.01*timestep, timestep). */
    function Time(starttime: real): (r: seq<real>)
      requires Valid()
      ensures horizon >= 0.0 ==> |r| > 0 && r[0] == starttime
    {
      Ctl.HorizonGridPoints(starttime, horizon, timestep);
      Ctl.HorizonGrid(starttime, horizon, timestep)
    }

    /** __call__(starttime): the control function's plan for the estimated state and the
        predictions on the horizon grid, with 'time' set to that grid whatever the control
        function returned under it; every other key is the control function's. */
    function Call(starttime: real, trace: Trace): (r: Result<Trace>)
      requires Valid()
      ensures r.Ok? <==> prediction.boundary.CallDefined()
      ensures r.Ok? ==> "time" in r.value && r.value["time"] == Time(starttime)
      ensures r.Ok? ==>
        var plan := controlFunction(estimation(trace), prediction.Call(Time(starttime)).value);
        r.value.Keys == plan.Keys + {"time"} && forall k :: k in plan && k != "time" ==> r.value[k] == plan[k]
    {
      var time := Time(starttime);
      var state := estimation(trace);
      match prediction.Call(time)
      case Err(e) => Err(e)
      case Ok(p) => Ok(controlFunction(state, p)["time" := time])
    }
  }

  // ---------------------------------------------------------------------------
  // The MPC loop

  /** Where __call__ resumes: the last instant of a non-empty trace, 0 for an empty one. */
  function ResumeTime(res: Trace): (r: Result<real>)
    ensures r.Err? <==> res != map[] && ("time" !in res || |res["time"]| == 0)
    ensures r.Ok? && res != map[] ==> r.value == Last(res["time"])
    ensures res == map[] ==> r == Ok(0.0)
  {
    if res == map[] then Ok(0.0)
    else if "time" !in res then Err(MissingKey)
    else if |res["time"]| == 0 then Err(EmptyTime)
    else Ok(Last(res["time"]))
  }

  class Mpc {
    const emulator: Emulator
    const control: Control
    const boundary: Boundary
    const emulationtime: real
    const resulttimestep: real

    ghost predicate Valid()
      reads this, emulator
    {
      && boundary.Valid() && control.Valid() && resulttimestep > 0.0
      && control.receding + resulttimestep / 100.0 > resulttimestep
      && emulator.Covering()
    }

    constructor(emulator: Emulator, control: Control, boundary: Boundary, emulationtime: real, resulttimestep: real)
      ensures this.emulator == emulator && this.control == control && this.boundary == boundary
      ensures this.emulationtime == emulationtime && this.resulttimestep == resulttimestep
    {
      this.emulator := emulator;
      this.control := control;
      this.boundary := boundary;
      this.emulationtime := emulationtime;
      this.resulttimestep := resulttimestep;
    }

    /** The grid of the pass starting at starttime. */
    function Grid(starttime: real): seq<real>
      requires resulttimestep > 0.0
      reads this
    {
      Ctl.HorizonGrid(starttime, control.receding, resulttimestep)
    }

    /** The input a pass from starttime on the trace prev hands to the emulator: the
        boundary conditions and the plan on the grid, the input {} filled from them, and its
        keys in the dict's insertion order. None when one of these raises. */
    function PassInput(starttime: real, prev: Trace): (r: Option<(seq<string>, Trace)>)
      requires boundary.Valid() && control.Valid() && resulttimestep > 0.0
      reads this
      ensures r.Some? ==> forall k :: k in r.value.1 <==> k in r.value.0
      ensures r.Some? <==>
        && boundary.CallDefined() && control.Call(starttime, prev).Ok?
        && Inputs(map[], Grid(starttime), boundary.Called(Grid(starttime)), control.Call(starttime, prev).value, emulator.inputs).Ok?
    {
      var grid := Grid(starttime);
      if !boundary.CallDefined() then None
      else
        match control.Call(starttime, prev)
        case Err(_) => None
        case Ok(plan) =>
          var bcs := boundary.Called(grid);
          match Inputs(map[], grid, bcs, plan, emulator.inputs)
          case Err(_) => None
          case Ok(input) =>
            InputOrder(grid, bcs, plan, emulator.inputs);
            Some((InsertionOrder(emulator.inputs, bcs.Keys + plan.Keys), input))
    }

    /** The simulation result a pass from starttime on the trace prev hands to the merge:
        the simulation over the grid with the table of the pass' input. None when building
        the input or its table raises. */
    ghost function PassSimulation(starttime: real, prev: Trace): Option<Trace>
      requires boundary.Valid() && control.Valid() && resulttimestep > 0.0
      requires control.receding + resulttimestep / 100.0 > resulttimestep
      reads this
    {
      var grid := Grid(starttime);
      GridAdvances(starttime, control.receding, resulttimestep);
      match PassInput(starttime, prev)
      case None => None
      case Some(pass) =>
        match InputTable(grid, pass.0, pass.1)
        case Err(_) => None
        case Ok(table) => Some(emulator.simulate(grid[0], Last(grid), table))
    }

    /** The simulation of a pass whose input and table are built. */
    lemma PassSimulationOf(starttime: real, prev: Trace, names: seq<string>, input: Trace)
      requires Valid()
      requires PassInput(starttime, prev) == Some((names, input)) && InputTable(Grid(starttime), names, input).Ok?
      ensures PassSimulation(starttime, prev)
        == Some(emulator.simulate(Grid(starttime)[0], Last(Grid(starttime)), InputTable(Grid(starttime), names, input).value))
    {
      GridAdvances(starttime, control.receding, resulttimestep);
    }

    /** The first half of a pass: the boundary conditions on the grid, the plan, and the
        input {} filled from them with its insertion order. */
    method Prepare(starttime: real) returns (err: Option<Error>, names: seq<string>, input: Trace)
      requires boundary.Valid() && control.Valid() && resulttimestep > 0.0
      ensures err.None? <==> PassInput(starttime, emulator.res).Some?
      ensures err.None? ==> (names, input) == PassInput(starttime, emulator.res).value
    {
      var grid := Ctl.HorizonGrid(starttime, control.receding, resulttimestep);
      var bcs := boundary.Call(grid);
      if bcs.Err? {
        return Some(bcs.error), [], map[];
      }
      var plan := control.Call(starttime, emulator.res);
      if plan.Err? {
        return Some(plan.error), [], map[];
      }
      var filled := FillInputs(map[], grid, bcs.value, plan.value, emulator.inputs);
      if filled.Err? {
        return Some(filled.error), [], map[];
      }
      names := InsertionOrder(emulator.inputs, bcs.value.Keys + plan.value.Keys);
      input := filled.value;
      err := None;
    }

    /** One pass of the loop: the input prepared for the grid, the emulator call and the
        new clock res['time'][-1]. */
    method Step(starttime: real) returns (err: Option<Error>, next: real)
      requires Valid()
      modifies emulator
      ensures Valid()
      ensures err.None? ==>
        && PassSimulation(starttime, old(emulator.res)).Some?
        && var sim := PassSimulation(starttime, old(emulator.res)).value;
           SpliceDefined(old(emulator.res), Grid(starttime), sim) && emulator.res == Spliced(old(emulator.res), Grid(starttime), sim)
      ensures err.None? ==>
        && "time" in emulator.res && |emulator.res["time"]| > 0
        && next == Last(emulator.res["time"]) == Last(Grid(starttime))
        && next >= starttime + resulttimestep
    {
      var grid := Ctl.HorizonGrid(starttime, control.receding, resulttimestep);
      GridAdvances(starttime, control.receding, resulttimestep);
      var names, input;
      err, names, input := Prepare(starttime);
      if err.Some? {
        return err, starttime;
      }
      ghost var prev := emulator.res;
      var failed := emulator.Call(grid, names, input);
      if failed.Some? {
        return failed, starttime;
      }
      if "time" !in emulator.res {
        return Some(MissingKey), starttime;
      }
      ghost var sim := emulator.simulate(grid[0], Last(grid), InputTable(grid, names, input).value);
      PassSimulationOf(starttime, prev, names, input);
      assert "time" in prev || prev == map[];
      SpanCoversGrid(sim, grid);
      SplicedTime(prev, grid, sim);
      next := Last(emulator.res["time"]);
    }

    /** __call__: resumes from the emulator's last instant, or 0, and runs the loop until
        the clock reaches emulationtime. */
    method Run() returns (err: Option<Error>)
      requires Valid()
      modifies emulator
      ensures ResumeTime(old(emulator.res)).Err? ==>
        err == Some(ResumeTime(old(emulator.res)).error) && emulator.res == old(emulator.res)
      ensures ResumeTime(old(emulator.res)).Ok? && ResumeTime(old(emulator.res)).value >= emulationtime ==>
        err.None? && emulator.res == old(emulator.res)
      ensures err.None? && ResumeTime(old(emulator.res)).Ok? && ResumeTime(old(emulator.res)).value < emulationtime ==>
        "time" in emulator.res && |emulator.res["time"]| > 0 && Last(emulator.res["time"]) >= emulationtime
    {
      var starttime: real;
      if emulator.res != map[] {
        if "time" !in emulator.res {
          return Some(MissingKey);
        }
        if |emulator.res["time"]| == 0 {
          return Some(EmptyTime);
        }
        starttime := Last(emulator.res["time"]);
      } else {
        starttime := 0.0;
      }
      ghost var start := starttime;
      while starttime < emulationtime
        invariant Valid()
        invariant starttime >= start
        invariant start >= emulationtime ==> emulator.res == old(emulator.res)
        invariant starttime > start ==> "time" in emulator.res && |emulator.res["time"]| > 0 && Last(emulator.res["time"]) == starttime
        decreases Remaining(emulationtime, starttime, resulttimestep)
      {
        var next;
        err, next := Step(starttime);
        if err.Some? {
          return;
        }
        RemainingStepsDecrease(emulationtime, starttime, next, resulttimestep);
        starttime := next;
      }
      err := None;
    }
  }
}
