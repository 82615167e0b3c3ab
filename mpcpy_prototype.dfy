/** The single-file prototype mpcpy.py: an emulator over a Dymola model, three-fold
    boundary conditions, a controller whose solution function is fixed at construction,
    and an MPC loop that runs the emulator receding step by receding step. */
module MpcpyPrototype {
  import opened Wrappers
  import opened Numeric
  import opened Legacy
  import Ctl = Control

  /** The Dymola model: simulate(StartTime, StopTime) on the input last written to dsu,
      followed by get_result(). */
  type Simulator = (real, real, Trace) -> Trace

  /** {key: [res[key][0]] for key in res}; indexing an empty array raises IndexError. */
  function FirstSamples(sim: Trace): (r: Result<Trace>)
    ensures r.Ok? <==> forall k :: k in sim ==> |sim[k]| > 0
    ensures r.Err? ==> r.error == EmptyArray
    ensures r.Ok? ==> r.value.Keys == sim.Keys && forall k :: k in sim ==> r.value[k] == [sim[k][0]]
  {
    if exists k :: k in sim && |sim[k]| == 0 then Err(EmptyArray)
    else Ok(map k | k in sim :: [sim[k][0]])
  }

  class Emulator {
    /** The names of the model inputs. */
    const inputs: seq<string>
    const initializationtime: real
    const simulate: Simulator
    var res: Trace

    constructor(inputs: seq<string>, simulate: Simulator, initializationtime: real)
      ensures this.inputs == inputs && this.simulate == simulate
      ensures this.initializationtime == initializationtime && res == map[]
    {
      this.inputs := inputs;
      this.simulate := simulate;
      this.initializationtime := initializationtime;
      res := map[];
    }

    /** The model reports every instant it simulated, so a simulation from a to b reports
        a time axis covering [a, b]. */
    ghost predicate Covering()
      reads this
    {
      forall a, b, input :: a <= b ==> SpanCovers(simulate(a, b, input), a, b)
    }

    /** initialize: clears the trace and keeps the first sample of every entry of a
        simulation from 0 to initializationtime. An empty entry raises, leaving the
        entries copied so far. */
    method Initialize() returns (failed: Option<Error>)
      modifies this
      ensures var sim := simulate(0.0, initializationtime, map[]);
        && (failed.None? <==> FirstSamples(sim).Ok?)
        && (failed.None? ==> res == FirstSamples(sim).value)
        && (failed.Some? ==> failed.value == EmptyArray && res.Keys <= sim.Keys)
        && (forall k :: k in res ==> k in sim && |sim[k]| > 0 && res[k] == [sim[k][0]])
    {
      var sim := simulate(0.0, initializationtime, map[]);
      res := map[];
      var keys := sim.Keys;
      while keys != {}
        invariant keys <= sim.Keys
        invariant res.Keys == sim.Keys - keys
        invariant forall k :: k in res ==> |sim[k]| > 0 && res[k] == [sim[k][0]]
        decreases keys
      {
        var k :| k in keys;
        if |sim[k]| == 0 {
          return Some(EmptyArray);
        }
        res := res[k := [sim[k][0]]];
        keys := keys - {k};
      }
      assert res == FirstSamples(sim).value;
      failed := None;
    }

    /** __call__(input): simulates from input['time'][0] to input['time'][-1] and merges
        the result onto that axis. */
    method Call(input: Trace) returns (failed: Option<Error>)
      modifies this
      ensures "time" !in input ==> failed == Some(MissingKey) && res == old(res)
      ensures "time" in input && |input["time"]| == 0 ==> failed == Some(EmptyTime) && res == old(res)
      ensures "time" in input && |input["time"]| > 0 ==>
        var t := input["time"];
        var sim := simulate(t[0], Last(t), input);
        && (failed.None? <==> SpliceDefined(old(res), t, sim))
        && (failed.None? ==> res == Spliced(old(res), t, sim))
        && (failed.Some? ==>
              (exists done :: SplicedOn(old(res), res, t, sim, done))
              && exists k :: k in SpliceKeys(old(res), sim) && SpliceEntry(old(res), t, sim, k) == Err(failed.value))
    {
      if "time" !in input {
        return Some(MissingKey);
      }
      var t := input["time"];
      if |t| == 0 {
        return Some(EmptyTime);
      }
      var sim := simulate(t[0], Last(t), input);
      res, failed := Splice(res, t, sim);
    }
  }

  // ---------------------------------------------------------------------------
  // Prediction and control

  /** The base Stateestimation returns None, here the empty record the base solution of
      mpcpy/control.py is too. */
  function NoEstimate(time: real, trace: Trace): (r: Trace)
    ensures r == map[]
  {
    Ctl.EmptySolution(trace, trace)
  }

  /** The base Prediction: perfect predictions, the boundary conditions themselves. */
  function PerfectPrediction(b: Boundary): (r: Ctl.Predictor)
    requires b.Valid() && b.CallDefined()
    ensures forall time :: r(time) == b.Called(time)
  {
    time => b.Called(time)
  }

  /** A controller: state estimation, prediction and the solution function that
      formulation returned at construction. */
  datatype Control = Control(stateestimation: Ctl.Estimator, prediction: Ctl.Predictor, solution: Ctl.Solver,
                             horizon: real, timestep: real, receding: real)
  {
    /** time(starttime): the horizon grid, starting at starttime whenever the horizon is not
        negative. */
    function Time(starttime: real): (r: seq<real>)
      requires timestep > 0.0
      ensures horizon >= 0.0 ==> |r| > 0 && r[0] == starttime
    {
      Ctl.HorizonGridPoints(starttime, horizon, timestep);
      Ctl.HorizonGrid(starttime, horizon, timestep)
    }

    /** __call__(starttime): the solution for the estimated state and the predictions on the
        horizon grid. */
    function Call(starttime: real, trace: Trace): Trace
      requires timestep > 0.0
    {
      solution(stateestimation(starttime, trace), prediction(Time(starttime)))
    }
  }

  // ---------------------------------------------------------------------------
  // The MPC loop

  class Mpc {
    const emulator: Emulator
    const control: Control
    const boundary: Boundary
    const emulationtime: real
    const resulttimestep: real
    var res: Trace

    ghost predicate Valid()
      reads this, emulator
    {
      && boundary.Valid() && resulttimestep > 0.0 && control.timestep > 0.0
      && control.receding + resulttimestep / 100.0 > resulttimestep
      && emulator.Covering()
    }

    constructor(emulator: Emulator, control: Control, boundary: Boundary, emulationtime: real, resulttimestep: real)
      ensures this.emulator == emulator && this.control == control && this.boundary == boundary
      ensures this.emulationtime == emulationtime && this.resulttimestep == resulttimestep
      ensures res == map[]
    {
      this.emulator := emulator;
      this.control := control;
      this.boundary := boundary;
      this.emulationtime := emulationtime;
      this.resulttimestep := resulttimestep;
      res := map[];
    }

    /** The grid of the pass starting at starttime. */
    function Grid(starttime: real): seq<real>
      requires resulttimestep > 0.0
      reads this
    {
      Ctl.HorizonGrid(starttime, control.receding, resulttimestep)
    }

    /** One pass of the loop: the grid, the boundary conditions and the plan on it, the
        input {'time': grid} filled from them, the emulator call on input['time'] and the new
        clock res['time'][-1]. An emulator input named 'time' overwrites the grid in the
        input; without one the emulator simulates the grid and the clock reaches its end. */
    method Step(starttime: real) returns (err: Option<Error>, next: real)
      requires Valid()
      modifies emulator
      ensures Valid()
      ensures err.None? ==>
        var grid := Grid(starttime);
        && boundary.CallDefined()
        && Inputs(map["time" := grid], grid, boundary.Called(grid), control.Call(starttime, old(emulator.res)), emulator.inputs).Ok?
        && var input := Inputs(map["time" := grid], grid, boundary.Called(grid), control.Call(starttime, old(emulator.res)), emulator.inputs).value;
           && "time" in input && |input["time"]| == |grid| > 0
           && ("time" !in emulator.inputs ==> input["time"] == grid)
           && var t := input["time"];
              var sim := emulator.simulate(t[0], Last(t), input);
              && SpliceDefined(old(emulator.res), t, sim)
              && emulator.res == Spliced(old(emulator.res), t, sim)
      ensures err.None? ==>
        "time" in emulator.res && |emulator.res["time"]| > 0 && next == Last(emulator.res["time"])
      ensures err.None? && "time" !in emulator.inputs ==>
        next == Last(Grid(starttime)) && next >= starttime + resulttimestep
    {
      var grid := Ctl.HorizonGrid(starttime, control.receding, resulttimestep);
      GridAdvances(starttime, control.receding, resulttimestep);
      var bcs := boundary.Call(grid);
      if bcs.Err? {
        return Some(bcs.error), starttime;
      }
      var plan := control.Call(starttime, emulator.res);
      var input := FillInputs(map["time" := grid], grid, bcs.value, plan, emulator.inputs);
      if input.Err? {
        return Some(input.error), starttime;
      }
      InputPriority(map["time" := grid], grid, bcs.value, plan, emulator.inputs, "time");
      ghost var prev := emulator.res;
      var t := input.value["time"];
      ghost var sim := emulator.simulate(t[0], Last(t), input.value);
      var failed := emulator.Call(input.value);
      if failed.Some? {
        return failed, starttime;
      }
      if "time" !in emulator.res {
        return Some(MissingKey), starttime;
      }
      if |emulator.res["time"]| == 0 {
        return Some(EmptyArray), starttime;
      }
      if "time" !in emulator.inputs {
        assert "time" in prev || prev == map[];
        SpanCoversGrid(sim, grid);
        SplicedTime(prev, grid, sim);
      }
      next := Last(emulator.res["time"]);
      err := None;
    }

    /** __call__: initializes the emulator, runs the loop from 0 until the clock reaches
        emulationtime, then updates res with the emulator's trace and with the boundary
        conditions interpolated on the resulting time axis. */
    method Run() returns (r: Result<Trace>)
      requires Valid() && "time" !in emulator.inputs
      modifies this, emulator
      ensures r.Ok? ==> r.value == res
      ensures r.Ok? ==>
        var trace := old(res) + emulator.res;
        && "time" in trace && boundary.CallDefined()
        && res == trace + boundary.Called(trace["time"])
      ensures r.Ok? && emulationtime > 0.0 ==>
        "time" in emulator.res && |emulator.res["time"]| > 0 && Last(emulator.res["time"]) >= emulationtime
    {
      var failed := emulator.Initialize();
      if failed.Some? {
        return Err(failed.value);
      }
      var starttime := 0.0;
      while starttime < emulationtime
        invariant Valid() && res == old(res) && "time" !in emulator.inputs
        invariant starttime >= 0.0
        invariant starttime > 0.0 ==> "time" in emulator.res && |emulator.res["time"]| > 0 && Last(emulator.res["time"]) == starttime
        decreases Remaining(emulationtime, starttime, resulttimestep)
      {
        var err, next := Step(starttime);
        if err.Some? {
          return Err(err.value);
        }
        RemainingStepsDecrease(emulationtime, starttime, next, resulttimestep);
        starttime := next;
      }
      res := res + emulator.res;
      if "time" !in res {
        return Err(MissingKey);
      }
      var bcs := boundary.Call(res["time"]);
      if bcs.Err? {
        return Err(bcs.error);
      }
      res := res + bcs.value;
      r := Ok(res);
    }
  }
}
