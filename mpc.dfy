/** The MPC class of mpcpy/mpc.py: the receding-horizon loop that calls the controller,
    builds the simulation grid and the emulator input, runs the emulator and moves the
    clock to the end of the simulated trace. */
module Mpc {
  import opened Wrappers
  import opened Numeric
  import opened Disturbances
  import Dist = Disturbances
  import Em = Emulator
  import Ctl = Control

  type Trace = Em.Trace

  /** The nextstepcalculator used when none is given: always one receding step. */
  function DefaultNextStep(plan: Trace): (r: int)
    ensures r == 1
  {
    1
  }

  // ---------------------------------------------------------------------------
  // The simulation grid

  /** How far nextStep receding horizons reach: nextStep*receding. */
  function Advance(nextStep: int, receding: real): real
  {
    nextStep as real * receding
  }

  /** The stop value of the grid's np.arange: min(E + dt, starttime + nextStep*receding + 0.01*dt). */
  function GridStop(starttime: real, emulationtime: real, dt: real, nextStep: int, receding: real): real
  {
    Min(emulationtime + dt, starttime + Advance(nextStep, receding) + dt / 100.0)
  }

  /** np.arange(starttime, GridStop, dt) with its last point clamped to emulationtime by
      time[-1] = min(time[-1], E); an empty grid raises at time[-1]. */
  function SimulationGrid(starttime: real, emulationtime: real, dt: real, nextStep: int, receding: real): (r: Result<seq<real>>)
    requires dt > 0.0
    ensures r.Err? ==> r.error == EmptyTime
  {
    var n := ArangeLength(starttime, GridStop(starttime, emulationtime, dt, nextStep, receding), dt);
    if n == 0 then Err(EmptyTime)
    else Ok(seq(n, i requires 0 <= i < n =>
              if i < n - 1 then Point(starttime, i, dt) else Min(Point(starttime, i, dt), emulationtime)))
  }

  /** The points of the grid: whole steps of dt from starttime, the last one clamped to
      emulationtime, all below both arange bounds and none after emulationtime; the grid
      is empty exactly when the stop value does not exceed starttime. */
  lemma SimulationGridPoints(starttime: real, emulationtime: real, dt: real, nextStep: int, receding: real)
    requires dt > 0.0
    ensures var r := SimulationGrid(starttime, emulationtime, dt, nextStep, receding);
      && (r.Ok? <==> GridStop(starttime, emulationtime, dt, nextStep, receding) > starttime)
      && (r.Ok? ==>
            var t := r.value;
            && (forall i :: 0 <= i < |t| - 1 ==> t[i] == Point(starttime, i, dt))
            && Last(t) == Min(Point(starttime, |t| - 1, dt), emulationtime)
            && (forall i :: 0 <= i < |t| ==> t[i] <= emulationtime)
            && (forall i :: 0 <= i < |t| ==> t[i] < starttime + Advance(nextStep, receding) + dt / 100.0))
  {
    var stop := GridStop(starttime, emulationtime, dt, nextStep, receding);
    var n := ArangeLength(starttime, stop, dt);
    ArangeLengthBounds(starttime, stop, dt);
    if n > 0 {
      var t := SimulationGrid(starttime, emulationtime, dt, nextStep, receding).value;
      forall i | 0 <= i < n
        ensures t[i] <= emulationtime && t[i] < stop
      {
        GridPointBelow(starttime, dt, i, n, stop, emulationtime);
      }
    }
  }

  /** A point of a grid whose last point lies below stop <= E + dt lies below E and stop. */
  lemma GridPointBelow(start: real, dt: real, i: nat, n: nat, stop: real, emulationtime: real)
    requires dt > 0.0 && i < n && Point(start, n - 1, dt) < stop <= emulationtime + dt
    ensures i < n - 1 ==> Point(start, i, dt) < emulationtime && Point(start, i, dt) < stop
    ensures Min(Point(start, n - 1, dt), emulationtime) < stop
  {
    PointOrder(start, i, n - 1, dt);
  }

  /** While the clock is before emulationtime and a step reaches past one dt, the grid has
      at least two strictly increasing points from starttime, and it ends no earlier than
      min(starttime + dt, emulationtime) and no later than emulationtime. */
  lemma SimulationGridAdvances(starttime: real, emulationtime: real, dt: real, nextStep: int, receding: real)
    requires dt > 0.0 && starttime < emulationtime
    requires Advance(nextStep, receding) + dt / 100.0 > dt
    ensures SimulationGrid(starttime, emulationtime, dt, nextStep, receding).Ok?
    ensures var t := SimulationGrid(starttime, emulationtime, dt, nextStep, receding).value;
      && |t| >= 2 && t[0] == starttime && StrictlyIncreasing(t)
      && Min(starttime + dt, emulationtime) <= Last(t) <= emulationtime
  {
    var stop := GridStop(starttime, emulationtime, dt, nextStep, receding);
    var n := ArangeLength(starttime, stop, dt);
    ArangeLengthBounds(starttime, stop, dt);
    assert Point(starttime, 1, dt) == starttime + dt;
    assert n >= 2 by {
      if n < 2 {
        PointOrder(starttime, n, 1, dt);
      }
    }
    SimulationGridPoints(starttime, emulationtime, dt, nextStep, receding);
    var t := SimulationGrid(starttime, emulationtime, dt, nextStep, receding).value;
    assert t[0] == Point(starttime, 0, dt) == starttime;
    PointOrder(starttime, 1, n - 1, dt);
    forall i, j | 0 <= i < j < n
      ensures t[i] < t[j]
    {
      PointOrder(starttime, i, j, dt);
      if j == n - 1 {
        GridPointBelow(starttime, dt, i, n, stop, emulationtime);
      }
    }
  }

  // ---------------------------------------------------------------------------
  // The input time axis

  /** control['time'][ind] - 1e-6*dt for the indices np.where selects: the shifted control
      breakpoints inside (lo, hi], in plan order. */
  function Spliced(controlTime: seq<real>, lo: real, hi: real, eps: real): (r: seq<real>)
    ensures |r| <= |controlTime|
    ensures forall x :: x in r ==> lo < x <= hi && x + eps in controlTime
    decreases |controlTime|
  {
    if |controlTime| == 0 then []
    else
      var rest := Spliced(controlTime[1..], lo, hi, eps);
      if lo < controlTime[0] - eps <= hi then [controlTime[0] - eps] + rest else rest
  }

  /** Every shifted breakpoint that falls inside (lo, hi] is spliced in. */
  lemma {:induction false} SplicedComplete(controlTime: seq<real>, lo: real, hi: real, eps: real, i: nat)
    requires i < |controlTime| && lo < controlTime[i] - eps <= hi
    ensures controlTime[i] - eps in Spliced(controlTime, lo, hi, eps)
    decreases i
  {
    if i > 0 {
      SplicedComplete(controlTime[1..], lo, hi, eps, i - 1);
    }
  }

  /** The offset 1e-6*dt that puts a control step just before its breakpoint. */
  function Offset(dt: real): (r: real)
    ensures dt > 0.0 ==> 0.0 < r < dt
  {
    dt / 1000000.0
  }

  /** inputtime: the grid and the shifted breakpoints, sorted. */
  function InputTime(time: seq<real>, controlTime: seq<real>, dt: real): (r: seq<real>)
    requires |time| > 0
    ensures NonDecreasing(r)
    ensures multiset(r) == multiset(time) + multiset(Spliced(controlTime, time[0], Last(time), Offset(dt)))
  {
    Sort(time + Spliced(controlTime, time[0], Last(time), Offset(dt)))
  }

  /** The input axis is sorted, holds every grid point, and spans exactly the grid. */
  lemma InputTimeSpan(time: seq<real>, controlTime: seq<real>, dt: real)
    requires |time| > 0 && NonDecreasing(time)
    ensures var r := InputTime(time, controlTime, dt);
      && |r| >= |time|
      && (forall i :: 0 <= i < |time| ==> time[i] in r)
      && r[0] == time[0] && Last(r) == Last(time)
  {
    var extra := Spliced(controlTime, time[0], Last(time), Offset(dt));
    var s := time + extra;
    var r := InputTime(time, controlTime, dt);
    forall i | 0 <= i < |s|
      ensures time[0] <= s[i] <= Last(time)
    {
      if i >= |time| {
        assert s[i] in extra;
      }
    }
    assert time[0] == s[0] && Last(time) == s[|time| - 1];
    SortedEnds(s, r, time[0], Last(time));
    assert multiset(s) == multiset(time) + multiset(extra);
    forall i | 0 <= i < |time|
      ensures time[i] in r
    {
      assert time[i] in multiset(time);
      assert time[i] in multiset(r);
    }
  }

  // ---------------------------------------------------------------------------
  // The emulator input

  /** Every plan key but 'time' can be read by zero-order hold on the input axis. */
  predicate PlanReadable(inputtime: seq<real>, plan: Trace)
    requires "time" in plan
  {
    forall k :: k in plan.Keys - {"time"} ==> ZohAll(inputtime, plan["time"], plan[k]).Ok?
  }

  /** The input after the control keys: 'time' is inputtime, every other plan key its
      zero-order-hold values on inputtime. */
  function PlanOnAxis(inputtime: seq<real>, plan: Trace): (r: Trace)
    requires "time" in plan && PlanReadable(inputtime, plan)
    ensures r.Keys == plan.Keys + {"time"} && r["time"] == inputtime
    ensures forall k :: k in r && k != "time" ==> Ok(r[k]) == ZohAll(inputtime, plan["time"], plan[k])
  {
    map k | k in plan.Keys + {"time"} :: if k == "time" then inputtime else ZohAll(inputtime, plan["time"], plan[k]).value
  }

  /** The input after the emulator inputs, in list order: a key still missing that the
      disturbances hold is interpolated from them, any other key is left out. */
  function WithDisturbances(input: Trace, keys: seq<string>, d: Disturbances): (r: Result<Trace>)
    requires d.Valid() && "time" in input
    ensures r.Ok? ==> input.Keys <= r.value.Keys && forall k :: k in input ==> r.value[k] == input[k]
    decreases |keys|
  {
    if |keys| == 0 then Ok(input)
    else
      match WithDisturbances(input, keys[..|keys| - 1], d)
      case Err(e) => Err(e)
      case Ok(cur) =>
        var k := keys[|keys| - 1];
        if k !in cur && d.Contains(k) then
          match d.InterpKey(k, cur["time"])
          case Err(e) => Err(e)
          case Ok(s) => if s.Vec? then Ok(cur[k := s.v]) else Err(NotOneDimensional)
        else Ok(cur)
  }

  /** A key the input did not hold ends up in the result exactly when it is an emulator
      input the disturbances hold, and then with the disturbances' values on the axis. */
  lemma {:induction false} WithDisturbancesAdds(input: Trace, keys: seq<string>, d: Disturbances, key: string)
    requires d.Valid() && "time" in input && WithDisturbances(input, keys, d).Ok?
    requires key !in input
    ensures key in WithDisturbances(input, keys, d).value <==> key in keys && d.Contains(key)
    ensures key in WithDisturbances(input, keys, d).value ==>
      d.InterpKey(key, input["time"]) == Ok(Vec(WithDisturbances(input, keys, d).value[key]))
    decreases |keys|
  {
    if |keys| > 0 {
      var front := keys[..|keys| - 1];
      WithDisturbancesAdds(input, front, d, key);
      assert keys == front + [keys[|keys| - 1]];
    }
  }

  /** Fills the emulator input: the plan first, then the disturbances. */
  method MakeInput(inputtime: seq<real>, plan: Trace, inputs: seq<string>, d: Disturbances) returns (r: Result<Trace>)
    requires "time" in plan && d.Valid()
    ensures PlanReadable(inputtime, plan) ==> r == WithDisturbances(PlanOnAxis(inputtime, plan), inputs, d)
    ensures !PlanReadable(inputtime, plan) ==>
      r.Err? && exists k :: k in plan.Keys - {"time"} && ZohAll(inputtime, plan["time"], plan[k]) == Err(r.error)
  {
    var planned := AddControls(inputtime, plan);
    if planned.Err? {
      return planned;
    }
    r := AddDisturbances(planned.value, inputs, d);
  }

  /** input = {'time': inputtime}, then interp_zoh of every other plan key on inputtime. */
  method AddControls(inputtime: seq<real>, plan: Trace) returns (r: Result<Trace>)
    requires "time" in plan
    ensures r.Ok? <==> PlanReadable(inputtime, plan)
    ensures r.Ok? ==> r.value == PlanOnAxis(inputtime, plan)
    ensures r.Err? ==> exists k :: k in plan.Keys - {"time"} && ZohAll(inputtime, plan["time"], plan[k]) == Err(r.error)
  {
    var input: Trace := map["time" := inputtime];
    var keys := plan.Keys;
    while keys != {}
      invariant keys <= plan.Keys
      invariant input.Keys == {"time"} + (plan.Keys - keys)
      invariant input["time"] == inputtime
      invariant forall k :: k in input && k != "time" ==> Ok(input[k]) == ZohAll(inputtime, plan["time"], plan[k])
      decreases keys
    {
      var k :| k in keys;
      if k !in input {
        var values := ZohAll(inputtime, plan["time"], plan[k]);
        if values.Err? {
          return Err(values.error);
        }
        input := input[k := values.value];
      }
      keys := keys - {k};
    }
    assert PlanReadable(inputtime, plan);
    assert input == PlanOnAxis(inputtime, plan);
    r := Ok(input);
  }

  /** Adds, in list order, each emulator input still missing that the disturbances hold. */
  method AddDisturbances(start: Trace, inputs: seq<string>, d: Disturbances) returns (r: Result<Trace>)
    requires "time" in start && d.Valid()
    ensures r == WithDisturbances(start, inputs, d)
  {
    var input := start;
    for i := 0 to |inputs|
      invariant WithDisturbances(start, inputs[..i], d) == Ok(input)
    {
      assert inputs[..i + 1][..i] == inputs[..i];
      var k := inputs[i];
      if k !in input && d.Contains(k) {
        var value := d.Interp(k, input["time"]);
        if value.Err? {
          assert WithDisturbances(start, inputs[..i + 1], d) == Err(value.error);
          WithDisturbancesErrSticks(start, inputs, d, i + 1);
          return Err(value.error);
        }
        if !value.value.Vec? {
          WithDisturbancesErrSticks(start, inputs, d, i + 1);
          return Err(NotOneDimensional);
        }
        input := input[k := value.value.v];
      }
    }
    assert inputs[..|inputs|] == inputs;
    r := Ok(input);
  }

  /** Once a prefix of the inputs fails, the whole list fails with the same error. */
  lemma {:induction false} WithDisturbancesErrSticks(start: Trace, inputs: seq<string>, d: Disturbances, i: nat)
    requires "time" in start && d.Valid() && i <= |inputs|
    requires WithDisturbances(start, inputs[..i], d).Err?
    ensures WithDisturbances(start, inputs, d) == WithDisturbances(start, inputs[..i], d)
    decreases |inputs| - i
  {
    if i < |inputs| {
      assert inputs[..i + 1][..i] == inputs[..i];
      WithDisturbancesErrSticks(start, inputs, d, i + 1);
    } else {
      assert inputs[..i] == inputs;
    }
  }

  /** The assembled input: 'time' is inputtime, a plan key takes the plan's zero-order-hold
      values even when the disturbances hold it too, and any other key is present exactly
      when it is an emulator input the disturbances hold, with the disturbances' values. */
  lemma InputPriority(inputtime: seq<real>, plan: Trace, inputs: seq<string>, d: Disturbances, key: string)
    requires "time" in plan && d.Valid() && PlanReadable(inputtime, plan)
    requires WithDisturbances(PlanOnAxis(inputtime, plan), inputs, d).Ok?
    ensures var r := WithDisturbances(PlanOnAxis(inputtime, plan), inputs, d).value;
      && "time" in r && r["time"] == inputtime
      && (key in plan && key != "time" ==> key in r && Ok(r[key]) == ZohAll(inputtime, plan["time"], plan[key]))
      && (key !in plan && key != "time" ==> (key in r <==> key in inputs && d.Contains(key)))
      && (key !in plan && key != "time" && key in r ==> d.InterpKey(key, inputtime) == Ok(Vec(r[key])))
  {
    if key !in plan && key != "time" {
      WithDisturbancesAdds(PlanOnAxis(inputtime, plan), inputs, d, key);
    }
  }

  // ---------------------------------------------------------------------------
  // The clock

  /** After the emulator call the trace's time axis is the old one without its last
      instant followed by the grid, for a simulation that never returns a one-sample time
      axis and an input axis built as above. */
  lemma TraceEndsAtGrid(prev: Trace, time: seq<real>, input: Trace, sim: Trace, controlTime: seq<real>, dt: real)
    requires Em.MergeDefined(prev, time, input, sim)
    requires |time| >= 2 && StrictlyIncreasing(time)
    requires "time" in prev && "time" in input && input["time"] == InputTime(time, controlTime, dt)
    requires "time" in sim ==> |sim["time"]| != 1
    ensures "time" in Em.Merge(prev, time, input, sim)
    ensures Em.Merge(prev, time, input, sim)["time"] == DropLast(prev["time"]) + time
  {
    if "time" in sim {
      Em.MergeTime(prev, time, input, sim);
    } else {
      InputTimeSpan(time, controlTime, dt);
      var xp := input["time"];
      forall i | 0 <= i < |time|
        ensures xp[0] <= time[i] <= Last(xp)
      {
        assert time[0] <= time[i] <= Last(time) by {
          if i > 0 {
            assert time[0] < time[i];
          }
          if i < |time| - 1 {
            assert time[i] < time[|time| - 1];
          }
        }
      }
      Em.MergeTimeFromInput(prev, time, input, sim);
    }
  }

  /** The simulated segments tile the run: each has at least two strictly increasing points
      ending no later than emulationtime, the first starts at 0 and each next one starts
      where the previous one ended. */
  ghost predicate Chained(grids: seq<seq<real>>, emulationtime: real)
  {
    && (forall i :: 0 <= i < |grids| ==>
          && |grids[i]| >= 2 && StrictlyIncreasing(grids[i]) && Last(grids[i]) <= emulationtime
          && (i == 0 ==> grids[i][0] == 0.0)
          && (i > 0 ==> |grids[i - 1]| >= 2 && grids[i][0] == Last(grids[i - 1])))
  }

  lemma LastOfAppend(a: seq<real>, b: seq<real>)
    requires |b| > 0
    ensures Last(a + b) == Last(b)
  {
  }

  /** A segment that starts where the run stands keeps the segments tiled. */
  lemma ChainedExtend(grids: seq<seq<real>>, time: seq<real>, emulationtime: real)
    requires Chained(grids, emulationtime)
    requires |time| >= 2 && StrictlyIncreasing(time) && Last(time) <= emulationtime
    requires grids == [] ==> time[0] == 0.0
    requires grids != [] ==> time[0] == Last(grids[|grids| - 1])
    ensures Chained(grids + [time], emulationtime)
  {
  }

  // ---------------------------------------------------------------------------
  // The result

  /** Emulator trace entries as records of the disturbances' kind. */
  function Lift(trace: Trace): (r: Record)
    ensures r.Keys == trace.Keys
    ensures forall k :: k in r ==> r[k] == Vec(trace[k])
  {
    map k | k in trace :: Vec(trace[k])
  }

  /** res.update(emulator.res) followed by res.update(disturbances(res['time'])). */
  function Final(prev: Record, trace: Trace, d: Disturbances): Record
    requires d.Valid() && "time" in trace && d.CallDefined(trace["time"])
  {
    (prev + Lift(trace)) + d.Called(trace["time"])
  }

  /** The returned result has the disturbances overriding the emulator trace, which
      overrides what an earlier run left; its 'time' entry is the trace's own axis when
      'time' is linearly interpolated and the trace stays inside the disturbances' axis. */
  lemma FinalOverrides(prev: Record, trace: Trace, d: Disturbances, key: string)
    requires d.Valid() && "time" in trace && d.CallDefined(trace["time"])
    ensures Final(prev, trace, d).Keys == prev.Keys + trace.Keys + d.data.Keys
    ensures key in d.data ==> Ok(Final(prev, trace, d)[key]) == d.InterpKey(key, trace["time"])
    ensures key !in d.data && key in trace ==> Final(prev, trace, d)[key] == Vec(trace[key])
    ensures key !in d.data && key !in trace && key in prev ==> Final(prev, trace, d)[key] == prev[key]
    ensures (&& "time" !in d.zohKeys && NonDecreasing(d.data["time"].v) && |d.data["time"].v| > 0
             && forall i :: 0 <= i < |trace["time"]| ==>
                  d.data["time"].v[0] <= trace["time"][i] <= Last(d.data["time"].v)) ==>
      Final(prev, trace, d)["time"] == Vec(trace["time"])
  {
    var xp := d.data["time"].v;
    if && "time" !in d.zohKeys && NonDecreasing(xp) && |xp| > 0
       && forall i :: 0 <= i < |trace["time"]| ==> xp[0] <= trace["time"][i] <= Last(xp) {
      TimeEntryIsQuery(d, trace["time"]);
    }
  }

  // ---------------------------------------------------------------------------
  // The object

  class Mpc {
    const emulator: Em.Emulator
    const control: Ctl.Control
    const disturbances: Disturbances
    const emulationtime: real
    const resulttimestep: real
    const nextStep: Trace -> int
    /** The result of the last run. */
    var res: Record

    constructor(emulator: Em.Emulator, control: Ctl.Control, disturbances: Disturbances,
                emulationtime: real, resulttimestep: real, nextStep: Option<Trace -> int>)
      ensures this.emulator == emulator && this.control == control && this.disturbances == disturbances
      ensures this.emulationtime == emulationtime && this.resulttimestep == resulttimestep
      ensures this.nextStep == (if nextStep.Some? then nextStep.value else DefaultNextStep)
      ensures res == map[]
    {
      this.emulator := emulator;
      this.control := control;
      this.disturbances := disturbances;
      this.emulationtime := emulationtime;
      this.resulttimestep := resulttimestep;
      if nextStep.Some? {
        this.nextStep := nextStep.value;
      } else {
        this.nextStep := DefaultNextStep;
      }
      res := map[];
    }

    /** One pass of the loop of __call__ from starttime: the controller plans, the grid is
        built from the number of steps the plan asks for, the input is assembled on the
        grid and the breakpoints of the plan, and the emulator merges its simulation of the
        grid. It returns the grid, the plan and the input it built. */
    method Step(starttime: real) returns (err: Option<Error>, time: seq<real>, plan: Trace, input: Trace)
      requires control.Valid() && disturbances.Valid() && resulttimestep > 0.0
      requires starttime < emulationtime
      requires forall p :: Advance(nextStep(p), control.receding) + resulttimestep / 100.0 > resulttimestep
      requires forall a, b, input :: "time" in emulator.simulate(a, b, input) ==>
        |emulator.simulate(a, b, input)["time"]| != 1
      requires "time" in emulator.res
      modifies emulator, control
      ensures control.Valid()
      ensures plan == control.solution(control.stateestimation(starttime, old(emulator.res)),
                                       control.prediction(control.Time(starttime)))
      ensures control.solutions == Ctl.Recorded(old(control.solutions), plan, control.savesolutions)
      ensures err.None? ==>
        && "time" in plan
        && SimulationGrid(starttime, emulationtime, resulttimestep, nextStep(plan), control.receding) == Ok(time)
        && PlanReadable(InputTime(time, plan["time"], resulttimestep), plan)
        && WithDisturbances(PlanOnAxis(InputTime(time, plan["time"], resulttimestep), plan), emulator.inputs, disturbances) == Ok(input)
        && Em.MergeDefined(old(emulator.res), time, input, emulator.simulate(time[0], Last(time), input))
        && emulator.res == Em.Merge(old(emulator.res), time, input, emulator.simulate(time[0], Last(time), input))
      ensures err.None? ==>
        && |time| >= 2 && time[0] == starttime && StrictlyIncreasing(time)
        && Min(starttime + resulttimestep, emulationtime) <= Last(time) <= emulationtime
        && "time" in emulator.res && emulator.res["time"] == DropLast(old(emulator.res["time"])) + time
    {
      var dt := resulttimestep;
      plan := control.Call(starttime, emulator.res);
      var steps := nextStep(plan);
      SimulationGridAdvances(starttime, emulationtime, dt, steps, control.receding);
      time := SimulationGrid(starttime, emulationtime, dt, steps, control.receding).value;
      input := map[];
      if "time" !in plan {
        return Some(MissingKey), time, plan, input;
      }
      var inputtime := InputTime(time, plan["time"], dt);
      var assembled := MakeInput(inputtime, plan, emulator.inputs, disturbances);
      if assembled.Err? {
        return Some(assembled.error), time, plan, input;
      }
      input := assembled.value;
      InputPriority(inputtime, plan, emulator.inputs, disturbances, "time");
      ghost var prev := emulator.res;
      ghost var sim := emulator.simulate(time[0], Last(time), input);
      var merged := emulator.Call(time, input);
      if merged.Err? {
        return Some(merged.error), time, plan, input;
      }
      TraceEndsAtGrid(prev, time, input, sim, plan["time"], dt);
      err := None;
    }

    /** One pass of the loop with the clock update: Step, then the new starttime is the
        end of the trace, and the simulated grid joins the tiled segments. */
    method Pass(starttime: real, ghost grids: seq<seq<real>>) returns (err: Option<Error>, next: real, ghost after: seq<seq<real>>)
      requires control.Valid() && disturbances.Valid() && resulttimestep > 0.0
      requires starttime < emulationtime
      requires forall p :: Advance(nextStep(p), control.receding) + resulttimestep / 100.0 > resulttimestep
      requires forall a, b, input :: "time" in emulator.simulate(a, b, input) ==>
        |emulator.simulate(a, b, input)["time"]| != 1
      requires "time" in emulator.res
      requires Chained(grids, emulationtime)
      requires grids == [] ==> starttime == 0.0
      requires grids != [] ==> starttime == Last(grids[|grids| - 1])
      modifies emulator, control
      ensures control.Valid()
      ensures err.None? ==>
        && "time" in emulator.res && |emulator.res["time"]| > 0 && next == Last(emulator.res["time"])
        && Chained(after, emulationtime) && after != [] && next == Last(after[|after| - 1]) && next <= emulationtime
        && Remaining(emulationtime, next, resulttimestep) < Remaining(emulationtime, starttime, resulttimestep)
    {
      ghost var before := emulator.res["time"];
      var failed, time, plan, input := Step(starttime);
      after := grids;
      next := starttime;
      if failed.Some? {
        return failed, next, after;
      }
      ChainedExtend(grids, time, emulationtime);
      after := grids + [time];
      next := Last(emulator.res["time"]);
      LastOfAppend(DropLast(before), time);
      assert next == Last(time);
      RemainingStepsDecrease(emulationtime, starttime, next, resulttimestep);
      err := None;
    }

    /** The end of __call__: res.update(emulator.res), then res.update of the disturbances
        interpolated on res['time'], which is the trace's time axis. */
    method Collect() returns (r: Result<Record>)
      requires disturbances.Valid() && "time" in emulator.res
      modifies this
      ensures r.Ok? <==> disturbances.CallDefined(emulator.res["time"])
      ensures r.Ok? ==> res == Final(old(res), emulator.res, disturbances) && r.value == res
      ensures r.Err? ==> exists k :: k in disturbances.data && disturbances.InterpKey(k, emulator.res["time"]) == Err(r.error)
    {
      res := res + Lift(emulator.res);
      var added := disturbances.Call(res["time"].v);
      if added.Err? {
        return Err(added.error);
      }
      res := res + added.value;
      r := Ok(res);
    }

    /** The loop of __call__: from starttime 0, while starttime is before emulationtime,
        one Step, then starttime moves to the end of the trace. The segments simulated are
        returned as a ghost witness. */
    method Loop() returns (failed: Option<Error>, ghost grids: seq<seq<real>>)
      requires control.Valid() && disturbances.Valid() && resulttimestep > 0.0
      requires forall p :: Advance(nextStep(p), control.receding) + resulttimestep / 100.0 > resulttimestep
      requires forall a, b, input :: "time" in emulator.simulate(a, b, input) ==>
        |emulator.simulate(a, b, input)["time"]| != 1
      requires "time" in emulator.res
      modifies emulator, control
      ensures control.Valid() && Chained(grids, emulationtime)
      ensures failed.None? ==> "time" in emulator.res
      ensures failed.None? && emulationtime > 0.0 ==>
        |grids| > 0 && |emulator.res["time"]| > 0 && Last(emulator.res["time"]) == Last(grids[|grids| - 1]) == emulationtime
    {
      var dt := resulttimestep;
      var starttime := 0.0;
      grids := [];
      while starttime < emulationtime
        invariant control.Valid()
        invariant "time" in emulator.res
        invariant Chained(grids, emulationtime)
        invariant grids == [] ==> starttime == 0.0
        invariant grids != [] ==>
          && |emulator.res["time"]| > 0 && starttime == Last(emulator.res["time"])
          && starttime == Last(grids[|grids| - 1]) && starttime <= emulationtime
        decreases Remaining(emulationtime, starttime, dt)
      {
        var next;
        ghost var after;
        failed, next, after := Pass(starttime, grids);
        if failed.Some? {
          return;
        }
        grids := after;
        starttime := next;
      }
      failed := None;
    }

    /** __call__: initializes the emulator, runs the loop, then returns the trace
        overridden by the disturbances on its time axis. */
    method Run() returns (r: Result<Record>, ghost grids: seq<seq<real>>)
      requires control.Valid() && disturbances.Valid() && resulttimestep > 0.0
      requires forall p :: Advance(nextStep(p), control.receding) + resulttimestep / 100.0 > resulttimestep
      requires forall a, b, input :: "time" in emulator.simulate(a, b, input) ==>
        |emulator.simulate(a, b, input)["time"]| != 1
      modifies this, emulator, control
      ensures control.Valid()
      ensures Chained(grids, emulationtime)
      ensures r.Ok? ==> "time" in emulator.res
      ensures r.Ok? && emulationtime > 0.0 ==>
        |grids| > 0 && |emulator.res["time"]| > 0 && Last(emulator.res["time"]) == Last(grids[|grids| - 1]) == emulationtime
      ensures r.Ok? ==> disturbances.CallDefined(emulator.res["time"])
      ensures r.Ok? ==> res == Final(old(res), emulator.res, disturbances) && r.value == res
    {
      emulator.Initialize();
      var failed;
      failed, grids := Loop();
      if failed.Some? {
        return Err(failed.value), grids;
      }
      r := Collect();
    }
  }
}
