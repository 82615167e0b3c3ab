/** The Emulator base class of mpcpy/emulator.py: it keeps a result trace, a map of named
    1-D arrays sharing the axis 'time', and every call splices the newly simulated segment
    onto that trace. The simulation itself is a function the owner supplies. */
module Emulator {
  import opened Wrappers
  import opened Numeric

  /** A trace, an input record or a simulation result: 1-D arrays addressed by name. */
  type Trace = map<string, seq<real>>

  /** The simulation hook: (starttime, stoptime, input) to a result record. */
  type Simulator = (real, real, Trace) -> Trace

  /** The base class' own simulate returns an empty result. */
  function NoSimulation(starttime: real, stoptime: real, input: Trace): (r: Trace)
    ensures r == map[]
  {
    map[]
  }

  /** An initial condition as it is passed in: a number or an array. */
  datatype Value = Scalar(x: real) | Series(xs: seq<real>)

  /** The constructor keeps value[-1]. Indexing a number raises TypeError and indexing an
      empty array raises IndexError, and in both cases the value is kept as given. */
  function Capture(v: Value): (r: Value)
    ensures r.Scalar? || r == Series([])
    ensures v.Series? && |v.xs| > 0 ==> r == Scalar(Last(v.xs))
    ensures v.Scalar? ==> r == v
  {
    match v
    case Scalar(_) => v
    case Series(xs) => if |xs| > 0 then Scalar(Last(xs)) else v
  }

  /** Capturing twice is capturing once: a captured condition is already its own last value. */
  lemma CaptureIdempotent(v: Value)
    ensures Capture(Capture(v)) == Capture(v)
  {
  }

  function CaptureAll(ic: map<string, Value>): (r: map<string, Value>)
    ensures r.Keys == ic.Keys
    ensures forall k :: k in r ==> r[k] == Capture(ic[k])
  {
    map k | k in ic :: Capture(ic[k])
  }

  /** np.array([value]) for a captured condition. */
  function AsArray(v: Value): seq<real>
  {
    match v
    case Scalar(x) => [x]
    case Series(xs) => xs
  }

  /** The trace initialize builds: time [0.] and one single-sample array per initial
      condition, an initial condition named 'time' overriding the default. */
  function Initialized(ic: map<string, Value>): (r: Trace)
    ensures r.Keys == ic.Keys + {"time"}
    ensures "time" !in ic ==> r["time"] == [0.0]
    ensures forall k :: k in ic ==> r[k] == AsArray(ic[k])
  {
    map k | k in ic.Keys + {"time"} :: if k in ic then AsArray(ic[k]) else [0.0]
  }

  /** After initialize every entry of a trace built from captured conditions holds one
      sample, and a condition given as an array is represented by its last element. */
  lemma InitializedFromCaptured(given: map<string, Value>, key: string)
    requires key in given
    ensures var r := Initialized(CaptureAll(given));
      match given[key]
      case Scalar(x) => r[key] == [x]
      case Series(xs) => r[key] == (if |xs| > 0 then [Last(xs)] else [])
    ensures "time" !in given ==> Initialized(CaptureAll(given))["time"] == [0.0]
  {
  }

  // ---------------------------------------------------------------------------
  // The merge performed by __call__, one key at a time

  /** np.interp(time, rec['time'], rec[key]), with numpy's checks: KeyError without a
      'time' entry, ValueError for arrays of different or zero length. */
  function InterpFrom(time: seq<real>, rec: Trace, key: string): (r: Result<seq<real>>)
    requires key in rec
    ensures "time" !in rec ==> r == Err(MissingKey)
    ensures r.Ok? <==> "time" in rec && |rec["time"]| == |rec[key]| > 0
    ensures r.Ok? ==> r.value == InterpAll(time, rec["time"], rec[key])
  {
    if "time" !in rec then Err(MissingKey) else InterpChecked(time, rec["time"], rec[key])
  }

  /** np.append(prefix, values) when computing values may have raised. */
  function Appended(prefix: seq<real>, r: Result<seq<real>>): Result<seq<real>>
  {
    if r.Ok? then Ok(prefix + r.value) else r
  }

  /** The new entry for a key that only the input provides. */
  function InputEntry(prev: Trace, time: seq<real>, input: Trace, key: string): Result<seq<real>>
    requires key in input
  {
    if key in prev then
      if |input[key]| == 1 then Ok(input[key])
      else Appended(DropLast(prev[key]), InterpFrom(time, input, key))
    else InterpFrom(time, input, key)
  }

  /** The new entry for a key of the simulation result. */
  function ResultEntry(prev: Trace, time: seq<real>, sim: Trace, key: string): Result<seq<real>>
    requires key in sim
  {
    if key in prev then
      if |sim[key]| == 1 then Ok(sim[key])
      else if key == "time" then Ok(DropLast(prev[key]) + time)
      else Appended(DropLast(prev[key]), InterpFrom(time, sim, key))
    else if |sim[key]| == 1 then Ok(sim[key])
    else InterpFrom(time, sim, key)
  }

  /** What __call__ stores under a key: the simulation result wins over the input, and a key
      in neither keeps its old entry. */
  function MergedEntry(prev: Trace, time: seq<real>, input: Trace, sim: Trace, key: string): Result<seq<real>>
    requires key in prev || key in input || key in sim
  {
    if key in sim then ResultEntry(prev, time, sim, key)
    else if key in input then InputEntry(prev, time, input, key)
    else Ok(prev[key])
  }

  /** No interpolation of the call raises. */
  predicate MergeDefined(prev: Trace, time: seq<real>, input: Trace, sim: Trace)
  {
    forall k :: k in input.Keys + sim.Keys ==> MergedEntry(prev, time, input, sim, k).Ok?
  }

  /** The trace after a call that raised nothing. */
  function Merge(prev: Trace, time: seq<real>, input: Trace, sim: Trace): (r: Trace)
    requires MergeDefined(prev, time, input, sim)
    ensures r.Keys == prev.Keys + input.Keys + sim.Keys
    ensures forall k :: k in r ==> MergedEntry(prev, time, input, sim, k) == Ok(r[k])
  {
    map k | k in prev.Keys + input.Keys + sim.Keys :: MergedEntry(prev, time, input, sim, k).value
  }

  /** after is before with exactly the keys in done replaced by their merged entries. */
  ghost predicate MergedOn(before: Trace, after: Trace, time: seq<real>, input: Trace, sim: Trace, done: set<string>)
  {
    && done <= input.Keys + sim.Keys
    && (forall k :: k in after <==> k in before || k in done)
    && (forall k :: k in after ==>
          if k in done then MergedEntry(before, time, input, sim, k) == Ok(after[k])
          else k in before && after[k] == before[k])
  }

  // ---------------------------------------------------------------------------
  // Properties of the merge

  /** A simulated multi-sample time axis is spliced onto the trace: the old last instant is
      dropped and the new grid appended. With increasing pieces that meet at the boundary
      instant the trace stays strictly increasing and stores that instant once. */
  lemma MergeTime(prev: Trace, time: seq<real>, input: Trace, sim: Trace)
    requires MergeDefined(prev, time, input, sim)
    requires "time" in prev && "time" in sim && |sim["time"]| != 1
    ensures Merge(prev, time, input, sim)["time"] == DropLast(prev["time"]) + time
    ensures |prev["time"]| > 0 ==> |Merge(prev, time, input, sim)["time"]| == |prev["time"]| - 1 + |time|
    ensures (&& StrictlyIncreasing(prev["time"]) && StrictlyIncreasing(time) && |prev["time"]| > 0 && |time| > 0
             && Last(prev["time"]) == time[0]) ==>
      StrictlyIncreasing(Merge(prev, time, input, sim)["time"])
  {
    var t := prev["time"];
    assert MergedEntry(prev, time, input, sim, "time") == Ok(DropLast(t) + time);
    if StrictlyIncreasing(t) && StrictlyIncreasing(time) && |t| > 0 && |time| > 0 && Last(t) == time[0] {
      var head := DropLast(t);
      assert StrictlyIncreasing(head) by {
        assert forall i, j :: 0 <= i < j < |head| ==> head[i] == t[i] && head[j] == t[j];
      }
      if |head| > 0 {
        assert Last(head) == t[|t| - 2] < t[|t| - 1] == time[0];
      }
      IncreasingConcat(head, time);
    }
  }

  /** When the simulation returns no time axis, the input's one is interpolated onto the
      grid; an input axis that covers the grid in order therefore gives the same splice. */
  lemma MergeTimeFromInput(prev: Trace, time: seq<real>, input: Trace, sim: Trace)
    requires MergeDefined(prev, time, input, sim)
    requires "time" in prev && "time" !in sim && "time" in input
    requires |input["time"]| > 1 && NonDecreasing(input["time"])
    requires forall i :: 0 <= i < |time| ==> input["time"][0] <= time[i] <= Last(input["time"])
    ensures Merge(prev, time, input, sim)["time"] == DropLast(prev["time"]) + time
  {
    var xp := input["time"];
    forall i | 0 <= i < |time|
      ensures InterpAll(time, xp, xp)[i] == time[i]
    {
      InterpIdentity(time[i], xp);
    }
    assert InterpAll(time, xp, xp) == time;
    assert MergedEntry(prev, time, input, sim, "time") == Ok(DropLast(prev["time"]) + time);
  }

  /** An existing multi-sample entry loses its last sample and gains one sample per grid
      point, whether the new segment comes from the input or from the simulation result. */
  lemma MergeLength(prev: Trace, time: seq<real>, input: Trace, sim: Trace, key: string)
    requires MergeDefined(prev, time, input, sim)
    requires key in prev && |prev[key]| > 0 && (key in input || key in sim)
    requires key in sim ==> |sim[key]| != 1
    requires key !in sim ==> |input[key]| != 1
    ensures |Merge(prev, time, input, sim)[key]| == |prev[key]| - 1 + |time|
    ensures Merge(prev, time, input, sim)[key][..|prev[key]| - 1] == prev[key][..|prev[key]| - 1]
  {
    var r := Merge(prev, time, input, sim);
    assert MergedEntry(prev, time, input, sim, key) == Ok(r[key]);
    assert r[key][..|prev[key]| - 1] == DropLast(prev[key]);
  }

  /** A one-sample value is stored verbatim: any key of the simulation result, and an input
      key the trace already holds. A new input key is still interpolated onto the grid. */
  lemma MergeOneSample(prev: Trace, time: seq<real>, input: Trace, sim: Trace, key: string)
    requires MergeDefined(prev, time, input, sim)
    ensures key in sim && |sim[key]| == 1 ==> Merge(prev, time, input, sim)[key] == sim[key]
    ensures key !in sim && key in input && key in prev && |input[key]| == 1 ==>
      Merge(prev, time, input, sim)[key] == input[key]
    ensures key !in sim && key in input && key !in prev ==>
      "time" in input && Merge(prev, time, input, sim)[key] == InterpAll(time, input["time"], input[key])
  {
    if key in prev || key in input || key in sim {
      assert MergedEntry(prev, time, input, sim, key).Ok?;
    }
  }

  /** The simulation result decides its own keys: the entries are those of a call without
      any input. Keys in neither record keep their entries. */
  lemma MergeSimulatedKeys(prev: Trace, time: seq<real>, input: Trace, sim: Trace, key: string)
    requires MergeDefined(prev, time, input, sim)
    ensures MergeDefined(prev, time, map[], sim)
    ensures key in sim ==> Merge(prev, time, input, sim)[key] == Merge(prev, time, map[], sim)[key]
    ensures key in prev && key !in input && key !in sim ==> Merge(prev, time, input, sim)[key] == prev[key]
  {
    forall k | k in sim
      ensures MergedEntry(prev, time, map[], sim, k).Ok?
    {
      assert MergedEntry(prev, time, map[], sim, k) == MergedEntry(prev, time, input, sim, k);
    }
  }

  /** On an empty trace with the base class' empty simulation, calling with the input's own
      strictly increasing time axis reproduces every input array of matching length. */
  lemma MergeReproducesInput(time: seq<real>, input: Trace, key: string)
    requires StrictlyIncreasing(time) && |time| > 0
    requires "time" in input && input["time"] == time
    requires forall k :: k in input ==> |input[k]| == |time|
    requires key in input
    ensures MergeDefined(map[], time, input, NoSimulation(time[0], Last(time), input))
    ensures Merge(map[], time, input, NoSimulation(time[0], Last(time), input))[key] == input[key]
  {
    var sim := NoSimulation(time[0], Last(time), input);
    forall k | k in input || k in sim
      ensures MergedEntry(map[], time, input, sim, k).Ok?
    {
      assert MergedEntry(map[], time, input, sim, k) == InterpFrom(time, input, k);
    }
    var fp := input[key];
    forall i | 0 <= i < |time|
      ensures InterpAll(time, time, fp)[i] == fp[i]
    {
      InterpAtSample(time, fp, i);
    }
    assert InterpAll(time, time, fp) == fp;
    assert MergedEntry(map[], time, input, sim, key) == Ok(fp);
  }

  // ---------------------------------------------------------------------------
  // The object

  class Emulator {
    /** The names of the inputs the simulation needs. */
    const inputs: seq<string>
    const initialConditions: map<string, Value>
    const simulate: Simulator
    /** The result trace. */
    var res: Trace

    /** Emulator(input_keys, initial_conditions): captures the last value of every initial
        condition, key by key, and starts with an empty trace. */
    constructor(inputKeys: seq<string>, initial: Option<map<string, Value>>, simulate: Simulator)
      ensures inputs == inputKeys && this.simulate == simulate && res == map[]
      ensures initial.None? ==> initialConditions == map[]
      ensures initial.Some? ==> initialConditions == CaptureAll(initial.value)
    {
      var ic: map<string, Value> := map[];
      if initial.Some? {
        var given := initial.value;
        var keys := given.Keys;
        while keys != {}
          invariant keys <= given.Keys
          invariant ic.Keys == given.Keys - keys
          invariant forall k :: k in ic ==> ic[k] == Capture(given[k])
          decreases keys
        {
          var k :| k in keys;
          ic := ic[k := Capture(given[k])];
          keys := keys - {k};
        }
        assert ic == CaptureAll(given);
      }
      inputs := inputKeys;
      initialConditions := ic;
      this.simulate := simulate;
      res := map[];
    }

    /** initialize: the trace restarts at time 0 with the initial conditions. */
    method Initialize()
      modifies this
      ensures res == Initialized(initialConditions)
    {
      res := map["time" := [0.0]];
      var keys := initialConditions.Keys;
      while keys != {}
        invariant keys <= initialConditions.Keys
        invariant res.Keys == {"time"} + (initialConditions.Keys - keys)
        invariant forall k :: k in res ==>
          res[k] == (if k in initialConditions && k !in keys then AsArray(initialConditions[k]) else [0.0])
        decreases keys
      {
        var k :| k in keys;
        res := res[k := AsArray(initialConditions[k])];
        keys := keys - {k};
      }
      assert res == Initialized(initialConditions);
    }

    /** __call__(time, input): simulates from time[0] to time[-1], then merges the input
        keys the result lacks and afterwards every result key into the trace. An empty grid
        raises before anything changes; an interpolation that raises leaves the keys merged
        so far in place. */
    method Call(time: seq<real>, input: Trace) returns (r: Result<Trace>)
      modifies this
      ensures |time| == 0 ==> r == Err(EmptyTime) && res == old(res)
      ensures |time| > 0 ==>
        var sim := simulate(time[0], Last(time), input);
        && (r.Ok? <==> MergeDefined(old(res), time, input, sim))
        && (r.Ok? ==> res == Merge(old(res), time, input, sim) && r.value == res)
        && (r.Err? ==>
              (exists done :: MergedOn(old(res), res, time, input, sim, done))
              && exists k :: k in input.Keys + sim.Keys && MergedEntry(old(res), time, input, sim, k) == Err(r.error))
    {
      if |time| == 0 {
        return Err(EmptyTime);
      }
      var sim := simulate(time[0], Last(time), input);
      ghost var before := res;
      MergedOnNothing(before, time, input, sim);
      var failed := AddInputs(time, input, sim, before);
      if failed.Some? {
        return Err(failed.value);
      }
      failed := AddResults(time, input, sim, before);
      if failed.Some? {
        return Err(failed.value);
      }
      MergedOnAll(before, res, time, input, sim);
      r := Ok(res);
    }

    /** The first loop of __call__: the input keys the simulation result lacks. */
    method AddInputs(time: seq<real>, input: Trace, sim: Trace, ghost before: Trace) returns (failed: Option<Error>)
      modifies this
      requires MergedOn(before, res, time, input, sim, {})
      ensures failed.None? ==> MergedOn(before, res, time, input, sim, input.Keys - sim.Keys)
      ensures failed.Some? ==>
        (exists done :: MergedOn(before, res, time, input, sim, done))
        && exists k :: k in input.Keys + sim.Keys && MergedEntry(before, time, input, sim, k) == Err(failed.value)
    {
      var keys := input.Keys;
      ghost var done: set<string> := {};
      while keys != {}
        invariant keys <= input.Keys && done <= input.Keys - sim.Keys
        invariant forall k :: k in input && k !in sim ==> (k in done <==> k !in keys)
        invariant MergedOn(before, res, time, input, sim, done)
        decreases keys
      {
        var k :| k in keys;
        if k !in sim {
          var value: Result<seq<real>>;
          if k in res {
            if |input[k]| == 1 {
              value := Ok(input[k]);
            } else {
              value := Appended(DropLast(res[k]), InterpFrom(time, input, k));
            }
          } else {
            value := InterpFrom(time, input, k);
          }
          assert value == MergedEntry(before, time, input, sim, k);
          if value.Err? {
            return Some(value.error);
          }
          MergedOnStep(before, res, time, input, sim, done, k, value.value);
          res := res[k := value.value];
          done := done + {k};
        }
        keys := keys - {k};
      }
      assert done == input.Keys - sim.Keys;
      failed := None;
    }

    /** The second loop of __call__: every key of the simulation result. */
    method AddResults(time: seq<real>, input: Trace, sim: Trace, ghost before: Trace) returns (failed: Option<Error>)
      modifies this
      requires MergedOn(before, res, time, input, sim, input.Keys - sim.Keys)
      ensures failed.None? ==> MergedOn(before, res, time, input, sim, input.Keys + sim.Keys)
      ensures failed.Some? ==>
        (exists done :: MergedOn(before, res, time, input, sim, done))
        && exists k :: k in input.Keys + sim.Keys && MergedEntry(before, time, input, sim, k) == Err(failed.value)
    {
      var keys := sim.Keys;
      ghost var done := input.Keys - sim.Keys;
      while keys != {}
        invariant keys <= sim.Keys && done <= input.Keys + sim.Keys
        invariant forall k :: k in input && k !in sim ==> k in done
        invariant forall k :: k in sim ==> (k in done <==> k !in keys)
        invariant MergedOn(before, res, time, input, sim, done)
        decreases keys
      {
        var k :| k in keys;
        var value: Result<seq<real>>;
        if k in res {
          if |sim[k]| == 1 {
            value := Ok(sim[k]);
          } else if k == "time" {
            value := Ok(DropLast(res[k]) + time);
          } else {
            value := Appended(DropLast(res[k]), InterpFrom(time, sim, k));
          }
        } else if |sim[k]| == 1 {
          value := Ok(sim[k]);
        } else {
          value := InterpFrom(time, sim, k);
        }
        assert value == MergedEntry(before, time, input, sim, k);
        if value.Err? {
          return Some(value.error);
        }
        MergedOnStep(before, res, time, input, sim, done, k, value.value);
        res := res[k := value.value];
        done := done + {k};
        keys := keys - {k};
      }
      assert done == input.Keys + sim.Keys;
      failed := None;
    }
  }

  /** Nothing merged yet. */
  lemma MergedOnNothing(before: Trace, time: seq<real>, input: Trace, sim: Trace)
    ensures MergedOn(before, before, time, input, sim, {})
  {
  }

  /** Merging one more key. */
  lemma MergedOnStep(before: Trace, after: Trace, time: seq<real>, input: Trace, sim: Trace,
                     done: set<string>, k: string, v: seq<real>)
    requires MergedOn(before, after, time, input, sim, done)
    requires k in input.Keys + sim.Keys && k !in done
    requires MergedEntry(before, time, input, sim, k) == Ok(v)
    ensures MergedOn(before, after[k := v], time, input, sim, done + {k})
  {
  }

  /** Every key merged: the trace is the merge. */
  lemma MergedOnAll(before: Trace, after: Trace, time: seq<real>, input: Trace, sim: Trace)
    requires MergedOn(before, after, time, input, sim, input.Keys + sim.Keys)
    ensures MergeDefined(before, time, input, sim)
    ensures after == Merge(before, time, input, sim)
  {
    assert after.Keys == Merge(before, time, input, sim).Keys;
  }
}
