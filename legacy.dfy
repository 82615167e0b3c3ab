/** What the two single-file prototypes of mpcpy, mpcpy.py and __init__.py, do alike: the
    three-fold extension of the boundary conditions and their linear query, the merge of a
    simulation into the emulator's trace, and the input priority of their MPC loops. */
module Legacy {
  import opened Wrappers
  import opened Numeric
  import Em = Emulator
  import Ctl = Control

  /** Records, traces and plans of named 1-D arrays. */
  type Trace = map<string, seq<real>>

  // ---------------------------------------------------------------------------
  // The three-fold extension

  /** t[:-1]-t[-1] ++ t ++ t[1:]+t[-1]: the record's axis shifted back by its last time, the
      axis itself, and the axis shifted on by its last time, without repeating the seams. */
  function ThreeFoldTime(t: seq<real>): (r: seq<real>)
    requires |t| > 0
    ensures |r| == 3 * |t| - 2
  {
    Shift(DropLast(t), -Last(t)) + t + Shift(t[1..], Last(t))
  }

  /** Periodic values v[:-1] ++ v ++ v[1:]. */
  function PeriodicValues(v: seq<real>): (r: seq<real>)
    ensures |v| > 0 ==> |r| == 3 * |v| - 2
  {
    DropLast(v) + v + (if |v| == 0 then [] else v[1..])
  }

  /** Held values v[0]*ones(n-1) ++ v ++ v[-1]*ones(n-1) for a time axis of n samples. */
  function HeldValues(v: seq<real>, n: nat): (r: seq<real>)
    requires |v| > 0 && n > 0
    ensures |r| == |v| + 2 * (n - 1)
  {
    Repeat(v[0], n - 1) + v + Repeat(Last(v), n - 1)
  }

  /** One extended non-time entry. */
  function ExtendedValues(v: seq<real>, n: nat, periodic: bool): seq<real>
    requires n > 0 && (periodic || |v| > 0)
  {
    if periodic then PeriodicValues(v) else HeldValues(v, n)
  }

  /** When the held extension reads v[0] of an empty entry. */
  predicate HasEmptyEntry(bcs: Trace)
  {
    exists k :: k in bcs && k != "time" && |bcs[k]| == 0
  }

  /** Boundaryconditions(bcs, periodic): the 'time' entry on the three-fold axis, every other
      entry extended periodically or by holding its first and last values; a missing 'time'
      raises KeyError, an empty one IndexError, and so does an empty entry when held. */
  function Extended(bcs: Trace, periodic: bool): (r: Result<Trace>)
    ensures r.Ok? ==> r.value.Keys == bcs.Keys
    ensures r.Err? <==> "time" !in bcs || |bcs["time"]| == 0 || (!periodic && HasEmptyEntry(bcs))
  {
    if "time" !in bcs then Err(MissingKey)
    else if |bcs["time"]| == 0 then Err(EmptyTime)
    else if !periodic && HasEmptyEntry(bcs) then Err(EmptyArray)
    else
      var n := |bcs["time"]|;
      Ok(map k | k in bcs :: if k == "time" then ThreeFoldTime(bcs["time"]) else ExtendedValues(bcs[k], n, periodic))
  }

  /** The extended axis has 3n-2 samples: the axis n-1 samples back by one period, the axis
      itself in the middle, and the axis n-1 samples on by one period. */
  lemma ThreeFoldTimeBlocks(t: seq<real>)
    requires |t| > 0
    ensures var r := ThreeFoldTime(t); var n := |t|;
      && |r| == 3 * n - 2
      && r[n - 1..2 * n - 1] == t
      && (forall j :: 0 <= j < n - 1 ==> r[j] == t[j] - Last(t))
      && (forall j :: 1 <= j < n ==> r[2 * n - 2 + j] == t[j] + Last(t))
  {
    var r := ThreeFoldTime(t);
    var n := |t|;
    assert r[n - 1..2 * n - 1] == t;
  }

  /** A periodic entry pairs the same samples with the shifted axis blocks: the value at
      index j of each block is v[j]. */
  lemma PeriodicBlocks(v: seq<real>)
    requires |v| > 0
    ensures var r := PeriodicValues(v); var n := |v|;
      && |r| == 3 * n - 2
      && r[n - 1..2 * n - 1] == v
      && (forall j :: 0 <= j < n - 1 ==> r[j] == v[j])
      && (forall j :: 1 <= j < n ==> r[2 * n - 2 + j] == v[j])
  {
    var r := PeriodicValues(v);
    var n := |v|;
    assert r[n - 1..2 * n - 1] == v;
  }

  /** A held entry repeats its first value over the block before the record and its last
      value over the block after it. */
  lemma HeldBlocks(v: seq<real>, n: nat)
    requires |v| > 0 && n > 0
    ensures var r := HeldValues(v, n);
      && |r| == 2 * (n - 1) + |v|
      && r[n - 1..n - 1 + |v|] == v
      && (forall j :: 0 <= j < n - 1 ==> r[j] == v[0])
      && (forall j :: n - 1 + |v| <= j < |r| ==> r[j] == Last(v))
  {
    var r := HeldValues(v, n);
    assert r[n - 1..n - 1 + |v|] == v;
  }

  /** On a strictly increasing axis starting at or after 0, the extended axis is strictly
      increasing too, so np.interp reads it as intended. */
  lemma ThreeFoldTimeIncreasing(t: seq<real>)
    requires |t| > 0 && StrictlyIncreasing(t) && t[0] >= 0.0
    ensures StrictlyIncreasing(ThreeFoldTime(t))
  {
    var n := |t|;
    var back := Shift(DropLast(t), -Last(t));
    var on := Shift(t[1..], Last(t));
    ShiftIncreasing(DropLast(t), -Last(t));
    ShiftIncreasing(t[1..], Last(t));
    if n > 1 {
      assert Last(back) == t[n - 2] - Last(t) < 0.0;
      assert on[0] == t[1] + Last(t) > Last(t);
    }
    IncreasingConcat(back, t);
    IncreasingConcat(back + t, on);
  }

  // ---------------------------------------------------------------------------
  // The boundary conditions object

  datatype Boundary = Boundary(data: Trace)
  {
    predicate Valid()
    {
      "time" in data && |data["time"]| > 0
    }

    /** When __call__ raises nowhere: np.interp needs every entry as long as the axis. */
    predicate CallDefined()
      requires Valid()
    {
      forall k :: k in data ==> |data[k]| == |data["time"]|
    }

    /** __call__(time): every stored key, 'time' included, linearly interpolated at time. */
    function Called(time: seq<real>): (r: Trace)
      requires Valid() && CallDefined()
      ensures r.Keys == data.Keys
      ensures forall k :: k in r ==> |r[k]| == |time|
    {
      map k | k in data :: InterpAll(time, data["time"], data[k])
    }

    /** __call__(time), key by key; np.interp raises on an entry of another length. */
    method Call(time: seq<real>) returns (r: Result<Trace>)
      requires Valid()
      ensures r.Ok? <==> CallDefined()
      ensures r.Ok? ==> r.value == Called(time)
      ensures r.Err? ==> r.error == LengthMismatch
    {
      var out: Trace := map[];
      var keys := data.Keys;
      while keys != {}
        invariant keys <= data.Keys
        invariant out.Keys == data.Keys - keys
        invariant forall k :: k in out ==> |data[k]| == |data["time"]| && out[k] == InterpAll(time, data["time"], data[k])
        decreases keys
      {
        var k :| k in keys;
        if |data[k]| != |data["time"]| {
          return Err(LengthMismatch);
        }
        out := out[k := InterpAll(time, data["time"], data[k])];
        keys := keys - {k};
      }
      assert out == Called(time);
      r := Ok(out);
    }
  }

  /** Boundaryconditions(bcs, periodic): the 'time' entry first, then the other keys one by
      one. */
  method Create(bcs: Trace, periodic: bool) returns (r: Result<Boundary>)
    ensures Extended(bcs, periodic).Err? ==> r == Err(Extended(bcs, periodic).error)
    ensures Extended(bcs, periodic).Ok? ==> r == Ok(Boundary(Extended(bcs, periodic).value))
    ensures r.Ok? ==> r.value.Valid()
  {
    if "time" !in bcs {
      return Err(MissingKey);
    }
    var t := bcs["time"];
    if |t| == 0 {
      return Err(EmptyTime);
    }
    var n := |t|;
    var data: Trace := map["time" := ThreeFoldTime(t)];
    var keys := bcs.Keys - {"time"};
    while keys != {}
      invariant keys <= bcs.Keys - {"time"}
      invariant data.Keys == bcs.Keys - keys
      invariant data["time"] == ThreeFoldTime(t)
      invariant forall k :: k in data && k != "time" ==>
        (periodic || |bcs[k]| > 0) && data[k] == ExtendedValues(bcs[k], n, periodic)
      decreases keys
    {
      var k :| k in keys;
      if !periodic && |bcs[k]| == 0 {
        assert HasEmptyEntry(bcs);
        return Err(EmptyArray);
      }
      data := data[k := ExtendedValues(bcs[k], n, periodic)];
      keys := keys - {k};
    }
    ExtendedByKeys(bcs, periodic, data);
    ThreeFoldTimeBlocks(t);
    r := Ok(Boundary(data));
  }

  /** A record built key by key as the constructor does is the extension. */
  lemma ExtendedByKeys(bcs: Trace, periodic: bool, data: Trace)
    requires "time" in bcs && |bcs["time"]| > 0
    requires data.Keys == bcs.Keys && data["time"] == ThreeFoldTime(bcs["time"])
    requires forall k :: k in data && k != "time" ==>
      (periodic || |bcs[k]| > 0) && data[k] == ExtendedValues(bcs[k], |bcs["time"]|, periodic)
    ensures Extended(bcs, periodic) == Ok(data)
  {
    var e := Extended(bcs, periodic).value;
    assert data.Keys == e.Keys;
    forall k | k in data
      ensures data[k] == e[k]
    {
    }
    assert data == e;
  }

  /** The extension keeps every entry the record's axis is as long as, so __call__ raises on
      the extension of a well-shaped record nowhere. */
  lemma ExtendedCallDefined(bcs: Trace, periodic: bool)
    requires Extended(bcs, periodic).Ok?
    requires forall k :: k in bcs ==> |bcs[k]| == |bcs["time"]|
    ensures Boundary(Extended(bcs, periodic).value).Valid()
    ensures Boundary(Extended(bcs, periodic).value).CallDefined()
  {
    var e := Extended(bcs, periodic).value;
    var n := |bcs["time"]|;
    ThreeFoldTimeBlocks(bcs["time"]);
    forall k | k in e
      ensures |e[k]| == |e["time"]|
    {
      if k != "time" {
        if periodic {
          PeriodicBlocks(bcs[k]);
        } else {
          HeldBlocks(bcs[k], n);
        }
      }
    }
  }

  /** An entry as long as the record's axis is extended to the extended axis' length, with
      the record's own samples in the middle block. */
  lemma ExtendedValuesMiddle(v: seq<real>, periodic: bool)
    requires |v| > 0
    ensures var r := ExtendedValues(v, |v|, periodic);
      |r| == 3 * |v| - 2 && r[|v| - 1..2 * |v| - 1] == v
  {
    if periodic {
      PeriodicBlocks(v);
    } else {
      HeldBlocks(v, |v|);
    }
  }

  /** np.interp on an increasing axis, queried inside a window of consecutive samples, reads
      only that window. */
  lemma InterpWindow(x: real, xp: seq<real>, fp: seq<real>, lo: nat, t: seq<real>, v: seq<real>)
    requires |xp| == |fp| && |t| == |v| > 0 && lo + |t| <= |xp|
    requires xp[lo..lo + |t|] == t && fp[lo..lo + |t|] == v
    requires StrictlyIncreasing(xp)
    requires t[0] <= x <= Last(t)
    ensures Interp(x, xp, fp) == Interp(x, t, v)
  {
    assert xp[lo] == t[0];
    InterpSuffix(x, xp, fp, lo);
    var xs := xp[lo..];
    var fs := fp[lo..];
    assert StrictlyIncreasing(xs) by {
      forall i, j | 0 <= i < j < |xs|
        ensures xs[i] < xs[j]
      {
        assert xs[i] == xp[lo + i] && xs[j] == xp[lo + j];
      }
    }
    assert xs[|t| - 1] == Last(t);
    InterpPrefix(x, xs, fs, |t| - 1);
    assert xs[..|t|] == t && fs[..|t|] == v;
  }

  /** Queried inside the record's own span, the extension answers what the record itself
      would: the blocks before and after do not take part. */
  lemma ExtendedInsideRecord(t: seq<real>, v: seq<real>, x: real, periodic: bool)
    requires |t| == |v| > 0 && StrictlyIncreasing(t) && t[0] >= 0.0
    requires t[0] <= x <= Last(t)
    ensures Interp(x, ThreeFoldTime(t), ExtendedValues(v, |t|, periodic)) == Interp(x, t, v)
  {
    ThreeFoldTimeBlocks(t);
    ThreeFoldTimeIncreasing(t);
    ExtendedValuesMiddle(v, periodic);
    InterpWindow(x, ThreeFoldTime(t), ExtendedValues(v, |t|, periodic), |t| - 1, t, v);
  }

  /** Queried inside the extended axis, the 'time' entry of __call__ is the query itself. */
  lemma CalledTimeIsQuery(b: Boundary, time: seq<real>)
    requires b.Valid() && b.CallDefined() && NonDecreasing(b.data["time"])
    requires forall i :: 0 <= i < |time| ==> b.data["time"][0] <= time[i] <= Last(b.data["time"])
    ensures b.Called(time)["time"] == time
  {
    var xp := b.data["time"];
    forall i | 0 <= i < |time|
      ensures Interp(time[i], xp, xp) == time[i]
    {
      InterpIdentity(time[i], xp);
    }
  }

  // ---------------------------------------------------------------------------
  // The merge performed by the emulator's __call__

  /** The keys the trace holds after a call: its own keys once it holds any, otherwise the
      keys of the simulation result. */
  function SpliceKeys(prev: Trace, sim: Trace): set<string>
  {
    if prev == map[] then sim.Keys else prev.Keys
  }

  /** The new entry for a key: np.append(res[key][:-1], np.interp(time, sim['time'],
      sim[key])) for a key the trace holds, the interpolation alone on an empty trace. A key
      the simulation result lacks raises KeyError. */
  function SpliceEntry(prev: Trace, time: seq<real>, sim: Trace, key: string): (r: Result<seq<real>>)
    ensures key !in sim ==> r == Err(MissingKey)
    ensures r.Ok? <==> key in sim && Em.InterpFrom(time, sim, key).Ok?
  {
    if key !in sim then Err(MissingKey)
    else Em.Appended(if key in prev then DropLast(prev[key]) else [], Em.InterpFrom(time, sim, key))
  }

  /** No key of the call raises. */
  predicate SpliceDefined(prev: Trace, time: seq<real>, sim: Trace)
  {
    forall k :: k in SpliceKeys(prev, sim) ==> SpliceEntry(prev, time, sim, k).Ok?
  }

  /** The trace after a call that raised nothing. */
  function Spliced(prev: Trace, time: seq<real>, sim: Trace): (r: Trace)
    requires SpliceDefined(prev, time, sim)
    ensures r.Keys == SpliceKeys(prev, sim)
    ensures forall k :: k in r ==> SpliceEntry(prev, time, sim, k) == Ok(r[k])
  {
    map k | k in SpliceKeys(prev, sim) :: SpliceEntry(prev, time, sim, k).value
  }

  /** after is before with exactly the keys in done replaced by their new entries. */
  ghost predicate SplicedOn(before: Trace, after: Trace, time: seq<real>, sim: Trace, done: set<string>)
  {
    && done <= SpliceKeys(before, sim)
    && (forall k :: k in after <==> k in before || k in done)
    && (forall k :: k in after ==>
          if k in done then SpliceEntry(before, time, sim, k) == Ok(after[k])
          else k in before && after[k] == before[k])
  }

  /** The merge loop of __call__, over the trace's keys or, on an empty trace, over the
      simulation result's keys. A key that raises stops the loop and leaves the keys
      merged so far in place. */
  method Splice(prev: Trace, time: seq<real>, sim: Trace) returns (out: Trace, failed: Option<Error>)
    ensures failed.None? <==> SpliceDefined(prev, time, sim)
    ensures failed.None? ==> out == Spliced(prev, time, sim)
    ensures failed.Some? ==>
      (exists done :: SplicedOn(prev, out, time, sim, done))
      && exists k :: k in SpliceKeys(prev, sim) && SpliceEntry(prev, time, sim, k) == Err(failed.value)
  {
    out := prev;
    var keys := if prev == map[] then sim.Keys else prev.Keys;
    while keys != {}
      invariant keys <= SpliceKeys(prev, sim)
      invariant SplicedOn(prev, out, time, sim, SpliceKeys(prev, sim) - keys)
      decreases keys
    {
      var k :| k in keys;
      var value: Result<seq<real>>;
      if k !in sim || "time" !in sim {
        value := Err(MissingKey);
      } else {
        var v := InterpChecked(time, sim["time"], sim[k]);
        value := if v.Err? then v else Ok((if k in prev then DropLast(prev[k]) else []) + v.value);
      }
      assert value == SpliceEntry(prev, time, sim, k);
      if value.Err? {
        return out, Some(value.error);
      }
      out := out[k := value.value];
      keys := keys - {k};
    }
    SplicedOnAll(prev, out, time, sim);
    failed := None;
  }

  /** Every key merged: the trace after the loop is the spliced trace. */
  lemma SplicedOnAll(prev: Trace, out: Trace, time: seq<real>, sim: Trace)
    requires SplicedOn(prev, out, time, sim, SpliceKeys(prev, sim))
    ensures SpliceDefined(prev, time, sim)
    ensures out == Spliced(prev, time, sim)
  {
    if prev == map[] {
      assert out.Keys == sim.Keys;
    } else {
      assert out.Keys == prev.Keys;
    }
  }

  /** The simulation result covers the grid: a non-decreasing time axis reaching from at or
      before its first point to at or after every point. */
  predicate Covers(sim: Trace, time: seq<real>)
  {
    && "time" in sim && |sim["time"]| > 0 && NonDecreasing(sim["time"])
    && forall i :: 0 <= i < |time| ==> sim["time"][0] <= time[i] <= Last(sim["time"])
  }

  /** What a simulation from a to b returns when it reports every instant it simulated: a
      non-decreasing time axis from at or before a to at or after b. */
  predicate SpanCovers(sim: Trace, a: real, b: real)
  {
    "time" in sim && |sim["time"]| > 0 && NonDecreasing(sim["time"]) && sim["time"][0] <= a && b <= Last(sim["time"])
  }

  /** A simulation from the grid's first to its last point covers an increasing grid. */
  lemma SpanCoversGrid(sim: Trace, time: seq<real>)
    requires |time| > 0 && StrictlyIncreasing(time) && SpanCovers(sim, time[0], Last(time))
    ensures Covers(sim, time)
  {
    forall i | 0 <= i < |time|
      ensures sim["time"][0] <= time[i] <= Last(sim["time"])
    {
      if 0 < i {
        assert time[0] < time[i];
      }
      if i < |time| - 1 {
        assert time[i] < time[|time| - 1];
      }
    }
  }

  /** With a result covering the grid, the trace's time axis loses its last instant and
      gains the grid; on an empty trace it is the grid. Every other entry the trace holds
      loses its last sample and gains one sample per grid point. */
  lemma SplicedTime(prev: Trace, time: seq<real>, sim: Trace)
    requires SpliceDefined(prev, time, sim) && Covers(sim, time)
    requires "time" in prev || prev == map[]
    ensures "time" in Spliced(prev, time, sim)
    ensures Spliced(prev, time, sim)["time"] == (if prev == map[] then [] else DropLast(prev["time"])) + time
    ensures forall k :: k in prev && |prev[k]| > 0 ==> |Spliced(prev, time, sim)[k]| == |prev[k]| - 1 + |time|
  {
    var xp := sim["time"];
    forall i | 0 <= i < |time|
      ensures InterpAll(time, xp, xp)[i] == time[i]
    {
      InterpIdentity(time[i], xp);
    }
    assert InterpAll(time, xp, xp) == time;
    assert SpliceEntry(prev, time, sim, "time") == Ok((if prev == map[] then [] else DropLast(prev["time"])) + time);
  }

  /** A call never changes which keys a non-empty trace holds, and it only reads the
      simulation result under those keys. */
  lemma SplicedKeepsKeys(prev: Trace, time: seq<real>, sim: Trace, other: Trace)
    requires prev != map[] && SpliceDefined(prev, time, sim)
    requires forall k :: k in prev || k == "time" ==> (k in other <==> k in sim)
    requires forall k :: (k in prev || k == "time") && k in sim ==> other[k] == sim[k]
    ensures Spliced(prev, time, sim).Keys == prev.Keys
    ensures SpliceDefined(prev, time, other) && Spliced(prev, time, other) == Spliced(prev, time, sim)
  {
    forall k | k in prev
      ensures SpliceEntry(prev, time, other, k) == SpliceEntry(prev, time, sim, k)
    {
    }
  }

  // ---------------------------------------------------------------------------
  // The grid of the MPC loop

  /** np.arange(starttime, starttime + receding + 0.01*dt, dt) reaches past its first
      point exactly when receding + 0.01*dt exceeds dt: then it holds at least two
      increasing points from starttime, and the last lies at least one step on. */
  lemma GridAdvances(starttime: real, receding: real, dt: real)
    requires dt > 0.0 && receding + dt / 100.0 > dt
    ensures var g := Ctl.HorizonGrid(starttime, receding, dt);
      && |g| >= 2 && g[0] == starttime && StrictlyIncreasing(g)
      && Last(g) >= starttime + dt && Last(g) < starttime + receding + dt / 100.0
  {
    var stop := starttime + receding + dt / 100.0;
    var g := Ctl.HorizonGrid(starttime, receding, dt);
    var n := ArangeLength(starttime, stop, dt);
    ArangeLengthBounds(starttime, stop, dt);
    assert Point(starttime, 1, dt) == starttime + dt;
    if n <= 1 {
      PointOrder(starttime, n, 1, dt);
      assert false;
    }
    assert forall i :: 0 <= i < n ==> g[i] == Point(starttime, i, dt);
    forall i, j | 0 <= i < j < n
      ensures g[i] < g[j]
    {
      PointOrder(starttime, i, j, dt);
    }
    PointOrder(starttime, 1, n - 1, dt);
    assert g[0] == Point(starttime, 0, dt);
  }

  // ---------------------------------------------------------------------------
  // The emulator input of the MPC loop

  /** What the loop stores for one emulator input: the boundary conditions' values when
      they hold the key, else the plan's, both linearly interpolated onto the grid; None
      for a key in neither. */
  function InputValue(time: seq<real>, bcs: Trace, plan: Trace, key: string): (r: Option<Result<seq<real>>>)
    ensures r.None? <==> key !in bcs && key !in plan
    ensures key in bcs ==> r == Some(Em.InterpFrom(time, bcs, key))
    ensures key !in bcs && key in plan ==> r == Some(Em.InterpFrom(time, plan, key))
  {
    if key in bcs then Some(Em.InterpFrom(time, bcs, key))
    else if key in plan then Some(Em.InterpFrom(time, plan, key))
    else None
  }

  /** The loop raises nowhere on this key. */
  predicate InputReadable(time: seq<real>, bcs: Trace, plan: Trace, key: string)
  {
    InputValue(time, bcs, plan, key).None? || InputValue(time, bcs, plan, key).value.Ok?
  }

  /** The input after the emulator inputs, in list order, starting from start. */
  function Inputs(start: Trace, time: seq<real>, bcs: Trace, plan: Trace, keys: seq<string>): (r: Result<Trace>)
    decreases |keys|
  {
    if |keys| == 0 then Ok(start)
    else
      match Inputs(start, time, bcs, plan, keys[..|keys| - 1])
      case Err(e) => Err(e)
      case Ok(cur) =>
        match InputValue(time, bcs, plan, keys[|keys| - 1])
        case None => Ok(cur)
        case Some(Err(e)) => Err(e)
        case Some(Ok(v)) => Ok(cur[keys[|keys| - 1] := v])
  }

  /** The loop that fills the input dict. */
  method FillInputs(start: Trace, time: seq<real>, bcs: Trace, plan: Trace, keys: seq<string>) returns (r: Result<Trace>)
    ensures r == Inputs(start, time, bcs, plan, keys)
  {
    var input := start;
    for i := 0 to |keys|
      invariant Inputs(start, time, bcs, plan, keys[..i]) == Ok(input)
    {
      assert keys[..i + 1][..i] == keys[..i];
      var k := keys[i];
      if k in bcs {
        var v := Em.InterpFrom(time, bcs, k);
        if v.Err? {
          InputsErrSticks(start, time, bcs, plan, keys, i + 1);
          return Err(v.error);
        }
        input := input[k := v.value];
      } else if k in plan {
        var v := Em.InterpFrom(time, plan, k);
        if v.Err? {
          InputsErrSticks(start, time, bcs, plan, keys, i + 1);
          return Err(v.error);
        }
        input := input[k := v.value];
      }
    }
    assert keys[..|keys|] == keys;
    r := Ok(input);
  }

  /** Once a prefix of the inputs fails, the whole list fails with the same error. */
  lemma {:induction false} InputsErrSticks(start: Trace, time: seq<real>, bcs: Trace, plan: Trace, keys: seq<string>, i: nat)
    requires i <= |keys| && Inputs(start, time, bcs, plan, keys[..i]).Err?
    ensures Inputs(start, time, bcs, plan, keys) == Inputs(start, time, bcs, plan, keys[..i])
    decreases |keys| - i
  {
    if i < |keys| {
      assert keys[..i + 1][..i] == keys[..i];
      InputsErrSticks(start, time, bcs, plan, keys, i + 1);
    } else {
      assert keys[..i] == keys;
    }
  }

  /** The assembled input: an emulator input the boundary conditions hold takes their
      values even when the plan holds it too, one only the plan holds takes the plan's, and
      every other key keeps what start gave it. The call succeeds exactly when no listed key
      raises. */
  lemma {:induction false} InputPriority(start: Trace, time: seq<real>, bcs: Trace, plan: Trace, keys: seq<string>, key: string)
    ensures Inputs(start, time, bcs, plan, keys).Ok? <==> forall i :: 0 <= i < |keys| ==> InputReadable(time, bcs, plan, keys[i])
    ensures Inputs(start, time, bcs, plan, keys).Ok? ==>
      var r := Inputs(start, time, bcs, plan, keys).value;
      && (key in keys && key in bcs ==> key in r && Ok(r[key]) == Em.InterpFrom(time, bcs, key))
      && (key in keys && key !in bcs && key in plan ==> key in r && Ok(r[key]) == Em.InterpFrom(time, plan, key))
      && ((key !in keys || (key !in bcs && key !in plan)) ==> (key in r <==> key in start) && (key in start ==> r[key] == start[key]))
    decreases |keys|
  {
    if |keys| > 0 {
      InputPriority(start, time, bcs, plan, keys[..|keys| - 1], key);
      assert keys == keys[..|keys| - 1] + [keys[|keys| - 1]];
    }
  }
}
