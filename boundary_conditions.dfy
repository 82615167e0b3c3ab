/** The older Boundaryconditions class of mpcpy/boundaryconditions.py: the same extension as
    the disturbances, without zero-order hold, and a query that tries 1-D interpolation
    first and falls back to column-wise interpolation when numpy refuses the array. */
module BoundaryConditions {
  import opened Wrappers
  import opened Numeric
  import opened Disturbances
  import Dist = Disturbances

  datatype BoundaryConditions = BoundaryConditions(data: Record)
  {
    predicate Valid()
    {
      "time" in data && data["time"].Vec? && WellFormedRecord(data)
    }

    /** __getitem__: the stored (extended) array, KeyError for an unknown key. */
    function Get(key: string): (r: Result<Signal>)
      ensures r.Ok? <==> key in data
      ensures r.Ok? ==> r.value == data[key]
    {
      if key in data then Ok(data[key]) else Err(MissingKey)
    }

    /** One key of __call__: np.interp on the stored array; when that raises, a 2-D array
        is interpolated column by column into a (len(time), width) array, and any other
        array raises again (a 1-D array has no shape[1], a deeper one is refused by
        np.interp). */
    function InterpKey(key: string, time: seq<real>): (r: Result<Signal>)
      requires Valid()
      ensures key !in data ==> r == Err(MissingKey)
      ensures key in data && data[key].Vec? && r.Ok? ==> r.value.Vec? && |r.value.v| == |time|
      ensures key in data && data[key].Mat? && r.Ok? ==>
        r.value.Mat? && r.value.width == data[key].width && |r.value.rows| == |time|
      ensures key in data && data[key].Other? ==> r.Err?
    {
      if key !in data then Err(MissingKey)
      else
        var xp := data["time"].v;
        match data[key]
        case Vec(fp) => if |xp| == |fp| > 0 then Ok(Vec(InterpAll(time, xp, fp))) else Err(BadShape)
        case Mat(w, rows) => MatInterp(time, xp, w, rows, false)
        case Other(_) => Err(RankError)
    }

    predicate CallDefined(time: seq<real>)
      requires Valid()
    {
      forall k :: k in data ==> InterpKey(k, time).Ok?
    }

    /** Where no key raises, the query is the disturbances' query without zero-order-hold
        keys. */
    function Called(time: seq<real>): (r: Record)
      requires Valid() && CallDefined(time)
      ensures r.Keys == data.Keys
      ensures forall k :: k in r ==> Ok(r[k]) == InterpKey(k, time)
    {
      CallAgrees(data, time);
      Disturbances(data, []).Called(time)
    }

    /** __call__(time): one linearly interpolated entry per stored key, 'time' included;
        the first key that raises ends the call. */
    method Call(time: seq<real>) returns (r: Result<Record>)
      requires Valid()
      ensures r.Ok? <==> CallDefined(time)
      ensures r.Ok? ==> r.value == Called(time)
      ensures r.Err? ==> exists k :: k in data && InterpKey(k, time) == Err(r.error)
    {
      var out: Record := map[];
      var keys := data.Keys;
      while keys != {}
        invariant keys <= data.Keys
        invariant out.Keys == data.Keys - keys
        invariant forall k :: k in out ==> InterpKey(k, time) == Ok(out[k])
        decreases keys
      {
        var k :| k in keys;
        var value: Result<Signal>;
        var xp := data["time"].v;
        match data[k] {
          case Vec(fp) =>
            value := if |xp| == |fp| > 0 then Ok(Vec(InterpAll(time, xp, fp))) else Err(BadShape);
          case Mat(w, rows) =>
            value := InterpMatrix(time, xp, w, rows, false);
          case Other(_) =>
            value := Err(RankError);
        }
        if value.Err? {
          return Err(value.error);
        }
        out := out[k := value.value];
        keys := keys - {k};
      }
      assert out == Called(time);
      r := Ok(out);
    }
  }

  /** Boundaryconditions(bcs, periodic, extra_time) stores the extension of the disturbances
      (mpcpy/boundaryconditions.py:32-49 repeats mpcpy/disturbances.py:57-74 key for key). */
  method Create(bcs: Record, periodic: bool, extraTime: real) returns (r: Result<BoundaryConditions>)
    requires WellFormedRecord(bcs)
    ensures Extension(bcs, periodic, extraTime).Err? ==> r == Err(Extension(bcs, periodic, extraTime).error)
    ensures Extension(bcs, periodic, extraTime).Ok? ==> r == Ok(BoundaryConditions(Extension(bcs, periodic, extraTime).value))
    ensures r.Ok? ==> r.value.Valid()
  {
    var d := Dist.Create(bcs, periodic, extraTime, None);
    r := if d.Ok? then Ok(BoundaryConditions(d.value.data)) else Err(d.error);
  }

  /** The fallback query agrees with the disturbances' query without zero-order-hold keys:
      one succeeds exactly when the other does, with the same values. */
  lemma AgreesWithDisturbances(data: Record, key: string, time: seq<real>)
    requires BoundaryConditions(data).Valid()
    ensures BoundaryConditions(data).InterpKey(key, time).Ok? <==> Disturbances(data, []).InterpKey(key, time).Ok?
    ensures BoundaryConditions(data).InterpKey(key, time).Ok? ==>
      BoundaryConditions(data).InterpKey(key, time) == Disturbances(data, []).InterpKey(key, time)
  {
  }

  /** Where every key of the fallback query succeeds, so does every key of the disturbances'
      query, with the same values. */
  lemma CallAgrees(data: Record, time: seq<real>)
    requires BoundaryConditions(data).Valid() && BoundaryConditions(data).CallDefined(time)
    ensures Disturbances(data, []).Valid() && Disturbances(data, []).CallDefined(time)
    ensures forall k :: k in data ==> BoundaryConditions(data).InterpKey(k, time) == Disturbances(data, []).InterpKey(k, time)
  {
    forall k | k in data
      ensures BoundaryConditions(data).InterpKey(k, time) == Disturbances(data, []).InterpKey(k, time)
    {
      AgreesWithDisturbances(data, k, time);
    }
  }

  /** __call__ returns one entry per stored key, and for a 2-D key one row per query time
      with the stored width. */
  lemma CallShape(b: BoundaryConditions, time: seq<real>, key: string)
    requires b.Valid() && b.CallDefined(time) && key in b.data
    ensures key in b.Called(time)
    ensures b.data[key].Vec? ==> b.Called(time)[key].Vec? && |b.Called(time)[key].v| == |time|
    ensures b.data[key].Mat? ==>
      b.Called(time)[key].Mat? && |b.Called(time)[key].rows| == |time| && b.Called(time)[key].width == b.data[key].width
  {
  }
}
