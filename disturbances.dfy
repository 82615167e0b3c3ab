/** The disturbances of mpcpy/disturbances.py: a time-stamped record is extended past its
    last sample, either by repeating its start (periodic) or by holding its last value, and
    is then queried by linear or zero-order-hold interpolation. */
module Disturbances {
  import opened Wrappers
  import opened Numeric

  /** A numpy array stored under a key of the record. */
  datatype Signal =
    | Vec(v: seq<real>)                      // 1-D: one value per time sample
    | Mat(width: nat, rows: seq<seq<real>>)  // 2-D: one row of `width` values per time sample
    | Other(rank: nat)                       // rank 0 or rank >= 3; the contents are not modelled

  /** Each numpy array is rectangular; a Vec or Mat stands for rank 1 or 2 only. */
  predicate WellFormed(s: Signal)
  {
    match s
    case Vec(_) => true
    case Mat(w, rows) => forall i :: 0 <= i < |rows| ==> |rows[i]| == w
    case Other(rank) => rank == 0 || rank >= 3
  }

  type Record = map<string, Signal>

  predicate WellFormedRecord(data: Record)
  {
    forall k :: k in data ==> WellFormed(data[k])
  }

  // ---------------------------------------------------------------------------
  // Extension (Disturbances.__init__)

  /** data['time'] as the extension reads it: a missing key raises KeyError, an empty axis
      IndexError at time[0]; a time entry that is not 1-D is refused. */
  function TimeOf(data: Record): (r: Result<seq<real>>)
    ensures r.Ok? <==> "time" in data && data["time"].Vec? && |data["time"].v| > 0
    ensures r.Ok? ==> r.value == data["time"].v
  {
    if "time" !in data then Err(MissingTime)
    else match data["time"]
      case Vec(t) => if |t| == 0 then Err(EmptyTime) else Ok(t)
      case _ => Err(BadShape)
  }

  function IndicesFrom(time: seq<real>, extra: real, i: nat): (ind: seq<nat>)
    requires 0 < |time| && i <= |time|
    ensures forall j :: 0 <= j < |ind| ==> i <= ind[j] < |time| && time[ind[j]] - time[0] < extra
    ensures forall j, l :: 0 <= j < l < |ind| ==> ind[j] < ind[l]
    decreases |time| - i
  {
    if i == |time| then []
    else if time[i] - time[0] < extra then [i] + IndicesFrom(time, extra, i + 1)
    else IndicesFrom(time, extra, i + 1)
  }

  /** np.where(time - time[0] < extra)[0]: the indices of the samples taken less than extra
      after the first one, in ascending order. */
  function Indices(time: seq<real>, extra: real): (ind: seq<nat>)
    requires |time| > 0
    ensures forall j :: 0 <= j < |ind| ==> ind[j] < |time| && time[ind[j]] - time[0] < extra
    ensures forall j, l :: 0 <= j < l < |ind| ==> ind[j] < ind[l]
  {
    IndicesFrom(time, extra, 0)
  }

  lemma {:induction false} IndicesFromComplete(time: seq<real>, extra: real, i: nat, k: nat)
    requires 0 < |time| && i <= k < |time| && time[k] - time[0] < extra
    ensures k in IndicesFrom(time, extra, i)
    decreases k - i
  {
    if i < k {
      IndicesFromComplete(time, extra, i + 1, k);
    }
  }

  /** Every sample less than extra after the first is selected: with the ensures of
      Indices, i is in the list exactly when time[i] - time[0] < extra. */
  lemma IndicesComplete(time: seq<real>, extra: real, k: nat)
    requires k < |time| && time[k] - time[0] < extra
    ensures k in Indices(time, extra)
  {
    IndicesFromComplete(time, extra, 0, k);
  }

  lemma {:induction false} IndicesFromPrefix(time: seq<real>, extra: real, i: nat)
    requires 0 < |time| && i <= |time| && NonDecreasing(time)
    ensures var ind := IndicesFrom(time, extra, i);
      && (forall j :: 0 <= j < |ind| ==> ind[j] == i + j)
      && (forall k :: i <= k < |time| ==> (time[k] - time[0] < extra <==> k < i + |ind|))
    decreases |time| - i
  {
    if i < |time| {
      IndicesFromPrefix(time, extra, i + 1);
      if time[i] - time[0] >= extra && i + 1 < |time| {
        assert time[i] <= time[i + 1];
      }
    }
  }

  /** On a non-decreasing axis the selected indices are the prefix [0, m) of the samples
      less than extra after the first, and m >= 1 whenever extra > 0. */
  lemma IndicesPrefix(time: seq<real>, extra: real)
    requires |time| > 0 && NonDecreasing(time)
    ensures var ind := Indices(time, extra);
      && (forall j :: 0 <= j < |ind| ==> ind[j] == j)
      && (forall k :: 0 <= k < |time| ==> (time[k] - time[0] < extra <==> k < |ind|))
      && (extra > 0.0 ==> |ind| >= 1)
  {
    IndicesFromPrefix(time, extra, 0);
  }

  /** The extended time axis: every sample but the last, then the selected samples shifted
      by the record's span time[-1] - time[0]. */
  function ExtendTime(time: seq<real>, ind: seq<nat>): (e: seq<real>)
    requires |time| > 0 && forall j :: 0 <= j < |ind| ==> ind[j] < |time|
    ensures |e| == |time| - 1 + |ind|
  {
    DropLast(time) + Shift(Select(time, ind), Last(time) - time[0])
  }

  predicate InBounds(ind: seq<nat>, n: nat)
  {
    forall j :: 0 <= j < |ind| ==> ind[j] < n
  }

  /** The periodic extension of one value array: v[:-1] followed by v[ind]. Indexing past
      the array raises IndexError; a rank-0 array cannot be sliced. */
  function ExtendPeriodic(s: Signal, ind: seq<nat>): (r: Result<Signal>)
    ensures r.Ok? <==> match s
      case Vec(v) => InBounds(ind, |v|)
      case Mat(_, rows) => InBounds(ind, |rows|)
      case Other(rank) => rank != 0
    ensures r.Ok? && s.Vec? ==> r.value.Vec? && |r.value.v| == |DropLast(s.v)| + |ind|
    ensures r.Ok? && s.Vec? ==>
      && r.value.v[..|DropLast(s.v)|] == DropLast(s.v)
      && forall i :: 0 <= i < |ind| ==> r.value.v[|DropLast(s.v)| + i] == s.v[ind[i]]
    ensures r.Ok? && s.Mat? ==>
      r.value.Mat? && r.value.width == s.width && |r.value.rows| == |DropLast(s.rows)| + |ind|
    ensures r.Ok? && s.Mat? ==>
      && r.value.rows[..|DropLast(s.rows)|] == DropLast(s.rows)
      && forall i :: 0 <= i < |ind| ==> r.value.rows[|DropLast(s.rows)| + i] == s.rows[ind[i]]
    ensures r.Ok? && s.Other? ==> r.value == s
    ensures r.Ok? && WellFormed(s) ==> WellFormed(r.value)
  {
    match s
    case Vec(v) => if InBounds(ind, |v|) then Ok(Vec(DropLast(v) + Select(v, ind))) else Err(BadShape)
    case Mat(width, rows) =>
      if InBounds(ind, |rows|) then Ok(Mat(width, DropLast(rows) + Select(rows, ind))) else Err(BadShape)
    case Other(rank) => if rank == 0 then Err(BadShape) else Ok(Other(rank))
  }

  /** The held extension as the code writes it: np.concatenate((v[:-1], v[-1]*np.ones(m))).
      On a 1-D array this repeats the last value m times; an empty array raises IndexError,
      and for any other rank numpy refuses to concatenate arrays of different ranks. */
  function ExtendHeldAsWritten(s: Signal, m: nat): (r: Result<Signal>)
    ensures r.Ok? <==> s.Vec? && |s.v| > 0
  {
    match s
    case Vec(v) => if |v| == 0 then Err(BadShape) else Ok(Vec(DropLast(v) + Repeat(Last(v), m)))
    case _ => Err(BadShape)
  }

  /** The held extension as intended for every rank: the last sample (a value, or a row of
      a 2-D array) repeated m times after all the others. */
  function ExtendHeld(s: Signal, m: nat): (r: Result<Signal>)
    ensures r.Ok? <==> match s
      case Vec(v) => |v| > 0
      case Mat(_, rows) => |rows| > 0
      case Other(rank) => rank != 0
    ensures r.Ok? && s.Vec? ==> (r.value.Vec? && |r.value.v| == |s.v| - 1 + m &&
      r.value.v[..|s.v| - 1] == s.v[..|s.v| - 1] &&
      forall k :: |s.v| - 1 <= k < |r.value.v| ==> r.value.v[k] == Last(s.v))
    ensures r.Ok? && s.Mat? ==> (r.value.Mat? && r.value.width == s.width &&
      |r.value.rows| == |s.rows| - 1 + m &&
      r.value.rows[..|s.rows| - 1] == s.rows[..|s.rows| - 1] &&
      forall k :: |s.rows| - 1 <= k < |r.value.rows| ==> r.value.rows[k] == s.rows[|s.rows| - 1])
    ensures r.Ok? && s.Other? ==> r.value == s
    ensures r.Ok? && WellFormed(s) ==> WellFormed(r.value)
  {
    match s
    case Vec(v) => if |v| == 0 then Err(BadShape) else Ok(Vec(DropLast(v) + Repeat(Last(v), m)))
    case Mat(width, rows) =>
      if |rows| == 0 then Err(BadShape) else Ok(Mat(width, DropLast(rows) + Repeat(rows[|rows| - 1], m)))
    case Other(rank) => if rank == 0 then Err(BadShape) else Ok(Other(rank))
  }

  /** The two agree wherever the code as written succeeds. */
  lemma HeldAgrees(s: Signal, m: nat)
    requires ExtendHeldAsWritten(s, m).Ok?
    ensures ExtendHeld(s, m) == ExtendHeldAsWritten(s, m)
  {
  }

  /** One value array of the stored record, extended periodically or held. Only a shape
      numpy refuses makes it fail, and a rank-0 array always does. */
  function ExtendValue(s: Signal, ind: seq<nat>, periodic: bool): (r: Result<Signal>)
    ensures r.Err? ==> r.error == BadShape
    ensures s.Other? && s.rank == 0 ==> r.Err?
    ensures r.Ok? && s.Vec? ==> r.value.Vec? && |r.value.v| == |DropLast(s.v)| + |ind|
    ensures r.Ok? && s.Mat? ==> r.value.Mat? && r.value.width == s.width && |r.value.rows| == |DropLast(s.rows)| + |ind|
  {
    if periodic then ExtendPeriodic(s, ind) else ExtendHeld(s, |ind|)
  }

  function ExtendValueAsWritten(s: Signal, ind: seq<nat>, periodic: bool): Result<Signal>
  {
    if periodic then ExtendPeriodic(s, ind) else ExtendHeldAsWritten(s, |ind|)
  }

  /** The record Disturbances.__init__ stores (mpcpy/disturbances.py:57-74), with the held
      extension corrected to work on 2-D arrays. It fails with the time axis' error, or
      with BadShape when some value array cannot be extended. */
  function Extension(data: Record, periodic: bool, extra: real): (r: Result<Record>)
    ensures TimeOf(data).Err? ==> r == Err(TimeOf(data).error)
    ensures r.Ok? ==> TimeOf(data).Ok? && r.value.Keys == data.Keys
    ensures r.Ok? ==> r.value["time"] == Vec(ExtendTime(TimeOf(data).value, Indices(TimeOf(data).value, extra)))
    ensures r.Ok? ==> forall k :: k in data && k != "time" ==>
      ExtendValue(data[k], Indices(TimeOf(data).value, extra), periodic) == Ok(r.value[k])
    ensures TimeOf(data).Ok? ==> (r.Ok? <==> forall k :: k in data && k != "time" ==>
      ExtendValue(data[k], Indices(TimeOf(data).value, extra), periodic).Ok?)
  {
    match TimeOf(data)
    case Err(e) => Err(e)
    case Ok(t) =>
      var ind := Indices(t, extra);
      if exists k :: k in data && k != "time" && ExtendValue(data[k], ind, periodic).Err? then Err(BadShape)
      else Ok(map k | k in data :: if k == "time" then Vec(ExtendTime(t, ind)) else ExtendValue(data[k], ind, periodic).value)
  }

  /** Disturbances.__init__ exactly as written: a non-periodic record with a 2-D entry raises. */
  function ExtensionAsWritten(data: Record, periodic: bool, extra: real): (r: Result<Record>)
    ensures TimeOf(data).Err? ==> r == Err(TimeOf(data).error)
    ensures r.Ok? ==> TimeOf(data).Ok? && r.value.Keys == data.Keys
    ensures !periodic && TimeOf(data).Ok? && (exists k :: k in data && k != "time" && !data[k].Vec?) ==> r.Err?
  {
    match TimeOf(data)
    case Err(e) => Err(e)
    case Ok(t) =>
      var ind := Indices(t, extra);
      if exists k :: k in data && k != "time" && ExtendValueAsWritten(data[k], ind, periodic).Err? then Err(BadShape)
      else Ok(map k | k in data :: if k == "time" then Vec(ExtendTime(t, ind)) else ExtendValueAsWritten(data[k], ind, periodic).value)
  }

  /** The axis [0, 1] with extra time 10 selects both samples and extends to [0, 1, 2]. */
  lemma ExampleAxis()
    ensures Indices([0.0, 1.0], 10.0) == [0, 1]
    ensures ExtendTime([0.0, 1.0], [0, 1]) == [0.0, 1.0, 2.0]
  {
    var t := [0.0, 1.0];
    assert IndicesFrom(t, 10.0, 2) == [];
    assert IndicesFrom(t, 10.0, 1) == [1];
    assert DropLast(t) == [0.0];
    assert Select(t, [0, 1]) == t;
    assert Shift(t, 1.0) == [1.0, 2.0];
  }

  lemma ExampleHeldRows()
    ensures ExtendHeld(Mat(1, [[1.0], [2.0]]), 2) == Ok(Mat(1, [[1.0], [2.0], [2.0]]))
  {
    assert DropLast([[1.0], [2.0]]) == [[1.0]];
    assert Repeat([2.0], 2) == [[2.0], [2.0]];
    assert [[1.0]] + [[2.0], [2.0]] == [[1.0], [2.0], [2.0]];
  }

  /** The discrepancy on one record: the held extension of a 2-D entry raises as written,
      and the corrected one repeats the last row. */
  lemma HeldMatrixCounterexample()
    ensures var data := map["time" := Vec([0.0, 1.0]), "q" := Mat(1, [[1.0], [2.0]])];
      && ExtensionAsWritten(data, false, 10.0) == Err(BadShape)
      && Extension(data, false, 10.0) == Ok(map["time" := Vec([0.0, 1.0, 2.0]), "q" := Mat(1, [[1.0], [2.0], [2.0]])])
  {
    var data := map["time" := Vec([0.0, 1.0]), "q" := Mat(1, [[1.0], [2.0]])];
    assert TimeOf(data) == Ok([0.0, 1.0]);
    ExampleAxis();
    ExampleHeldRows();
    assert "q" in data && "q" != "time";
    assert ExtendValueAsWritten(data["q"], [0, 1], false) == Err(BadShape);
    assert forall k :: k in data && k != "time" ==> k == "q";
    assert data["q"] == Mat(1, [[1.0], [2.0]]);
    assert ExtendValue(data["q"], [0, 1], false) == Ok(Mat(1, [[1.0], [2.0], [2.0]]));
    var r := Extension(data, false, 10.0);
    var expected := map["time" := Vec([0.0, 1.0, 2.0]), "q" := Mat(1, [[1.0], [2.0], [2.0]])];
    assert r.Ok? && r.value.Keys == expected.Keys;
    assert r.value["time"] == expected["time"];
    assert r.value["q"] == expected["q"];
    assert r.value == expected;
  }

  /** The same discrepancy for an entry of rank 3: the held concatenate at line 74 raises
      as written, while the corrected extension keeps the entry. */
  lemma HeldHighRankCounterexample()
    ensures var data := map["time" := Vec([0.0, 1.0]), "x" := Other(3)];
      && ExtensionAsWritten(data, false, 10.0) == Err(BadShape)
      && Extension(data, false, 10.0) == Ok(map["time" := Vec([0.0, 1.0, 2.0]), "x" := Other(3)])
  {
    var data := map["time" := Vec([0.0, 1.0]), "x" := Other(3)];
    assert TimeOf(data) == Ok([0.0, 1.0]);
    ExampleAxis();
    assert "x" in data && "x" != "time";
    assert ExtendValueAsWritten(data["x"], [0, 1], false) == Err(BadShape);
    assert forall k :: k in data && k != "time" ==> k == "x";
    assert ExtendValue(data["x"], [0, 1], false) == Ok(Other(3));
    var r := Extension(data, false, 10.0);
    var expected := map["time" := Vec([0.0, 1.0, 2.0]), "x" := Other(3)];
    assert r.Ok? && r.value.Keys == expected.Keys;
    assert r.value["time"] == expected["time"];
    assert r.value["x"] == expected["x"];
    assert r.value == expected;
  }

  // ---------------------------------------------------------------------------
  // Properties of the extension

  /** The extended axis is the record's axis without its last sample, followed by its
      first m samples shifted by the span time[-1] - time[0], where m counts the samples
      less than extra after the first. For extra > 0 its sample n-1 is the record's last. */
  lemma ExtendTimeShape(time: seq<real>, extra: real)
    requires |time| > 0 && NonDecreasing(time)
    ensures var ind := Indices(time, extra); var m := |ind|;
      && m <= |time|
      && ExtendTime(time, ind) == DropLast(time) + Shift(time[..m], Last(time) - time[0])
      && (extra > 0.0 ==> ExtendTime(time, ind)[|time| - 1] == Last(time))
  {
    IndicesPrefix(time, extra);
    var ind := Indices(time, extra);
    var m := |ind|;
    if m > 0 {
      assert ind[m - 1] == m - 1;
    }
    assert Select(time, ind) == time[..m];
  }

  /** For a strictly increasing axis and extra > 0 the extended axis is strictly increasing
      and every sample lies below time[-1] + extra. */
  lemma ExtendTimeIncreasing(time: seq<real>, extra: real)
    requires |time| > 0 && StrictlyIncreasing(time) && extra > 0.0
    ensures var e := ExtendTime(time, Indices(time, extra));
      && StrictlyIncreasing(e)
      && forall k :: 0 <= k < |e| ==> e[k] < Last(time) + extra
  {
    ExtendTimeShape(time, extra);
    IndicesPrefix(time, extra);
    var n := |time|;
    var m := |Indices(time, extra)|;
    var span := Last(time) - time[0];
    var e := ExtendTime(time, Indices(time, extra));
    var head := DropLast(time);
    var tail := Shift(time[..m], span);
    assert e == head + tail;
    assert StrictlyIncreasing(head);
    assert StrictlyIncreasing(time[..m]);
    ShiftIncreasing(time[..m], span);
    if n > 1 {
      assert Last(head) == time[n - 2] < time[n - 1] == tail[0];
    }
    IncreasingConcat(head, tail);
    forall k | 0 <= k < |e|
      ensures e[k] < Last(time) + extra
    {
      if k < n - 1 {
        assert e[k] == head[k] == time[k] < time[n - 1];
      } else {
        var i := k - (n - 1);
        assert e[k] == tail[i] == time[i] + span;
        assert time[i] - time[0] < extra;
      }
    }
  }

  /** Periodic values: a value array as long as the axis is extended to the axis' length;
      its first n-1 entries are the original ones and the rest repeat the original's first
      m entries. */
  lemma ExtendPeriodicValues(time: seq<real>, v: seq<real>, extra: real)
    requires |v| == |time| > 0 && NonDecreasing(time)
    ensures var ind := Indices(time, extra); var m := |ind|; var r := ExtendPeriodic(Vec(v), ind);
      && m <= |v| && r.Ok? && r.value.Vec?
      && |r.value.v| == |ExtendTime(time, ind)|
      && r.value.v[..|v| - 1] == v[..|v| - 1]
      && r.value.v[|v| - 1..] == v[..m]
  {
    IndicesPrefix(time, extra);
    ExtendTimeShape(time, extra);
    var ind := Indices(time, extra);
    var m := |ind|;
    assert Select(v, ind) == v[..m];
    var w := ExtendPeriodic(Vec(v), ind).value.v;
    assert w == DropLast(v) + v[..m];
  }

  /** Held values: a value array as long as the axis is extended to the axis' length; its
      first n-1 entries are the original ones and every later one is the last value. */
  lemma ExtendHeldValues(time: seq<real>, v: seq<real>, extra: real)
    requires |v| == |time| > 0
    ensures var ind := Indices(time, extra); var r := ExtendHeld(Vec(v), |ind|);
      && r.Ok? && r.value.Vec?
      && |r.value.v| == |ExtendTime(time, ind)|
      && r.value.v[..|v| - 1] == v[..|v| - 1]
      && (forall k :: |v| - 1 <= k < |r.value.v| ==> r.value.v[k] == Last(v))
  {
  }

  /** Before the record's second-to-last sample the extended record interpolates exactly
      as the original one, whichever extension is used. */
  lemma ExtendedInterpInRange(time: seq<real>, v: seq<real>, extra: real, periodic: bool, s: real)
    requires |v| == |time| >= 2 && StrictlyIncreasing(time) && extra > 0.0
    requires s <= time[|time| - 2]
    ensures var ind := Indices(time, extra); var w := ExtendValue(Vec(v), ind, periodic);
      && w.Ok? && w.value.Vec?
      && Interp(s, ExtendTime(time, ind), w.value.v) == Interp(s, time, v)
  {
    var n := |time|;
    var ind := Indices(time, extra);
    var e := ExtendTime(time, ind);
    ExtendTimeShape(time, extra);
    ExtendTimeIncreasing(time, extra);
    assert e[..n - 1] == time[..n - 1];
    if periodic {
      ExtendPeriodicValues(time, v, extra);
    } else {
      ExtendHeldValues(time, v, extra);
    }
    var w := ExtendValue(Vec(v), ind, periodic).value.v;
    assert w[..n - 1] == v[..n - 1];
    InterpSamePrefix(s, e, w, time, v, n - 2);
  }

  /** Two interpolations that share their first j + 1 samples agree up to sample j. */
  lemma InterpSamePrefix(s: real, xp: seq<real>, fp: seq<real>, yp: seq<real>, gp: seq<real>, j: nat)
    requires |xp| == |fp| && |yp| == |gp| && j < |xp| && j < |yp|
    requires StrictlyIncreasing(xp) && StrictlyIncreasing(yp) && s <= xp[j]
    requires xp[..j + 1] == yp[..j + 1] && fp[..j + 1] == gp[..j + 1]
    ensures Interp(s, xp, fp) == Interp(s, yp, gp)
  {
    assert yp[j] == yp[..j + 1][j];
    InterpPrefix(s, xp, fp, j);
    InterpPrefix(s, yp, gp, j);
  }

  /** Periodic extension: a query s in [time[0], time[k]], for a sample k less than extra
      after the first, shifted by the span time[-1] - time[0], reads the original record's
      value at s. */
  lemma PeriodicShifted(time: seq<real>, v: seq<real>, extra: real, s: real, k: nat)
    requires |v| == |time| > 0 && StrictlyIncreasing(time) && extra > 0.0
    requires k < |time| && time[k] - time[0] < extra && time[0] <= s <= time[k]
    ensures var ind := Indices(time, extra); var w := ExtendPeriodic(Vec(v), ind);
      && w.Ok? && w.value.Vec?
      && Interp(s + (Last(time) - time[0]), ExtendTime(time, ind), w.value.v) == Interp(s, time, v)
  {
    PeriodicQueryBound(time, extra, s, k);
    PeriodicShiftedInside(time, v, extra, s);
  }

  /** Periodic extension: a query s inside the samples less than extra after the first,
      shifted by the span, reads the original record's value at s. */
  lemma PeriodicShiftedInside(time: seq<real>, v: seq<real>, extra: real, s: real)
    requires |v| == |time| > 0 && extra > 0.0 && StrictlyIncreasing(time)
    requires 0 < |Indices(time, extra)| <= |time|
    requires time[0] <= s <= time[|Indices(time, extra)| - 1]
    ensures var ind := Indices(time, extra); var w := ExtendPeriodic(Vec(v), ind);
      && w.Ok? && w.value.Vec?
      && Interp(s + (Last(time) - time[0]), ExtendTime(time, ind), w.value.v) == Interp(s, time, v)
  {
    PeriodicTail(time, v, extra);
    var ind := Indices(time, extra);
    var e := ExtendTime(time, ind);
    var w := ExtendPeriodic(Vec(v), ind).value.v;
    var span := Last(time) - time[0];
    assert e[|time| - 1] <= s + span;
    InterpShiftedTail(s, s + span, e, w, |time| - 1, time, v, |ind|, span);
  }

  /** A query up to a sample k less than extra after the first lies within the selected
      samples. */
  lemma PeriodicQueryBound(time: seq<real>, extra: real, s: real, k: nat)
    requires |time| > 0 && StrictlyIncreasing(time) && extra > 0.0
    requires k < |time| && time[k] - time[0] < extra && s <= time[k]
    ensures 0 < |Indices(time, extra)| <= |time| && s <= time[|Indices(time, extra)| - 1]
  {
    IndicesPrefix(time, extra);
    var m := |Indices(time, extra)|;
    assert k < m;
    assert Indices(time, extra)[m - 1] == m - 1;
    if k < m - 1 {
      assert time[k] < time[m - 1];
    }
  }

  /** The periodic extension of a record: an increasing axis whose part from the record's
      last sample on is the first m samples shifted by the span, with the values of those
      samples, where m counts the samples less than extra after the first. */
  lemma PeriodicTail(time: seq<real>, v: seq<real>, extra: real)
    requires |v| == |time| > 0 && StrictlyIncreasing(time) && extra > 0.0
    ensures var ind := Indices(time, extra); var m := |ind|; var n := |time|;
      var e := ExtendTime(time, ind); var w := ExtendPeriodic(Vec(v), ind);
      && w.Ok? && w.value.Vec? && |w.value.v| == |e| && 0 < m <= n && n - 1 < |e|
      && StrictlyIncreasing(e)
      && e[n - 1..] == Shift(time[..m], Last(time) - time[0]) && w.value.v[n - 1..] == v[..m]
      && e[n - 1] == Last(time)
      && (forall k :: 0 <= k < n ==> (time[k] - time[0] < extra <==> k < m))
  {
    IndicesPrefix(time, extra);
    ExtendPeriodicValues(time, v, extra);
    ExtendTimeShape(time, extra);
    ExtendTimeIncreasing(time, extra);
  }

  /** Queried inside the first m samples of a record, an increasing axis whose tail from lo
      is those samples shifted by span answers at y, the query x shifted by span, what the
      record does at x. */
  lemma InterpShiftedTail(x: real, y: real, e: seq<real>, w: seq<real>, lo: nat, t: seq<real>, v: seq<real>, m: nat, span: real)
    requires |e| == |w| && lo < |e| && StrictlyIncreasing(e)
    requires |t| == |v| && 0 < m <= |t| && StrictlyIncreasing(t)
    requires e[lo..] == Shift(t[..m], span) && w[lo..] == v[..m]
    requires y == x + span && e[lo] <= y && t[0] <= x <= t[m - 1]
    ensures Interp(y, e, w) == Interp(x, t, v)
  {
    InterpSuffix(x + span, e, w, lo);
    InterpShiftedPrefix(x, t, v, m, span);
  }

  /** Interpolating the first m samples of a record, shifted by span, at x shifted by span
      gives the record's value at x, for x within those samples. */
  lemma InterpShiftedPrefix(x: real, t: seq<real>, v: seq<real>, m: nat, span: real)
    requires |t| == |v| && 0 < m <= |t| && StrictlyIncreasing(t) && t[0] <= x <= t[m - 1]
    ensures Interp(x + span, Shift(t[..m], span), v[..m]) == Interp(x, t, v)
  {
    InterpShift(x, t[..m], v[..m], span);
    InterpPrefix(x, t, v, m - 1);
    assert t[..m - 1 + 1] == t[..m] && v[..m - 1 + 1] == v[..m];
  }

  /** Periodic extension: the extended record takes the same value at s and at s plus the
      span, for s from the first sample up to a sample k less than extra after the first
      and up to the second-to-last sample. */
  lemma PeriodicRepeat(time: seq<real>, v: seq<real>, extra: real, s: real, k: nat)
    requires |v| == |time| >= 2 && StrictlyIncreasing(time) && extra > 0.0
    requires k < |time| && time[k] - time[0] < extra && time[0] <= s <= time[k] && s <= time[|time| - 2]
    ensures var ind := Indices(time, extra); var w := ExtendPeriodic(Vec(v), ind);
      && w.Ok? && w.value.Vec?
      && Interp(s + (Last(time) - time[0]), ExtendTime(time, ind), w.value.v)
         == Interp(s, ExtendTime(time, ind), w.value.v)
  {
    PeriodicShifted(time, v, extra, s, k);
    ExtendedInterpInRange(time, v, extra, true, s);
  }

  /** Held extension: from the record's last sample on, the extended record takes its last
      value. */
  lemma HeldAfterEnd(time: seq<real>, v: seq<real>, extra: real, s: real)
    requires |v| == |time| > 0 && StrictlyIncreasing(time) && extra > 0.0
    requires s >= Last(time)
    ensures var ind := Indices(time, extra); var w := ExtendHeld(Vec(v), |ind|);
      && w.Ok? && w.value.Vec?
      && Interp(s, ExtendTime(time, ind), w.value.v) == Last(v)
  {
    var n := |time|;
    var ind := Indices(time, extra);
    var e := ExtendTime(time, ind);
    ExtendHeldValues(time, v, extra);
    ExtendTimeShape(time, extra);
    ExtendTimeIncreasing(time, extra);
    var w := ExtendHeld(Vec(v), |ind|).value.v;
    assert e[n - 1] == Last(time) <= s;
    InterpSuffix(s, e, w, n - 1);
    var tail := w[n - 1..];
    assert forall i :: 0 <= i < |tail| ==> tail[i] == w[n - 1 + i];
    InterpConstant(s, e[n - 1..], tail, Last(v));
  }

  // ---------------------------------------------------------------------------
  // Construction

  /** zoh_keys=None stands for no zero-order-hold keys. */
  function ZohKeysOf(zohKeys: Option<seq<string>>): seq<string>
  {
    match zohKeys
    case None => []
    case Some(keys) => keys
  }

  /** Disturbances(data, periodic, extra_time, zoh_keys): fills self.data key by key. */
  method Create(data: Record, periodic: bool, extraTime: real, zohKeys: Option<seq<string>>)
    returns (r: Result<Disturbances>)
    requires WellFormedRecord(data)
    ensures Extension(data, periodic, extraTime).Err? ==> r == Err(Extension(data, periodic, extraTime).error)
    ensures Extension(data, periodic, extraTime).Ok? ==>
      r == Ok(Disturbances(Extension(data, periodic, extraTime).value, ZohKeysOf(zohKeys)))
    ensures r.Ok? ==> r.value.Valid()
  {
    var tr := TimeOf(data);
    if tr.Err? {
      return Err(tr.error);
    }
    var t := tr.value;
    var ind := Indices(t, extraTime);
    var out: Record := map["time" := Vec(ExtendTime(t, ind))];
    var keys := data.Keys - {"time"};
    while keys != {}
      invariant keys <= data.Keys - {"time"}
      invariant out.Keys == data.Keys - keys
      invariant out["time"] == Vec(ExtendTime(t, ind))
      invariant forall k :: k in out && k != "time" ==> ExtendValue(data[k], ind, periodic) == Ok(out[k])
      decreases keys
    {
      var k :| k in keys;
      var e := ExtendValue(data[k], ind, periodic);
      if e.Err? {
        assert Extension(data, periodic, extraTime) == Err(BadShape);
        return Err(BadShape);
      }
      out := out[k := e.value];
      keys := keys - {k};
    }
    ExtensionByKeys(data, periodic, extraTime, out);
    r := Ok(Disturbances(out, ZohKeysOf(zohKeys)));
  }

  /** A record holding, under every key of data, the extended axis or the extended value
      array is the extension of data. */
  lemma ExtensionByKeys(data: Record, periodic: bool, extra: real, out: Record)
    requires TimeOf(data).Ok? && out.Keys == data.Keys
    requires out["time"] == Vec(ExtendTime(TimeOf(data).value, Indices(TimeOf(data).value, extra)))
    requires forall k :: k in out && k != "time" ==>
      ExtendValue(data[k], Indices(TimeOf(data).value, extra), periodic) == Ok(out[k])
    ensures Extension(data, periodic, extra) == Ok(out)
  {
    var e := Extension(data, periodic, extra).value;
    forall k | k in out
      ensures out[k] == e[k]
    {
    }
    assert out == e;
  }

  // ---------------------------------------------------------------------------
  // Interpolation (Disturbances.interp, __call__, __contains__)

  /** Column j of a 2-D array, data[key][:, j]. */
  function Column(rows: seq<seq<real>>, w: nat, j: nat): (c: seq<real>)
    requires j < w && forall i :: 0 <= i < |rows| ==> |rows[i]| == w
    ensures |c| == |rows| && forall i :: 0 <= i < |rows| ==> c[i] == rows[i][j]
  {
    seq(|rows|, i requires 0 <= i < |rows| => rows[i][j])
  }

  /** One value array interpolated onto the query times. */
  function Interp1(time: seq<real>, xp: seq<real>, fp: seq<real>, zoh: bool): (r: Result<seq<real>>)
    ensures r.Ok? ==> |r.value| == |time|
  {
    if zoh then ZohAll(time, xp, fp) else InterpChecked(time, xp, fp)
  }

  /** The 2-D branch of interp: one output row per query time, column j interpolated from
      column j of the array; numpy's error on some column ends the call. */
  function MatInterp(time: seq<real>, xp: seq<real>, w: nat, rows: seq<seq<real>>, zoh: bool): (r: Result<Signal>)
    requires forall i :: 0 <= i < |rows| ==> |rows[i]| == w
    ensures r.Ok? ==> r.value.Mat? && r.value.width == w && |r.value.rows| == |time| && WellFormed(r.value)
    ensures r.Ok? ==> forall j :: 0 <= j < w ==> Interp1(time, xp, Column(rows, w, j), zoh).Ok?
    ensures r.Ok? ==> forall i, j :: 0 <= i < |time| && 0 <= j < w ==>
      Interp1(time, xp, Column(rows, w, j), zoh).Ok? &&
      r.value.rows[i][j] == Interp1(time, xp, Column(rows, w, j), zoh).value[i]
  {
    if forall j :: 0 <= j < w ==> Interp1(time, xp, Column(rows, w, j), zoh).Ok? then
      Ok(Mat(w, seq(|time|, i requires 0 <= i < |time| =>
        seq(w, j requires 0 <= j < w => Interp1(time, xp, Column(rows, w, j), zoh).value[i]))))
    else Err(if zoh then ZohOutOfRange else if |xp| != |rows| then LengthMismatch else EmptyTime)
  }

  /** The 2-D branch as the code runs it: value = np.zeros((len(time), width)), then
      value[:, j] is filled from column j for each j in turn. */
  method InterpMatrix(time: seq<real>, xp: seq<real>, w: nat, rows: seq<seq<real>>, zoh: bool)
    returns (r: Result<Signal>)
    requires forall i :: 0 <= i < |rows| ==> |rows[i]| == w
    ensures r == MatInterp(time, xp, w, rows, zoh)
  {
    var value := new real[|time|, w]((i, j) => 0.0);
    var j := 0;
    while j < w
      invariant 0 <= j <= w
      invariant forall c :: 0 <= c < j ==> Interp1(time, xp, Column(rows, w, c), zoh).Ok?
      invariant forall i, c :: 0 <= i < |time| && 0 <= c < j ==>
        value[i, c] == Interp1(time, xp, Column(rows, w, c), zoh).value[i]
    {
      var col := Interp1(time, xp, Column(rows, w, j), zoh);
      if col.Err? {
        return Err(col.error);
      }
      FillColumn(value, j, col.value);
      j := j + 1;
    }
    var out := seq(|time|, i requires 0 <= i < |time| reads value =>
      seq(w, c requires 0 <= c < w reads value => value[i, c]));
    MatInterpOf(time, xp, w, rows, zoh, out);
    r := Ok(Mat(w, out));
  }

  /** value[:, j] = col. */
  method FillColumn(value: array2<real>, j: nat, col: seq<real>)
    requires j < value.Length1 && |col| == value.Length0
    modifies value
    ensures forall a, c :: 0 <= a < value.Length0 && 0 <= c < value.Length1 ==>
      value[a, c] == if c == j then col[a] else old(value[a, c])
  {
    var i := 0;
    while i < |col|
      invariant 0 <= i <= |col|
      invariant forall a, c :: 0 <= a < value.Length0 && 0 <= c < value.Length1 ==>
        value[a, c] == if c == j && a < i then col[a] else old(value[a, c])
    {
      value[i, j] := col[i];
      i := i + 1;
    }
  }

  /** The rows of interpolated columns are the 2-D branch's result. */
  lemma MatInterpOf(time: seq<real>, xp: seq<real>, w: nat, rows: seq<seq<real>>, zoh: bool, out: seq<seq<real>>)
    requires forall i :: 0 <= i < |rows| ==> |rows[i]| == w
    requires forall c :: 0 <= c < w ==> Interp1(time, xp, Column(rows, w, c), zoh).Ok?
    requires |out| == |time| && forall i :: 0 <= i < |out| ==> |out[i]| == w
    requires forall i, c :: 0 <= i < |time| && 0 <= c < w ==>
      out[i][c] == Interp1(time, xp, Column(rows, w, c), zoh).value[i]
    ensures MatInterp(time, xp, w, rows, zoh) == Ok(Mat(w, out))
  {
    var expected := MatInterp(time, xp, w, rows, zoh).value;
    forall i | 0 <= i < |time|
      ensures out[i] == expected.rows[i]
    {
      assert forall c :: 0 <= c < w ==> out[i][c] == expected.rows[i][c];
    }
    assert out == expected.rows;
  }

  /** The extended record with its zero-order-hold keys. */
  datatype Disturbances = Disturbances(data: Record, zohKeys: seq<string>)
  {
    /** What __init__ guarantees: a 1-D time axis and well-formed arrays. */
    predicate Valid()
    {
      "time" in data && data["time"].Vec? && WellFormedRecord(data)
    }

    /** __contains__ */
    predicate Contains(key: string)
    {
      key in data
    }

    /** interp(key, time): 1-D keys by interp_zoh when listed in zoh_keys and by np.interp
        otherwise, 2-D keys column by column, anything else raises. */
    function InterpKey(key: string, time: seq<real>): (r: Result<Signal>)
      requires Valid()
      ensures key !in data ==> r == Err(MissingKey)
      ensures key in data && data[key].Other? ==> r == Err(RankError)
      ensures key in data && data[key].Vec? && r.Ok? ==> r.value.Vec? && |r.value.v| == |time|
      ensures key in data && data[key].Vec? && key in zohKeys && r.Ok? ==>
        forall i :: 0 <= i < |time| ==> r.value.v[i] in data[key].v
      ensures key in data && data[key].Mat? && r.Ok? ==>
        r.value.Mat? && r.value.width == data[key].width && |r.value.rows| == |time|
    {
      if key !in data then Err(MissingKey)
      else
        var xp := data["time"].v;
        match data[key]
        case Vec(fp) =>
          (match Interp1(time, xp, fp, key in zohKeys)
           case Ok(value) => Ok(Vec(value))
           case Err(e) => Err(e))
        case Mat(w, rows) => MatInterp(time, xp, w, rows, key in zohKeys)
        case Other(_) => Err(RankError)
    }

    method Interp(key: string, time: seq<real>) returns (r: Result<Signal>)
      requires Valid()
      ensures r == InterpKey(key, time)
    {
      if key !in data {
        return Err(MissingKey);
      }
      var xp := data["time"].v;
      match data[key]
      case Vec(fp) =>
        var value := Interp1(time, xp, fp, key in zohKeys);
        r := if value.Ok? then Ok(Vec(value.value)) else Err(value.error);
      case Mat(w, rows) =>
        r := InterpMatrix(time, xp, w, rows, key in zohKeys);
      case Other(_) =>
        r := Err(RankError);
    }

    predicate CallDefined(time: seq<real>)
      requires Valid()
    {
      forall k :: k in data ==> InterpKey(k, time).Ok?
    }

    /** The dictionary __call__ returns when no key raises: every stored key, 'time'
        included, interpolated onto the query times. */
    function Called(time: seq<real>): (r: Record)
      requires Valid() && CallDefined(time)
      ensures r.Keys == data.Keys
      ensures forall k :: k in r ==> Ok(r[k]) == InterpKey(k, time)
    {
      map k | k in data :: InterpKey(k, time).value
    }

    /** __call__(time): interpolates the keys one at a time; the first key that raises ends
        the call with its error. */
    method Call(time: seq<real>) returns (r: Result<Record>)
      requires Valid()
      ensures r.Ok? <==> CallDefined(time)
      ensures r.Ok? ==> r.value == Called(time)
      ensures r.Err? ==> exists k :: k in data && InterpKey(k, time) == Err(r.error)
    {
      var out: Record := map[];
      var keys := data.Keys;
      while keys != {}
        invariant keys <= data.Keys
        invariant out.Keys == data.Keys - keys
        invariant forall k :: k in out ==> InterpKey(k, time) == Ok(out[k])
        decreases keys
      {
        var k :| k in keys;
        var value := Interp(k, time);
        if value.Err? {
          return Err(value.error);
        }
        out := out[k := value.value];
        keys := keys - {k};
      }
      assert out == Called(time);
      r := Ok(out);
    }
  }

  /** The extension keeps every key, so a key is in the disturbances exactly when it was in
      the data (what __contains__ answers). */
  lemma CreateKeepsKeys(data: Record, periodic: bool, extra: real, zohKeys: seq<string>, key: string)
    requires Extension(data, periodic, extra).Ok?
    ensures Disturbances(Extension(data, periodic, extra).value, zohKeys).Contains(key) <==> key in data
  {
  }

  /** Queried inside the extended axis, the 'time' entry is the query itself. */
  lemma TimeEntryIsQuery(d: Disturbances, time: seq<real>)
    requires d.Valid() && "time" !in d.zohKeys
    requires var xp := d.data["time"].v; (|xp| > 0 && NonDecreasing(xp) &&
      forall i :: 0 <= i < |time| ==> xp[0] <= time[i] <= Last(xp))
    ensures d.InterpKey("time", time) == Ok(Vec(time))
  {
    var xp := d.data["time"].v;
    forall i | 0 <= i < |time|
      ensures Interp(time[i], xp, xp) == time[i]
    {
      InterpIdentity(time[i], xp);
    }
    assert InterpAll(time, xp, xp) == time;
  }

  /** A 1-D key listed for zero-order hold reads, on a uniform extended axis, the sample at
      or before each query. */
  lemma ZohKeyStep(d: Disturbances, key: string, xi: real, h: real, k: nat)
    requires d.Valid() && key in d.data && d.data[key].Vec? && key in d.zohKeys
    requires var xp := d.data["time"].v; (|xp| >= 2 && |d.data[key].v| == |xp| && h > 0.0 && Uniform(xp, h)
      && k < |xp| && xp[k] <= xi
      && ((k < |xp| - 1 && xi < xp[k + 1]) || (k == |xp| - 1 && xi == xp[k])))
    ensures d.InterpKey(key, [xi]) == Ok(Vec([d.data[key].v[k]]))
  {
    var xp := d.data["time"].v;
    var fp := d.data[key].v;
    ZohUniformStep(xi, xp, h, k);
    ZohAtInRange(xi, xp, fp);
    assert ZohAll([xi], xp, fp).value == [fp[k]];
  }
}
