/** The numpy primitives the core is built from, on exact reals: np.arange, np.interp,
    np.sort, slicing with [:-1], and the module-level interp_zoh of mpcpy/disturbances.py
    (mpcpy/mpc.py holds an identical copy). */
module Numeric {
  import opened Wrappers

  function Last(s: seq<real>): real
    requires |s| > 0
  {
    s[|s| - 1]
  }

  /** numpy's a[:-1]: everything but the last element ([] stays []). */
  function DropLast<T>(s: seq<T>): seq<T>
  {
    if |s| == 0 then [] else s[..|s| - 1]
  }

  function Min(a: real, b: real): real
  {
    if a <= b then a else b
  }

  /** The least integer not below x. */
  function Ceil(x: real): int
  {
    -((-x).Floor)
  }

  lemma CeilBounds(x: real)
    ensures x <= Ceil(x) as real < x + 1.0
  {
  }

  predicate StrictlyIncreasing(s: seq<real>)
  {
    forall i, j :: 0 <= i < j < |s| ==> s[i] < s[j]
  }

  predicate NonDecreasing(s: seq<real>)
  {
    forall i, j :: 0 <= i < j < |s| ==> s[i] <= s[j]
  }

  /** Every element of xs shifted by d. */
  function Shift(xs: seq<real>, d: real): (r: seq<real>)
    ensures |r| == |xs|
  {
    seq(|xs|, i requires 0 <= i < |xs| => xs[i] + d)
  }

  /** Two increasing runs, the second starting above the first's end, make one. */
  lemma IncreasingConcat(a: seq<real>, b: seq<real>)
    requires StrictlyIncreasing(a) && StrictlyIncreasing(b)
    requires |a| > 0 && |b| > 0 ==> Last(a) < b[0]
    ensures StrictlyIncreasing(a + b)
  {
    var c := a + b;
    forall i, j | 0 <= i < j < |c|
      ensures c[i] < c[j]
    {
      if j < |a| {
        assert c[i] == a[i] && c[j] == a[j];
      } else if i < |a| {
        assert c[i] == a[i] <= Last(a) && c[j] == b[j - |a|] >= b[0];
      } else {
        assert c[i] == b[i - |a|] && c[j] == b[j - |a|];
      }
    }
  }

  lemma ShiftIncreasing(xs: seq<real>, d: real)
    requires StrictlyIncreasing(xs)
    ensures StrictlyIncreasing(Shift(xs, d))
  {
  }

  /** numpy's fancy indexing v[ind]: the elements at the given indices, in order. */
  function Select<T>(v: seq<T>, ind: seq<nat>): (r: seq<T>)
    requires forall j :: 0 <= j < |ind| ==> ind[j] < |v|
    ensures |r| == |ind| && forall j :: 0 <= j < |ind| ==> r[j] == v[ind[j]]
  {
    seq(|ind|, j requires 0 <= j < |ind| => v[ind[j]])
  }

  /** n copies of x, as x*np.ones(n) gives them. */
  function Repeat<T>(x: T, n: nat): (r: seq<T>)
    ensures |r| == n && forall j :: 0 <= j < n ==> r[j] == x
  {
    seq(n, j requires 0 <= j < n => x)
  }

  // ---------------------------------------------------------------------------
  // np.arange

  /** The number of points np.arange(start, stop, step) yields for a positive step. */
  function ArangeLength(start: real, stop: real, step: real): nat
    requires step > 0.0
  {
    if stop <= start then 0 else Ceil((stop - start) / step)
  }

  /** np.arange(start, stop, step) with step > 0, without floating-point accumulation. */
  function Arange(start: real, stop: real, step: real): seq<real>
    requires step > 0.0
  {
    seq(ArangeLength(start, stop, step), i requires 0 <= i < ArangeLength(start, stop, step) => start + i as real * step)
  }

  lemma DivBelow(a: real, d: real, h: real)
    requires h > 0.0
    ensures a < d / h <==> a * h < d
    ensures a <= d / h <==> a * h <= d
  {
    assert (d / h) * h == d;
  }

  /** np.arange yields exactly the points start + i*step that lie below stop. */
  lemma ArangeCharacterized(start: real, stop: real, step: real)
    requires step > 0.0
    ensures var r := Arange(start, stop, step);
      && (forall i :: 0 <= i < |r| ==> r[i] == start + i as real * step && r[i] < stop)
      && start + |r| as real * step >= stop
  {
    var r := Arange(start, stop, step);
    if stop > start {
      var q := (stop - start) / step;
      CeilBounds(q);
      DivBelow(|r| as real, stop - start, step);
      forall i | 0 <= i < |r|
        ensures r[i] < stop
      {
        DivBelow(i as real, stop - start, step);
      }
    }
  }

  /** The i-th point start + i*step of a regular grid. */
  function Point(start: real, i: int, step: real): real
  {
    start + i as real * step
  }

  /** The count of np.arange points: the last point lies below stop and one more step
      would reach it. */
  lemma ArangeLengthBounds(start: real, stop: real, step: real)
    requires step > 0.0
    ensures var n := ArangeLength(start, stop, step);
      && (n > 0 ==> Point(start, n - 1, step) < stop)
      && Point(start, n, step) >= stop
      && (stop > start ==> n > 0)
  {
    var n := ArangeLength(start, stop, step);
    ArangeCharacterized(start, stop, step);
    if n > 0 {
      assert Arange(start, stop, step)[n - 1] == start + (n - 1) as real * step;
    }
  }

  /** Later points of a regular grid lie at least one step further. */
  lemma PointOrder(start: real, i: int, j: int, step: real)
    requires i <= j && step > 0.0
    ensures Point(start, i, step) <= Point(start, j, step)
    ensures i < j ==> Point(start, i, step) + step <= Point(start, j, step)
  {
    MulNonneg((j - i) as real, step);
    if i < j {
      MulNonneg((j - i) as real - 1.0, step);
      assert ((j - i) as real - 1.0) * step == j as real * step - i as real * step - step;
    }
  }

  lemma MulNonneg(a: real, b: real)
    requires a >= 0.0 && b >= 0.0
    ensures a * b >= 0.0
  {
  }

  /** With n whole steps from start to stop, np.arange(start, stop + frac*step, step) for
      0 < frac <= 1 has n + 1 points and ends exactly at stop. */
  lemma ArangeWholeSteps(start: real, n: nat, step: real, frac: real)
    requires step > 0.0 && 0.0 < frac <= 1.0
    ensures var r := Arange(start, start + n as real * step + frac * step, step);
      |r| == n + 1 && r[n] == start + n as real * step
  {
    var q := (n as real * step + frac * step) / step;
    assert q * step == n as real * step + frac * step;
    assert q == n as real + frac by {
      assert (n as real + frac) * step == n as real * step + frac * step;
    }
    assert Ceil(q) == n + 1;
  }

  // ---------------------------------------------------------------------------
  // Counting down to a stop time

  /** The whole steps of dt left from clock to stop, rounded up. */
  function Remaining(stop: real, clock: real, dt: real): nat
    requires dt > 0.0
  {
    if clock < stop then
      DivBelow(0.0, stop - clock, dt);
      CeilBounds((stop - clock) / dt);
      Ceil((stop - clock) / dt)
    else 0
  }

  /** A clock that moves by at least dt, or reaches stop, counts down the remaining whole
      steps. */
  lemma RemainingStepsDecrease(stop: real, clock: real, next: real, dt: real)
    requires dt > 0.0 && clock < stop
    requires next >= Min(clock + dt, stop)
    ensures Remaining(stop, next, dt) < Remaining(stop, clock, dt)
  {
    CeilBounds((stop - clock) / dt);
    DivBelow(0.0, stop - clock, dt);
    if next < stop {
      CeilBounds((stop - next) / dt);
      OneStepFewer(stop - next, stop - clock, dt);
    }
  }

  /** a <= b - h gives a/h <= b/h - 1. */
  lemma OneStepFewer(a: real, b: real, h: real)
    requires h > 0.0 && a <= b - h
    ensures a / h <= b / h - 1.0
  {
    DivAtMost(a, b / h - 1.0, h);
    assert (b / h - 1.0) * h == b - h by {
      assert (b / h) * h == b;
    }
  }

  lemma DivAtMost(d: real, a: real, h: real)
    requires h > 0.0
    ensures d / h <= a <==> d <= a * h
  {
    assert (d / h) * h == d;
  }

  // ---------------------------------------------------------------------------
  // np.interp

  /** np.interp(x, xp, fp) at one query point: piecewise linear through the points
      (xp[k], fp[k]), held at fp[0] left of xp[0] and at fp[-1] right of xp[-1]. As numpy's
      search for the last sample not above x does, a query equal to a repeated sample
      takes the value of the last repetition. The caller passes arrays of equal, non-zero
      length (numpy raises otherwise). */
  function Interp(x: real, xp: seq<real>, fp: seq<real>): real
    requires |xp| == |fp| > 0
    decreases |xp|
  {
    if x < xp[0] || |xp| == 1 then fp[0]
    else if x < xp[1] then Lerp(fp[0], fp[1], x - xp[0], xp[1] - xp[0])
    else Interp(x, xp[1..], fp[1..])
  }

  /** The point a/b of the way from u to v. */
  function Lerp(u: real, v: real, a: real, b: real): real
    requires b != 0.0
  {
    u + a * (v - u) / b
  }

  /** np.interp over an array of query points. */
  function InterpAll(xs: seq<real>, xp: seq<real>, fp: seq<real>): (r: seq<real>)
    requires |xp| == |fp| > 0
    ensures |r| == |xs|
  {
    seq(|xs|, i requires 0 <= i < |xs| => Interp(xs[i], xp, fp))
  }

  /** np.interp as numpy checks its arguments: sample and value arrays of different
      lengths, or an empty sample array, raise ValueError. */
  function InterpChecked(xs: seq<real>, xp: seq<real>, fp: seq<real>): (r: Result<seq<real>>)
    ensures r.Ok? <==> |xp| == |fp| > 0
    ensures r.Err? ==> r.error == (if |xp| != |fp| then LengthMismatch else EmptyTime)
  {
    if |xp| != |fp| then Err(LengthMismatch)
    else if |xp| == 0 then Err(EmptyTime)
    else Ok(InterpAll(xs, xp, fp))
  }

  /** At a sample point of an increasing axis np.interp returns that sample's value. */
  lemma {:induction false} InterpAtSample(xp: seq<real>, fp: seq<real>, k: nat)
    requires |xp| == |fp| && k < |xp|
    requires StrictlyIncreasing(xp)
    ensures Interp(xp[k], xp, fp) == fp[k]
    decreases k
  {
    if k > 0 {
      assert xp[0] < xp[k] && xp[1] <= xp[k];
      InterpAtSample(xp[1..], fp[1..], k - 1);
    }
  }

  /** On a non-decreasing axis in which a value repeats, np.interp at that value returns
      the value of its last repetition: the sample k after which the axis rises (or ends). */
  lemma {:induction false} InterpAtLastRepetition(xp: seq<real>, fp: seq<real>, k: nat)
    requires |xp| == |fp| && k < |xp|
    requires NonDecreasing(xp)
    requires k + 1 == |xp| || xp[k] < xp[k + 1]
    ensures Interp(xp[k], xp, fp) == fp[k]
    decreases k
  {
    if k > 0 {
      assert xp[0] <= xp[k] && xp[1] <= xp[k];
      assert xp[1..][k - 1] == xp[k];
      InterpAtLastRepetition(xp[1..], fp[1..], k - 1);
    }
  }

  /** A repeated sample: np.interp(1, [0, 1, 1, 2], [0, 5, 7, 9]) is 7, not 5. */
  lemma InterpRepeatedSample()
    ensures Interp(1.0, [0.0, 1.0, 1.0, 2.0], [0.0, 5.0, 7.0, 9.0]) == 7.0
  {
    InterpAtLastRepetition([0.0, 1.0, 1.0, 2.0], [0.0, 5.0, 7.0, 9.0], 2);
  }

  /** A linear interpolation Lerp(u, v, a, b) with 0 <= a < b lies between u and v. */
  lemma LerpBetween(a: real, b: real, u: real, v: real)
    requires 0.0 <= a < b
    ensures u <= v ==> u <= Lerp(u, v, a, b) <= v
    ensures v < u ==> v <= Lerp(u, v, a, b) <= u
  {
    var d := v - u;
    var q := a * d / b;
    assert q * b == a * d;
    if d >= 0.0 {
      assert 0.0 <= a * d <= b * d by { assert (b - a) * d >= 0.0; }
      DivBetween(a * d, 0.0, d, b);
    } else {
      assert b * d <= a * d <= 0.0 by { assert (b - a) * (-d) >= 0.0; }
      DivBetween(a * d, d, 0.0, b);
    }
  }

  /** Interpolating from u to v over the distance v - u moves by exactly a. */
  lemma LerpToEnd(u: real, v: real, a: real)
    requires v != u
    ensures Lerp(u, v, a, v - u) == u + a
  {
    var b := v - u;
    assert a * b / b == a;
  }

  /** Dividing lo*b <= n <= hi*b by b > 0 gives lo <= n/b <= hi. */
  lemma DivBetween(n: real, lo: real, hi: real, b: real)
    requires b > 0.0 && lo * b <= n <= hi * b
    ensures lo <= n / b <= hi
  {
    assert n / b - lo == (n - lo * b) / b;
    assert hi - n / b == (hi * b - n) / b;
  }

  /** np.interp never leaves the range of its values: the result lies between two of them. */
  lemma {:induction false} InterpWithinValues(x: real, xp: seq<real>, fp: seq<real>)
    requires |xp| == |fp| > 0
    ensures exists i, j :: 0 <= i < |fp| && 0 <= j < |fp| && fp[i] <= Interp(x, xp, fp) <= fp[j]
    decreases |xp|
  {
    if x < xp[0] || |xp| == 1 {
      assert fp[0] <= Interp(x, xp, fp) <= fp[0];
    } else if x < xp[1] {
      LerpBetween(x - xp[0], xp[1] - xp[0], fp[0], fp[1]);
      if fp[0] <= fp[1] {
        assert fp[0] <= Interp(x, xp, fp) <= fp[1];
      } else {
        assert fp[1] <= Interp(x, xp, fp) <= fp[0];
      }
    } else {
      InterpWithinValues(x, xp[1..], fp[1..]);
      var i, j :| 0 <= i < |fp| - 1 && 0 <= j < |fp| - 1 && fp[1..][i] <= Interp(x, xp[1..], fp[1..]) <= fp[1..][j];
      assert fp[i + 1] <= Interp(x, xp, fp) <= fp[j + 1];
    }
  }

  /** Interpolating an axis against itself returns the query, inside the axis' range. */
  lemma {:induction false} InterpIdentity(x: real, xp: seq<real>)
    requires |xp| > 0 && NonDecreasing(xp)
    requires xp[0] <= x <= Last(xp)
    ensures Interp(x, xp, xp) == x
    decreases |xp|
  {
    if x < xp[0] || |xp| == 1 {
    } else if x < xp[1] {
      LerpToEnd(xp[0], xp[1], x - xp[0]);
    } else {
      InterpIdentity(x, xp[1..]);
    }
  }

  /** Interpolating constant values gives that constant anywhere. */
  lemma {:induction false} InterpConstant(x: real, xp: seq<real>, fp: seq<real>, c: real)
    requires |xp| == |fp| > 0
    requires forall i :: 0 <= i < |fp| ==> fp[i] == c
    ensures Interp(x, xp, fp) == c
    decreases |xp|
  {
    if x < xp[0] || |xp| == 1 {
    } else if x < xp[1] {
    } else {
      InterpConstant(x, xp[1..], fp[1..], c);
    }
  }

  /** Shifting the query and the axis by the same amount leaves the value unchanged. */
  lemma {:induction false} InterpShift(x: real, xp: seq<real>, fp: seq<real>, d: real)
    requires |xp| == |fp| > 0
    ensures Interp(x + d, Shift(xp, d), fp) == Interp(x, xp, fp)
    decreases |xp|
  {
    var sp := Shift(xp, d);
    if x < xp[0] || |xp| == 1 {
    } else if x < xp[1] {
      assert sp[0] == xp[0] + d && sp[1] == xp[1] + d;
      assert !(x + d < sp[0]) && x + d < sp[1];
      assert x + d - sp[0] == x - xp[0] && sp[1] - sp[0] == xp[1] - xp[0];
    } else {
      assert sp[0] == xp[0] + d && sp[1] == xp[1] + d;
      assert sp[1..] == Shift(xp[1..], d);
      InterpShift(x, xp[1..], fp[1..], d);
    }
  }

  /** Right of xp[j], np.interp only looks at the samples from j on. */
  lemma {:induction false} InterpSuffix(x: real, xp: seq<real>, fp: seq<real>, j: nat)
    requires |xp| == |fp| && j < |xp|
    requires StrictlyIncreasing(xp)
    requires x >= xp[j]
    ensures Interp(x, xp, fp) == Interp(x, xp[j..], fp[j..])
    decreases j
  {
    if j > 0 {
      assert xp[0] < xp[j] && xp[1] <= xp[j];
      assert xp[1..][j - 1..] == xp[j..] && fp[1..][j - 1..] == fp[j..];
      InterpSuffix(x, xp[1..], fp[1..], j - 1);
    }
  }

  /** Left of xp[j], np.interp only looks at the samples up to j. */
  lemma {:induction false} InterpPrefix(x: real, xp: seq<real>, fp: seq<real>, j: nat)
    requires |xp| == |fp| && j < |xp|
    requires StrictlyIncreasing(xp)
    requires x <= xp[j]
    ensures Interp(x, xp, fp) == Interp(x, xp[..j + 1], fp[..j + 1])
    decreases j
  {
    if x < xp[0] || |xp| == 1 {
    } else if x < xp[1] {
    } else {
      assert xp[..j + 1][1..] == xp[1..][..j] && fp[..j + 1][1..] == fp[1..][..j];
      InterpPrefix(x, xp[1..], fp[1..], j - 1);
    }
  }

  // ---------------------------------------------------------------------------
  // interp_zoh

  /** The quotient interp_zoh truncates: (len(xp)-1)*(xi-xp[0])/(xp[-1]-xp[0]). */
  function ZohQuotient(xi: real, xp: seq<real>): real
    requires |xp| > 0 && Last(xp) != xp[0]
  {
    (|xp| - 1) as real * (xi - xp[0]) / (Last(xp) - xp[0])
  }

  /** Inside a grid with distinct ends the quotient lies between 0 and len(xp)-1. */
  lemma ZohQuotientBounds(xi: real, xp: seq<real>)
    requires |xp| >= 2 && xp[0] < Last(xp) && xp[0] <= xi <= Last(xp)
    ensures 0.0 <= ZohQuotient(xi, xp) <= (|xp| - 1) as real
  {
    ScaledQuotientBounds((|xp| - 1) as real, xi - xp[0], Last(xp) - xp[0]);
  }

  /** 0 <= a <= s and s > 0 give 0 <= n*a/s <= n for n >= 0. */
  lemma ScaledQuotientBounds(n: real, a: real, s: real)
    requires n >= 0.0 && 0.0 <= a <= s && s > 0.0
    ensures 0.0 <= n * a / s <= n
  {
    MulNonneg(n, a);
    MulNonneg(n, s - a);
    DivBelow(0.0, n * a, s);
    DivBelow(n, n * a, s);
  }

  /** The index interp_zoh reads. Inside the grid the quotient is not negative, so Python's
      truncating int() is the floor. */
  function ZohIndex(xi: real, xp: seq<real>): (k: nat)
    requires |xp| >= 2 && xp[0] < Last(xp) && xp[0] <= xi <= Last(xp)
    ensures k < |xp|
  {
    ZohQuotientBounds(xi, xp);
    ZohQuotient(xi, xp).Floor
  }

  /** When interp_zoh(x, xp, fp) reads only inside its arrays: a grid of at least two points
      with distinct ends, one value per grid point, and every query inside the grid. */
  predicate ZohDefined(x: seq<real>, xp: seq<real>, fp: seq<real>)
  {
    |xp| >= 2 && xp[0] < Last(xp) && |fp| == |xp| &&
    forall i :: 0 <= i < |x| ==> xp[0] <= x[i] <= Last(xp)
  }

  /** interp_zoh (mpcpy/disturbances.py:150-173): one value per query, each read from fp at
      the index the grid's ends and length give. */
  function InterpZoh(x: seq<real>, xp: seq<real>, fp: seq<real>): (r: seq<real>)
    requires ZohDefined(x, xp, fp)
    ensures |r| == |x|
    ensures forall i :: 0 <= i < |x| ==> r[i] in fp
  {
    seq(|x|, i requires 0 <= i < |x| => fp[ZohIndex(x[i], xp)])
  }

  /** Python's int() on a float: truncation toward zero. */
  function Trunc(q: real): (r: int)
    ensures q >= 0.0 ==> r as real <= q < r as real + 1.0
    ensures q < 0.0 ==> r as real - 1.0 < q <= r as real
  {
    if q >= 0.0 then q.Floor else -((-q).Floor)
  }

  /** One element of interp_zoh as Python evaluates it, on any arrays: xp[0] of an empty grid
      raises, a grid whose ends coincide divides by zero (numpy then yields inf or nan, which
      int() refuses), and the truncated index reads fp with Python's wrap-around for
      negative indices or raises IndexError when it lies outside [-len(fp), len(fp)). */
  function ZohAt(xi: real, xp: seq<real>, fp: seq<real>): (r: Result<real>)
    ensures r.Ok? ==> r.value in fp
  {
    if |xp| == 0 || Last(xp) - xp[0] == 0.0 then Err(ZohOutOfRange)
    else
      var idx := Trunc(ZohQuotient(xi, xp));
      if -|fp| <= idx < 0 then Ok(fp[idx + |fp|])
      else if 0 <= idx < |fp| then Ok(fp[idx])
      else Err(ZohOutOfRange)
  }

  /** Inside a grid with distinct ends the truncation is a floor and the index is in range. */
  lemma ZohAtInRange(xi: real, xp: seq<real>, fp: seq<real>)
    requires |xp| >= 2 && xp[0] < Last(xp) && |fp| == |xp| && xp[0] <= xi <= Last(xp)
    ensures ZohAt(xi, xp, fp) == Ok(fp[ZohIndex(xi, xp)])
  {
    ZohQuotientBounds(xi, xp);
    assert Trunc(ZohQuotient(xi, xp)) == ZohIndex(xi, xp);
  }

  /** interp_zoh over all queries: it fails as soon as one query fails. */
  function ZohAll(x: seq<real>, xp: seq<real>, fp: seq<real>): (r: Result<seq<real>>)
    ensures r.Ok? <==> forall i :: 0 <= i < |x| ==> ZohAt(x[i], xp, fp).Ok?
    ensures r.Ok? ==> |r.value| == |x| && forall i :: 0 <= i < |x| ==> r.value[i] == ZohAt(x[i], xp, fp).value
  {
    if forall i :: 0 <= i < |x| ==> ZohAt(x[i], xp, fp).Ok? then
      Ok(seq(|x|, i requires 0 <= i < |x| => ZohAt(x[i], xp, fp).value))
    else Err(ZohOutOfRange)
  }

  /** Where interp_zoh reads only inside its arrays it succeeds with the in-range formula. */
  lemma ZohAllDefined(x: seq<real>, xp: seq<real>, fp: seq<real>)
    requires ZohDefined(x, xp, fp)
    ensures ZohAll(x, xp, fp) == Ok(InterpZoh(x, xp, fp))
  {
    forall i | 0 <= i < |x|
      ensures ZohAt(x[i], xp, fp) == Ok(fp[ZohIndex(x[i], xp)])
    {
      ZohAtInRange(x[i], xp, fp);
    }
    assert ZohAll(x, xp, fp).value == InterpZoh(x, xp, fp);
  }

  /** A grid with constant spacing h. */
  predicate Uniform(xp: seq<real>, h: real)
  {
    forall i :: 0 <= i < |xp| ==> xp[i] == Point(xp[0], i, h)
  }

  /** On a uniform grid interp_zoh is a step function: a query in [xp[k], xp[k+1]) reads
      fp[k], and the grid's end reads fp[-1]. */
  lemma ZohUniformStep(xi: real, xp: seq<real>, h: real, k: nat)
    requires |xp| >= 2 && h > 0.0 && Uniform(xp, h)
    requires k < |xp|
    requires xp[k] <= xi
    requires (k < |xp| - 1 && xi < xp[k + 1]) || (k == |xp| - 1 && xi == xp[k])
    ensures xp[0] < Last(xp) && xp[0] <= xi <= Last(xp)
    ensures ZohIndex(xi, xp) == k
  {
    var last := |xp| - 1;
    assert Last(xp) == Point(xp[0], last, h);
    PointOrder(xp[0], 0, last, h);
    PointOrder(xp[0], 0, k, h);
    if k < last {
      PointOrder(xp[0], k + 1, last, h);
      assert xi < Point(xp[0], k + 1, h);
    } else {
      PointOrder(xp[0], k, k + 1, h);
      assert xi < Point(xp[0], k + 1, h);
    }
    ZohUniformQuotient(xi, xp, h);
    StepsFloor(xp[0], xi, h, k);
  }

  /** A query in [start + k*h, start + (k+1)*h) lies k whole steps from start. */
  lemma StepsFloor(start: real, xi: real, h: real, k: int)
    requires h > 0.0 && Point(start, k, h) <= xi < Point(start, k + 1, h)
    ensures ((xi - start) / h).Floor == k
  {
    DivBelow(k as real, xi - start, h);
    DivBelow((k + 1) as real, xi - start, h);
    FloorBetween((xi - start) / h, k);
  }

  /** On a uniform grid the quotient interp_zoh floors is the query's distance from the
      start in steps. */
  lemma ZohUniformQuotient(xi: real, xp: seq<real>, h: real)
    requires |xp| >= 2 && h > 0.0 && Uniform(xp, h)
    ensures xp[0] < Last(xp)
    ensures ZohQuotient(xi, xp) == (xi - xp[0]) / h
  {
    assert Last(xp) == Point(xp[0], |xp| - 1, h);
    PointOrder(xp[0], 0, |xp| - 1, h);
    CancelFactor((|xp| - 1) as real, xi - xp[0], h);
  }

  /** n*a / (n*h) == a/h for positive n and h. */
  lemma CancelFactor(n: real, a: real, h: real)
    requires n > 0.0 && h > 0.0
    ensures n * a / (n * h) == a / h
  {
    assert n * h > 0.0;
    assert (a / h) * (n * h) == n * a;
  }

  lemma FloorBetween(q: real, k: int)
    requires k as real <= q < (k + 1) as real
    ensures q.Floor == k
  {
  }

  /** On a grid that is not uniform interp_zoh does not return the last sample at or before
      the query: on xp = [0, 1, 10] the query 2 reads fp[0], not fp[1]. */
  lemma ZohNonUniformCounterexample()
    ensures InterpZoh([2.0], [0.0, 1.0, 10.0], [1.0, 2.0, 3.0]) == [1.0]
  {
    assert ZohIndex(2.0, [0.0, 1.0, 10.0]) == 0 by {
      assert 2.0 * (2.0 - 0.0) / (10.0 - 0.0) == 0.4;
    }
  }

  // ---------------------------------------------------------------------------
  // np.sort

  function Insert(x: real, s: seq<real>): (r: seq<real>)
    requires NonDecreasing(s)
    ensures |r| == |s| + 1
    ensures forall i :: 0 <= i < |r| ==> r[i] == x || r[i] in s
    ensures NonDecreasing(r)
    ensures multiset(r) == multiset(s) + multiset{x}
  {
    if |s| == 0 || x <= s[0] then
      NonDecreasingCons(x, s);
      [x] + s
    else
      var t := Insert(x, s[1..]);
      assert s == [s[0]] + s[1..];
      assert forall i :: 0 <= i < |t| ==> s[0] <= t[i] by {
        forall i | 0 <= i < |t|
          ensures s[0] <= t[i]
        {
          if t[i] != x {
            var j :| 0 <= j < |s[1..]| && s[1..][j] == t[i];
            assert s[j + 1] == t[i];
          }
        }
      }
      NonDecreasingCons(s[0], t);
      [s[0]] + t
  }

  /** A value at or below every element of a non-decreasing sequence can lead it. */
  lemma NonDecreasingCons(a: real, t: seq<real>)
    requires NonDecreasing(t) && forall i :: 0 <= i < |t| ==> a <= t[i]
    ensures NonDecreasing([a] + t)
  {
    var r := [a] + t;
    forall i, j | 0 <= i <= j < |r|
      ensures r[i] <= r[j]
    {
      if 0 < i {
        assert r[i] == t[i - 1] && r[j] == t[j - 1];
      }
    }
  }

  /** np.sort: the non-decreasing permutation of s. */
  function Sort(s: seq<real>): (r: seq<real>)
    ensures NonDecreasing(r)
    ensures multiset(r) == multiset(s)
  {
    if |s| == 0 then []
    else
      assert s == [s[0]] + s[1..];
      Insert(s[0], Sort(s[1..]))
  }

  /** A sorted permutation of values between lo and hi that include lo and hi starts at lo
      and ends at hi. */
  lemma SortedEnds(s: seq<real>, r: seq<real>, lo: real, hi: real)
    requires NonDecreasing(r) && multiset(r) == multiset(s)
    requires forall i :: 0 <= i < |s| ==> lo <= s[i] <= hi
    requires lo in s && hi in s
    ensures |r| == |s| > 0 && r[0] == lo && Last(r) == hi
  {
    assert |r| == |multiset(r)| == |multiset(s)| == |s|;
    assert r[0] in multiset(s) && Last(r) in multiset(s);
    assert lo in multiset(r) && hi in multiset(r);
  }
}
