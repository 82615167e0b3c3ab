/** The Control base class of mpcpy/control.py: the horizon grid, the formulate-once flag
    and the bounded history of solutions. State estimation, prediction, formulation and the
    solution itself are hooks the owner supplies. */
module Control {
  import opened Wrappers
  import opened Numeric

  /** State estimates, predictions and plans are records of named 1-D arrays. */
  type Plan = map<string, seq<real>>

  /** stateestimation(starttime), handed the emulator's current trace it would read. */
  type Estimator = (real, Plan) -> Plan
  /** prediction(time). */
  type Predictor = seq<real> -> Plan
  /** solution(state, prediction). */
  type Solver = (Plan, Plan) -> Plan

  /** The base class' solution: an empty plan. */
  function EmptySolution(state: Plan, prediction: Plan): (r: Plan)
    ensures r == map[]
  {
    map[]
  }

  // ---------------------------------------------------------------------------
  // The horizon grid

  /** time(starttime): np.arange(starttime, starttime + horizon + 0.01*timestep, timestep). */
  function HorizonGrid(starttime: real, horizon: real, timestep: real): seq<real>
    requires timestep > 0.0
  {
    Arange(starttime, starttime + horizon + timestep / 100.0, timestep)
  }

  /** The grid starts at starttime, advances by timestep, and keeps every point strictly
      below starttime + horizon + 0.01*timestep; the next step would reach that bound. */
  lemma HorizonGridPoints(starttime: real, horizon: real, timestep: real)
    requires timestep > 0.0
    ensures var r := HorizonGrid(starttime, horizon, timestep);
      && (forall i :: 0 <= i < |r| ==> r[i] == starttime + i as real * timestep)
      && (forall i :: 0 <= i < |r| ==> r[i] < starttime + horizon + timestep / 100.0)
      && starttime + |r| as real * timestep >= starttime + horizon + timestep / 100.0
    ensures horizon >= 0.0 ==> |HorizonGrid(starttime, horizon, timestep)| > 0
  {
    ArangeCharacterized(starttime, starttime + horizon + timestep / 100.0, timestep);
  }

  /** A horizon of n whole timesteps gives n + 1 points, the last at starttime + horizon. */
  lemma HorizonGridWholeSteps(starttime: real, n: nat, timestep: real)
    requires timestep > 0.0
    ensures var r := HorizonGrid(starttime, n as real * timestep, timestep);
      |r| == n + 1 && r[n] == starttime + n as real * timestep
  {
    ArangeWholeSteps(starttime, n, timestep, 1.0 / 100.0);
    assert starttime + n as real * timestep + timestep / 100.0
        == starttime + n as real * timestep + (1.0 / 100.0) * timestep;
  }

  // ---------------------------------------------------------------------------
  // The history of solutions

  /** The history after one more solution: -1 keeps everything, N > 0 keeps the N most
      recent, dropping the oldest first, and any other value keeps nothing. */
  function Recorded(history: seq<Plan>, solution: Plan, savesolutions: int): seq<Plan>
  {
    if savesolutions == -1 then history + [solution]
    else if savesolutions > 0 then
      if |history + [solution]| > savesolutions then (history + [solution])[1..] else history + [solution]
    else history
  }

  /** The history after a run of solutions, starting from the empty list. */
  function History(solutions: seq<Plan>, savesolutions: int): seq<Plan>
    decreases |solutions|
  {
    if |solutions| == 0 then []
    else Recorded(History(solutions[..|solutions| - 1], savesolutions), solutions[|solutions| - 1], savesolutions)
  }

  function MinNat(a: nat, b: nat): nat
  {
    if a <= b then a else b
  }

  /** What a policy keeps of a run of solutions: all of them for -1, the min(N, calls) most
      recent in call order for N > 0, none otherwise. */
  lemma {:induction false} HistoryKeepsRecent(solutions: seq<Plan>, savesolutions: int)
    ensures savesolutions == -1 ==> History(solutions, savesolutions) == solutions
    ensures savesolutions > 0 ==>
      History(solutions, savesolutions) == solutions[|solutions| - MinNat(savesolutions, |solutions|)..]
    ensures savesolutions != -1 && savesolutions <= 0 ==> History(solutions, savesolutions) == []
    decreases |solutions|
  {
    if |solutions| > 0 {
      var n := |solutions|;
      var front := solutions[..n - 1];
      HistoryKeepsRecent(front, savesolutions);
      assert front + [solutions[n - 1]] == solutions;
      if savesolutions > 0 {
        var kept := front[n - 1 - MinNat(savesolutions, n - 1)..];
        assert kept + [solutions[n - 1]] == solutions[n - 1 - MinNat(savesolutions, n - 1)..];
        if |kept + [solutions[n - 1]]| > savesolutions {
          assert (kept + [solutions[n - 1]])[1..] == solutions[n - MinNat(savesolutions, n)..];
        }
      }
    }
  }

  /** One call changes the history by at most the new solution: -1 appends exactly it, a
      positive N keeps at most N entries with the new solution last, and the rest never change. */
  lemma RecordedBounds(history: seq<Plan>, solution: Plan, savesolutions: int)
    ensures var h := Recorded(history, solution, savesolutions);
      && (savesolutions == -1 ==> |h| == |history| + 1 && h[..|history|] == history)
      && (savesolutions > 0 && |history| <= savesolutions ==> |h| <= savesolutions)
      && (savesolutions > 0 ==> |h| > 0 && h[|h| - 1] == solution)
      && (savesolutions > 0 && |history| == savesolutions ==> h == history[1..] + [solution])
      && (savesolutions != -1 && savesolutions <= 0 ==> h == history)
  {
    if savesolutions > 0 && |history| == savesolutions {
      assert (history + [solution])[1..] == history[1..] + [solution];
    }
  }

  /** What a history may look like under a policy. */
  predicate Bounded(savesolutions: int, history: seq<Plan>)
  {
    && (savesolutions > 0 ==> |history| <= savesolutions)
    && (savesolutions != -1 && savesolutions <= 0 ==> history == [])
  }

  // ---------------------------------------------------------------------------
  // The object

  class Control {
    const stateestimation: Estimator
    const prediction: Predictor
    /** What the formulation hook returns: nothing, or a replacement solution function. */
    const formulation: Option<Solver>
    const horizon: real
    const timestep: real
    const receding: real
    const savesolutions: int
    var solution: Solver
    var solutions: seq<Plan>
    var formulated: bool
    /** How many times the formulation hook has been run. */
    ghost var formulations: nat

    ghost predicate Valid()
      reads this
    {
      && timestep > 0.0
      && formulations <= 1
      && (formulated <==> formulations == 1)
      && Bounded(savesolutions, solutions)
    }

    constructor(stateestimation: Estimator, prediction: Predictor, formulation: Option<Solver>, solution: Solver,
                horizon: real, timestep: real, receding: real, savesolutions: int)
      requires timestep > 0.0
      ensures Valid()
      ensures this.stateestimation == stateestimation && this.prediction == prediction
      ensures this.formulation == formulation && this.solution == solution
      ensures this.horizon == horizon && this.timestep == timestep && this.receding == receding
      ensures this.savesolutions == savesolutions
      ensures solutions == [] && !formulated && formulations == 0
    {
      this.stateestimation := stateestimation;
      this.prediction := prediction;
      this.formulation := formulation;
      this.solution := solution;
      this.horizon := horizon;
      this.timestep := timestep;
      this.receding := receding;
      this.savesolutions := savesolutions;
      solutions := [];
      formulated := false;
      formulations := 0;
    }

    /** time(starttime). */
    function Time(starttime: real): (r: seq<real>)
      requires timestep > 0.0
      ensures horizon >= 0.0 ==> |r| > 0 && r[0] == starttime
    {
      HorizonGridPoints(starttime, horizon, timestep);
      HorizonGrid(starttime, horizon, timestep)
    }

    /** __call__(starttime): estimates the state, predicts on time(starttime), runs the
        formulation on the first call only (a returned function replaces the solution for
        this and every later call), solves and records the solution by the policy. */
    method Call(starttime: real, trace: Plan) returns (plan: Plan)
      requires Valid()
      modifies this
      ensures Valid()
      ensures formulated && formulations == 1
      ensures old(formulated) ==> solution == old(solution)
      ensures !old(formulated) ==> solution == (if formulation.Some? then formulation.value else old(solution))
      ensures plan == solution(stateestimation(starttime, trace), prediction(Time(starttime)))
      ensures solutions == Recorded(old(solutions), plan, savesolutions)
    {
      var state := stateestimation(starttime, trace);
      var predicted := prediction(Time(starttime));
      if !formulated {
        var returned := formulation;
        formulations := formulations + 1;
        if returned.Some? {
          solution := returned.value;
        }
        formulated := true;
      }
      plan := solution(state, predicted);
      if savesolutions == -1 {
        solutions := solutions + [plan];
      } else if savesolutions > 0 {
        solutions := solutions + [plan];
        if |solutions| > savesolutions {
          solutions := solutions[1..];
        }
      }
    }
  }
}
