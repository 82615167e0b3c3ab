# mpcpy in Dafny

A model of mpcpy's receding-horizon simulation engine: the part that stitches time series
together. At each pass the MPC loop:

- asks a controller for a plan over its horizon;
- builds a simulation grid and an input axis;
- fills the emulator input, first from the plan (zero-order hold) and then from the
  disturbances (linear or zero-order hold, after the recorded data has been extended past
  its end);
- runs the emulator and splices the simulated segment onto one continuous result trace;
- moves the clock to the end of that trace.

After the loop, the disturbances are interpolated on the trace's time axis and added to
the results.

Modules, one per source file, plus two shared ones:

| module | file | models |
|---|---|---|
| `Wrappers` | wrappers.dfy | the exceptions the code can raise, as `Error`, plus `Result` and `Option` |
| `Numeric` | numeric.dfy | `np.arange`, `np.interp`, `np.sort`, `a[:-1]` and the module-level `interp_zoh`, on exact reals |
| `Disturbances` | disturbances.dfy | mpcpy/disturbances.py: the record extension of `__init__`, `interp` for 1-D and 2-D signals, `__call__`, `__contains__` |
| `BoundaryConditions` | boundary_conditions.dfy | mpcpy/boundaryconditions.py: the same extension, a linear query with the 2-D fallback |
| `Emulator` | emulator.dfy | mpcpy/emulator.py: initial conditions, `initialize`, and the merge of a simulation into the trace in `__call__` |
| `Control` | control.dfy | mpcpy/control.py: the horizon grid, formulate-once, the solution call and the saved-solutions history |
| `Mpc` | mpc.dfy | mpcpy/mpc.py: the loop of `MPC.__call__`, its grid, input axis and input, and the final results |
| `Legacy` | legacy.dfy | what mpcpy.py and \_\_init\_\_.py share: the three-fold boundary conditions, the trace splice and the input priority |
| `MpcpyPrototype` | mpcpy_prototype.dfy | mpcpy.py: the Dymola emulator, the base classes and its MPC loop |
| `InitPrototype` | init_prototype.dfy | __init__.py: the FMU emulator's input table, the function-wrapping classes and its resuming MPC loop |

Objects whose methods update fields are classes:

- `Emulator.Emulator`, whose `res` is the trace;
- `Control.Control`, with the `_formulated` flag, the `solution` function and the `solutions` history;
- `Mpc.Mpc` and the emulators and MPC objects of the two prototypes.

The disturbances and boundary conditions are never changed after construction, so they
are datatypes. Their constructors are methods, because they loop over the keys of the
record.

Loops over dictionary keys pick the next key nondeterministically. Each loop is proved
against a function of the whole record: `Disturbances.Disturbances.Call` against `Called`,
`Emulator.Emulator.Call` against `Merge`, and `Legacy.Splice` against `Spliced`. When a
key fails partway, the contract says what was already written.

Hooks stay hooks:

- the simulation (`simulate`, the Dymola or FMU model);
- state estimation, prediction, `formulation`, `solution`;
- the `nextstepcalculator`.

Each is a function value passed in. State estimation receives the emulator's trace as an
argument, where the Python object reaches it through a reference. A hook is a total
function, so a hook that raises is outside the model. For example,
`MpcpyPrototype.PerfectPrediction` requires a boundary record whose entries all match its
time axis; on any other record `self.boundaryconditions(time)` at mpcpy.py:169-174 raises
numpy's `ValueError`.

Numbers are exact reals.

- `np.interp` is the recursive `Numeric.Interp`. It clamps below the first sample and
  above the last, and interpolates linearly in between. A query equal to a repeated
  sample takes the value of the last repetition, as numpy's search does
  (`Numeric.InterpAtLastRepetition`).
- `interp_zoh` (mpcpy/disturbances.py:173) is written out as the code computes it:
  - the index `(len(xp)-1)*(xi-xp[0])/(xp[-1]-xp[0])` is truncated toward zero (`int()`);
  - a negative index inside `[-len(fp), 0)` reads from the end of `fp`, as Python's
    indexing does;
  - an index outside `[-len(fp), len(fp))` is `ZohOutOfRange`, Python's `IndexError`;
  - an empty grid, or a grid whose ends coincide, is also `ZohOutOfRange`. Python raises
    there too: indexing an empty array, or `int()` of the infinite or nan quotient.
- An exception the code raises, such as a `KeyError`, an `IndexError` or numpy's
  `ValueError` on a shape mismatch, becomes `Err(e)` with the matching `Error`.

What the code does with some inputs:

- On a uniform grid, `interp_zoh` returns the last sample at or before the query
  (`Numeric.ZohUniformStep`). On a non-uniform grid it does not: the truncated index
  assumes equal steps (`Numeric.ZohNonUniformCounterexample`).
- The extension at mpcpy/disturbances.py:61-74 appends samples only after the record's
  end. Before the first sample, `np.interp` holds the first value in both modes
  (`Disturbances.ExtendedInterpInRange` covers every query up to the second-to-last
  sample).
- Construction (mpcpy/disturbances.py:57-79) does not check that 'time' increases or that
  lengths agree:
  - a length mismatch fails later, in `np.interp` at line 99 (`LengthMismatch`);
  - a rank-0 array fails at construction, because `data[key][:-1]` at lines 69 and 74
    cannot slice a scalar (`BadShape`);
  - in periodic mode an array of rank 3 or more is accepted and fails when queried, at
    line 111 (`RankError`). In held mode line 74 already raises at construction for
    every rank of 2 or more (see "## Findings"; `Disturbances.HeldHighRankCounterexample`);
  - a 'time' entry that is not 1-D is refused at construction (`BadShape`,
    `Disturbances.TimeOf`). Lines 61-62 would still build the extended axis from it, and
    only `np.interp` at line 99 raises later.

## Model

| member | source | states |
|---|---|---|
| Numeric.ArangeCharacterized | mpcpy/control.py:52 | np.arange(start, stop, step) is exactly the points start + i*step below stop, and the next point is not below stop |
| Numeric.ArangeLengthBounds | mpcpy/control.py:52 | the last point of np.arange is below stop, the next is not, and a stop above start gives a non-empty grid |
| Numeric.ArangeWholeSteps | mpcpy/control.py:52 | with the 0.01*step (or any fraction of a step) margin, a horizon of n whole steps gives n+1 points, ending at start + n*step |
| Numeric.Arange | mpcpy/control.py:52 | np.arange(start, stop, step) on exact reals; its points and length are stated by Numeric.ArangeCharacterized and Numeric.ArangeLengthBounds |
| Numeric.RemainingStepsDecrease | mpcpy/mpc.py:107-150 | an advance of at least min(dt, what is left) strictly decreases the number of result steps left before emulationtime, so the loop terminates |
| Numeric.Interp | mpcpy/disturbances.py:99 | np.interp at one query: held at fp[0] before xp[0] and at fp[-1] after xp[-1], linear in between, the last repetition of a repeated sample winning; its properties are the Numeric.Interp* lemmas below |
| Numeric.InterpAll | mpcpy/disturbances.py:99 | np.interp returns one value per query |
| Numeric.InterpChecked | mpcpy/disturbances.py:99 | np.interp succeeds exactly when the sample and value arrays are non-empty and equally long, and otherwise reports which of the two failed |
| Numeric.InterpAtSample | mpcpy/disturbances.py:99 | on an increasing grid, np.interp at a sample returns that sample's value |
| Numeric.InterpAtLastRepetition | mpcpy/disturbances.py:99 | on a non-decreasing grid, np.interp at a sample that the grid then leaves (or ends on) returns that sample's value, so of repeated samples the last one counts |
| Numeric.InterpRepeatedSample | mpcpy/disturbances.py:99 | np.interp(1, [0, 1, 1, 2], [0, 5, 7, 9]) is 7, the value of the last repetition |
| Numeric.InterpWithinValues | mpcpy/disturbances.py:99 | np.interp never returns a value outside the range of fp: every result lies between two of its values |
| Numeric.InterpIdentity | mpcpy/disturbances.py:99 | interpolating the grid onto itself returns the query inside the grid |
| Numeric.InterpConstant | mpcpy/disturbances.py:99 | a constant value array interpolates to that constant everywhere |
| Numeric.InterpShift | mpcpy/disturbances.py:99 | shifting the grid and the query by the same amount leaves np.interp unchanged |
| Numeric.InterpSuffix | mpcpy/disturbances.py:99 | a query at or after sample j depends only on the samples from j on |
| Numeric.InterpPrefix | mpcpy/disturbances.py:99 | a query at or before sample j depends only on the samples up to j |
| Numeric.ZohQuotientBounds | mpcpy/disturbances.py:173 | inside the grid, (len(xp)-1)*(xi-xp[0])/(xp[-1]-xp[0]) lies in [0, len(xp)-1] |
| Numeric.ZohIndex | mpcpy/disturbances.py:173 | inside the grid, the truncated index is a valid index of fp |
| Numeric.Trunc | mpcpy/disturbances.py:173 | int() truncates toward zero: a non-negative quotient is rounded down and a negative one up, by less than one |
| Numeric.InterpZoh | mpcpy/disturbances.py:150-173 | interp_zoh returns one value per query, each one a sample of fp |
| Numeric.ZohAt | mpcpy/disturbances.py:173 | the value for one query, with Python's truncation and wrap-around; a value it returns is a sample of fp |
| Numeric.ZohAtInRange | mpcpy/disturbances.py:173 | inside a non-degenerate grid, the value for one query is fp at the in-range index |
| Numeric.ZohAll | mpcpy/disturbances.py:150-173 | interp_zoh succeeds exactly when every query does, and then returns the per-query values |
| Numeric.ZohAllDefined | mpcpy/disturbances.py:150-173 | when every query lies inside a non-degenerate grid, interp_zoh returns the in-range formula's values |
| Numeric.ZohUniformStep | mpcpy/disturbances.py:150-173 | on a uniform grid interp_zoh is a step function: a query in [xp[k], xp[k+1]) reads fp[k], and xp[-1] reads fp[-1] |
| Numeric.ZohUniformQuotient | mpcpy/disturbances.py:173 | on a uniform grid of step h the index quotient is (xi-xp[0])/h |
| Numeric.ZohNonUniformCounterexample | mpcpy/disturbances.py:150-173 | on the non-uniform grid [0, 1, 10] the query 2 reads fp[0], not the last sample before it |
| Numeric.Insert | mpcpy/mpc.py:127 | inserting into a sorted sequence keeps it sorted, adds one element and keeps every other element |
| Numeric.Sort | mpcpy/mpc.py:127 | np.sort returns a sorted permutation of its input |
| Numeric.SortedEnds | mpcpy/mpc.py:127 | a sorted permutation of values in [lo, hi] that include lo and hi starts at lo and ends at hi |
| Disturbances.TimeOf | mpcpy/disturbances.py:61-62 | the time axis is read when 'time' is a non-empty 1-D entry, and is an error otherwise |
| Disturbances.IndicesFrom | mpcpy/disturbances.py:61 | the indices found from position i on are increasing, in range, and less than extra_time after the first sample |
| Disturbances.Indices | mpcpy/disturbances.py:61 | np.where(time - time[0] < extra_time)[0] holds increasing, in-range indices that satisfy the test |
| Disturbances.IndicesFromComplete | mpcpy/disturbances.py:61 | every index from i on that satisfies the test is found |
| Disturbances.IndicesComplete | mpcpy/disturbances.py:61 | every index that satisfies the test is in ind |
| Disturbances.IndicesFromPrefix | mpcpy/disturbances.py:61 | on a non-decreasing axis, the indices from i on are consecutive and stop at the first sample that fails the test |
| Disturbances.IndicesPrefix | mpcpy/disturbances.py:61 | on a non-decreasing axis, ind is 0..m-1 for the samples within extra_time, and is non-empty when extra_time > 0 |
| Disturbances.ExtendTime | mpcpy/disturbances.py:62 | the extended axis has len(time) - 1 + len(ind) samples |
| Disturbances.ExtendTimeShape | mpcpy/disturbances.py:62 | the extended axis is time[:-1] followed by the first m samples shifted by the record's span, and its sample n-1 is time[-1] |
| Disturbances.ExtendTimeIncreasing | mpcpy/disturbances.py:62 | a strictly increasing axis stays strictly increasing when extended, and ends less than extra_time after time[-1] |
| Disturbances.ExtendPeriodic | mpcpy/disturbances.py:64-69 | the periodic extension succeeds exactly when the indices fit the signal, and keeps its rank, width and well-formedness; for 1-D and 2-D signals the result is data[key][:-1] followed by the samples or rows at the chosen indices |
| Disturbances.ExtendPeriodicValues | mpcpy/disturbances.py:64-69 | a periodic 1-D signal keeps its values up to the last one and repeats its first m values after them, matching the axis in length |
| Disturbances.ExtendHeldAsWritten | mpcpy/disturbances.py:74 | the held extension succeeds exactly on a non-empty 1-D signal: numpy refuses one of rank 2 or more |
| Disturbances.ExtendHeld | mpcpy/disturbances.py:70-74 | the held extension of a non-empty 1-D or 2-D signal keeps data[key][:-1] and then repeats its last value or row m times, keeping its width |
| Disturbances.HeldAgrees | mpcpy/disturbances.py:70-74 | wherever the code as written succeeds, the corrected held extension gives the same result |
| Disturbances.ExtendHeldValues | mpcpy/disturbances.py:70-74 | a held 1-D signal keeps its values and then holds the last one, matching the axis in length |
| Disturbances.ExtendValue | mpcpy/disturbances.py:64-74 | one value array, extended in the chosen mode: it fails only with BadShape, always for a rank-0 array, and otherwise keeps the rank and width and has len(v) - 1 + len(ind) samples |
| Disturbances.Extension | mpcpy/disturbances.py:57-74 | the stored record has the same keys: 'time' holds the extended axis and every other key its extension; it fails exactly when the axis or one signal fails |
| Disturbances.ExtensionAsWritten | mpcpy/disturbances.py:57-74 | the record as the code builds it: in held mode any signal that is not 1-D makes construction fail |
| Disturbances.ExampleAxis | mpcpy/disturbances.py:61-62 | on time [0, 1] with a long extra_time, ind is [0, 1] and the axis becomes [0, 1, 2] |
| Disturbances.ExampleHeldRows | mpcpy/disturbances.py:70-74 | the corrected held extension of the rows [[1], [2]] by two samples is [[1], [2], [2]] |
| Disturbances.HeldMatrixCounterexample | mpcpy/disturbances.py:74 | a non-periodic record with a 2-D signal fails as written and extends as intended once corrected |
| Disturbances.HeldHighRankCounterexample | mpcpy/disturbances.py:74 | a non-periodic record with a signal of rank 3 fails as written and is kept by the corrected extension |
| Disturbances.ExtendedInterpInRange | mpcpy/disturbances.py:57-99 | at or before the second-last recorded time, querying the extended record gives the same value as the original record, in both modes |
| Disturbances.PeriodicQueryBound | mpcpy/disturbances.py:61 | a sample within extra_time bounds the repeated prefix from above |
| Disturbances.PeriodicShifted | mpcpy/disturbances.py:64-69 | periodic mode: a query one record span past any point of the repeated prefix reads the value at that point |
| Disturbances.PeriodicShiftedInside | mpcpy/disturbances.py:64-69 | the same shifted-read property, for queries inside the repeated prefix |
| Disturbances.PeriodicTail | mpcpy/disturbances.py:62-69 | from sample n-1 on, the extended axis and values are the repeated prefix shifted by the span, and the axis stays increasing |
| Disturbances.PeriodicRepeat | mpcpy/disturbances.py:64-69 | periodic mode: the extended record takes the same value at s and at s plus the record's span |
| Disturbances.HeldAfterEnd | mpcpy/disturbances.py:70-74 | held mode: every query at or after the last recorded time reads the last value |
| Disturbances.Create | mpcpy/disturbances.py:29-79 | Disturbances(data, periodic, extra_time, zoh_keys) stores the extended record and the zoh keys (none when zoh_keys is None), or raises the extension's error; it uses the corrected held extension, so a non-periodic record with a signal of rank 2 or more is accepted where the code as written raises |
| Disturbances.CreateKeepsKeys | mpcpy/disturbances.py:143-144 | `key in dst` holds exactly for the keys of the data it was built from |
| Disturbances.Column | mpcpy/disturbances.py:105-109 | data[key][:, j] is column j, one value per row |
| Disturbances.Interp1 | mpcpy/disturbances.py:95-99 | a 1-D query by zero-order hold or np.interp returns one value per query |
| Disturbances.MatInterp | mpcpy/disturbances.py:101-109 | a 2-D query returns len(time) rows of the signal's width, with column j the 1-D query of column j; it fails when one column fails |
| Disturbances.InterpMatrix | mpcpy/disturbances.py:101-109 | the column loop into np.zeros((len(time), width)) computes exactly the 2-D query |
| Disturbances.FillColumn | mpcpy/disturbances.py:106 | value[:, j] = col overwrites column j and nothing else |
| Disturbances.Disturbances.InterpKey | mpcpy/disturbances.py:81-113 | interp(key, time): a missing key raises, a signal that is not 1-D or 2-D raises, a 1-D answer has one value per query (each one a sample when the key is zoh), and a 2-D answer keeps the width |
| Disturbances.Disturbances.Interp | mpcpy/disturbances.py:81-113 | the imperative interp computes InterpKey |
| Disturbances.Disturbances.Called | mpcpy/disturbances.py:115-135 | the result of `dst(time)` has the record's keys, each interpolated on time |
| Disturbances.Disturbances.Call | mpcpy/disturbances.py:115-135 | the key loop of `__call__` succeeds exactly when every key can be interpolated, returns Called, and otherwise reports the error of a key that fails |
| Disturbances.TimeEntryIsQuery | mpcpy/disturbances.py:131-133 | the 'time' entry of `dst(time)` is the query itself, inside the extended axis, when 'time' is not a zoh key |
| Disturbances.ZohKeyStep | mpcpy/disturbances.py:96-97 | on a uniform stored axis, a zoh key holds sample k on [time[k], time[k+1]) |
| BoundaryConditions.BoundaryConditions.Get | mpcpy/boundaryconditions.py:71-72 | `bcs[key]` is the stored entry exactly when the key is present |
| BoundaryConditions.BoundaryConditions.InterpKey | mpcpy/boundaryconditions.py:59-67 | one key of the query: a 1-D entry gives one value per query, a 2-D entry falls back to columns and keeps its width, anything else raises |
| BoundaryConditions.BoundaryConditions.Called | mpcpy/boundaryconditions.py:51-69 | the query result keeps the keys and interpolates each one; it is the disturbances' query without zero-order-hold keys |
| BoundaryConditions.CallAgrees | mpcpy/boundaryconditions.py:51-69 | where every key of the fallback query succeeds, the disturbances' query without zero-order-hold keys succeeds on every key with the same values |
| BoundaryConditions.BoundaryConditions.Call | mpcpy/boundaryconditions.py:51-69 | the key loop succeeds exactly when every key can be interpolated, returns Called, and otherwise reports a failing key's error |
| BoundaryConditions.Create | mpcpy/boundaryconditions.py:24-49 | Boundaryconditions(bcs, periodic, extra_time) stores the same extended record as the disturbances, or raises its error; like Disturbances.Create it uses the corrected held extension, so a non-periodic record with a signal of rank 2 or more is accepted where mpcpy/boundaryconditions.py:49 raises |
| BoundaryConditions.AgreesWithDisturbances | mpcpy/boundaryconditions.py:59-67 | the query of one key agrees with the disturbances' linear query of the same record |
| BoundaryConditions.CallShape | mpcpy/boundaryconditions.py:59-69 | every key of the query result has len(time) samples, and a 2-D key keeps its width |
| Control.EmptySolution | mpcpy/control.py:65-73 | the base solution is the empty plan |
| Control.HorizonGrid | mpcpy/control.py:47-52 | time(starttime) on the horizon; its points are stated by Control.HorizonGridPoints and Control.HorizonGridWholeSteps |
| Control.HorizonGridPoints | mpcpy/control.py:47-52 | time(starttime) is the points starttime + i*timestep below starttime + horizon + 0.01*timestep, non-empty for a non-negative horizon |
| Control.HorizonGridWholeSteps | mpcpy/control.py:47-52 | a horizon of n timesteps gives n+1 points, ending at starttime + horizon |
| Control.Recorded | mpcpy/control.py:100-108 | the history after one more solution under the savesolutions policy; stated by Control.RecordedBounds |
| Control.History | mpcpy/control.py:100-108 | the history after a run of solutions from the empty list; stated by Control.HistoryKeepsRecent |
| Control.HistoryKeepsRecent | mpcpy/control.py:100-108 | after any sequence of calls, savesolutions == -1 keeps all solutions, > 0 keeps the most recent savesolutions, and anything else keeps none |
| Control.RecordedBounds | mpcpy/control.py:100-108 | one call appends under -1, appends and drops the oldest once the history is full under > 0, and changes nothing otherwise |
| Control.Control.constructor | mpcpy/control.py:28-45 | a new controller has the given hooks and sizes, no saved solutions, and is not formulated |
| Control.Control.Time | mpcpy/control.py:47-52 | a non-negative horizon gives a grid that starts at starttime |
| Control.Control.Call | mpcpy/control.py:76-110 | `__call__` formulates on the first call only (installing the solution formulation returns, if any), solves on the estimated state and the predictions on the horizon grid, and records the plan per savesolutions |
| Emulator.NoSimulation | mpcpy/emulator.py:81-108 | the base simulate returns an empty result |
| Emulator.Capture | mpcpy/emulator.py:55-59 | an initial condition keeps the last element of an array and keeps a scalar as it is |
| Emulator.CaptureIdempotent | mpcpy/emulator.py:55-59 | capturing a captured initial condition changes nothing |
| Emulator.CaptureAll | mpcpy/emulator.py:53-59 | the constructor captures every initial condition under its own key |
| Emulator.Initialized | mpcpy/emulator.py:75-79 | initialize gives 'time' = [0] and each captured initial condition as a one-element array, except an empty array, which stays empty (see "## Left out") |
| Emulator.InitializedFromCaptured | mpcpy/emulator.py:53-79 | after construction and initialize, each key holds the scalar or the array's last value; an empty array gives an empty entry |
| Emulator.InterpFrom | mpcpy/emulator.py:149 | np.interp(time, rec['time'], rec[key]) fails without 'time' or on mismatched lengths, and otherwise interpolates every requested time |
| Emulator.InputEntry | mpcpy/emulator.py:141-151 | the new entry of a key only the input provides; stated by Emulator.MergeLength and Emulator.MergeOneSample |
| Emulator.ResultEntry | mpcpy/emulator.py:153-168 | the new entry of a key of the simulation result; stated by Emulator.MergeTime, Emulator.MergeLength and Emulator.MergeOneSample |
| Emulator.MergedEntry | mpcpy/emulator.py:138-169 | what `__call__` stores under a key: the result's entry over the input's, and the old entry for a key in neither; stated by Emulator.MergeSimulatedKeys |
| Emulator.Merge | mpcpy/emulator.py:138-169 | the new trace has the old keys, the input keys and the result keys, each merged as `__call__` merges it |
| Emulator.MergeTime | mpcpy/emulator.py:153-160 | the trace's time axis becomes the old axis without its last point, followed by the requested times, and stays increasing when the segment starts at the old end |
| Emulator.MergeTimeFromInput | mpcpy/emulator.py:141-151 | when the simulation reports no 'time', the input's axis extends the trace's axis by the requested times |
| Emulator.MergeLength | mpcpy/emulator.py:141-162 | a merged key drops its last old sample and gains one sample per requested time, keeping its older samples |
| Emulator.MergeOneSample | mpcpy/emulator.py:141-168 | a one-sample value replaces the trace entry, and a new input key is interpolated on the requested times |
| Emulator.MergeSimulatedKeys | mpcpy/emulator.py:141-168 | simulation results override inputs, and keys in neither stay as they were |
| Emulator.MergeReproducesInput | mpcpy/emulator.py:138-151 | with the base simulate and an empty trace, an input given on the requested times is stored unchanged |
| Emulator.Emulator.constructor | mpcpy/emulator.py:29-63 | a new emulator stores the input keys and the captured initial conditions, and has an empty trace |
| Emulator.Emulator.Initialize | mpcpy/emulator.py:65-79 | initialize replaces the trace with the initial state at time 0 |
| Emulator.Emulator.Call | mpcpy/emulator.py:110-169 | `__call__` simulates from time[0] to time[-1]; it stores and returns Merge exactly when every key merges, and otherwise reports a failing key with the merges done so far |
| Emulator.Emulator.AddInputs | mpcpy/emulator.py:141-151 | the input loop merges every input key the simulation did not report |
| Emulator.Emulator.AddResults | mpcpy/emulator.py:153-168 | the result loop merges every key the simulation reported |
| Mpc.DefaultNextStep | mpcpy/mpc.py:66-70 | without a nextstepcalculator, every pass advances one receding step |
| Mpc.Advance | mpcpy/mpc.py:114-116 | how far nextStep receding horizons reach; used by Mpc.GridStop |
| Mpc.GridStop | mpcpy/mpc.py:114-116 | the stop value of the grid's np.arange, min(emulationtime + dt, starttime + nextStep*receding + 0.01*dt); stated through Mpc.SimulationGridPoints |
| Mpc.SimulationGrid | mpcpy/mpc.py:114-119 | an empty np.arange grid leaves time[-1] unreadable and raises |
| Mpc.SimulationGridPoints | mpcpy/mpc.py:114-119 | the grid is starttime + i*dt below min(emulationtime + dt, starttime + nextStep*receding + 0.01*dt), with the last point clamped to emulationtime, and exists exactly when that bound exceeds starttime |
| Mpc.SimulationGridAdvances | mpcpy/mpc.py:114-119 | before emulationtime, a pass that advances more than 0.99*dt gives an increasing grid of at least two points from starttime, ending between min(starttime + dt, emulationtime) and emulationtime |
| Mpc.Spliced | mpcpy/mpc.py:123-127 | the selected breakpoints are control times shifted by -1e-6*dt that fall in (time[0], time[-1]]: after the grid's first point and at or before its last |
| Mpc.SplicedComplete | mpcpy/mpc.py:123-127 | every shifted control time in the window is selected |
| Mpc.Offset | mpcpy/mpc.py:122-127 | the shift 1e-6*dt of a control time lies strictly between 0 and one result step |
| Mpc.InputTime | mpcpy/mpc.py:127 | inputtime is sorted and is a permutation of the grid together with the selected breakpoints |
| Mpc.InputTimeSpan | mpcpy/mpc.py:123-128 | the input axis holds every grid point, starts at time[0] and ends at time[-1] |
| Mpc.PlanOnAxis | mpcpy/mpc.py:128-133 | after the controls, the input holds 'time' = inputtime and every other plan key read by zero-order hold on inputtime |
| Mpc.AddControls | mpcpy/mpc.py:130-133 | the control loop succeeds exactly when every plan key can be read, gives PlanOnAxis, and otherwise reports a key that fails |
| Mpc.WithDisturbances | mpcpy/mpc.py:135-140 | the inputs loop only adds keys: everything already in the input stays as it was |
| Mpc.WithDisturbancesAdds | mpcpy/mpc.py:135-140 | a key the input lacked is added exactly when it is an emulator input the disturbances hold, with the disturbances' values on the input axis |
| Mpc.AddDisturbances | mpcpy/mpc.py:135-140 | the imperative inputs loop computes WithDisturbances |
| Mpc.WithDisturbancesErrSticks | mpcpy/mpc.py:135-140 | once an emulator input fails, the loop's result is that failure |
| Mpc.MakeInput | mpcpy/mpc.py:121-140 | the input is built from the controls and then the disturbances, and fails with a plan key's error when the plan cannot be read |
| Mpc.InputPriority | mpcpy/mpc.py:128-140 | in the finished input 'time' is inputtime, a plan key comes from the plan, and any other key exactly when it is an emulator input the disturbances hold |
| Mpc.TraceEndsAtGrid | mpcpy/mpc.py:143-150 | after the emulator call, the trace's time axis is the old one without its last point, followed by the grid |
| Mpc.Chained | mpcpy/mpc.py:107-150 | the grids of the passes tile the run from 0: each has two or more increasing points within emulationtime and starts where the last ended; kept by Mpc.ChainedExtend |
| Mpc.ChainedExtend | mpcpy/mpc.py:107-150 | a grid that starts where the last ended, increases and stays within emulationtime extends the chain of passes |
| Mpc.Lift | mpcpy/mpc.py:159 | the emulator's 1-D trace becomes a record with the same keys and values |
| Mpc.Final | mpcpy/mpc.py:158-162 | res.update(emulator.res) followed by res.update(disturbances(res['time'])); stated by Mpc.FinalOverrides |
| Mpc.FinalOverrides | mpcpy/mpc.py:158-162 | the returned results take the disturbances where they have the key, then the trace, then the earlier results, and keep 'time' as the trace's axis when that axis lies inside the disturbances' and 'time' is not a zoh key |
| Mpc.Mpc.constructor | mpcpy/mpc.py:26-75 | a new MPC stores its collaborators and sizes, uses the given nextstepcalculator or the one-step default, and has no results |
| Mpc.Mpc.Step | mpcpy/mpc.py:110-150 | one pass: the plan is the controller's, and the grid, input and new trace are exactly the ones defined above; the grid is increasing, and the trace now ends with it |
| Mpc.Mpc.Pass | mpcpy/mpc.py:107-150 | a pass moves the clock to the end of the trace, within emulationtime, extends the chain of grids, and strictly decreases the steps left |
| Mpc.Mpc.Collect | mpcpy/mpc.py:158-166 | self.res is updated with the trace and then with the disturbances on the trace's axis; this fails exactly when a disturbance cannot be interpolated there |
| Mpc.Mpc.Loop | mpcpy/mpc.py:107-156 | the loop ends with the trace's last instant exactly at emulationtime, and the grids of its passes chain from 0 to emulationtime |
| Mpc.Mpc.Run | mpcpy/mpc.py:77-166 | `__call__` initializes the emulator, runs the loop to emulationtime, and returns the results Collect defines |
| Legacy.Extended | mpcpy.py:94-114 | the three-fold record keeps the keys, and fails without a non-empty 'time' or, when not periodic, on an empty entry |
| Legacy.ThreeFoldTime | mpcpy.py:105 | the three-fold axis has 3*len(t) - 2 samples; its blocks are stated by Legacy.ThreeFoldTimeBlocks |
| Legacy.PeriodicValues | mpcpy.py:108 | the periodic values of a non-empty entry have 3*len(v) - 2 samples; stated by Legacy.PeriodicBlocks |
| Legacy.HeldValues | mpcpy.py:114 | the held values have len(v) + 2*(n-1) samples; stated by Legacy.HeldBlocks |
| Legacy.ThreeFoldTimeBlocks | mpcpy.py:105 | the three-fold axis is the record shifted back by its last time, the record, and the record shifted forward, sharing the joins (3n-2 samples) |
| Legacy.PeriodicBlocks | mpcpy.py:108 | the periodic values are the record's values three times, sharing the joins |
| Legacy.HeldBlocks | mpcpy.py:114 | the held values are the first value n-1 times, the record, and the last value n-1 times |
| Legacy.ThreeFoldTimeIncreasing | mpcpy.py:105 | an increasing axis from a non-negative start stays increasing when tripled |
| Legacy.Boundary.Called | mpcpy.py:117-129 | the query result keeps the keys and has len(time) samples per key |
| Legacy.Boundary.Call | mpcpy.py:117-129 | the query succeeds exactly when every entry is as long as the axis, returns Called, and otherwise fails with a length mismatch |
| Legacy.Create | mpcpy.py:94-114 | Boundaryconditions(bcs, periodic) stores the three-fold record, or raises its error |
| Legacy.ExtendedCallDefined | mpcpy.py:94-129 | a record whose entries match its axis can always be queried after extension |
| Legacy.ExtendedValuesMiddle | mpcpy.py:102-114 | in both modes the middle block of the extended values is the record itself |
| Legacy.ExtendedInsideRecord | mpcpy.py:102-129 | inside the recorded range, the extended record interpolates to the same values as the original |
| Legacy.CalledTimeIsQuery | mpcpy.py:125-127 | the 'time' entry of the query result is the query inside the stored axis |
| Legacy.SpliceEntry | mpcpy.py:83-88 | one key of the merge fails when the simulation lacks it, and otherwise succeeds exactly when np.interp does |
| Legacy.Spliced | mpcpy.py:83-88 | the merged trace has the old keys (or, on an empty trace, the result's), each merged from the simulation |
| Legacy.Splice | mpcpy.py:83-88 | the merge loop succeeds exactly when every key merges, gives Spliced, and otherwise reports a failing key with the merges done so far |
| Legacy.SplicedTime | mpcpy.py:83-88 | when the simulation covers the segment, the trace's time axis becomes the old one without its last point, followed by the requested times |
| Legacy.SplicedKeepsKeys | mpcpy.py:83-85 | a non-empty trace keeps its keys, and the merge depends only on the simulated keys the trace holds |
| Legacy.GridAdvances | mpcpy.py:283 | when receding + 0.01*dt exceeds dt, the pass grid has at least two increasing points from starttime, and ends at or after starttime + dt |
| Legacy.InputValue | mpcpy.py:290-294 | an emulator input is read from the boundary conditions first and otherwise from the plan, and is absent when neither has it |
| Legacy.Inputs | mpcpy.py:288-294 | the input after the emulator inputs in list order; stated by Legacy.InputPriority and Legacy.InputsErrSticks |
| Legacy.FillInputs | mpcpy.py:288-294 | the imperative input loop computes Inputs |
| Legacy.InputsErrSticks | mpcpy.py:288-294 | once an input fails, the loop's result is that failure |
| Legacy.InputPriority | mpcpy.py:288-294 | the input is built exactly when each emulator input can be read; each then comes from the boundary conditions, else the plan, else is left as it started |
| MpcpyPrototype.FirstSamples | mpcpy.py:39-41 | initialize keeps the first sample of every result entry, and fails on an empty one |
| MpcpyPrototype.Emulator.constructor | mpcpy.py:13-28 | a new emulator stores its inputs and model and has an empty trace |
| MpcpyPrototype.Emulator.Initialize | mpcpy.py:30-41 | initialize replaces the trace with the first samples of a run from 0 to initializationtime, keeping what it copied when an entry is empty |
| MpcpyPrototype.Emulator.Call | mpcpy.py:57-88 | `__call__` fails without a non-empty input 'time', and otherwise splices a run over that span onto the trace |
| MpcpyPrototype.NoEstimate | mpcpy.py:146-149 | the base state estimation gives no state: the empty record of Control.EmptySolution |
| MpcpyPrototype.PerfectPrediction | mpcpy.py:169-174 | the base prediction is the boundary conditions on the requested times |
| MpcpyPrototype.Control.Time | mpcpy.py:201-206 | a non-negative horizon gives a grid that starts at starttime |
| MpcpyPrototype.Control.Call | mpcpy.py:224-235 | `__call__(starttime)`: the solution function applied to the estimated state and the predictions on time(starttime) |
| MpcpyPrototype.Mpc.constructor | mpcpy.py:241-258 | a new MPC stores its collaborators and sizes, and has no results |
| MpcpyPrototype.Mpc.Step | mpcpy.py:282-304 | one pass: the input starts as {'time': grid} and takes each emulator input from the boundary conditions first, then the plan; the emulator simulates input['time'], which is the grid unless an emulator input named 'time' overwrote it, and the trace is spliced on that axis; the clock becomes res['time'][-1], and without a 'time' input it is the grid's last point, at least one result step ahead |
| MpcpyPrototype.Mpc.Run | mpcpy.py:260-324 | `__call__` runs until the trace reaches emulationtime, and returns the old results updated with the trace and with the boundary conditions on its axis |
| InitPrototype.Stacked | __init__.py:65-67 | the vstack holds time and then each input in key order |
| InitPrototype.InputTable | __init__.py:60-70 | the input tuple fails when the arrays cannot be stacked, and otherwise names the keys in order |
| InitPrototype.InputTableSamples | __init__.py:60-70 | row i of the table is time[i] followed by each input's sample i |
| InitPrototype.CreateInputTuple | __init__.py:60-70 | the imperative vstack loop computes the input table |
| InitPrototype.InsertionOrderKeys | __init__.py:209-215 | the dictionary's key order holds each emulator input that has a source exactly once |
| InitPrototype.InsertionOrder | __init__.py:209-215 | the key order of the input dict lists only emulator inputs that one of the records holds; stated fully by InitPrototype.InsertionOrderKeys |
| InitPrototype.InputOrder | __init__.py:209-215 | the keys of the input dictionary are those of its insertion order |
| InitPrototype.Emulator.constructor | __init__.py:13-30 | a new emulator stores its inputs and model and has an empty trace |
| InitPrototype.Emulator.Call | __init__.py:33-57 | `__call__` fails on an empty time or an input that cannot be stacked, and otherwise splices the run over [time[0], time[-1]] onto the trace |
| InitPrototype.Prediction.Call | __init__.py:124-125 | the prediction is prediction_function applied to the boundary conditions on the requested times |
| InitPrototype.Control.Time | __init__.py:154 | a non-negative horizon gives a grid that starts at starttime |
| InitPrototype.Control.Call | __init__.py:147-168 | the plan is the control function's, on the estimated state and the predictions, with 'time' overwritten by the horizon grid |
| InitPrototype.ResumeTime | __init__.py:189-192 | the loop resumes at 0 from an empty trace, and otherwise at the trace's last instant, failing without one |
| InitPrototype.Mpc.constructor | __init__.py:174-181 | a new MPC stores its collaborators and sizes |
| InitPrototype.Mpc.PassInput | __init__.py:203-215 | a pass's input exists exactly when the boundary conditions, the plan and every emulator input can be read, and its names are its keys |
| InitPrototype.Mpc.PassSimulation | __init__.py:203-219 | the simulation result a pass hands to the merge, over its grid on the input table; stated by InitPrototype.Mpc.PassSimulationOf |
| InitPrototype.Mpc.PassSimulationOf | __init__.py:203-219 | a pass simulates over its grid on the input table of that input |
| InitPrototype.Mpc.Prepare | __init__.py:203-215 | the imperative pass preparation computes PassInput |
| InitPrototype.Mpc.Step | __init__.py:203-221 | one pass splices its simulation onto the trace and moves the clock to the grid's last point, at least one result step later |
| InitPrototype.Mpc.Run | __init__.py:183-231 | `__call__` resumes where the trace ends, does nothing when that is past emulationtime, and otherwise runs until the trace reaches emulationtime |

## Left out

- Simulators are parameters: the Dymola model of mpcpy.py, the FMU of \_\_init\_\_.py, and
  any `simulate` a subclass defines. DympyEmulator and the rest of mpcpy/emulator.py from
  line 187 on are left out, because they are calls into external tools.
- Simulator state carried between passes is left out. This covers `dsfinal2dsin`
  (mpcpy.py:73-77), which restarts the Dymola model from its final state, and the FMU
  object that \_\_init\_\_.py keeps across passes. Each simulator here is a stateless
  function of its span and input.
- The emulator's `parameters` dict is left out. `set_initial_conditions` and
  `set_parameters` (deprecated) are left out, and so are the `set_parameters` calls of
  mpcpy.py's `initialize`. They do no more than hand a dict to the external model.
- `plotfunction`, the progress bar, the printed warnings (including the one for an emulator
  input missing from both sources) and `verbose` are left out: they are output.
- `cplex_infeasibilityanalysis` is left out: it is a call into CPLEX.
- `mpcpy.py`'s base `Control.formulation` reads attributes it never sets and calls
  `self.time()` without an argument; that .py file's `solution` is a parameter of
  `MpcpyPrototype.Control`.
- `Disturbances.__getitem__`, `has_key` and `__iter__` are plain reads of `data`; they are
  map access in Dafny.
- Floating point: every number is an exact real.
  - np.arange's length, the 0.01 and 1e-6 margins, and interp_zoh's quotient are exact here.
  - Rounding of floats is not modelled.
- Integer and float types of numpy arrays, and scalar (not array) arguments to `interp` and
  `__call__`, are left out. Every query is a sequence of times.
- Python dict order is left out, except for the input tuple of \_\_init\_\_.py, where it is
  `InitPrototype.InsertionOrder`.
  - A key loop takes keys in any order and may fail on any failing key.
  - Python would report the first failing key in insertion order.
- Disturbances.Disturbances.Call: when several keys fail, the error is that of some
  failing key, not the first in insertion order.
- BoundaryConditions.BoundaryConditions.Call: the same, for the key loop of `__call__`.
- Emulator.Emulator.Call: the same, and the trace after a failure is stated only as "the
  merges done so far, for some set of keys".
- Legacy.Splice: the same as Emulator.Emulator.Call.
- Mpc.WithDisturbances: a 2-D disturbance that is an emulator input fails with
  `NotOneDimensional`, because the emulator trace is 1-D here. Python would hand the 2-D
  array on to `simulate`.
- Mpc.Mpc.Run: it requires the following, without which these loops may never end:
  - nextstepcalculator times receding is more than 0.99 result steps ahead, for every plan;
  - `resulttimestep > 0`;
  - the simulation never reports a one-sample 'time'.
- Mpc.Mpc.Step requires the same, and Mpc.Mpc.Pass and Mpc.Mpc.Loop do too.
- MpcpyPrototype.Mpc.Run and MpcpyPrototype.Mpc.Step require `receding + 0.01*dt > dt`
  and a simulation that reports every instant of its span. Without these the loop need not
  move the clock forward.
- MpcpyPrototype.Mpc.Run also requires that no emulator input is named 'time'. With one,
  mpcpy.py:291-292 overwrites the grid in the input with the boundary conditions' 'time'
  interpolated on the grid. That axis stops at the end of the stored boundary conditions,
  so the clock may stop advancing and the loop may not end. MpcpyPrototype.Mpc.Step itself
  covers that case.
- InitPrototype.Mpc.Run and InitPrototype.Mpc.Step require the same as the MpcpyPrototype
  loop.
- Control.Control.constructor requires `timestep > 0`. With a zero step np.arange raises,
  and with a negative one the grid is empty. The same holds for MpcpyPrototype.Control.Time
  and for the InitPrototype controller.
- Emulator.Initialized: an initial condition given as an empty array becomes an empty
  entry. In Python the `except` at mpcpy/emulator.py:56-58 keeps the empty array, and line
  79 stores `np.array([np.array([])])`, a 1x0 array holding one empty row. Trace entries
  here are 1-D, so that shape has no counterpart.
- Mpc.Mpc.Loop states the end of the trace only when `emulationtime > 0`. In the model an
  initial condition named 'time' given as an empty array leaves 'time' empty, so the trace
  has no end to state when the loop never runs. In Python `res['time'][-1]` is then the
  empty row.
- MpcpyPrototype.Mpc.Run: mpcpy.py does not clamp the last pass to emulationtime, so the
  stated end is "at or after emulationtime", where mpcpy/mpc.py clamps to exactly
  emulationtime.
- The prototypes' emulators keep 1-D arrays only; mpcpy.py and \_\_init\_\_.py have no 2-D
  boundary conditions.
- The prototypes' `Stateestimation` objects hand the estimate the emulator's trace
  explicitly. Their `__call__` wrappers are the function values they wrap.

## Findings

| source | as written | input that shows it | evidently intended | confidence | as-written member | corrected member |
|---|---|---|---|---|---|---|
| mpcpy/disturbances.py:74 | in held mode every non-time signal is extended by concatenating `data[key][:-1]` with `data[key][-1]*np.ones(len(ind))`; for a signal of rank 2 or more the first has that rank and the second is 1-D, and np.concatenate raises, so a non-periodic record with any signal of rank 2 or more cannot be built (mpcpy/boundaryconditions.py:49 is the same line) | data = {'time': [0, 1], 'q': [[1], [2]]}, periodic=False, extra_time=10 | repeat the last row: 'q' becomes [[1], [2], [2]], as periodic mode and the 2-D query support | not executed | Disturbances.ExtensionAsWritten, Disturbances.HeldMatrixCounterexample, Disturbances.HeldHighRankCounterexample | Disturbances.Extension, Disturbances.ExtendHeld, Disturbances.Create, BoundaryConditions.Create |
