# NumericalProcedures in Dafny

A model of the `NumericalProcedures` class of a small Python tool. The tool solves the
initial value problem

    y' = (1 - 2y)·e^x + y^2 + e^(2x),   y(x0) = y0

on [x0, X] with three fixed-step methods: Euler, the "improved" method and classical
fourth-order Runge-Kutta. It compares each trajectory with the closed-form solution
`y(x) = 1/(C - x) + e^x`. That solution has a vertical asymptote at x = C, so the grid
leaves a gap of 0.1 on each side of C. Each trajectory is re-anchored to the closed form at
the first grid point past C (the *breakpoint*).

The model uses exact `real` arithmetic. The exponential is a parameter `exp: real -> real`.
A lemma that needs a fact about it (exp(x0) > 0, exp(0) = 1, exp(2x) = exp(x)^2) states that
fact in its `requires`. The following Python exceptions of the class are each a `Failure` of
`Basics.Result`; the overflow exceptions of `math.exp` and `int` are not modelled (see
"Left out"):

- `ZeroDivision`: a `/` by zero on Python floats (main.py:19, 20, 24 and 25);
- `NegativeSampleCount`: `numpy.linspace` asked for fewer than zero samples;
- `MissingBreakpoint`: the `breakpoint` attribute read before any scan assigned it;
- `IndexOutOfRange`: `local_error` reading past the end of the exact solution.

One more `Failure` kind, `NonFinite`, is not an exception. The closed form 1/(C - x) + e^x
at main.py:48, 59, 73 and 87 divides by `C - x[i]`, a numpy float64. When a grid point equals
C, numpy returns inf with a warning and the program goes on. The model stops there with
`NonFinite` instead (see "Left out").

The object is the immutable record `Procedures.State(x0, X, n, y0, C, h, x, breakpoint)`.
Each operation that writes attributes returns the new record.

The proofs are checked with Dafny 4.11 by `dafny verify *.dfy` on all six files together.

Modules, following the class:

- `Basics`: `Option`, `Result` and the exception kinds, plus Python's `abs`, `int(...)`, `max`
  and `range`.
- `Grid`: `numpy.linspace`, the split count, the grid of `set_x_axis` and the breakpoint scan.
- `Problem`: the right-hand side `formula` and the closed-form family.
- `Procedures`: the state, the constructor and `set_x_axis`.
- `Integrators`: the three methods as one recursive trajectory `Trace`, with per-index lemmas.
- `ErrorAnalysis`: `exact_solution`, `local_error` and `global_error`. `global_error` is a
  loop method proved equal to the recursive reference `Sweep`.

Behaviour of the code that the proofs make explicit:

- The grid always has exactly n points when it can be built. A split count above n makes
  `numpy.linspace` raise instead.
- The grid is not always increasing. When C lies within 0.1 of x0 and the split count is at
  least 2, the first segment runs from x0 to C - 0.1, which is backwards
  (`Grid.AsymptoteNearStartReversesGrid`).
- The scan `range(1, len(x[1:]))` never examines the last index. A crossing found only there
  leaves `breakpoint` untouched (`Grid.LastIndexCrossingUnseen`, `Grid.OneSampleTailUnseen`).
- When the scan finds nothing, `breakpoint` keeps its value from an earlier resolution
  (`Procedures.StaleBreakpointSurvives`). Right after construction it is then unassigned,
  and when the grid has two or more points every method raises
  (`Integrators.ConstructedWithoutBreakpoint`). A one-point grid never reads it.
- With the default inputs x0 = -5, y0 = 2, the constant is C = 1/(2 + e^-5) - 5 ≈ -4.5017.

## Model

| member | source | states |
|---|---|---|
| Basics.Abs | main.py:91 | `abs` is non-negative and equals its argument or its negation |
| Basics.Trunc | main.py:25 | `int()` truncates toward zero: within one unit of the value, never past it, on either sign |
| Basics.Max | main.py:106 | `max` of a non-empty list is one of its elements and no element exceeds it |
| Basics.PyRange | main.py:102 | `range(start, stop, step)` is empty iff start >= stop; entry k is start + k·step and below stop; one more step would reach stop |
| Grid.Linspace | main.py:27-29 | `linspace(a, b, k)` has k samples, starts at a, ends at b when k >= 2, and is evenly spaced by (b - a)/(k - 1) |
| Grid.LinspaceWithin | main.py:27-29 | every sample of `linspace(a, b, k)` lies in [a, b] when a <= b |
| Grid.LinspaceIncreasing | main.py:27-29 | `linspace(a, b, k)` is strictly increasing when a < b |
| Grid.SplitCount | main.py:25 | the split count is `int(abs(x0 - C)/abs(x0 - X)·m)`: for m >= 0 it is the largest integer not above that product (so never negative); for m <= 0 it is the smallest integer not below it (so never positive) |
| Grid.BuildGrid | main.py:24-29 | the grid exists iff m > 0, x0 != X and the split count is at most m; otherwise ZeroDivision or NegativeSampleCount; it has m points starting at x0; it is one segment for split count 0 and two segments around the gap otherwise |
| Grid.GridEnd | main.py:27-29 | the grid ends at X if its last segment has two or more samples; a one-sample tail ends at C + 0.1 and a split count of m (m >= 2) ends at C - 0.1 |
| Grid.GridAvoidsGap | main.py:27 | with C at least 0.1 inside both ends and a positive split count, no grid point lies within 0.1 of C |
| Grid.GridIncreasing | main.py:26-29 | the grid is strictly increasing for an increasing interval when it is one segment or C is more than 0.1 inside both ends |
| Grid.AsymptoteNearStartReversesGrid | main.py:25-27 | for x0 = -5, X = 0, C = -4.9875, m = 1000 the product is 2.5, the split count 2, and the grid starts -5, -5.0875: neither increasing nor clear of the gap |
| Grid.ScanFrom | main.py:32-35 | the scan from index `from` returns the first crossing in [from, len - 2], or nothing when there is none |
| Grid.FindBreakpoint | main.py:32-35 | the breakpoint is the smallest i in [1, len - 2] with x[i-1] < C < x[i]; None iff no such i |
| Grid.LastIndexCrossingUnseen | main.py:32 | a crossing only at the last index is not found |
| Grid.BreakpointAfterGap | main.py:25-35 | with C at least 0.1 inside both ends and two or more samples after the gap, the breakpoint is the split count: the first sample past C |
| Grid.OneSampleTailUnseen | main.py:27-35 | with a positive split count and a one-sample tail the scan finds no breakpoint, whether the first segment rises to C - 0.1 or runs backwards |
| Problem.Formula | main.py:40-41 | given e^(2x) = (e^x)^2 the right-hand side is never below e^x and equals e^x on the curve y = e^x |
| Problem.Exact | main.py:87 | the closed form at x != C differs from e^x by the reciprocal of C - x |
| Problem.FormulaAlongExactFamily | main.py:40-41 | along y = e^x + u the right-hand side is e^x + u^2, so every closed-form member solves the equation |
| Problem.ExactMeetsInitialValue | main.py:19 | the closed form meets y0 at x0 iff (y0 - e^x0)(C - x0) = 1 |
| Procedures.StepHeight | main.py:24 | m steps of height h span X - x0 |
| Procedures.AsymptoteConstant | main.py:19 | the asymptote lies at distance 1/d from x0 |
| Procedures.SetXAxis | main.py:23-35 | succeeds iff the grid can be built, with the grid's error otherwise; replaces x and h; sets the breakpoint to the scan result when there is one and keeps the old one otherwise; x0, X, n, y0 and C are unchanged |
| Procedures.Build | main.py:20-21 | construction after C: fails with ZeroDivision for n = 0 or X = x0 and with NegativeSampleCount (numpy's ValueError) for n < 0 or a split count above n; else the fields as given, h and the grid at resolution n, and the breakpoint exactly the scan result |
| Procedures.Init | main.py:13-21 | raises ZeroDivision when y0 + e^x0 = 0; otherwise succeeds iff the grid at n can be built, failing with ZeroDivision for n = 0 or X = x0 and NegativeSampleCount otherwise, with C the asymptote constant for y0 + e^x0 and the grid, h and breakpoint of resolution n |
| Procedures.InitCorrected | main.py:19 | the constructor with the constant the closed form needs, C = 1/(y0 - e^x0) + x0 |
| Procedures.StaleBreakpointSurvives | main.py:32-35 | the constructor on x0 = 0, X = 1, n = 11, y0 = 0.5 (exp(0) = 1) sets breakpoint 7; `set_x_axis(2)` then builds a grid crossing C only at its last index and leaves the breakpoint at 7 |
| Procedures.SetXAxisIdempotent | main.py:23-35 | repeating `set_x_axis` at the same resolution changes nothing further |
| Integrators.SelectMethod | main.py:94-99 | 'Euler' selects Euler, 'Improved' the improved method, every other name Runge-Kutta |
| Integrators.EulerStep | main.py:50 | an Euler step leaves y unchanged iff h = 0 or the slope f(x, y) is 0 |
| Integrators.ImprovedStep | main.py:61-64 | an improved step of height 0 leaves y unchanged |
| Integrators.RungeKuttaStep | main.py:75-80 | a Runge-Kutta step of height 0 leaves y unchanged |
| Integrators.Advance | main.py:49-80 | the update of the `else` branch for the running method; a step of height 0 leaves y unchanged whatever the method |
| Integrators.Trace | main.py:44-51 | the first k trajectory entries start at y0; the model stops only with `NonFinite` (a re-anchoring on C) |
| Integrators.TraceFails | main.py:46-48 | the model stops iff the breakpoint lies in range and sits exactly on C |
| Integrators.TraceAt | main.py:46-51 | entry i is the closed form at the breakpoint (off C) and one method step from entry i - 1 everywhere else |
| Integrators.Solve | main.py:43-52 | returns the grid unchanged and a trajectory of the same length starting at y0; fails iff there are two or more grid points and the breakpoint is unassigned (AttributeError, raised by the program) or on C (`NonFinite`, where the program divides a float64 by zero) |
| Integrators.Reanchored | main.py:47-48 | at the breakpoint every method sets 1/(C - x) + e^x, and that point is off C |
| Integrators.Stepped | main.py:46-51 | away from the breakpoint every method advances one step from the previous entry |
| Integrators.EulerUpdate | main.py:50 | away from the breakpoint y[i] = y[i-1] + h·f(x[i-1], y[i-1]) |
| Integrators.ImprovedUpdate | main.py:61-64 | away from the breakpoint y[i] is one improved step from (x[i-1], y[i-1]): slope at x + h/2 with predictor y + (h/2)·y |
| Integrators.RungeKuttaUpdate | main.py:75-80 | away from the breakpoint y[i] is one Runge-Kutta step from (x[i-1], y[i-1]) |
| Integrators.FreshBreakpointSolves | main.py:33-34 | a breakpoint the current scan found is never on C, so every method completes |
| Integrators.ConstructedWithoutBreakpoint | main.py:46-47 | for x0 = 0, X = 1, n = 2, y0 = 0.5 the constructor leaves the breakpoint unassigned and every method raises AttributeError |
| ErrorAnalysis.ExactSolution | main.py:84-88 | the closed form at every grid point, of the grid's length; the model fails with `NonFinite` iff some grid point equals C |
| ErrorAnalysis.LocalError | main.py:90-91 | succeeds iff the data is no longer than the grid and none of the first len(data) grid points is C; a longer trajectory is IndexError whatever the grid holds, otherwise the failure is `NonFinite`; points past len(data) are never read; indices 0..len-1 and errors abs(data[i] - exact(x[i])) >= 0, zero iff the trajectory meets the closed form |
| ErrorAnalysis.ReanchoredPointHasNoError | main.py:47-48 | every method's local error at the breakpoint is zero |
| ErrorAnalysis.ClosedFormAtStart | main.py:19 | with the constant as written the closed form at x0 is y0 + 2·e^x0 |
| ErrorAnalysis.ClosedFormAtStartCorrected | main.py:19 | with the corrected constant the closed form at x0 is y0 |
| ErrorAnalysis.InitialErrorAsWritten | main.py:19 | after the constructor as written, every method's local error at index 0 is 2·e^x0 > 0 |
| ErrorAnalysis.InitialErrorCorrected | main.py:19 | after the corrected constructor, every method's local error at index 0 is 0 |
| ErrorAnalysis.WorstError | main.py:104-106 | recorded exactly when the run and its local errors both succeed; then it is non-negative, one of the local errors and bounds them all |
| ErrorAnalysis.Resolve | main.py:103-106 | one resolution's recorded error is non-negative |
| ErrorAnalysis.Sweep | main.py:102-106 | a successful sweep records one non-negative error per resolution |
| ErrorAnalysis.SweepFinalState | main.py:102-103 | after a sweep the problem is unchanged, the grid and h are those of the last resolution, and the breakpoint is that grid's scan result whenever it finds one |
| ErrorAnalysis.ResolutionsAre | main.py:102 | `range(30, 520, 10)` has 49 entries, 30 + 10k, the last 510 |
| ErrorAnalysis.SweepLoop | main.py:101-106 | the loop computes exactly the reference sweep, stopping at the first exception |
| ErrorAnalysis.GlobalError | main.py:93-108 | equals the reference sweep over 30..510 for the selected method; returns the 49 resolutions 30 + 10k and 49 non-negative errors; leaves the grid and h at resolution 510 and the problem, n included, unchanged; the breakpoint is the last grid's scan result whenever that scan finds one |

## Left out

- The `Window` class, PyQt widgets, input parsing and defaulting, and matplotlib plotting
  (main.py:111-238): user interface and I/O.
- test.py: a plotting script with no logic of its own.
- `__repr__` (main.py:37-38): string formatting only.
- `OverflowError`: `math.exp` raises it rather than returning inf, at main.py:19 for
  x0 above about 709.78 and at main.py:41 (`exp(2*x)`) for grid points above about 354.9;
  `int()` of an infinite product at main.py:25 raises it too. `exp` is a total parameter
  and the model has no such failure.
- IEEE-754 rounding, NaN and infinity: the model computes in exact reals.
  The closed form at a grid point equal to C is numpy's inf, which the model does not carry
  on with; the lines below name each member this affects.
  The accuracy of the methods (convergence order, which method is closer) needs real analysis,
  so it is not stated.
- The internals of `math.exp` and numpy. `exp` is a parameter; `linspace` and `concatenate`
  are defined on sequences.
- Partial updates before an exception: `set_x_axis` assigns `h` before the grid can raise.
  A failing operation here returns no state, since nothing in the class catches the exception.
- Non-integer resolutions: n is an `int`.
- Integrators.Trace: at a breakpoint equal to C the program stores inf and keeps stepping
  (inf or nan from then on); the model stops with `NonFinite` and returns no trajectory.
- Integrators.TraceFails: characterises where the model stops. The program does not stop
  there: it divides a numpy float64 by zero, gets inf and goes on.
- Integrators.Solve: with the breakpoint on C the program returns a trajectory holding inf,
  while the model fails with `NonFinite`.
- ErrorAnalysis.ExactSolution: at a grid point equal to C the program appends inf and goes
  on; the model fails with `NonFinite`.
- ErrorAnalysis.LocalError: when one of the first len(data) grid points equals C and the
  trajectory is no longer than the grid, the program's error at that index is inf or nan;
  the model fails with `NonFinite`.
- ErrorAnalysis.Sweep: a resolution whose grid meets C passes inf or nan to `max` in the
  program; the model's sweep stops there with `NonFinite`.
- ErrorAnalysis.GlobalError: equals `Sweep`, so it too fails with `NonFinite` where the
  program records inf or nan for a resolution whose grid meets C. The default argument
  `method='Euler'` (main.py:93) has no counterpart: a call without a name is
  `GlobalError(s, "Euler", exp)`.
- Integrators.ImprovedUpdate: states the step through `ImprovedStep` rather than as the
  explicit formula, because the explicit form is too costly to prove in the trajectory's
  context. `Integrators.ImprovedStepUnfolds` spells the step out.
- Integrators.RungeKuttaUpdate: states the step through `RungeKuttaStep` rather than through
  the four stages k1..k4, for the same reason. `Integrators.RungeKuttaStepUnfolds` spells the
  stages out.

## Findings

| source | as written | input that shows it | evidently intended | confidence | as-written member | corrected member |
|---|---|---|---|---|---|---|
| main.py:19 | C = 1/(y0 + e^x0) + x0, so the closed form 1/(C - x) + e^x passes through y0 + 2·e^x0 at x0 | x0 = 0, y0 = 2: C = 1/3 and the closed form at 0 is 4, not 2; local error at index 0 is 2 | C = 1/(y0 - e^x0) + x0, so that the closed form meets y(x0) = y0 (`Procedures.InitCorrected`) | high; not executed | ErrorAnalysis.InitialErrorAsWritten | ErrorAnalysis.InitialErrorCorrected |
