/** The three fixed-step integrators. They share one loop: the trajectory starts at y0; at
    the breakpoint index it is re-anchored to the closed form, and everywhere else it takes
    one step of the method's update from the previous grid point. */
module Integrators {
  import opened Basics
  import opened Problem
  import opened Grid
  import opened Procedures

  datatype Method = Euler | Improved | RungeKutta

  /** The method name `global_error` accepts: 'Euler' and 'Improved' select those methods,
      every other name selects Runge-Kutta. */
  function SelectMethod(name: string): (m: Method)
    ensures m == Euler <==> name == "Euler"
    ensures m == Improved <==> name == "Improved"
  {
    if name == "Euler" then Euler
    else if name == "Improved" then Improved
    else RungeKutta
  }

  /** One step of Euler's method from (x, y) with step height h. It stays put exactly when
      the step height or the slope at (x, y) is zero. */
  function EulerStep(exp: real -> real, h: real, x: real, y: real): (r: real)
    ensures r == y <==> h == 0.0 || Formula(exp, x, y) == 0.0
  {
    y + h * Formula(exp, x, y)
  }

  /** One step of the improved method: the slope is taken at the midpoint abscissa, with
      the predicted ordinate y + (h/2)·y (the ordinate itself, not the slope, scales the
      half step). A step of height zero stays put. */
  function ImprovedStep(exp: real -> real, h: real, x: real, y: real): (r: real)
    ensures h == 0.0 ==> r == y
  {
    var midX := x + h / 2.0;
    var midY := y + h / 2.0 * y;
    y + h * Formula(exp, midX, midY)
  }

  /** One step of the classical fourth-order Runge-Kutta method. A step of height zero
      stays put. */
  function RungeKuttaStep(exp: real -> real, h: real, x: real, y: real): (r: real)
    ensures h == 0.0 ==> r == y
  {
    var k1 := Formula(exp, x, y);
    var k2 := Formula(exp, x + h / 2.0, y + h * k1 / 2.0);
    var k3 := Formula(exp, x + h / 2.0, y + h * k2 / 2.0);
    var k4 := Formula(exp, x + h, y + h * k3);
    y + h / 6.0 * (k1 + 2.0 * k2 + 2.0 * k3 + k4)
  }

  lemma EulerStepUnfolds(exp: real -> real, h: real, x: real, y: real)
    ensures EulerStep(exp, h, x, y) == y + h * Formula(exp, x, y)
  {
  }

  lemma ImprovedStepUnfolds(exp: real -> real, h: real, x: real, y: real)
    ensures ImprovedStep(exp, h, x, y) == y + h * Formula(exp, x + h / 2.0, y + h / 2.0 * y)
  {
  }

  lemma RungeKuttaStepUnfolds(exp: real -> real, h: real, x: real, y: real)
    ensures var k1 := Formula(exp, x, y);
      var k2 := Formula(exp, x + h / 2.0, y + h * k1 / 2.0);
      var k3 := Formula(exp, x + h / 2.0, y + h * k2 / 2.0);
      var k4 := Formula(exp, x + h, y + h * k3);
      RungeKuttaStep(exp, h, x, y) == y + h / 6.0 * (k1 + 2.0 * k2 + 2.0 * k3 + k4)
  {
  }

  /** One step of the selected method; whichever it is, a step of height zero stays put. */
  function Advance(meth: Method, exp: real -> real, h: real, x: real, y: real): (r: real)
    ensures h == 0.0 ==> r == y
  {
    match meth
    case Euler => EulerStep(exp, h, x, y)
    case Improved => ImprovedStep(exp, h, x, y)
    case RungeKutta => RungeKuttaStep(exp, h, x, y)
  }

  /** The first k entries of the trajectory: the loop after iterations 1 .. k-1. A
      re-anchoring at a grid point equal to C divides a numpy float64 by zero; the program
      carries on with inf there, the model stops with `NonFinite`. */
  function Trace(s: State, meth: Method, exp: real -> real, k: nat): (r: Result<seq<real>>)
    requires 1 <= k <= |s.x|
    ensures r.Success? ==> |r.value| == k && r.value[0] == s.y0
    ensures r.Failure? ==> r.error == NonFinite
    decreases k
  {
    if k == 1 then Success([s.y0])
    else
      match Trace(s, meth, exp, k - 1)
      case Failure(e) => Failure(e)
      case Success(d) =>
        var i: nat := k - 1;
        if s.breakpoint == Some(i) then
          if s.x[i] == s.C then Failure(NonFinite)
          else Success(d + [Exact(exp, s.C, s.x[i])])
        else Success(d + [Advance(meth, exp, s.h, s.x[i - 1], d[i - 1])])
  }

  /** The trace stops short exactly when the loop re-anchors at a grid point equal to C. */
  lemma {:induction false} TraceFails(s: State, meth: Method, exp: real -> real, k: nat)
    requires 1 <= k <= |s.x|
    ensures Trace(s, meth, exp, k).Failure? <==>
      s.breakpoint.Some? && 1 <= s.breakpoint.value < k && s.x[s.breakpoint.value] == s.C
    decreases k
  {
    if k > 1 {
      TraceFails(s, meth, exp, k - 1);
    }
  }

  /** Entry i of the trajectory is the re-anchored value at the breakpoint and one step of
      the method from entry i - 1 everywhere else. */
  lemma {:induction false} TraceAt(s: State, meth: Method, exp: real -> real, k: nat, i: nat)
    requires 1 <= i < k <= |s.x|
    requires Trace(s, meth, exp, k).Success?
    ensures var d := Trace(s, meth, exp, k).value;
      if s.breakpoint == Some(i) then s.x[i] != s.C && d[i] == Exact(exp, s.C, s.x[i])
      else d[i] == Advance(meth, exp, s.h, s.x[i - 1], d[i - 1])
    decreases k
  {
    if i < k - 1 {
      var prev := Trace(s, meth, exp, k - 1);
      assert prev.Success?;
      TraceAt(s, meth, exp, k - 1, i);
      var d := Trace(s, meth, exp, k).value;
      assert d[..k - 1] == prev.value;
      assert d[i] == prev.value[i] && d[i - 1] == prev.value[i - 1];
    }
  }

  /** `eulers_method`, `improved_method` and `runge_kutta_method`: the grid, unchanged, with a
      trajectory of the same length starting at y0. With two or more grid points the loop
      reads `breakpoint`, which raises when it was never assigned; otherwise the model stops
      only where the loop re-anchors at a grid point equal to C. */
  function Solve(s: State, meth: Method, exp: real -> real): (r: Result<(seq<real>, seq<real>)>)
    ensures r.Success? ==> r.value.0 == s.x
    ensures r.Success? ==> |r.value.1| == (if |s.x| == 0 then 1 else |s.x|) && r.value.1[0] == s.y0
    ensures r.Failure? <==> (|s.x| >= 2 &&
      (s.breakpoint.None? || (1 <= s.breakpoint.value < |s.x| && s.x[s.breakpoint.value] == s.C)))
    ensures r.Failure? ==> r.error == (if s.breakpoint.None? then MissingBreakpoint else NonFinite)
  {
    if |s.x| <= 1 then Success((s.x, [s.y0]))
    else if s.breakpoint.None? then Failure(MissingBreakpoint)
    else
      TraceFails(s, meth, exp, |s.x|);
      match Trace(s, meth, exp, |s.x|)
      case Failure(e) => Failure(e)
      case Success(d) => Success((s.x, d))
  }

  /** At the breakpoint every method re-anchors: the entry is the closed form 1/(C - x) + e^x
      at that grid point, which is off the asymptote. */
  lemma Reanchored(s: State, meth: Method, exp: real -> real, b: nat)
    requires Solve(s, meth, exp).Success?
    requires s.breakpoint == Some(b) && 1 <= b < |s.x|
    ensures s.x[b] != s.C
    ensures Solve(s, meth, exp).value.1[b] == 1.0 / (s.C - s.x[b]) + exp(s.x[b])
  {
    TraceAt(s, meth, exp, |s.x|, b);
  }

  /** Away from the breakpoint every method advances one step from the previous entry. */
  lemma Stepped(s: State, meth: Method, exp: real -> real, i: nat)
    requires Solve(s, meth, exp).Success?
    requires 1 <= i < |s.x| && s.breakpoint != Some(i)
    ensures var y := Solve(s, meth, exp).value.1;
      y[i] == Advance(meth, exp, s.h, s.x[i - 1], y[i - 1])
  {
    TraceAt(s, meth, exp, |s.x|, i);
  }

  /** Away from the breakpoint Euler's method steps y[i] = y[i-1] + h·f(x[i-1], y[i-1]). */
  lemma EulerUpdate(s: State, exp: real -> real, i: nat)
    requires Solve(s, Euler, exp).Success?
    requires 1 <= i < |s.x| && s.breakpoint != Some(i)
    ensures var y := Solve(s, Euler, exp).value.1;
      y[i] == y[i - 1] + s.h * Formula(exp, s.x[i - 1], y[i - 1])
  {
    var y := Solve(s, Euler, exp).value.1;
    Stepped(s, Euler, exp, i);
    EulerStepUnfolds(exp, s.h, s.x[i - 1], y[i - 1]);
  }

  /** Away from the breakpoint the improved method takes one `ImprovedStep` from the previous
      entry: the slope at (x[i-1] + h/2, y[i-1] + (h/2)·y[i-1]), times h (spelled out by
      `ImprovedStepUnfolds`). */
  lemma ImprovedUpdate(s: State, exp: real -> real, i: nat)
    requires Solve(s, Improved, exp).Success?
    requires 1 <= i < |s.x| && s.breakpoint != Some(i)
    ensures var y := Solve(s, Improved, exp).value.1;
      y[i] == ImprovedStep(exp, s.h, s.x[i - 1], y[i - 1])
  {
    Stepped(s, Improved, exp, i);
  }

  /** Away from the breakpoint Runge-Kutta takes one `RungeKuttaStep` from the previous
      entry: the four classical stages k1..k4 (spelled out by `RungeKuttaStepUnfolds`). */
  lemma RungeKuttaUpdate(s: State, exp: real -> real, i: nat)
    requires Solve(s, RungeKutta, exp).Success?
    requires 1 <= i < |s.x| && s.breakpoint != Some(i)
    ensures var y := Solve(s, RungeKutta, exp).value.1;
      y[i] == RungeKuttaStep(exp, s.h, s.x[i - 1], y[i - 1])
  {
    Stepped(s, RungeKutta, exp, i);
  }

  /** A breakpoint the scan found on the current grid sits just past C, so every method
      runs to completion on it. */
  lemma FreshBreakpointSolves(s: State, m: int, meth: Method, exp: real -> real)
    requires SetXAxis(s, m).Success?
    requires FindBreakpoint(SetXAxis(s, m).value.x, s.C).Some?
    ensures Solve(SetXAxis(s, m).value, meth, exp).Success?
  {
  }

  /** Right after construction a grid whose scan found nothing cannot be integrated: with
      exp(0) = 1, x0 = 0, X = 1, n = 2 and y0 = 0.5 give C = 2/3 and the grid [0, 23/30],
      which crosses C only at its last index, so `breakpoint` is never assigned. */
  lemma ConstructedWithoutBreakpoint(meth: Method, exp: real -> real)
    requires exp(0.0) == 1.0
    ensures Init(0.0, 1.0, 2, 0.5, exp).Success?
    ensures Init(0.0, 1.0, 2, 0.5, exp).value.breakpoint == None
    ensures Solve(Init(0.0, 1.0, 2, 0.5, exp).value, meth, exp) == Failure(MissingBreakpoint)
  {
    var c := AsymptoteConstant(0.0, 0.5 + exp(0.0));
    assert c == 2.0 / 3.0;
    assert Abs(0.0 - c) / Abs(0.0 - 1.0) * 2.0 == 4.0 / 3.0;
    assert SplitCount(0.0, 1.0, c, 2) == 1;
    var g := BuildGrid(0.0, 1.0, c, 2).value;
    assert g[..1] == [0.0] && g[1..] == [c + 0.1];
    assert g == [0.0, 23.0 / 30.0];
    assert FindBreakpoint(g, c) == None;
  }
}
