/** The state of a `NumericalProcedures` object and the two operations that write it: the
    constructor and `set_x_axis`, which rebuilds the grid, the step height and (when its scan
    finds a crossing) the breakpoint. */
module Procedures {
  import opened Basics
  import opened Grid

  /** The object's attributes. `n` is the resolution given to the constructor; `h`, `x` and
      `breakpoint` belong to the resolution most recently passed to `set_x_axis`. A
      `breakpoint` of None is the attribute never having been assigned. */
  datatype State = State(
    x0: real, X: real, n: int, y0: real,
    C: real,   // the asymptote constant
    h: real,   // the step height (X - x0) / resolution
    x: seq<real>,
    breakpoint: Option<nat>)

  /** The attributes fixed at construction are the same in both states. */
  predicate SameProblem(s: State, t: State) {
    s.x0 == t.x0 && s.X == t.X && s.n == t.n && s.y0 == t.y0 && s.C == t.C
  }

  /** `set_x_axis(m)`: the grid at resolution m replaces x, h becomes (X - x0)/m, and the
      breakpoint becomes the scan's result, or keeps its previous value when the scan finds
      no crossing. */
  function SetXAxis(s: State, m: int): (r: Result<State>)
    ensures r.Success? <==> BuildGrid(s.x0, s.X, s.C, m).Success?
    ensures r.Failure? ==> r.error == BuildGrid(s.x0, s.X, s.C, m).error
    ensures r.Success? ==> SameProblem(s, r.value)
    ensures r.Success? ==> r.value.x == BuildGrid(s.x0, s.X, s.C, m).value && |r.value.x| == m
    ensures r.Success? ==> r.value.h == StepHeight(s.x0, s.X, m)
    ensures r.Success? && FindBreakpoint(r.value.x, s.C).Some? ==>
      r.value.breakpoint == FindBreakpoint(r.value.x, s.C)
    ensures r.Success? && FindBreakpoint(r.value.x, s.C).None? ==> r.value.breakpoint == s.breakpoint
  {
    if m == 0 then Failure(ZeroDivision)
    else
      var h := StepHeight(s.x0, s.X, m);
      match BuildGrid(s.x0, s.X, s.C, m)
      case Failure(e) => Failure(e)
      case Success(g) =>
        var found := FindBreakpoint(g, s.C);
        Success(s.(h := h, x := g, breakpoint := if found.Some? then found else s.breakpoint))
  }

  /** The step height (X - x0) / m: m steps of it span the interval. */
  function StepHeight(x0: real, xEnd: real, m: int): (h: real)
    requires m != 0
    ensures h * m as real == xEnd - x0
  {
    (xEnd - x0) / m as real
  }

  /** The constructor once the asymptote constant c is known: the division for h, then the
      grid at resolution n on an object with no breakpoint yet. */
  function Build(x0: real, xEnd: real, n: int, y0: real, c: real): (r: Result<State>)
    ensures r.Success? <==> n > 0 && x0 != xEnd && SplitCount(x0, xEnd, c, n) <= n
    ensures r.Failure? && (n == 0 || x0 == xEnd) ==> r.error == ZeroDivision
    ensures r.Failure? && n != 0 && x0 != xEnd ==> r.error == NegativeSampleCount
    ensures r.Success? ==> var s := r.value;
      s.x0 == x0 && s.X == xEnd && s.n == n && s.y0 == y0 && s.C == c
      && s.h == StepHeight(x0, xEnd, n)
      && s.x == BuildGrid(x0, xEnd, c, n).value && |s.x| == n
      && s.breakpoint == FindBreakpoint(s.x, c)
  {
    if n == 0 then Failure(ZeroDivision)
    else SetXAxis(State(x0, xEnd, n, y0, c, StepHeight(x0, xEnd, n), [], None), n)
  }

  /** The asymptote constant 1/d + x0 for a non-zero denominator d: the asymptote lies at
      distance 1/d from x0. */
  function AsymptoteConstant(x0: real, d: real): (c: real)
    requires d != 0.0
    ensures (c - x0) * d == 1.0
  {
    1.0 / d + x0
  }

  /** `NumericalProcedures(x0, X, n, y0)`: C = 1/(y0 + exp(x0)) + x0, then the grid at
      resolution n. A zero denominator raises before anything else. */
  function Init(x0: real, xEnd: real, n: int, y0: real, exp: real -> real): (r: Result<State>)
    ensures y0 + exp(x0) == 0.0 ==> r == Failure(ZeroDivision)
    ensures y0 + exp(x0) != 0.0 ==>
      (r.Success? <==> n > 0 && x0 != xEnd && SplitCount(x0, xEnd, AsymptoteConstant(x0, y0 + exp(x0)), n) <= n)
    ensures y0 + exp(x0) != 0.0 && r.Failure? ==>
      r.error == (if n == 0 || x0 == xEnd then ZeroDivision else NegativeSampleCount)
    ensures r.Success? ==> r.value.C == AsymptoteConstant(x0, y0 + exp(x0))
    ensures r.Success? ==> r.value.x0 == x0 && r.value.X == xEnd && r.value.n == n && r.value.y0 == y0
    ensures r.Success? ==> r.value.h == StepHeight(x0, xEnd, n) && |r.value.x| == n
    ensures r.Success? ==> r.value.x == BuildGrid(x0, xEnd, r.value.C, n).value
    ensures r.Success? ==> r.value.breakpoint == FindBreakpoint(r.value.x, r.value.C)
  {
    if y0 + exp(x0) == 0.0 then Failure(ZeroDivision)
    else Build(x0, xEnd, n, y0, AsymptoteConstant(x0, y0 + exp(x0)))
  }

  /** The constructor with the asymptote constant the closed form needs to meet the initial
      condition: C = 1/(y0 - exp(x0)) + x0. */
  function InitCorrected(x0: real, xEnd: real, n: int, y0: real, exp: real -> real): (r: Result<State>)
    ensures y0 - exp(x0) == 0.0 ==> r == Failure(ZeroDivision)
    ensures y0 - exp(x0) != 0.0 ==>
      (r.Success? <==> n > 0 && x0 != xEnd && SplitCount(x0, xEnd, AsymptoteConstant(x0, y0 - exp(x0)), n) <= n)
    ensures y0 - exp(x0) != 0.0 && r.Failure? ==>
      r.error == (if n == 0 || x0 == xEnd then ZeroDivision else NegativeSampleCount)
    ensures r.Success? ==> r.value.C == AsymptoteConstant(x0, y0 - exp(x0))
    ensures r.Success? ==> r.value.x0 == x0 && r.value.X == xEnd && r.value.n == n && r.value.y0 == y0
    ensures r.Success? ==> r.value.h == StepHeight(x0, xEnd, n) && |r.value.x| == n
    ensures r.Success? ==> r.value.x == BuildGrid(x0, xEnd, r.value.C, n).value
    ensures r.Success? ==> r.value.breakpoint == FindBreakpoint(r.value.x, r.value.C)
  {
    if y0 - exp(x0) == 0.0 then Failure(ZeroDivision)
    else Build(x0, xEnd, n, y0, AsymptoteConstant(x0, y0 - exp(x0)))
  }

  /** Only a resolution whose scan finds no crossing leaves the breakpoint alone, and it may
      then point anywhere. With exp(0) = 1, the constructor on x0 = 0, X = 1, n = 11, y0 = 0.5
      gives C = 2/3, a split count of 7 and the breakpoint 7. `set_x_axis(2)` then builds the
      grid [0, 23/30], which crosses C at its last index; the scan does not look there, so
      the breakpoint stays 7, past the end of the two-point grid. */
  lemma StaleBreakpointSurvives(exp: real -> real)
    requires exp(0.0) == 1.0
    ensures Init(0.0, 1.0, 11, 0.5, exp).Success?
    ensures var s := Init(0.0, 1.0, 11, 0.5, exp).value;
            var r := SetXAxis(s, 2);
            s.breakpoint == Some(7)
            && r.Success? && r.value.x == [0.0, 23.0 / 30.0] && Crossing(r.value.x, s.C, 1)
            && r.value.breakpoint == Some(7)
  {
    var c := AsymptoteConstant(0.0, 0.5 + exp(0.0));
    assert c == 2.0 / 3.0;
    assert Abs(0.0 - c) / Abs(0.0 - 1.0) * 11.0 == 22.0 / 3.0;
    assert SplitCount(0.0, 1.0, c, 11) == 7;
    BreakpointAfterGap(0.0, 1.0, c, 11);
    assert Abs(0.0 - c) / Abs(0.0 - 1.0) * 2.0 == 4.0 / 3.0;
    assert SplitCount(0.0, 1.0, c, 2) == 1;
    var g := BuildGrid(0.0, 1.0, c, 2).value;
    assert g[..1] == [0.0] && g[1..] == [c + 0.1];
    assert g == [0.0, 23.0 / 30.0];
  }

  /** Repeating `set_x_axis` at the same resolution changes nothing further. */
  lemma {:induction false} SetXAxisIdempotent(s: State, m: int)
    requires SetXAxis(s, m).Success?
    ensures SetXAxis(SetXAxis(s, m).value, m) == SetXAxis(s, m)
  {
    var t := SetXAxis(s, m).value;
    assert BuildGrid(t.x0, t.X, t.C, m) == BuildGrid(s.x0, s.X, s.C, m);
  }
}
