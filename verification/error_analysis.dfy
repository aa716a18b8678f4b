/** Error analysis: the closed form sampled on the grid, the pointwise (local) error of a
    trajectory, and the sweep over 49 resolutions that records each one's worst local error
    and leaves the object's grid at the last of them. */
module ErrorAnalysis {
  import opened Basics
  import opened Problem
  import opened Grid
  import opened Procedures
  import opened Integrators

  /** `exact_solution`: the closed form at every grid point. At a grid point equal to C the
      program divides a numpy float64 by zero and gets inf; the model stops with
      `NonFinite`. */
  function ExactSolution(s: State, exp: real -> real): (r: Result<seq<real>>)
    ensures r.Success? <==> forall i :: 0 <= i < |s.x| ==> s.x[i] != s.C
    ensures r.Failure? ==> r.error == NonFinite
    ensures r.Success? ==> |r.value| == |s.x|
    ensures r.Success? ==> forall i :: 0 <= i < |s.x| ==> r.value[i] == Exact(exp, s.C, s.x[i])
  {
    if s.C in s.x then Failure(NonFinite)
    else Success(seq(|s.x|, i requires 0 <= i < |s.x| => Exact(exp, s.C, s.x[i])))
  }

  /** `local_error(data)`: the indices 0 .. |data| - 1 and, per index, the distance between
      the trajectory and the closed form at that grid point. The comprehension reads the
      closed form only at indices below |data|: an empty trajectory reads nothing, a
      trajectory longer than the grid reads past its end (whatever the grid holds), and
      otherwise only a grid point equal to C among the first |data| stops the model as in
      `ExactSolution`. */
  function LocalError(s: State, data: seq<real>, exp: real -> real): (r: Result<(seq<int>, seq<real>)>)
    ensures r.Success? <==> |data| <= |s.x| && forall i :: 0 <= i < |data| ==> s.x[i] != s.C
    ensures r.Failure? && |data| > |s.x| ==> r.error == IndexOutOfRange
    ensures r.Failure? && |data| <= |s.x| ==> r.error == NonFinite
    ensures r.Success? ==> |r.value.0| == |data| && forall i :: 0 <= i < |data| ==> r.value.0[i] == i
    ensures r.Success? ==> |r.value.1| == |data| && forall i :: 0 <= i < |data| ==> r.value.1[i] >= 0.0
    ensures r.Success? ==> forall i :: 0 <= i < |data| ==>
      i < |s.x| && s.x[i] != s.C && r.value.1[i] == Abs(data[i] - Exact(exp, s.C, s.x[i]))
      && (r.value.1[i] == 0.0 <==> data[i] == Exact(exp, s.C, s.x[i]))
  {
    if |data| > |s.x| then Failure(IndexOutOfRange)
    else if s.C in s.x[..|data|] then Failure(NonFinite)
    else
      assert forall i :: 0 <= i < |data| ==> s.x[i] == s.x[..|data|][i];
      Success((seq(|data|, i => i),
               seq(|data|, i requires 0 <= i < |data| => Abs(data[i] - Exact(exp, s.C, s.x[i])))))
  }

  /** At the breakpoint the trajectory was re-anchored to the closed form, so its local
      error there is zero, for every method. */
  lemma ReanchoredPointHasNoError(s: State, meth: Method, exp: real -> real, b: nat)
    requires Solve(s, meth, exp).Success?
    requires s.breakpoint == Some(b) && 1 <= b < |s.x|
    requires LocalError(s, Solve(s, meth, exp).value.1, exp).Success?
    ensures LocalError(s, Solve(s, meth, exp).value.1, exp).value.1[b] == 0.0
  {
    Reanchored(s, meth, exp, b);
  }

  /** The local error at index 0 compares y0 with the closed form at the first grid point. */
  lemma InitialLocalError(s: State, meth: Method, exp: real -> real)
    requires Solve(s, meth, exp).Success? && |s.x| >= 1
    requires LocalError(s, Solve(s, meth, exp).value.1, exp).Success?
    ensures s.x[0] != s.C
    ensures LocalError(s, Solve(s, meth, exp).value.1, exp).value.1[0] == Abs(s.y0 - Exact(exp, s.C, s.x[0]))
  {
  }

  /** With the constructor as written, the closed form misses the initial value: at x0 it
      equals y0 + 2·exp(x0), so every method's local error at index 0 is 2·exp(x0), which
      is positive. */
  lemma InitialErrorAsWritten(x0: real, xEnd: real, n: int, y0: real, meth: Method, exp: real -> real)
    requires exp(x0) > 0.0
    requires Init(x0, xEnd, n, y0, exp).Success?
    ensures var s := Init(x0, xEnd, n, y0, exp).value;
      s.x[0] == x0 && s.C != x0 && Exact(exp, s.C, x0) == y0 + 2.0 * exp(x0)
    ensures var s := Init(x0, xEnd, n, y0, exp).value;
      var sol := Solve(s, meth, exp);
      sol.Success? && LocalError(s, sol.value.1, exp).Success? ==>
        LocalError(s, sol.value.1, exp).value.1[0] == 2.0 * exp(x0) > 0.0
  {
    var s := Init(x0, xEnd, n, y0, exp).value;
    assert s.x[0] == x0;
    ClosedFormAtStart(exp, x0, y0, s.C);
    var sol := Solve(s, meth, exp);
    if sol.Success? && LocalError(s, sol.value.1, exp).Success? {
      InitialLocalError(s, meth, exp);
    }
  }

  /** With the corrected constant the closed form meets the initial value, so every
      method's local error at index 0 is zero. */
  lemma InitialErrorCorrected(x0: real, xEnd: real, n: int, y0: real, meth: Method, exp: real -> real)
    requires InitCorrected(x0, xEnd, n, y0, exp).Success?
    ensures var s := InitCorrected(x0, xEnd, n, y0, exp).value;
      s.x[0] == x0 && s.C != x0 && Exact(exp, s.C, x0) == y0
    ensures var s := InitCorrected(x0, xEnd, n, y0, exp).value;
      var sol := Solve(s, meth, exp);
      sol.Success? && LocalError(s, sol.value.1, exp).Success? ==>
        LocalError(s, sol.value.1, exp).value.1[0] == 0.0
  {
    var s := InitCorrected(x0, xEnd, n, y0, exp).value;
    assert s.x[0] == x0;
    ClosedFormAtStartCorrected(exp, x0, y0, s.C);
    var sol := Solve(s, meth, exp);
    if sol.Success? && LocalError(s, sol.value.1, exp).Success? {
      InitialLocalError(s, meth, exp);
    }
  }

  /** The constant as written puts the closed form at y0 + 2·exp(x0) at x0. */
  lemma ClosedFormAtStart(exp: real -> real, x0: real, y0: real, c: real)
    requires y0 + exp(x0) != 0.0 && c == AsymptoteConstant(x0, y0 + exp(x0))
    ensures c != x0 && Exact(exp, c, x0) == y0 + 2.0 * exp(x0)
  {
    var e := exp(x0);
    var y := Exact(exp, c, x0);
    ReciprocalUnique(c - x0, y - e, y0 + e);
  }

  /** The corrected constant puts the closed form at y0 at x0. */
  lemma ClosedFormAtStartCorrected(exp: real -> real, x0: real, y0: real, c: real)
    requires y0 - exp(x0) != 0.0 && c == AsymptoteConstant(x0, y0 - exp(x0))
    ensures c != x0 && Exact(exp, c, x0) == y0
  {
    assert (y0 - exp(x0)) * (c - x0) == 1.0;
    ExactMeetsInitialValue(exp, x0, y0, c);
  }

  /** A non-zero number has one reciprocal. */
  lemma ReciprocalUnique(d: real, a: real, b: real)
    requires a * d == 1.0 && d * b == 1.0
    ensures a == b
  {
    calc {
      a;
      a * (d * b);
      (a * d) * b;
      b;
    }
  }

  /** The worst local error of one method on the current grid: Python's
      `max(local_error(function()[1])[1])`. */
  function WorstError(s: State, meth: Method, exp: real -> real): (r: Result<real>)
    ensures r.Success? <==>
      (Solve(s, meth, exp).Success? && LocalError(s, Solve(s, meth, exp).value.1, exp).Success?)
    ensures r.Success? ==> r.value >= 0.0
    ensures r.Success? ==> (Solve(s, meth, exp).Success?
      && LocalError(s, Solve(s, meth, exp).value.1, exp).Success?
      && r.value in LocalError(s, Solve(s, meth, exp).value.1, exp).value.1)
    ensures r.Success? ==> var errs := LocalError(s, Solve(s, meth, exp).value.1, exp).value.1;
      forall i :: 0 <= i < |errs| ==> errs[i] <= r.value
  {
    match Solve(s, meth, exp)
    case Failure(e) => Failure(e)
    case Success(sol) =>
      match LocalError(s, sol.1, exp)
      case Failure(e) => Failure(e)
      case Success(le) => Success(Max(le.1))
  }

  /** Puts `errs` in front of the errors of a successful sweep; a failure passes through. */
  function Prepend(errs: seq<real>, r: Result<(State, seq<real>)>): Result<(State, seq<real>)>
  {
    match r
    case Failure(e) => Failure(e)
    case Success(p) => Success((p.0, errs + p.1))
  }

  /** Prepending nothing changes nothing. */
  lemma PrependNothing(r: Result<(State, seq<real>)>)
    ensures Prepend([], r) == r
  {
    if r.Success? {
      assert [] + r.value.1 == r.value.1;
    }
  }

  /** Prepending to the end of a sweep gives the errors collected so far. */
  lemma PrependDone(errs: seq<real>, cur: State, r: Result<(State, seq<real>)>)
    requires r == Success((cur, []))
    ensures Prepend(errs, r) == Success((cur, errs))
  {
    assert errs + [] == errs;
  }

  /** Prepending twice is prepending the concatenation. */
  lemma PrependTwice(a: seq<real>, b: seq<real>, r: Result<(State, seq<real>)>)
    ensures Prepend(a, Prepend(b, r)) == Prepend(a + b, r)
  {
    if r.Success? {
      assert a + (b + r.value.1) == (a + b) + r.value.1;
    }
  }

  /** One resolution m of the sweep: `set_x_axis(m)`, then the worst local error of the
      method on the new grid. */
  function Resolve(s: State, meth: Method, exp: real -> real, m: int): (r: Result<(State, real)>)
    ensures r.Success? ==> r.value.1 >= 0.0
  {
    match SetXAxis(s, m)
    case Failure(e) => Failure(e)
    case Success(next) =>
      match WorstError(next, meth, exp)
      case Failure(e) => Failure(e)
      case Success(w) => Success((next, w))
  }

  /** A resolution succeeds when both `set_x_axis` and the integration do, and then leaves
      the state `set_x_axis` produced. */
  lemma ResolveSucceeds(s: State, meth: Method, exp: real -> real, m: int)
    ensures Resolve(s, meth, exp, m).Success? <==>
      SetXAxis(s, m).Success? && WorstError(SetXAxis(s, m).value, meth, exp).Success?
    ensures Resolve(s, meth, exp, m).Success? ==>
      Resolve(s, meth, exp, m).value == (SetXAxis(s, m).value, WorstError(SetXAxis(s, m).value, meth, exp).value)
  {
  }

  /** A non-negative error in front of non-negative errors keeps them all non-negative. */
  lemma ConsNonNegative(w: real, errs: seq<real>)
    requires w >= 0.0 && forall k :: 0 <= k < |errs| ==> errs[k] >= 0.0
    ensures forall k :: 0 <= k < |errs| + 1 ==> ([w] + errs)[k] >= 0.0
  {
    forall k | 0 <= k < |errs| + 1 ensures ([w] + errs)[k] >= 0.0 {
      if k > 0 {
        assert ([w] + errs)[k] == errs[k - 1];
      }
    }
  }

  /** The reference sweep over the resolutions rs, one `Resolve` per resolution, the state
      threading through, the first error ending it. */
  function Sweep(s: State, meth: Method, exp: real -> real, rs: seq<int>): (r: Result<(State, seq<real>)>)
    ensures rs == [] ==> r == Success((s, []))
    ensures r.Success? ==> |r.value.1| == |rs| && forall k :: 0 <= k < |rs| ==> r.value.1[k] >= 0.0
    decreases |rs|
  {
    if rs == [] then Success((s, []))
    else
      match Resolve(s, meth, exp, rs[0])
      case Failure(e) => Failure(e)
      case Success(p) =>
        match Sweep(p.0, meth, exp, rs[1..])
        case Failure(e) => Failure(e)
        case Success(q) =>
          ConsNonNegative(p.1, q.1);
          Success((q.0, [p.1] + q.1))
  }

  /** After a successful sweep the problem is unchanged, the grid and step height are those
      of the last resolution, and the breakpoint is that grid's scan result whenever the
      scan finds one (a resolution whose scan finds nothing inherits the previous one). */
  lemma {:induction false} SweepFinalState(s: State, meth: Method, exp: real -> real, rs: seq<int>)
    requires Sweep(s, meth, exp, rs).Success?
    ensures SameProblem(s, Sweep(s, meth, exp, rs).value.0)
    ensures rs != [] ==>
      var t := Sweep(s, meth, exp, rs).value.0;
      var last := rs[|rs| - 1];
      BuildGrid(s.x0, s.X, s.C, last).Success?
      && t.x == BuildGrid(s.x0, s.X, s.C, last).value
      && t.h == StepHeight(s.x0, s.X, last)
      && (FindBreakpoint(t.x, s.C).Some? ==> t.breakpoint == FindBreakpoint(t.x, s.C))
    decreases |rs|
  {
    if rs != [] {
      ResolveSucceeds(s, meth, exp, rs[0]);
      var next := Resolve(s, meth, exp, rs[0]).value.0;
      SweepFinalState(next, meth, exp, rs[1..]);
      if |rs| > 1 {
        assert rs[1..][|rs[1..]| - 1] == rs[|rs| - 1];
      }
    }
  }

  /** One resolution of the sweep: a failing resolution ends it with that error, otherwise
      its worst error heads the rest of the sweep. */
  lemma SweepStep(s: State, meth: Method, exp: real -> real, rs: seq<int>)
    requires rs != []
    ensures Resolve(s, meth, exp, rs[0]).Failure? ==>
      Sweep(s, meth, exp, rs) == Failure(Resolve(s, meth, exp, rs[0]).error)
    ensures Resolve(s, meth, exp, rs[0]).Success? ==>
      var p := Resolve(s, meth, exp, rs[0]).value;
      Sweep(s, meth, exp, rs) == Prepend([p.1], Sweep(p.0, meth, exp, rs[1..]))
  {
  }

  /** Python's `range(30, 520, 10)`: the 49 resolutions 30, 40, ..., 510. */
  lemma ResolutionsAre()
    ensures |PyRange(30, 520, 10)| == 49
    ensures forall k :: 0 <= k < 49 ==> PyRange(30, 520, 10)[k] == 30 + 10 * k
    ensures PyRange(30, 520, 10)[48] == 510
  {
  }

  /** The loop invariant of `SweepLoop` survives one more resolution. */
  lemma SweepAdvances(s: State, meth: Method, exp: real -> real, rs: seq<int>, errs: seq<real>, cur: State, k: nat)
    requires k < |rs|
    requires Sweep(s, meth, exp, rs) == Prepend(errs, Sweep(cur, meth, exp, rs[k..]))
    ensures var step := Resolve(cur, meth, exp, rs[k]);
      (step.Failure? ==> Sweep(s, meth, exp, rs) == Failure(step.error))
      && (step.Success? ==>
            Sweep(s, meth, exp, rs) == Prepend(errs + [step.value.1], Sweep(step.value.0, meth, exp, rs[k + 1..])))
  {
    var tail := rs[k..];
    assert tail[0] == rs[k] && tail[1..] == rs[k + 1..];
    SweepStep(cur, meth, exp, tail);
    var step := Resolve(cur, meth, exp, rs[k]);
    if step.Success? {
      PrependTwice(errs, [step.value.1], Sweep(step.value.0, meth, exp, rs[k + 1..]));
    }
  }

  /** The loop of `global_error` over an arbitrary list of resolutions: it computes the
      reference sweep, stopping at the first error. */
  method SweepLoop(s: State, meth: Method, exp: real -> real, rs: seq<int>) returns (r: Result<(State, seq<real>)>)
    ensures r == Sweep(s, meth, exp, rs)
  {
    var cur := s;
    var errs: seq<real> := [];
    var k := 0;
    assert rs[k..] == rs;
    PrependNothing(Sweep(s, meth, exp, rs));
    while k < |rs|
      invariant 0 <= k <= |rs|
      invariant Sweep(s, meth, exp, rs) == Prepend(errs, Sweep(cur, meth, exp, rs[k..]))
    {
      SweepAdvances(s, meth, exp, rs, errs, cur, k);
      var step := Resolve(cur, meth, exp, rs[k]);
      if step.Failure? {
        return Failure(step.error);
      }
      errs := errs + [step.value.1];
      cur := step.value.0;
      k := k + 1;
    }
    assert rs[k..] == [];
    PrependDone(errs, cur, Sweep(cur, meth, exp, rs[k..]));
    return Success((cur, errs));
  }

  /** `global_error(method)`: for each resolution 30, 40, ..., 510, rebuild the grid with
      `set_x_axis`, integrate with the named method ('Euler', 'Improved', anything else
      Runge-Kutta) and record the worst local error. Returns the object's state afterwards
      (grid and step height at resolution 510, the breakpoint of that grid's scan when it
      finds one, the constructor's n untouched), the resolutions and their worst errors. */
  method GlobalError(s: State, name: string, exp: real -> real) returns (r: Result<(State, seq<int>, seq<real>)>)
    ensures var ref := Sweep(s, SelectMethod(name), exp, PyRange(30, 520, 10));
      (r.Success? <==> ref.Success?)
      && (r.Failure? ==> r.error == ref.error)
      && (r.Success? ==> r.value.0 == ref.value.0 && r.value.2 == ref.value.1)
    ensures r.Success? ==> |r.value.1| == 49 && forall k :: 0 <= k < 49 ==> r.value.1[k] == 30 + 10 * k
    ensures r.Success? ==> |r.value.2| == 49 && forall k :: 0 <= k < 49 ==> r.value.2[k] >= 0.0
    ensures r.Success? ==> SameProblem(s, r.value.0) && r.value.0.n == s.n
    ensures r.Success? ==>
      BuildGrid(s.x0, s.X, s.C, 510).Success?
      && r.value.0.x == BuildGrid(s.x0, s.X, s.C, 510).value
      && r.value.0.h == StepHeight(s.x0, s.X, 510)
      && (FindBreakpoint(r.value.0.x, s.C).Some? ==> r.value.0.breakpoint == FindBreakpoint(r.value.0.x, s.C))
  {
    var rs := PyRange(30, 520, 10);
    ResolutionsAre();
    var sweep := SweepLoop(s, SelectMethod(name), exp, rs);
    match sweep
    case Failure(e) =>
      return Failure(e);
    case Success(p) =>
      SweepFinalState(s, SelectMethod(name), exp, rs);
      assert rs[|rs| - 1] == 510;
      return Success((p.0, rs, p.1));
  }
}
