/** Shared vocabulary: optional values, the exceptions the procedures can raise, and the
    scalar helpers Python supplies as built-ins (`abs`, `int`, `max`). */
module Basics {

  /** A value that may be absent, as the never-assigned `breakpoint` attribute is. */
  datatype Option<+T> = None | Some(value: T)

  /** The exceptions the numerical procedures raise on their own inputs, and the one point
      where the model stops although the program does not. */
  datatype Error =
    | ZeroDivision         // ZeroDivisionError from a `/` on Python floats
    | NonFinite            // a numpy float64 divided by zero: the program gets inf and goes on
    | NegativeSampleCount  // ValueError from numpy.linspace asked for fewer than zero samples
    | MissingBreakpoint    // AttributeError: `breakpoint` read before any scan assigned it
    | IndexOutOfRange      // IndexError from reading past the end of a list

  /** The outcome of an operation: a value, or the exception it raises (or `NonFinite`). */
  datatype Result<+T> = Success(value: T) | Failure(error: Error)

  /** Python's `abs` on a number. */
  function Abs(v: real): (r: real)
    ensures r >= 0.0
    ensures r == v || r == -v
  {
    if v < 0.0 then -v else v
  }

  /** Python's `int(v)` on a float: truncation toward zero. */
  function Trunc(v: real): (r: int)
    ensures 0.0 <= v ==> 0 <= r && r as real <= v < r as real + 1.0
    ensures v < 0.0 ==> r <= 0 && r as real - 1.0 < v <= r as real
  {
    if v >= 0.0 then v.Floor else -((-v).Floor)
  }

  /** Python's `max` on a non-empty list: an element no other element exceeds. */
  function Max(xs: seq<real>): (m: real)
    requires |xs| > 0
    ensures m in xs
    ensures forall i :: 0 <= i < |xs| ==> xs[i] <= m
  {
    if |xs| == 1 then xs[0]
    else
      var rest := Max(xs[1..]);
      if xs[0] >= rest then xs[0] else rest
  }

  /** The entries of Python's `range(start, stop, step)` for a positive step: the
      ceiling of (stop - start)/step of them. */
  function PyRange(start: int, stop: int, step: int): (r: seq<int>)
    requires step > 0
    ensures start >= stop <==> r == []
    ensures forall k :: 0 <= k < |r| ==> r[k] == start + k * step && r[k] < stop
    ensures |r| > 0 ==> stop <= r[|r| - 1] + step
  {
    if start >= stop then []
    else
      var count := (stop - start + step - 1) / step;
      RangeCount(stop - start, step);
      seq(count, k requires 0 <= k < count => start + k * step)
  }

  /** q = ceil(d / step) steps of size step from 0 stay below d, and one more reaches it. */
  lemma RangeCount(d: int, step: int)
    requires d > 0 && step > 0
    ensures var q := (d + step - 1) / step;
      q >= 1 && d <= q * step && forall k :: 0 <= k < q ==> k * step < d
  {
    var q := (d + step - 1) / step;
    var rem := (d + step - 1) % step;
    assert q * step + rem == d + step - 1;
    assert d <= q * step;
    if q <= 0 {
      MulMonotone(q, 0, step);
      assert false;
    }
    forall k | 0 <= k < q ensures k * step < d {
      MulMonotone(k, q - 1, step);
      assert (q - 1) * step == q * step - step;
    }
  }

  /** Multiplying by a positive number keeps the order. */
  lemma MulMonotone(a: int, b: int, c: int)
    requires a <= b && c > 0
    ensures a * c <= b * c
  {
    assert b * c - a * c == (b - a) * c;
  }
}
