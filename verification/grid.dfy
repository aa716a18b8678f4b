/** The grid builder: evenly spaced segments (numpy.linspace and concatenate), the split
    count that decides where the asymptote gap goes, and the scan for the breakpoint index. */
module Grid {
  import opened Basics

  /** numpy.linspace(a, b, k): k evenly spaced samples from a to b, both ends included. */
  function Linspace(a: real, b: real, k: nat): (r: seq<real>)
    ensures |r| == k
    ensures k >= 1 ==> r[0] == a
    ensures k >= 2 ==> r[k - 1] == b
    ensures k >= 2 ==> forall i :: 0 <= i < k - 1 ==> r[i + 1] - r[i] == (b - a) / (k - 1) as real
  {
    if k == 1 then [a]
    else seq(k, i requires 0 <= i < k => a + (i as real) * ((b - a) / (k - 1) as real))
  }

  ghost predicate StrictlyIncreasing(g: seq<real>) {
    forall i, j :: 0 <= i < j < |g| ==> g[i] < g[j]
  }

  /** Every sample lies in [lo, hi]. */
  ghost predicate Within(g: seq<real>, lo: real, hi: real) {
    forall i :: 0 <= i < |g| ==> lo <= g[i] <= hi
  }

  /** No sample lies strictly within 0.1 of the asymptote c. */
  ghost predicate AvoidsGap(g: seq<real>, c: real) {
    forall i :: 0 <= i < |g| ==> g[i] <= c - 0.1 || g[i] >= c + 0.1
  }

  lemma LinspaceWithin(a: real, b: real, k: nat)
    requires a <= b
    ensures Within(Linspace(a, b, k), a, b)
  {
    if k >= 2 {
      var r := Linspace(a, b, k);
      var d := (b - a) / (k - 1) as real;
      assert d >= 0.0;
      assert ((k - 1) as real) * d == b - a;
      forall i | 0 <= i < k ensures a <= r[i] <= b {
        assert r[i] == a + (i as real) * d;
        assert 0.0 <= (i as real) * d <= ((k - 1) as real) * d;
      }
    }
  }

  lemma LinspaceIncreasing(a: real, b: real, k: nat)
    requires a < b
    ensures StrictlyIncreasing(Linspace(a, b, k))
  {
    if k >= 2 {
      var r := Linspace(a, b, k);
      var d := (b - a) / (k - 1) as real;
      assert d > 0.0;
      forall i, j | 0 <= i < j < k ensures r[i] < r[j] {
        assert r[j] - r[i] == ((j - i) as real) * d;
      }
    }
  }

  /** The number of samples placed before the asymptote: the truncation of
      |x0 - c| / |x0 - xEnd| * m. */
  function SplitCount(x0: real, xEnd: real, c: real, m: int): (steps: int)
    requires x0 != xEnd
    ensures m >= 0 ==> (0 <= steps &&
      steps as real <= Abs(x0 - c) / Abs(x0 - xEnd) * m as real < steps as real + 1.0)
    ensures m <= 0 ==> (steps <= 0 &&
      steps as real - 1.0 < Abs(x0 - c) / Abs(x0 - xEnd) * m as real <= steps as real)
  {
    var frac := Abs(x0 - c) / Abs(x0 - xEnd);
    assert frac >= 0.0;
    assert m <= 0 ==> frac * m as real <= 0.0;
    Trunc(frac * m as real)
  }

  /** The grid of `set_x_axis` at resolution m, or the exception building it raises. With a
      positive split count it is two segments leaving a gap of 0.1 on each side of c;
      with a zero split count it is one uniform segment from x0 to xEnd. */
  function BuildGrid(x0: real, xEnd: real, c: real, m: int): (r: Result<seq<real>>)
    ensures r.Success? <==> m > 0 && x0 != xEnd && SplitCount(x0, xEnd, c, m) <= m
    ensures r.Failure? && (m == 0 || x0 == xEnd) ==> r.error == ZeroDivision
    ensures r.Failure? && m != 0 && x0 != xEnd ==> r.error == NegativeSampleCount
    ensures r.Success? ==> |r.value| == m && r.value[0] == x0
    ensures r.Success? && SplitCount(x0, xEnd, c, m) == 0 ==> r.value == Linspace(x0, xEnd, m)
    ensures r.Success? && SplitCount(x0, xEnd, c, m) > 0 ==>
      var k := SplitCount(x0, xEnd, c, m);
      r.value[..k] == Linspace(x0, c - 0.1, k) && r.value[k..] == Linspace(c + 0.1, xEnd, m - k)
  {
    if m == 0 || x0 == xEnd then Failure(ZeroDivision)
    else
      var steps := SplitCount(x0, xEnd, c, m);
      if steps != 0 then
        if steps < 0 || m - steps < 0 then Failure(NegativeSampleCount)
        else
          var g := Linspace(x0, c - 0.1, steps) + Linspace(c + 0.1, xEnd, m - steps);
          assert g[..steps] == Linspace(x0, c - 0.1, steps);
          assert g[steps..] == Linspace(c + 0.1, xEnd, m - steps);
          Success(g)
      else if m < 0 then Failure(NegativeSampleCount)
      else Success(Linspace(x0, xEnd, m))
  }

  /** The grid ends at xEnd if its last segment has at least two samples. A one-sample
      tail is the point c + 0.1 instead, and a split count equal to m leaves no tail. */
  lemma {:induction false} GridEnd(x0: real, xEnd: real, c: real, m: int)
    requires BuildGrid(x0, xEnd, c, m).Success?
    ensures var g := BuildGrid(x0, xEnd, c, m).value;
            var k := SplitCount(x0, xEnd, c, m);
            (k == 0 && m >= 2 ==> g[m - 1] == xEnd)
            && (0 < k && m - k >= 2 ==> g[m - 1] == xEnd)
            && (0 < k && m - k == 1 ==> g[m - 1] == c + 0.1)
            && (0 < k && k == m && m >= 2 ==> g[m - 1] == c - 0.1)
  {
    var g := BuildGrid(x0, xEnd, c, m).value;
    var k := SplitCount(x0, xEnd, c, m);
    if 0 < k {
      if k < m {
        var back := Linspace(c + 0.1, xEnd, m - k);
        assert g[k..] == back;
        assert g[m - 1] == back[m - 1 - k];
      } else {
        var front := Linspace(x0, c - 0.1, k);
        assert g[..k] == front;
        assert g[m - 1] == front[m - 1];
      }
    }
  }

  /** When the asymptote sits at least 0.1 inside both ends and the split count is positive,
      no sample falls within 0.1 of it. */
  lemma {:induction false} GridAvoidsGap(x0: real, xEnd: real, c: real, m: int)
    requires BuildGrid(x0, xEnd, c, m).Success?
    requires SplitCount(x0, xEnd, c, m) > 0
    requires x0 <= c - 0.1 && c + 0.1 <= xEnd
    ensures AvoidsGap(BuildGrid(x0, xEnd, c, m).value, c)
  {
    var g := BuildGrid(x0, xEnd, c, m).value;
    var k := SplitCount(x0, xEnd, c, m);
    LinspaceWithin(x0, c - 0.1, k);
    LinspaceWithin(c + 0.1, xEnd, m - k);
    forall i | 0 <= i < |g| ensures g[i] <= c - 0.1 || g[i] >= c + 0.1 {
      if i < k {
        assert g[i] == g[..k][i];
      } else {
        assert g[i] == g[k..][i - k];
      }
    }
  }

  /** The grid is strictly increasing when it is one uniform segment over an increasing
      interval, or when the asymptote sits more than 0.1 inside both ends. */
  lemma {:induction false} GridIncreasing(x0: real, xEnd: real, c: real, m: int)
    requires BuildGrid(x0, xEnd, c, m).Success?
    requires x0 < xEnd
    requires SplitCount(x0, xEnd, c, m) == 0 || (x0 < c - 0.1 && c + 0.1 < xEnd)
    ensures StrictlyIncreasing(BuildGrid(x0, xEnd, c, m).value)
  {
    var g := BuildGrid(x0, xEnd, c, m).value;
    var k := SplitCount(x0, xEnd, c, m);
    if k == 0 {
      LinspaceIncreasing(x0, xEnd, m);
    } else {
      var front, back := Linspace(x0, c - 0.1, k), Linspace(c + 0.1, xEnd, m - k);
      LinspaceIncreasing(x0, c - 0.1, k);
      LinspaceIncreasing(c + 0.1, xEnd, m - k);
      LinspaceWithin(x0, c - 0.1, k);
      LinspaceWithin(c + 0.1, xEnd, m - k);
      assert g == front + back;
      forall i, j | 0 <= i < j < |g| ensures g[i] < g[j] {
        if j < k {
          assert g[i] == front[i] && g[j] == front[j];
        } else if i >= k {
          assert g[i] == back[i - k] && g[j] == back[j - k];
        } else {
          assert g[i] == front[i] && g[j] == back[j - k];
        }
      }
    }
  }

  /** With the asymptote within 0.1 of x0 the first segment runs backwards: x0 = -5,
      xEnd = 0, c = -4.9875 and m = 1000 give |x0 - c| / |x0 - xEnd| * m = 2.5, a split
      count of 2 and a grid starting -5, -5.0875, so the grid is neither increasing nor clear
      of the gap. */
  lemma AsymptoteNearStartReversesGrid()
    ensures BuildGrid(-5.0, 0.0, -4.9875, 1000).Success?
    ensures SplitCount(-5.0, 0.0, -4.9875, 1000) == 2
    ensures var g := BuildGrid(-5.0, 0.0, -4.9875, 1000).value;
            g[0] == -5.0 && g[1] == -5.0875 && !StrictlyIncreasing(g) && !AvoidsGap(g, -4.9875)
  {
    var k := SplitCount(-5.0, 0.0, -4.9875, 1000);
    assert Abs(-5.0 - -4.9875) / Abs(-5.0 - 0.0) * 1000.0 == 2.5;
    assert k == 2;
    var g := BuildGrid(-5.0, 0.0, -4.9875, 1000).value;
    assert g[..2] == Linspace(-5.0, -5.0875, 2);
    assert g[1] == g[..2][1];
    assert g[0] > g[1];
  }

  /** Sample i lies just past the asymptote: its predecessor is below c and it is above c. */
  predicate Crossing(g: seq<real>, c: real, i: int) {
    1 <= i < |g| && g[i - 1] < c && g[i] > c
  }

  /** The loop `for i in range(from, len(g[1:]))`: the first crossing at an index in
      [from, |g| - 2]. The last index |g| - 1 is never examined. */
  function ScanFrom(g: seq<real>, c: real, from: nat): (b: Option<nat>)
    requires from >= 1
    ensures b.Some? ==> from <= b.value <= |g| - 2 && Crossing(g, c, b.value)
    ensures b.Some? ==> forall j :: from <= j < b.value ==> !Crossing(g, c, j)
    ensures b.None? ==> forall j :: from <= j <= |g| - 2 ==> !Crossing(g, c, j)
    decreases |g| - from
  {
    if from >= |g| - 1 then None
    else if Crossing(g, c, from) then Some(from)
    else ScanFrom(g, c, from + 1)
  }

  /** The breakpoint scan of `set_x_axis`: the smallest i in [1, |g| - 2] at which the grid
      crosses c, or None when there is none in that range. */
  function FindBreakpoint(g: seq<real>, c: real): (b: Option<nat>)
    ensures b.Some? ==> 1 <= b.value <= |g| - 2 && Crossing(g, c, b.value)
    ensures b.Some? ==> forall j :: j < b.value ==> !Crossing(g, c, j)
    ensures b.None? <==> forall j :: 1 <= j <= |g| - 2 ==> !Crossing(g, c, j)
  {
    ScanFrom(g, c, 1)
  }

  /** A crossing at the last index alone is invisible to the scan. */
  lemma LastIndexCrossingUnseen(g: seq<real>, c: real)
    requires |g| >= 2 && Crossing(g, c, |g| - 1)
    requires forall j :: 1 <= j < |g| - 1 ==> !Crossing(g, c, j)
    ensures FindBreakpoint(g, c) == None
  {
  }

  /** With the asymptote at least 0.1 inside both ends, a positive split count k and at
      least two samples after the gap, the breakpoint is k: the first sample after the gap. */
  lemma {:induction false} BreakpointAfterGap(x0: real, xEnd: real, c: real, m: int)
    requires BuildGrid(x0, xEnd, c, m).Success?
    requires SplitCount(x0, xEnd, c, m) > 0
    requires x0 <= c - 0.1 && c + 0.1 <= xEnd
    requires m - SplitCount(x0, xEnd, c, m) >= 2
    ensures FindBreakpoint(BuildGrid(x0, xEnd, c, m).value, c) == Some(SplitCount(x0, xEnd, c, m))
  {
    var g := BuildGrid(x0, xEnd, c, m).value;
    var k := SplitCount(x0, xEnd, c, m);
    LinspaceWithin(x0, c - 0.1, k);
    LinspaceWithin(c + 0.1, xEnd, m - k);
    assert g[k - 1] == g[..k][k - 1];
    assert g[k] == g[k..][0];
    assert Crossing(g, c, k);
    forall j | 1 <= j < k ensures !Crossing(g, c, j) {
      assert g[j] == g[..k][j];
    }
    var b := FindBreakpoint(g, c);
    assert b.Some?;
  }

  /** With a one-sample tail the only crossing is at the last index, so the scan finds
      nothing. */
  lemma {:induction false} OneSampleTailUnseen(x0: real, xEnd: real, c: real, m: int)
    requires BuildGrid(x0, xEnd, c, m).Success?
    requires SplitCount(x0, xEnd, c, m) > 0
    requires m - SplitCount(x0, xEnd, c, m) == 1
    ensures FindBreakpoint(BuildGrid(x0, xEnd, c, m).value, c) == None
  {
    var g := BuildGrid(x0, xEnd, c, m).value;
    var k := SplitCount(x0, xEnd, c, m);
    if x0 <= c - 0.1 {
      // the first segment stays at or below c - 0.1
      LinspaceWithin(x0, c - 0.1, k);
      forall j | 1 <= j <= |g| - 2 ensures !Crossing(g, c, j) {
        assert g[j] == g[..k][j];
      }
    } else {
      // the first segment descends, so no step within it rises across c
      forall j | 1 <= j <= |g| - 2 ensures !Crossing(g, c, j) {
        assert g[j] == g[..k][j] && g[j - 1] == g[..k][j - 1];
        assert (c - 0.1 - x0) / (k - 1) as real < 0.0;
      }
    }
  }
}
