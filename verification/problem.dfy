/** The fixed differential equation dy/dx = (1 - 2y)e^x + y^2 + e^(2x) and its closed-form
    solution family y(x) = 1/(C - x) + e^x. The exponential is a parameter `exp`: the model
    assumes nothing about it beyond what an individual contract states as a hypothesis. */
module Problem {

  /** The right-hand side f(x, y) of the equation. Given e^(2x) = (e^x)^2 it is
      e^x + (y - e^x)^2: it never falls below e^x and equals e^x on the curve y = e^x. */
  function Formula(exp: real -> real, x: real, y: real): (r: real)
    ensures exp(2.0 * x) == exp(x) * exp(x) ==> r >= exp(x) && (y == exp(x) ==> r == exp(x))
  {
    var e := exp(x);
    var d := y - e;
    assert (1.0 - 2.0 * y) * e + y * y + e * e - e == d * d;
    assert d > 0.0 ==> d * d > 0.0;
    assert d < 0.0 ==> (-d) * (-d) > 0.0 && d * d == (-d) * (-d);
    (1.0 - 2.0 * y) * e + y * y + exp(2.0 * x)
  }

  /** The closed-form solution with asymptote constant `c`, at a point off the asymptote:
      its distance from e^x is the reciprocal of the distance from x to the asymptote. */
  function Exact(exp: real -> real, c: real, x: real): (y: real)
    requires x != c
    ensures (y - exp(x)) * (c - x) == 1.0
  {
    1.0 / (c - x) + exp(x)
  }

  /** Along y = e^x + u the equation reduces to u' = u^2: f(x, e^x + u) = e^x + u^2. With
      u = 1/(C - x), whose derivative is u^2, this is why every member of the `Exact` family
      solves the equation (given e^(2x) = (e^x)^2). */
  lemma FormulaAlongExactFamily(exp: real -> real, x: real, u: real)
    requires exp(2.0 * x) == exp(x) * exp(x)
    ensures Formula(exp, x, exp(x) + u) == exp(x) + u * u
  {
    var e := exp(x);
    calc {
      Formula(exp, x, e + u);
      (1.0 - 2.0 * (e + u)) * e + (e + u) * (e + u) + e * e;
      e - 2.0 * e * e - 2.0 * u * e + e * e + 2.0 * e * u + u * u + e * e;
      e + u * u;
    }
  }

  /** The value of the `Exact` member with asymptote `c` at x0 is y0 exactly when
      c = x0 + 1/(y0 - e^x0): this is the constant that makes the closed form meet the
      initial condition. */
  lemma ExactMeetsInitialValue(exp: real -> real, x0: real, y0: real, c: real)
    requires c != x0
    ensures Exact(exp, c, x0) == y0 <==> (y0 - exp(x0)) * (c - x0) == 1.0
  {
  }
}
