/** Polynomials given by their coefficients, and what the history operations do to them. */
module Polynomials {
  /** The value at x. */
  function Eval(c: seq<real>, x: real): real {
    if c == [] then 0.0 else c[0] + x * Eval(c[1..], x)
  }

  function Product(a: real, b: real): real {
    a * b
  }

  lemma EvalIs(c: seq<real>, x: real)
    requires c != []
    ensures Eval(c, x) == c[0] + Product(x, Eval(c[1..], x))
  {
  }

  // ----- Retraction: the shift by one step

  /** Every coefficient minus the next one. */
  function Differences(z: seq<real>): (d: seq<real>)
    ensures |d| == |z| && forall m {:trigger d[m]} :: 0 <= m < |z| ==> d[m] == if m + 1 < |z| then z[m] - z[m + 1] else z[m]
  {
    seq(|z|, m requires 0 <= m < |z| => if m + 1 < |z| then z[m] - z[m + 1] else z[m])
  }

  /** The double loop of `corfailure` on one column. */
  function Retracted(c: seq<real>): (r: seq<real>)
    ensures |r| == |c|
  {
    if |c| <= 1 then c else Differences([c[0]] + Retracted(c[1..]))
  }

  lemma {:induction false} EvalDifferences(z: seq<real>, x: real)
    requires z != []
    ensures Eval(Differences(z), x) == Eval(z, x) - Eval(z[1..], x)
  {
    hide Product;
    var d := Differences(z);
    EvalIs(z, x);
    EvalIs(d, x);
    if |z| > 1 {
      EvalDifferences(z[1..], x);
      assert d[1..] == Differences(z[1..]);
      EvalIs(z[1..], x);
      ProductMinus(x, Eval(z[1..], x), Eval(z[1..][1..], x));
    } else {
      assert d[1..] == z[1..] == [];
    }
  }

  lemma ProductMinus(x: real, a: real, b: real)
    ensures Product(x, a - b) == Product(x, a) - Product(x, b)
  {
  }

  /** Retraction shifts the polynomial by one. */
  lemma {:induction false} RetractedShifts(c: seq<real>, x: real)
    ensures Eval(Retracted(c), x) == Eval(c, x - 1.0)
  {
    hide Product, Differences;
    if |c| > 1 {
      var t := Retracted(c[1..]);
      RetractedShifts(c[1..], x);
      var z := [c[0]] + t;
      assert z[1..] == t;
      EvalDifferences(z, x);
      EvalIs(z, x);
      EvalIs(c, x - 1.0);
      ProductShift(x, Eval(t, x));
    } else if |c| == 1 {
      EvalIs(c, x);
      EvalIs(c, x - 1.0);
      NoTail(c, x);
      NoTail(c, x - 1.0);
    }
  }

  lemma NoTail(c: seq<real>, x: real)
    requires |c| == 1
    ensures Product(x, Eval(c[1..], x)) == 0.0
  {
    assert c[1..] == [];
  }

  lemma ProductShift(x: real, a: real)
    ensures Product(x - 1.0, a) == Product(x, a) - a
  {
  }

  // ----- Rescaling

  function Power(r: real, m: nat): real {
    if m == 0 then 1.0 else Product(Power(r, m - 1), r)
  }

  function Rescaled(c: seq<real>, r: real): (d: seq<real>)
    ensures |d| == |c| && forall m {:trigger d[m]} :: 0 <= m < |c| ==> d[m] == Product(c[m], Power(r, m))
  {
    seq(|c|, m requires 0 <= m < |c| => Product(c[m], Power(r, m)))
  }

  function Times(c: seq<real>, k: real): (d: seq<real>)
    ensures |d| == |c| && forall m {:trigger d[m]} :: 0 <= m < |c| ==> d[m] == Product(c[m], k)
  {
    seq(|c|, m requires 0 <= m < |c| => Product(c[m], k))
  }

  lemma {:induction false} EvalTimes(c: seq<real>, k: real, x: real)
    ensures Eval(Times(c, k), x) == Product(k, Eval(c, x))
  {
    hide Product;
    if c == [] {
      assert Times(c, k) == [];
      ProductZero(k);
    } else {
      EvalTimes(c[1..], k, x);
      assert Times(c, k)[1..] == Times(c[1..], k);
      EvalIs(c, x);
      EvalIs(Times(c, k), x);
      TimesStep(c[0], k, x, Eval(c[1..], x));
    }
  }

  lemma ProductZero(k: real)
    ensures Product(k, 0.0) == 0.0
  {
  }

  lemma TimesStep(a: real, k: real, x: real, e: real)
    ensures Product(a, k) + Product(x, Product(k, e)) == Product(k, a + Product(x, e))
  {
    assert x * (k * e) == k * (x * e);
  }

  lemma RescaleStep(a: real, p: real, r: real)
    ensures Product(a, Product(p, r)) == Product(Product(a, p), r)
  {
    assert a * (p * r) == (a * p) * r;
  }

  lemma ProductOne(a: real)
    ensures Product(a, 1.0) == a
  {
  }

  /** Rescaling the coefficients is rescaling the argument. */
  lemma {:induction false} EvalRescaled(c: seq<real>, r: real, x: real)
    ensures Eval(Rescaled(c, r), x) == Eval(c, Product(r, x))
  {
    hide Product;
    var d := Rescaled(c, r);
    if c == [] {
      assert d == [];
    } else {
      EvalRescaled(c[1..], r, x);
      var u := Times(Rescaled(c[1..], r), r);
      forall m | 0 <= m < |c| - 1
        ensures d[1..][m] == u[m]
      {
        assert Power(r, m + 1) == Product(Power(r, m), r);
        assert d[1..][m] == d[m + 1];
        RescaleStep(c[m + 1], Power(r, m), r);
      }
      assert d[1..] == u;
      EvalTimes(Rescaled(c[1..], r), r, x);
      EvalIs(c, Product(r, x));
      EvalIs(d, x);
      var e := Eval(c[1..], Product(r, x));
      RescaleStep(x, r, e);
      Swapped(x, r);
      ProductOne(c[0]);
    }
  }

  lemma Swapped(a: real, b: real)
    ensures Product(a, b) == Product(b, a)
  {
  }

  // ----- Derivatives

  /** The formal derivative. */
  function Derivative(c: seq<real>): (d: seq<real>)
    ensures |d| == if c == [] then 0 else |c| - 1
    ensures forall m {:trigger d[m]} :: 0 <= m < |d| ==> d[m] == Product((m + 1) as real, c[m + 1])
  {
    if c == [] then [] else seq(|c| - 1, m requires 0 <= m < |c| - 1 => Product((m + 1) as real, c[m + 1]))
  }

  function DerivativeN(c: seq<real>, k: nat): (d: seq<real>)
    ensures |d| == if k <= |c| then |c| - k else 0
  {
    if k == 0 then c else Derivative(DerivativeN(c, k - 1))
  }

  /** j (j - 1) ... (j - k + 1). */
  function Falling(j: nat, k: nat): nat
    requires k <= j
  {
    if k == 0 then 1 else Falling(j - 1, k - 1) * j
  }

  lemma {:induction false} FallingNext(j: nat, k: nat)
    requires k < j
    ensures Falling(j, k + 1) == Falling(j, k) * (j - k)
  {
    if k > 0 {
      FallingNext(j - 1, k - 1);
      var f, d := Falling(j - 1, k - 1), j - k;
      assert f * d * j == f * j * d;
    } else {
      assert Falling(j - 1, 0) == 1;
    }
  }

  /** The coefficients of the k-th derivative. */
  lemma {:induction false} DerivativeEntry(c: seq<real>, k: nat, m: nat)
    requires k + m < |c|
    ensures |DerivativeN(c, k)| == |c| - k && DerivativeN(c, k)[m] == Product(Falling(k + m, k) as real, c[k + m])
  {
    hide Product, Falling, Derivative;
    if k > 0 {
      DerivativeEntry(c, k - 1, m + 1);
      FallingNext(k + m, k - 1);
      DerivativeAt(DerivativeN(c, k - 1), m);
      FactorStep(m + 1, Falling(k + m, k - 1), c[k + m]);
    } else {
      FallingNone(m);
      OneProduct(c[m]);
    }
  }

  lemma DerivativeAt(d: seq<real>, m: nat)
    requires m + 1 < |d|
    ensures Derivative(d)[m] == Product((m + 1) as real, d[m + 1])
  {
    hide Product;
  }

  lemma FallingNone(j: nat)
    ensures Falling(j, 0) == 1
  {
  }

  lemma OneProduct(a: real)
    ensures Product(1.0, a) == a
  {
  }

  lemma FactorStep(a: nat, f: nat, y: real)
    ensures Product(a as real, Product(f as real, y)) == Product((f * a) as real, y)
  {
    assert (f * a) as real == f as real * a as real;
    assert a as real * (f as real * y) == (f as real * a as real) * y;
  }

  /** Coefficient m times m + a. */
  function Weighted(c: seq<real>, a: nat): (d: seq<real>)
    ensures |d| == |c| && forall m {:trigger d[m]} :: 0 <= m < |c| ==> d[m] == Product((m + a) as real, c[m])
  {
    seq(|c|, m requires 0 <= m < |c| => Product((m + a) as real, c[m]))
  }

  lemma {:induction false} EvalSum(c: seq<real>, d: seq<real>, e: seq<real>, x: real)
    requires |c| == |d| == |e| && forall m {:trigger e[m]} :: 0 <= m < |c| ==> e[m] == c[m] + d[m]
    ensures Eval(e, x) == Eval(c, x) + Eval(d, x)
  {
    hide Product;
    if c != [] {
      EvalSum(c[1..], d[1..], e[1..], x);
      EvalIs(c, x);
      EvalIs(d, x);
      EvalIs(e, x);
      ProductPlus(x, Eval(c[1..], x), Eval(d[1..], x));
    }
  }

  lemma ProductPlus(x: real, a: real, b: real)
    ensures Product(x, a + b) == Product(x, a) + Product(x, b)
  {
  }

  lemma WeightStep(m: nat, y: real)
    ensures Product((m + 1) as real, y) == y + Product((m + 0) as real, y)
  {
    assert (m + 1) as real == m as real + 1.0;
  }

  /** The product rule for x times the polynomial c[1..]. */
  lemma ProductRule(c: seq<real>, x: real)
    requires c != []
    ensures Eval(Derivative(c), x) == Eval(c[1..], x) + Product(x, Eval(Derivative(c[1..]), x))
  {
    hide Product, Eval;
    var t := c[1..];
    var w0, w1 := Weighted(t, 0), Weighted(t, 1);
    assert Derivative(c) == w1;
    forall m | 0 <= m < |t|
      ensures w1[m] == t[m] + w0[m]
    {
      WeightStep(m, t[m]);
    }
    EvalSum(t, w0, w1, x);
    if t == [] {
      assert w0 == [] && Derivative(t) == [];
      EvalNone(x);
      ProductZero(x);
    } else {
      assert w0[1..] == Derivative(t);
      EvalIs(w0, x);
      ZeroProduct(t[0]);
    }
  }

  lemma EvalNone(x: real)
    ensures Eval([], x) == 0.0
  {
  }

  lemma ZeroProduct(a: real)
    ensures Product((0 + 0) as real, a) == 0.0
  {
  }

  /** The second-order remainder of the slope between x and y. */
  function Remainder(c: seq<real>, x: real, y: real): real {
    if c == [] then 0.0 else Eval(Derivative(c[1..]), x) + Product(y, Remainder(c[1..], x, y))
  }

  /** The value at y is that on the tangent at x, and a second-order term. */
  predicate Slope(fx: real, fy: real, dx: real, s: real, r: real) {
    fy - fx == dx * s + dx * dx * r
  }

  /** The formal derivative is the derivative. */
  lemma {:induction false} DerivativeIsSlope(c: seq<real>, x: real, y: real)
    ensures Slope(Eval(c, x), Eval(c, y), y - x, Eval(Derivative(c), x), Remainder(c, x, y))
  {
    hide Product, Slope, Eval, Derivative;
    if c == [] {
      EvalNone(x);
      EvalNone(y);
      NoSlope(y - x, Eval(Derivative(c), x));
      NoDerivative();
    } else {
      var t := c[1..];
      DerivativeIsSlope(t, x, y);
      ProductRule(c, x);
      EvalIs(c, x);
      EvalIs(c, y);
      SlopeStep(c[0], x, y, Eval(t, x), Eval(t, y), Eval(Derivative(t), x), Remainder(t, x, y));
    }
  }

  lemma NoDerivative()
    ensures Derivative([]) == []
  {
  }

  lemma NoSlope(dx: real, s: real)
    requires s == 0.0
    ensures Slope(0.0, 0.0, dx, s, 0.0)
  {
  }

  lemma SlopeStep(a: real, x: real, y: real, tx: real, ty: real, d: real, r: real)
    requires Slope(tx, ty, y - x, d, r)
    ensures Slope(a + Product(x, tx), a + Product(y, ty), y - x, tx + Product(x, d), d + Product(y, r))
  {
    var e := y - x;
    var g := d + e * r;
    assert ty == tx + e * g by {
      assert e * g == e * d + e * e * r;
    }
    assert y * ty == (x + e) * (tx + e * g) == x * tx + x * (e * g) + e * tx + e * (e * g);
    assert x * (e * g) == e * (x * d) + e * e * (x * r) by {
      assert x * g == x * d + e * (x * r);
      assert x * (e * g) == e * (x * g);
    }
    assert e * (e * g) == e * e * d + e * e * (e * r);
    assert e * e * (d + y * r) == e * e * d + e * e * (x * r) + e * e * (e * r) by {
      assert y * r == x * r + e * r;
    }
  }
}

/** The Nordsieck history of the LSODA port: `corfailure`, `scaleh` and `intdy`. */
module Nordsieck {
  import opened Polynomials

  /** sm1 of common.c. */
  const SM1: seq<real> := [0.0, 0.5, 0.575, 0.55, 0.45, 0.35, 0.25, 0.2, 0.15, 0.1, 0.075, 0.05, 0.025]
  const MXNCF := 10
  const ETA := 0.00000000000000022204460492503131

  function Abs(x: real): real {
    if x < 0.0 then -x else x
  }

  function Fmin(a: real, b: real): real {
    if a < b then a else b
  }

  function Fmax(a: real, b: real): real {
    if a < b then b else a
  }

  /** The ratio rh limited so that g times it does not exceed 1; g is |h| / hmax. */
  function Capped(rh: real, g: real): real {
    rh / Fmax(1.0, g * rh)
  }

  predicate Unstable(rh: real, pdh: real, limit: real) {
    rh * pdh * 1.00001 >= limit
  }

  function StableRatio(limit: real, pdh: real): real
    requires pdh > 0.0
  {
    limit / pdh
  }

  /** The step ratio for a wanted one: capped, and for the Adams method (meth 1) within the stability region. */
  function StepRatio(rh: real, g: real, meth: int, pdh: real, limit: real): real
    requires pdh > 0.0
  {
    if meth == 1 && Unstable(Capped(rh, g), pdh, limit) then StableRatio(limit, pdh) else Capped(rh, g)
  }

  /** The largest ratio up to rh and rmax that keeps g times it within 1. */
  ghost predicate Largest(c: real, rh: real, rmax: real, g: real) {
    && c <= rh && c <= rmax && Product(g, c) <= 1.0 && (c == rh || c == rmax || Product(g, c) == 1.0)
    && forall r {:trigger Product(g, r)} :: r <= rh && r <= rmax && Product(g, r) <= 1.0 ==> r <= c
  }

  lemma InverseRatio(m: real, g: real)
    requires m > 0.0 && g > 0.0 && g * m > 1.0
    ensures g * Capped(m, g) == 1.0
  {
    var d, c := g * m, Capped(m, g);
    assert c * d == m;
    assert d * (g * c) == g * (c * d);
    Smaller(g * c, 1.0, d);
    Smaller(1.0, g * c, d);
  }

  /** The step is capped no further than it has to be. */
  lemma CappedLargest(rh: real, rmax: real, g: real)
    requires rh > 0.0 && rmax > 0.0 && g >= 0.0
    ensures Largest(Capped(Fmin(rh, rmax), g), rh, rmax, g) && Capped(Fmin(rh, rmax), g) > 0.0
  {
    var m := Fmin(rh, rmax);
    var c := Capped(m, g);
    CappedLimits(m, g);
    if g * m <= 1.0 {
      assert c == m;
    } else {
      InverseRatio(m, g);
      forall r | r <= rh && r <= rmax && Product(g, r) <= 1.0
        ensures r <= c
      {
        assert g > 0.0 && r * g <= c * g;
        Smaller(r, c, g);
      }
    }
  }

  /**
    The ratio rh for a wanted one: c is the largest that neither exceeds the wanted one and rmax nor makes the step longer
    than it may be. It is taken, unless the Adams method (meth 1) would then leave its stability region, or come close to
    it; then the one is taken, and the flag set, that ends on its border.
   */
  ghost predicate Chosen(rh: real, c: real, flag: int, rh0: real, rmax: real, g: real, meth: int, pdh: real, limit: real, flag0: int) {
    && (rh0 > 0.0 && rmax > 0.0 && g >= 0.0 ==> c > 0.0 && Largest(c, rh0, rmax, g))
    && (if meth == 1 && c * pdh * 1.00001 >= limit then rh * pdh == limit else rh == c)
    && flag == if meth != 1 then flag0 else if c * pdh * 1.00001 >= limit then 1 else 0
  }

  lemma RatioChosen(rh0: real, rmax: real, g: real, meth: int, pdh: real, limit: real, flag0: int)
    requires pdh > 0.0
    ensures var c := Capped(Fmin(rh0, rmax), g); var out := Unstable(c, pdh, limit);
      Chosen(StepRatio(Fmin(rh0, rmax), g, meth, pdh, limit), c, if meth != 1 then flag0 else if out then 1 else 0, rh0, rmax, g, meth, pdh, limit, flag0)
  {
    hide Capped, Largest;
    if rh0 > 0.0 && rmax > 0.0 && g >= 0.0 {
      CappedLargest(rh0, rmax, g);
    }
    assert StableRatio(limit, pdh) * pdh == limit;
  }

  /** Where the stability region does not matter, the step is the wanted one, or grows by rmax, or is the longest one. */
  lemma LongestStep(rh: real, c: real, flag: int, rh0: real, rmax: real, h: real, hmxi: real, meth: int, pdh: real, limit: real, flag0: int)
    requires Chosen(rh, c, flag, rh0, rmax, Product(Abs(h), hmxi), meth, pdh, limit, flag0) && rh == c
    requires rh0 > 0.0 && rmax > 0.0 && hmxi >= 0.0
    ensures Product(Abs(h * rh), hmxi) <= 1.0 && (rh == rh0 || rh == rmax || Product(Abs(h * rh), hmxi) == 1.0)
  {
    assert Product(Abs(h), hmxi) >= 0.0;
    hide Chosen;
    LongerStep(h, hmxi, c);
    hide Product, Abs;
    assert Largest(c, rh0, rmax, Product(Abs(h), hmxi)) by { LargestChosen(rh, c, flag, rh0, rmax, Product(Abs(h), hmxi), meth, pdh, limit, flag0); }
  }

  lemma LargestChosen(rh: real, c: real, flag: int, rh0: real, rmax: real, g: real, meth: int, pdh: real, limit: real, flag0: int)
    requires Chosen(rh, c, flag, rh0, rmax, g, meth, pdh, limit, flag0) && rh0 > 0.0 && rmax > 0.0 && g >= 0.0
    ensures c > 0.0 && Largest(c, rh0, rmax, g)
  {
  }

  lemma LongerStep(h: real, hmxi: real, c: real)
    ensures c > 0.0 ==> Product(Abs(h * c), hmxi) == Product(Product(Abs(h), hmxi), c)
  {
    if c > 0.0 && h >= 0.0 {
      assert h * c >= 0.0;
      assert h * c * hmxi == h * hmxi * c;
    } else if c > 0.0 {
      assert h * c <= 0.0;
      assert -(h * c) * hmxi == -h * hmxi * c;
    }
  }

  /** The limits that `scaleh` keeps: the wanted ratio (up to a tolerance), the largest step, the stability region. */
  lemma RatioLimits(rh: real, g: real, meth: int, pdh: real, limit: real)
    requires rh > 0.0 && g >= 0.0 && pdh > 0.0 && limit > 0.0
    ensures var r := StepRatio(rh, g, meth, pdh, limit);
      && 0.0 < r <= 1.00001 * rh
      && (!(meth == 1 && Unstable(Capped(rh, g), pdh, limit)) ==> g * r <= 1.0) && g * r <= 1.00001
      && (meth == 1 ==> r * pdh <= limit)
  {
    hide Capped, Unstable, StableRatio;
    CappedLimits(rh, g);
    StabilityLimits(limit, pdh, Capped(rh, g));
    WithinTolerance(g, StepRatio(rh, g, meth, pdh, limit), Capped(rh, g));
  }

  lemma WithinTolerance(g: real, r: real, c: real)
    requires g >= 0.0 && r <= c * 1.00001 && g * c <= 1.0
    ensures g * r <= 1.00001
  {
    assert g * (c * 1.00001 - r) >= 0.0;
    assert g * (c * 1.00001) == g * c * 1.00001;
  }

  /** The interpolant of a history column at time t. */
  ghost function Interpolant(c: seq<real>, tn: real, h: real, t: real): real
    requires h != 0.0
  {
    Eval(c, (t - tn) / h)
  }

  /** Its k-th derivative in t. */
  ghost function InterpolantN(c: seq<real>, k: nat, tn: real, h: real, t: real): real
    requires h != 0.0
  {
    PowerNonZero(h, k);
    Eval(DerivativeN(c, k), (t - tn) / h) / Power(h, k)
  }

  lemma SelfQuotient(h: real)
    requires h != 0.0
    ensures h / h == 1.0
  {
  }

  lemma {:induction false} PowerNonZero(h: real, k: nat)
    requires h != 0.0
    ensures Power(h, k) != 0.0
  {
    if k > 0 {
      PowerNonZero(h, k - 1);
    }
  }

  lemma Quotient(a: real, b: real, h: real)
    requires h != 0.0
    ensures a / h - b / h == (a - b) / h
  {
  }

  /** InterpolantN(k + 1) is the derivative of InterpolantN(k). */
  lemma InterpolantDerives(c: seq<real>, k: nat, tn: real, h: real, t: real, t': real) returns (r: real)
    requires h != 0.0
    ensures Slope(InterpolantN(c, k, tn, h, t), InterpolantN(c, k, tn, h, t'), t' - t, InterpolantN(c, k + 1, tn, h, t), r)
  {
    hide Slope, Eval, Remainder, Product;
    PowerNonZero(h, k);
    PowerNonZero(h, k + 1);
    var d, p := DerivativeN(c, k), Power(h, k);
    var x, y := (t - tn) / h, (t' - tn) / h;
    DerivativeIsSlope(d, x, y);
    Quotient(t' - tn, t - tn, h);
    NonZeroProducts(h, p);
    var s, q := Eval(Derivative(d), x), Remainder(d, x, y);
    r := q / (h * h * p);
    ScaledSlope(Eval(d, x), Eval(d, y), t' - t, h, p, Power(h, k + 1), y - x, s, q);
  }

  lemma NonZeroProducts(h: real, p: real)
    requires h != 0.0 && p != 0.0
    ensures h * h * p != 0.0
  {
  }

  lemma ScaledSlope(fx: real, fy: real, dt: real, h: real, p: real, p': real, e: real, s: real, q: real)
    requires h != 0.0 && p != 0.0 && p' == Product(p, h) != 0.0 && h * h * p != 0.0 && e == dt / h && Slope(fx, fy, e, s, q)
    ensures Slope(fx / p, fy / p, dt, s / p', q / (h * h * p))
  {
    var u, v := s / p', q / (h * h * p);
    assert e * h == dt;
    assert s == u * (p * h) && q == v * (h * h * p);
    assert e * s == p * (dt * u) by {
      assert e * (u * (p * h)) == (e * h) * (p * u);
    }
    assert e * e * q == p * (dt * dt * v) by {
      assert e * e * (v * (h * h * p)) == (e * h) * (e * h) * (v * p);
    }
    Quotient(fy, fx, p);
    Divide(fy - fx, p, dt * u + dt * dt * v);
  }

  lemma Divide(a: real, p: real, b: real)
    requires p != 0.0 && a == p * b
    ensures a / p == b
  {
  }

  class History {
    const neq: nat
    const hmin: real
    const hmxi: real
    /** yh[j, i] for 1 <= j <= nq + 1 and 1 <= i <= neq. */
    const yh: array2<real>
    var nq: nat
    var h: real
    var hu: real
    var tn: real
    var rc: real
    var rmax: real
    var pdlast: real
    var meth: int
    var miter: int
    var ncf: int
    var ipup: int
    var irflag: int
    var ialth: int

    predicate Valid()
      reads `nq
    {
      1 <= nq < |SM1| && nq + 2 <= yh.Length0 && yh.Length1 == neq + 1
    }

    /** The history of component i from row `from` on. */
    ghost function Column(i: nat, from: nat): (c: seq<real>)
      requires Valid() && 1 <= i <= neq && 1 <= from <= nq + 2
      reads `nq, yh
      ensures |c| == nq + 2 - from && forall m {:trigger c[m]} :: 0 <= m < |c| ==> c[m] == yh[from + m, i]
    {
      var n := nq + 2 - from;
      seq(n, m requires 0 <= m < n reads yh => yh[from + m, i])
    }

    // ----- corfailure

    /** The innermost loop: row i1 minus row i1 + 1. */
    method SubtractRow(i1: nat)
      requires Valid() && 1 <= i1 <= nq
      modifies yh
      ensures forall r, i {:trigger yh[r, i]} :: 0 <= r < yh.Length0 && 0 <= i <= neq ==>
        yh[r, i] == if r == i1 && i >= 1 then old(yh[i1, i] - yh[i1 + 1, i]) else old(yh[r, i])
    {
      for i := 1 to neq + 1
        invariant forall r, k {:trigger yh[r, k]} :: 0 <= r < yh.Length0 && 0 <= k <= neq ==>
          yh[r, k] == if r == i1 && 1 <= k < i then old(yh[i1, k] - yh[i1 + 1, k]) else old(yh[r, k])
      {
        yh[i1, i] := yh[i1, i] - yh[i1 + 1, i];
      }
    }

    /** The middle loop: from row j on, every row minus the next one. */
    method RetractFrom(j: nat)
      requires Valid() && 1 <= j <= nq
      modifies yh
      ensures forall i {:trigger Column(i, j)} :: 1 <= i <= neq ==> Column(i, j) == Differences(old(Column(i, j)))
      ensures forall r, i {:trigger yh[r, i]} :: 0 <= r < j && 1 <= i <= neq ==> yh[r, i] == old(yh[r, i])
    {
      var i1 := j;
      while i1 <= nq
        invariant j <= i1 <= nq + 1
        invariant forall r, i {:trigger yh[r, i]} :: 0 <= r < yh.Length0 && 1 <= i <= neq ==>
          yh[r, i] == if j <= r < i1 then old(yh[r, i] - yh[r + 1, i]) else old(yh[r, i])
      {
        SubtractRow(i1);
        i1 := i1 + 1;
      }
    }

    /** `corfailure`: takes the history back to time told; 2 when the step cannot be reduced any further, else 1. */
    method CorFailure(told: real) returns (result: int)
      requires Valid()
      modifies `ncf, `rmax, `tn, `ipup, yh
      ensures Valid() && ncf == old(ncf) + 1 && rmax == 2.0 && tn == told
      ensures forall i {:trigger Column(i, 1)} :: 1 <= i <= neq ==> Column(i, 1) == Retracted(old(Column(i, 1)))
      ensures result == if Abs(h) <= hmin * 1.00001 || ncf == MXNCF then 2 else 1
      ensures ipup == if result == 1 then miter else old(ipup)
    {
      ncf := ncf + 1;
      rmax := 2.0;
      tn := told;
      RetractAll();
      if Abs(h) <= hmin * 1.00001 || ncf == MXNCF {
        return 2;
      }
      ipup := miter;
      return 1;
    }

    /** The outer loop, from the last row up. */
    method RetractAll()
      requires Valid()
      modifies yh
      ensures forall i {:trigger Column(i, 1)} :: 1 <= i <= neq ==> Column(i, 1) == Retracted(old(Column(i, 1)))
    {
      hide Differences, Retracted, ColumnOk;
      ghost var was := Columns(neq);
      var j := nq;
      forall i | 1 <= i <= neq
        ensures ColumnOk(i, nq, was[i])
      {
        ColumnStart(i);
      }
      while j >= 1
        invariant 0 <= j <= nq
        invariant forall i {:trigger was[i]} :: 1 <= i <= neq ==> ColumnOk(i, j, was[i])
      {
        forall i | 1 <= i <= neq
          ensures Differences(Column(i, j)) == Retracted(was[i][j - 1..]) && |was[i]| == nq + 1
          ensures forall r {:trigger yh[r, i]} :: 1 <= r <= j ==> yh[r, i] == was[i][r - 1]
        {
          ColumnNext(i, j, was[i]);
        }
        RetractFrom(j);
        forall i | 1 <= i <= neq
          ensures ColumnOk(i, j - 1, was[i])
        {
          assert Column(i, j) == Retracted(was[i][j - 1..]);
          ColumnIs(i, j - 1, was[i]);
        }
        j := j - 1;
      }
      forall i | 1 <= i <= neq
        ensures Column(i, 1) == Retracted(old(Column(i, 1)))
      {
        ColumnEnd(i, was[i]);
      }
    }

    /** Rows above j are retracted, the others as they were in column c. */
    ghost predicate ColumnOk(i: nat, j: nat, c: seq<real>)
      requires Valid() && 1 <= i <= neq && j <= nq
      reads `nq, yh
    {
      |c| == nq + 1 && Column(i, j + 1) == Retracted(c[j..]) && forall r {:trigger yh[r, i]} :: 1 <= r <= j ==> yh[r, i] == c[r - 1]
    }

    lemma ColumnStart(i: nat)
      requires Valid() && 1 <= i <= neq
      ensures ColumnOk(i, nq, Column(i, 1))
    {
      assert Column(i, nq + 1) == Column(i, 1)[nq..];
    }

    lemma ColumnNext(i: nat, j: nat, c: seq<real>)
      requires Valid() && 1 <= i <= neq && 1 <= j <= nq && ColumnOk(i, j, c)
      ensures |c| == nq + 1 && Differences(Column(i, j)) == Retracted(c[j - 1..])
      ensures forall r {:trigger yh[r, i]} :: 1 <= r <= j ==> yh[r, i] == c[r - 1]
    {
      assert Column(i, j) == [yh[j, i]] + Column(i, j + 1);
      RetractStep(c, j);
    }

    lemma ColumnIs(i: nat, j: nat, c: seq<real>)
      requires Valid() && 1 <= i <= neq && j <= nq && |c| == nq + 1 && Column(i, j + 1) == Retracted(c[j..])
      requires forall r {:trigger yh[r, i]} :: 1 <= r <= j ==> yh[r, i] == c[r - 1]
      ensures ColumnOk(i, j, c)
    {
    }

    lemma ColumnEnd(i: nat, c: seq<real>)
      requires Valid() && 1 <= i <= neq && ColumnOk(i, 0, c)
      ensures Column(i, 1) == Retracted(c)
    {
      assert c[0..] == c;
    }

    ghost function Columns(n: nat): (c: seq<seq<real>>)
      requires Valid() && n <= neq
      reads `nq, yh
      ensures |c| == n + 1 && forall i {:trigger c[i]} :: 1 <= i <= n ==> c[i] == Column(i, 1)
    {
      if n == 0 then [[]] else Columns(n - 1) + [Column(n, 1)]
    }

    // ----- scaleh

    /** The step ratio that `scaleh` uses for a wanted one. */
    function Ratio(rh0: real): (rh: real)
      requires Valid()
      reads `nq, `rmax, `h, `meth, `pdlast
    {
      StepRatio(Fmin(rh0, rmax), Product(Abs(h), hmxi), meth, Pdh(), SM1[nq])
    }

    function Pdh(): (p: real)
      reads `h, `pdlast
      ensures p >= 0.000001 && p >= Product(Abs(h), pdlast) && (p == 0.000001 || p == Product(Abs(h), pdlast))
    {
      Fmax(Product(Abs(h), pdlast), 0.000001)
    }

    /** The Adams method would leave its stability region. */
    predicate Restricted(rh0: real)
      requires Valid()
      reads `nq, `rmax, `h, `meth, `pdlast
    {
      meth == 1 && Unstable(Capped(Fmin(rh0, rmax), Product(Abs(h), hmxi)), Pdh(), SM1[nq])
    }

    /** The first part of `scaleh`. */
    method LimitRatio(rh0: real) returns (rh: real)
      requires Valid()
      modifies `irflag
      ensures rh == old(Ratio(rh0)) && irflag == if meth != 1 then old(irflag) else if old(Restricted(rh0)) then 1 else 0
    {
      hide Capped, Unstable, StableRatio, Product, Abs;
      rh := Fmin(rh0, rmax);
      rh := Capped(rh, Product(Abs(h), hmxi));
      if meth == 1 {
        irflag := 0;
        var pdh := Pdh();
        if Unstable(rh, pdh, SM1[nq]) {
          rh := StableRatio(SM1[nq], pdh);
          irflag := 1;
        }
      }
    }

    /** The loop over the components of one row. */
    method ScaleRow(j: nat, r: real)
      requires Valid() && 1 <= j <= nq + 1
      modifies yh
      ensures forall q, k {:trigger yh[q, k]} :: 0 <= q < yh.Length0 && 1 <= k <= neq ==>
        yh[q, k] == if q == j then Product(old(yh[q, k]), r) else old(yh[q, k])
    {
      for i := 1 to neq + 1
        invariant forall q, k {:trigger yh[q, k]} :: 0 <= q < yh.Length0 && 1 <= k <= neq ==>
          yh[q, k] == if q == j && k < i then Product(old(yh[q, k]), r) else old(yh[q, k])
      {
        yh[j, i] := yh[j, i] * r;
      }
    }

    /** `scaleh`: the rows are multiplied by the powers of the ratio chosen, and the step size with them. */
    method ScaleH(rh0: real) returns (rh: real, ghost c: real)
      requires Valid()
      modifies `irflag, `h, `rc, `ialth, yh
      ensures Valid() && rh == old(Ratio(rh0)) && h == old(h) * rh && rc == old(rc) * rh && ialth == nq + 1
      ensures forall i {:trigger Column(i, 1)} :: 1 <= i <= neq ==> Column(i, 1) == Rescaled(old(Column(i, 1)), rh)
      ensures Chosen(rh, c, irflag, rh0, rmax, Product(old(Abs(h)), hmxi), meth, old(Pdh()), SM1[nq], old(irflag))
    {
      hide Ratio, Restricted, Product, Power, Capped, Chosen, Unstable, StepRatio;
      RatioChosen(rh0, rmax, Product(Abs(h), hmxi), meth, Pdh(), SM1[nq], irflag);
      c := Capped(Fmin(rh0, rmax), Product(Abs(h), hmxi));
      RatioIs(rh0);
      rh := LimitRatio(rh0);
      ScaleBy(rh);
    }

    lemma RatioIs(rh0: real)
      requires Valid()
      ensures Ratio(rh0) == StepRatio(Fmin(rh0, rmax), Product(Abs(h), hmxi), meth, Pdh(), SM1[nq])
      ensures Restricted(rh0) <==> meth == 1 && Unstable(Capped(Fmin(rh0, rmax), Product(Abs(h), hmxi)), Pdh(), SM1[nq])
    {
      hide Capped, Unstable, StepRatio, Product;
    }

    /** The loop and the last lines of `scaleh`. */
    method ScaleBy(rh: real)
      requires Valid()
      modifies `h, `rc, `ialth, yh
      ensures Valid() && h == old(h) * rh && rc == old(rc) * rh && ialth == nq + 1
      ensures forall i {:trigger Column(i, 1)} :: 1 <= i <= neq ==> Column(i, 1) == Rescaled(old(Column(i, 1)), rh)
    {
      hide Product, Power;
      PowerNone(rh);
      var r := 1.0;
      var j := 2;
      while j <= nq + 1
        invariant 2 <= j <= nq + 2 && r == Power(rh, j - 2)
        invariant h == old(h) && rc == old(rc)
        invariant forall q, i {:trigger yh[q, i]} :: 0 <= q < yh.Length0 && 1 <= i <= neq ==>
          yh[q, i] == if 2 <= q < j then Product(old(yh[q, i]), Power(rh, q - 1)) else old(yh[q, i])
      {
        PowerNext(rh, j - 2);
        r := r * rh;
        ScaleRow(j, r);
        j := j + 1;
      }
      forall i | 1 <= i <= neq
        ensures Column(i, 1) == Rescaled(old(Column(i, 1)), rh)
      {
        ProductOne(old(yh[1, i]));
      }
      h := h * rh;
      rc := rc * rh;
      ialth := nq + 1;
    }

    // ----- intdy

    /** The product loop of `intdy`. */
    method FallingProduct(j: nat, k: nat) returns (ic: nat)
      requires k <= j
      ensures ic == Falling(j, k)
    {
      ic := 1;
      for jj := j + 1 - k to j + 1
        invariant ic == Falling(jj - 1, k - (j + 1 - jj))
      {
        ic := ic * jj;
      }
    }

    /**
      `intdy`: -1 for an order out of range, -2 for a time outside the last step, and else
      the k-th derivative of the interpolant of every component at t.
     */
    method IntDy(t: real, k: int, dky: array<real>) returns (iflag: int)
      requires Valid() && h != 0.0 && dky.Length == neq + 1
      modifies dky
      ensures iflag == if k < 0 || k > nq then -1 else if OutOfStep(t, tn - hu - 100.0 * ETA * (tn + hu)) then -2 else 0
      ensures iflag != 0 ==> dky[..] == old(dky[..])
      ensures iflag == 0 ==> forall i {:trigger dky[i]} :: 1 <= i <= neq ==> dky[i] == InterpolantN(Column(i, 1), k, tn, h, t)
    {
      hide Eval, DerivativeN, Power, OutOfStep, Product;
      if k < 0 || k > nq {
        return -1;
      }
      var tp := tn - hu - 100.0 * ETA * (tn + hu);
      StepTest(t, tp);
      if Product(t - tp, t - tn) > 0.0 {
        return -2;
      }
      var s := (t - tn) / h;
      Horner(k, s, dky);
      PowerNonZero(h, k);
      if k == 0 {
        PowerNone(h);
        return 0;
      }
      Scale(dky, Power(h, k));
      return 0;
    }

    /** The last loop of `intdy`: multiplies by h^-k. */
    method Scale(dky: array<real>, p: real)
      requires p != 0.0 && dky.Length == neq + 1
      modifies dky
      ensures forall i {:trigger dky[i]} :: 1 <= i <= neq ==> dky[i] == old(dky[i]) / p
    {
      var r := 1.0 / p;
      for i := 1 to neq + 1
        invariant forall m {:trigger dky[m]} :: 1 <= m <= neq ==> dky[m] == if m < i then old(dky[m]) / p else old(dky[m])
      {
        TimesInverse(dky[i], p);
        dky[i] := dky[i] * r;
      }
    }

    /** t is not between tp and tn, in either direction of time. */
    predicate OutOfStep(t: real, tp: real)
      reads `tn
    {
      (t < tp && t < tn) || (tp < t && tn < t)
    }

    lemma StepTest(t: real, tp: real)
      ensures Product(t - tp, t - tn) > 0.0 <==> OutOfStep(t, tp)
    {
      hide Product;
      SameSide(t - tp, t - tn);
    }

    /** The partial sum of component i from coefficient `from` of the k-th derivative on. */
    ghost function Partial(i: nat, k: nat, s: real, from: nat): real
      requires Valid() && 1 <= i <= neq && k <= nq && from <= nq + 1 - k
      reads `nq, yh
    {
      Eval(DerivativeN(Column(i, 1), k)[from..], s)
    }

    lemma PartialStep(i: nat, k: nat, s: real, j: nat)
      requires Valid() && 1 <= i <= neq && k <= j <= nq
      ensures Partial(i, k, s, j - k) == Product(Falling(j, k) as real, yh[j + 1, i]) + Product(s, Partial(i, k, s, j - k + 1))
      ensures Partial(i, k, s, nq - k + 1) == 0.0
      ensures Partial(i, k, s, 0) == Eval(DerivativeN(Column(i, 1), k), s)
    {
      hide Product, Falling;
      var d := DerivativeN(Column(i, 1), k);
      DerivativeEntry(Column(i, 1), k, j - k);
      EvalTail(d, j - k, s);
      assert d[nq - k + 1..] == [];
      assert d[0..] == d;
    }

    /** One row of the Horner scheme. */
    method HornerRow(k: nat, s: real, j: nat, dky: array<real>)
      requires Valid() && k <= j < nq && dky.Length == neq + 1
      requires forall m {:trigger dky[m]} :: 1 <= m <= neq ==> dky[m] == Partial(m, k, s, j + 1 - k)
      modifies dky
      ensures forall m {:trigger dky[m]} :: 1 <= m <= neq ==> dky[m] == Partial(m, k, s, j - k)
    {
      hide Partial, Falling, Product;
      var ic := FallingProduct(j, k);
      var c := ic as real;
      for i := 1 to neq + 1
        invariant forall m {:trigger dky[m]} :: 1 <= m <= neq ==> dky[m] == if m < i then Partial(m, k, s, j - k) else Partial(m, k, s, j + 1 - k)
      {
        PartialStep(i, k, s, j);
        TwoProducts(c, yh[j + 1, i], s, dky[i]);
        dky[i] := c * yh[j + 1, i] + s * dky[i];
      }
    }

    /** The Horner loops of `intdy`, before the division by the power of h. */
    method Horner(k: nat, s: real, dky: array<real>)
      requires Valid() && k <= nq && dky.Length == neq + 1
      modifies dky
      ensures forall i {:trigger dky[i]} :: 1 <= i <= neq ==> dky[i] == Eval(DerivativeN(Column(i, 1), k), s)
    {
      hide Partial, Falling, Product, Eval, DerivativeN;
      var ic := FallingProduct(nq, k);
      var c := ic as real;
      for i := 1 to neq + 1
        invariant forall m {:trigger dky[m]} :: 1 <= m < i ==> dky[m] == Partial(m, k, s, nq - k)
      {
        PartialStep(i, k, s, nq);
        ProductZero(s);
        TwoProducts(c, yh[nq + 1, i], s, 0.0);
        dky[i] := c * yh[nq + 1, i];
      }
      var j := nq - 1;
      while j >= k
        invariant k - 1 <= j <= nq - 1
        invariant forall m {:trigger dky[m]} :: 1 <= m <= neq ==> dky[m] == Partial(m, k, s, j + 1 - k)
      {
        HornerRow(k, s, j, dky);
        j := j - 1;
      }
      forall i | 1 <= i <= neq
        ensures dky[i] == Eval(DerivativeN(Column(i, 1), k), s)
      {
        PartialStep(i, k, s, k);
      }
    }
  }

  lemma PowerNext(r: real, m: nat)
    ensures Power(r, m + 1) == Product(Power(r, m), r) == Power(r, m) * r
  {
  }

  lemma PowerNone(h: real)
    ensures Power(h, 0) == 1.0
  {
  }

  lemma TimesInverse(x: real, p: real)
    requires p != 0.0
    ensures x * (1.0 / p) == x / p
  {
  }

  lemma TwoProducts(a: real, b: real, c: real, d: real)
    ensures Product(a, b) == a * b && Product(c, d) == c * d
  {
  }

  lemma Larger(a: real, b: real, d: real)
    requires a > b && d > 0.0
    ensures a * d > b * d
  {
    assert (a - b) * d > 0.0;
  }

  lemma Smaller(a: real, b: real, d: real)
    requires a * d <= b * d && d > 0.0
    ensures a <= b
  {
    if a > b {
      Larger(a, b, d);
    }
  }

  lemma CappedLimits(m: real, g: real)
    requires m > 0.0 && g >= 0.0
    ensures 0.0 < Capped(m, g) <= m && g * Capped(m, g) <= 1.0
  {
    var d, q := Fmax(1.0, g * m), Capped(m, g);
    assert q * d == m;
    assert (g * q) * d == g * m;
    assert 1.0 * d == d;
    Smaller(g * q, 1.0, d);
    assert m * d - m == m * (d - 1.0) >= 0.0;
    Smaller(q, m, d);
    PositiveQuotient(m, d);
  }

  lemma SameSide(a: real, b: real)
    ensures Product(a, b) > 0.0 <==> (a < 0.0 && b < 0.0) || (a > 0.0 && b > 0.0)
  {
    if a < 0.0 && b < 0.0 {
      PositiveProduct(-a, -b);
      assert -a * -b == a * b;
    } else if a > 0.0 && b > 0.0 {
      PositiveProduct(a, b);
    } else if a <= 0.0 && b >= 0.0 {
      assert -a * b >= 0.0;
    } else if a >= 0.0 && b <= 0.0 {
      assert a * -b >= 0.0;
    }
  }

  lemma PositiveProduct(a: real, b: real)
    requires a > 0.0 && b > 0.0
    ensures a * b > 0.0
  {
  }

  lemma PositiveQuotient(m: real, d: real)
    requires m > 0.0 && d > 0.0
    ensures m / d > 0.0
  {
  }

  lemma StabilityLimits(sm: real, pdh: real, rh: real)
    requires sm > 0.0 && pdh > 0.0 && rh > 0.0
    ensures Unstable(rh, pdh, sm) ==> 0.0 < StableRatio(sm, pdh) <= rh * 1.00001
    ensures StableRatio(sm, pdh) * pdh <= sm
    ensures !Unstable(rh, pdh, sm) ==> rh * pdh <= sm
  {
    var q := sm / pdh;
    assert q * pdh == sm;
    PositiveQuotient(sm, pdh);
    if Unstable(rh, pdh, sm) {
      assert (rh * 1.00001) * pdh == rh * pdh * 1.00001;
      Smaller(q, rh * 1.00001, pdh);
    } else {
      assert rh * pdh >= 0.0;
    }
  }

  lemma RetractStep(c: seq<real>, j: nat)
    requires 1 <= j < |c|
    ensures Differences([c[j - 1]] + Retracted(c[j..])) == Retracted(c[j - 1..])
  {
    assert c[j - 1..][1..] == c[j..];
  }

  lemma EvalTail(d: seq<real>, m: nat, x: real)
    requires m < |d|
    ensures Eval(d[m..], x) == d[m] + Product(x, Eval(d[m + 1..], x))
  {
    assert d[m..][1..] == d[m + 1..];
  }

  // ----- What the operations keep

  /** When the failed step went from told to told + h, the retracted history has the interpolant it had before at every time. */
  lemma RetractionKeepsInterpolant(c: seq<real>, told: real, tn: real, h: real, t: real)
    requires h != 0.0 && tn == told + h
    ensures Interpolant(Retracted(c), told, h, t) == Interpolant(c, tn, h, t)
  {
    hide Eval, Retracted;
    var x := (t - told) / h;
    Quotient(t - told, h, h);
    SelfQuotient(h);
    assert t - told - h == t - tn;
    RetractedShifts(c, x);
  }

  /** Rescaling the history with the step size keeps the interpolant. */
  lemma RescalingKeepsInterpolant(c: seq<real>, tn: real, h: real, rh: real, t: real)
    requires h != 0.0 && rh != 0.0 && h * rh != 0.0
    ensures Interpolant(Rescaled(c, rh), tn, h * rh, t) == Interpolant(c, tn, h, t)
  {
    var x := (t - tn) / (h * rh);
    assert x * (h * rh) == t - tn;
    Divide(t - tn, h, rh * x);
    EvalRescaled(c, rh, x);
    assert Product(rh, x) == (t - tn) / h;
  }
}
