/** Limits and derivatives of functions on the reals.

    A derivative is stated in Caratheodory's form: `f` has derivative `d` at `x` when its difference
    quotient, completed with the value `d` at `x`, is continuous there.  The sum, product and chain
    rules then become continuity facts about quotients.  Products inside these facts are written
    `Times`, which most proofs hide: they need only the few laws stated in the first section. */
module Calculus {

  /** A total real function: a table of values, or built from other functions. */
  datatype Fn =
    | Table(graph: imap<real, real>)
    | Constant(c: real)
    | Identity
    | Sum(f: Fn, g: Fn)
    | Product(f: Fn, g: Fn)
    | Compose(f: Fn, g: Fn)
    | Reciprocal
    | Slope(f: Fn, x: real, d: real)
    | Column(table: Fn2, second: real)
    | Row(table: Fn2, first: real)
  {
    ghost function At(y: real): real {
      match this
      case Table(graph) => Lookup(graph, y)
      case Constant(c) => c
      case Identity => y
      case Sum(f, g) => f.At(y) + g.At(y)
      case Product(f, g) => Times(f.At(y), g.At(y))
      case Compose(f, g) => f.At(g.At(y))
      case Reciprocal => Recip(y)
      // the difference quotient of f at x, completed with d
      case Slope(f, x, d) => if y == x then d else Over(f.At(y) - f.At(x), y - x)
      case Column(table, second) => table.At(y, second)
      case Row(table, first) => table.At(first, y)
    }
  }

  /** A function of two reals. */
  datatype Fn2 = Fn2(graph: imap<(real, real), real>) {
    ghost function At(x: real, y: real): real {
      Lookup(graph, (x, y))
    }
  }

  ghost function Lookup<T>(graph: imap<T, real>, key: T): real {
    if key in graph then graph[key] else 0.0
  }

  function Abs(x: real): real {
    if x < 0.0 then -x else x
  }

  function Min(x: real, y: real): real {
    if x < y then x else y
  }

  function Times(x: real, y: real): real { x * y }

  function Over(x: real, y: real): real
    requires y != 0.0
  {
    x / y
  }

  /** The reciprocal, completed with 0 at 0. */
  function Recip(y: real): real {
    if y == 0.0 then 0.0 else 1.0 / y
  }

  // ---------------------------------------------------------------- real arithmetic

  lemma AbsTimes(p: real, q: real)
    ensures Abs(Times(p, q)) == Times(Abs(p), Abs(q))
  {
  }

  lemma TimesMono(p: real, q: real, c: real)
    requires p <= q && 0.0 <= c
    ensures Times(p, c) <= Times(q, c) && Times(c, p) <= Times(c, q)
  {
  }

  lemma TimesCancel(p: real, q: real, c: real)
    requires Times(p, c) < Times(q, c) && 0.0 < c
    ensures p < q
  {
  }

  lemma TimesPositive(p: real, q: real)
    requires p > 0.0 && q > 0.0
    ensures Times(p, q) > 0.0
  {
  }

  lemma TimesZero(p: real)
    ensures Times(p, 0.0) == 0.0
  {
  }

  lemma TimesOne(p: real)
    ensures Times(1.0, p) == p == Times(p, 1.0)
  {
  }

  lemma RecipTimes(x: real)
    requires x != 0.0
    ensures Times(Recip(x), x) == 1.0 && (x > 0.0 ==> Recip(x) > 0.0)
  {
  }

  lemma ErrorTerm(d: real, q: real, e: real)
    requires Abs(d) < e
    ensures Abs(Times(d, q)) <= Times(e, Abs(q)) && Abs(Times(q, d)) <= Times(e, Abs(q))
  {
    hide Times;
    AbsTimes(d, q);
    AbsTimes(q, d);
    TimesMono(Abs(d), e, Abs(q));
    TimesSwap(Abs(q), e);
  }

  lemma ProductAsReal(p: int, q: int)
    ensures (p * q) as real == Times(p as real, q as real)
  {
  }

  lemma RootUnique(p: real, q: real)
    requires p > 0.0 && q > 0.0 && Times(p, p) == Times(q, q)
    ensures p == q
  {
    assert (p - q) * (p + q) == 0.0;
  }

  lemma TimesSwap(p: real, q: real)
    ensures Times(p, q) == Times(q, p)
  {
  }

  lemma ProductSplit(p: real, q: real, p0: real, q0: real)
    ensures Times(p, q) - Times(p0, q0)
         == Times(p - p0, q0) + Times(p0, q - q0) + Times(p - p0, q - q0)
  {
  }

  lemma TimesSum3(e: real, p: real, q: real)
    ensures Times(e, p + q + 1.0) == Times(e, p) + Times(e, q) + e
  {
  }

  /** `e` bounds the errors of two factors near `p0` and `q0` so that the product errs by less than `eps`. */
  ghost predicate Share(e: real, p0: real, q0: real, eps: real) {
    0.0 < e <= 1.0 && Times(e, Abs(p0) + Abs(q0) + 1.0) <= eps
  }

  lemma ShareOf(p0: real, q0: real, eps: real) returns (e: real)
    requires eps > 0.0
    ensures e > 0.0 && Share(e, p0, q0, eps)
  {
    hide Times, Recip;
    var m := Abs(p0) + Abs(q0) + 1.0;
    RecipTimes(m);
    var e0 := Times(eps, Recip(m));
    assert Times(e0, m) == eps by {
      TimesAssociative(eps, Recip(m), m);
      TimesOne(eps);
    }
    TimesPositive(eps, Recip(m));
    e := Min(1.0, e0);
    TimesMono(e, e0, m);
  }

  lemma TimesDistributes(p: real, q: real, r: real)
    ensures Times(p + q, r) == Times(p, r) + Times(q, r) && Times(r, p + q) == Times(r, p) + Times(r, q)
    ensures Times(p - q, r) == Times(p, r) - Times(q, r) && Times(r, p - q) == Times(r, p) - Times(r, q)
  {
  }

  lemma TimesAssociative(p: real, q: real, r: real)
    ensures Times(Times(p, q), r) == Times(p, Times(q, r))
  {
  }

  lemma ProductBound(p: real, q: real, p0: real, q0: real, e: real, eps: real)
    requires Share(e, p0, q0, eps)
    requires Abs(p - p0) < e && Abs(q - q0) < e
    ensures Abs(Times(p, q) - Times(p0, q0)) < eps
  {
    hide Times;
    var dp, dq := p - p0, q - q0;
    ProductSplit(p, q, p0, q0);
    ErrorTerm(dp, q0, e);
    ErrorTerm(dq, p0, e);
    assert Abs(Times(dp, dq)) < e by {
      AbsTimes(dp, dq);
      TimesMono(Abs(dq), 1.0, Abs(dp));
      TimesOne(Abs(dp));
    }
    TimesSum3(e, Abs(p0), Abs(q0));
  }

  lemma RecipSplit(x: real, y: real, p: real, q: real)
    requires Times(p, x) == 1.0 && Times(q, y) == 1.0
    ensures Times(q - p, Times(x, y)) == x - y
    ensures q - p == Times(Times(-p, q), y - x)
  {
    var px, qy := p * x, q * y;
    assert (q - p) * (x * y) == qy * x - px * y;
    assert -p * q * (y - x) == q * px - p * qy;
  }

  lemma RecipBound(y: real, x: real, eps: real)
    requires x != 0.0 && eps > 0.0
    requires Abs(y - x) < Times(Abs(x), 0.5) && Abs(y - x) < Times(eps, Times(Abs(x), Times(Abs(x), 0.5)))
    ensures y != 0.0 && Abs(Recip(y) - Recip(x)) < eps
  {
    hide Recip;
    assert Times(Abs(x), 0.5) == Abs(x) / 2.0;
    RecipCloseness(y, x, eps);
  }

  lemma RecipCloseness(y: real, x: real, eps: real)
    requires x != 0.0 && y != 0.0 && eps > 0.0 && Times(Abs(x), 0.5) <= Abs(y)
    requires Abs(y - x) < Times(eps, Times(Abs(x), Times(Abs(x), 0.5)))
    ensures Abs(Recip(y) - Recip(x)) < eps
  {
    hide Times, Recip;
    RecipTimes(x);
    RecipTimes(y);
    var d := Recip(y) - Recip(x);
    RecipSplit(x, y, Recip(x), Recip(y));
    AbsTimes(d, Times(x, y));
    AbsTimes(x, y);
    var m := Times(Abs(x), Abs(y));
    TimesPositive(Abs(x), Abs(y));
    TimesMono(Times(Abs(x), 0.5), Abs(y), Abs(x));
    TimesMono(Times(Abs(x), Times(Abs(x), 0.5)), m, eps);
    TimesCancel(Abs(d), eps, m);
  }

  lemma ProductIncrement(f0: real, f1: real, g0: real, g1: real, sf: real, sg: real, h: real)
    requires f1 - f0 == Times(sf, h) && g1 - g0 == Times(sg, h)
    ensures Times(f1, g1) - Times(f0, g0) == Times(Times(sf, g1) + Times(f0, sg), h)
  {
    assert f1 * g1 - f0 * g0 == (f1 - f0) * g1 + f0 * (g1 - g0);
  }

  lemma SumIncrement(sf: real, sg: real, h: real)
    ensures Times(sf, h) + Times(sg, h) == Times(sf + sg, h)
  {
  }

  lemma FactorUnique(s: real, t: real, h: real)
    requires Times(s, h) == Times(t, h) && h != 0.0
    ensures s == t
  {
    assert (s - t) * h == 0.0;
  }

  lemma OverTimes(d: real, h: real)
    requires h != 0.0
    ensures Times(Over(d, h), h) == d
  {
  }

  lemma RootIncrement(p: real, q: real, x: real, y: real)
    requires p > 0.0 && q > 0.0 && Times(p, p) == x && Times(q, q) == y
    ensures Times(q - p, q + p) == y - x
    ensures q - p == Times(Recip(q + p), y - x)
  {
    assert (q - p) * (q + p) == y - x;
    assert Times(Recip(q + p), y - x) == q - p by {
      hide Recip;
      var r := Recip(q + p);
      RecipTimes(q + p);
      assert r * ((q - p) * (q + p)) == (r * (q + p)) * (q - p);
    }
  }

  lemma RootBound(p: real, q: real, x: real, y: real, eps: real)
    requires p > 0.0 && q > 0.0 && Times(p, p) == x && Times(q, q) == y && Abs(y - x) < Times(eps, p)
    ensures Abs(q - p) < eps
  {
    hide Times, Recip;
    RootIncrement(p, q, x, y);
    AbsTimes(q - p, q + p);
    TimesMono(p, q + p, Abs(q - p));
    TimesCancel(Abs(q - p), eps, p);
  }

  lemma HalfOf(a: real, b: real, p: real)
    requires Times(a, p + p) == 1.0 && Times(b, p) == 1.0
    ensures a == 0.5 * b
  {
    var ap, bp := a * p, b * p;
    assert a * bp == b * ap;
  }

  lemma RecipDouble(p: real)
    requires p > 0.0
    ensures Recip(p + p) == 0.5 * Recip(p)
  {
    hide Recip;
    RecipTimes(p);
    RecipTimes(p + p);
    HalfOf(Recip(p + p), Recip(p), p);
  }

  // ---------------------------------------------------------------- functions

  ghost predicate Within(f: Fn, x: real, eps: real, delta: real) {
    forall y :: Abs(y - x) < delta ==> Abs(f.At(y) - f.At(x)) < eps
  }

  ghost predicate HasDelta(f: Fn, x: real, eps: real) {
    exists delta: real :: delta > 0.0 && Within(f, x, eps, delta)
  }

  ghost predicate Continuous(f: Fn, x: real) {
    forall eps: real :: eps > 0.0 ==> HasDelta(f, x, eps)
  }

  ghost predicate HasDeriv(f: Fn, x: real, d: real) {
    Continuous(Slope(f, x, d), x)
  }

  /** `s` is a factor of the increment of `f` from `x` to `y`. */
  ghost predicate Factors(f: Fn, x: real, s: Fn, y: real) {
    f.At(y) - f.At(x) == Times(s.At(y), y - x)
  }

  /** `f` and `g` agree on the points closer to `x` than `radius`. */
  ghost predicate AgreeNear(f: Fn, g: Fn, x: real, radius: real) {
    forall y :: Abs(y - x) < radius ==> f.At(y) == g.At(y)
  }

  lemma SumAt(f: Fn, g: Fn, y: real)
    ensures Sum(f, g).At(y) == f.At(y) + g.At(y)
  {
  }

  lemma ProductAt(f: Fn, g: Fn, y: real)
    ensures Product(f, g).At(y) == Times(f.At(y), g.At(y))
  {
  }

  lemma ComposeAt(f: Fn, g: Fn, y: real)
    ensures Compose(f, g).At(y) == f.At(g.At(y))
  {
  }

  // ---------------------------------------------------------------- continuity

  lemma Delta(f: Fn, x: real, eps: real) returns (delta: real)
    requires Continuous(f, x) && eps > 0.0
    ensures delta > 0.0 && Within(f, x, eps, delta)
  {
    assert HasDelta(f, x, eps);
    delta :| delta > 0.0 && Within(f, x, eps, delta);
  }

  lemma ContinuousLocal(f: Fn, g: Fn, x: real, radius: real)
    requires Continuous(f, x) && radius > 0.0 && AgreeNear(f, g, x, radius)
    ensures Continuous(g, x)
  {
    forall eps: real | eps > 0.0 ensures HasDelta(g, x, eps) {
      var delta := Delta(f, x, eps);
      assert Within(g, x, eps, Min(delta, radius));
    }
  }

  lemma ContinuousConstant(c: real, x: real)
    ensures Continuous(Constant(c), x)
  {
    forall eps: real | eps > 0.0 ensures HasDelta(Constant(c), x, eps) {
      assert Within(Constant(c), x, eps, 1.0);
    }
  }

  lemma ContinuousIdentity(x: real)
    ensures Continuous(Identity, x)
  {
    forall eps: real | eps > 0.0 ensures HasDelta(Identity, x, eps) {
      assert Within(Identity, x, eps, eps);
    }
  }

  lemma ContinuousSum(f: Fn, g: Fn, x: real)
    requires Continuous(f, x) && Continuous(g, x)
    ensures Continuous(Sum(f, g), x)
  {
    forall eps: real | eps > 0.0 ensures HasDelta(Sum(f, g), x, eps) {
      var d1 := Delta(f, x, eps / 2.0);
      var d2 := Delta(g, x, eps / 2.0);
      assert Within(Sum(f, g), x, eps, Min(d1, d2));
    }
  }

  lemma ContinuousProduct(f: Fn, g: Fn, x: real)
    requires Continuous(f, x) && Continuous(g, x)
    ensures Continuous(Product(f, g), x)
  {
    hide Times, Share;
    forall eps: real | eps > 0.0 ensures HasDelta(Product(f, g), x, eps) {
      var e := ShareOf(f.At(x), g.At(x), eps);
      var d1 := Delta(f, x, e);
      var d2 := Delta(g, x, e);
      forall y | Abs(y - x) < Min(d1, d2) ensures Abs(Product(f, g).At(y) - Product(f, g).At(x)) < eps {
        ProductBound(f.At(y), g.At(y), f.At(x), g.At(x), e, eps);
      }
      assert Within(Product(f, g), x, eps, Min(d1, d2));
    }
  }

  lemma ContinuousCompose(f: Fn, g: Fn, x: real)
    requires Continuous(f, g.At(x)) && Continuous(g, x)
    ensures Continuous(Compose(f, g), x)
  {
    forall eps: real | eps > 0.0 ensures HasDelta(Compose(f, g), x, eps) {
      var d1 := Delta(f, g.At(x), eps);
      var d2 := Delta(g, x, d1);
      assert Within(Compose(f, g), x, eps, d2);
    }
  }

  lemma ContinuousReciprocal(x: real)
    requires x != 0.0
    ensures Continuous(Reciprocal, x)
  {
    hide Times, Recip;
    forall eps: real | eps > 0.0 ensures HasDelta(Reciprocal, x, eps) {
      TimesPositive(Abs(x), 0.5);
      TimesPositive(Abs(x), Times(Abs(x), 0.5));
      TimesPositive(eps, Times(Abs(x), Times(Abs(x), 0.5)));
      var delta := Min(Times(Abs(x), 0.5), Times(eps, Times(Abs(x), Times(Abs(x), 0.5))));
      forall y | Abs(y - x) < delta ensures Abs(Reciprocal.At(y) - Reciprocal.At(x)) < eps {
        RecipBound(y, x, eps);
      }
      assert Within(Reciprocal, x, eps, delta);
    }
  }

  // ---------------------------------------------------------------- derivatives

  /** A factor `s` of the increment of `f`, continuous at `x`, gives the derivative there. */
  lemma DerivFromSlope(f: Fn, x: real, d: real, s: Fn, radius: real)
    requires Continuous(s, x) && s.At(x) == d && radius > 0.0
    requires forall y :: Abs(y - x) < radius ==> Factors(f, x, s, y)
    ensures HasDeriv(f, x, d)
  {
    hide Times, Over;
    forall y | Abs(y - x) < radius ensures s.At(y) == Slope(f, x, d).At(y) {
      if y != x {
        assert Factors(f, x, s, y);
        OverTimes(f.At(y) - f.At(x), y - x);
        FactorUnique(s.At(y), Over(f.At(y) - f.At(x), y - x), y - x);
      }
    }
    ContinuousLocal(s, Slope(f, x, d), x, radius);
  }

  /** The converse: the completed difference quotient is such a factor. */
  lemma SlopeOf(f: Fn, x: real, d: real) returns (s: Fn)
    requires HasDeriv(f, x, d)
    ensures Continuous(s, x) && s.At(x) == d
    ensures forall y :: Factors(f, x, s, y)
  {
    hide Times, Over;
    s := Slope(f, x, d);
    forall y ensures Factors(f, x, s, y) {
      if y != x {
        OverTimes(f.At(y) - f.At(x), y - x);
      } else {
        TimesZero(d);
      }
    }
  }

  lemma DerivContinuous(f: Fn, x: real, d: real)
    requires HasDeriv(f, x, d)
    ensures Continuous(f, x)
  {
    hide Times, HasDeriv, Continuous;
    var s := SlopeOf(f, x, d);
    ContinuousIdentity(x);
    ContinuousConstant(-x, x);
    var shift := Sum(Identity, Constant(-x));
    ContinuousSum(Identity, Constant(-x), x);
    ContinuousProduct(s, shift, x);
    ContinuousConstant(f.At(x), x);
    var whole := Sum(Product(s, shift), Constant(f.At(x)));
    ContinuousSum(Product(s, shift), Constant(f.At(x)), x);
    forall y ensures whole.At(y) == f.At(y) {
      assert Factors(f, x, s, y);
      assert Identity.At(y) == y && Constant(-x).At(y) == -x && shift.At(y) == y - x;
      assert Product(s, shift).At(y) == Times(s.At(y), shift.At(y));
    }
    ContinuousLocal(whole, f, x, 1.0);
  }

  lemma DerivLocal(f: Fn, g: Fn, x: real, d: real, radius: real)
    requires HasDeriv(f, x, d) && radius > 0.0 && AgreeNear(f, g, x, radius)
    ensures HasDeriv(g, x, d)
  {
    ContinuousLocal(Slope(f, x, d), Slope(g, x, d), x, radius);
  }

  lemma DerivConstant(c: real, x: real)
    ensures HasDeriv(Constant(c), x, 0.0)
  {
    ContinuousConstant(0.0, x);
    DerivFromSlope(Constant(c), x, 0.0, Constant(0.0), 1.0);
  }

  lemma DerivIdentity(x: real)
    ensures HasDeriv(Identity, x, 1.0)
  {
    ContinuousConstant(1.0, x);
    DerivFromSlope(Identity, x, 1.0, Constant(1.0), 1.0);
  }

  lemma DerivSum(f: Fn, g: Fn, x: real, df: real, dg: real)
    requires HasDeriv(f, x, df) && HasDeriv(g, x, dg)
    ensures HasDeriv(Sum(f, g), x, df + dg)
  {
    hide Times, HasDeriv, Continuous;
    var sf := SlopeOf(f, x, df);
    var sg := SlopeOf(g, x, dg);
    ContinuousSum(sf, sg, x);
    forall y ensures Factors(Sum(f, g), x, Sum(sf, sg), y) {
      assert Factors(f, x, sf, y) && Factors(g, x, sg, y);
      SumIncrement(sf.At(y), sg.At(y), y - x);
    }
    DerivFromSlope(Sum(f, g), x, df + dg, Sum(sf, sg), 1.0);
  }

  lemma DerivProduct(f: Fn, g: Fn, x: real, df: real, dg: real)
    requires HasDeriv(f, x, df) && HasDeriv(g, x, dg)
    ensures HasDeriv(Product(f, g), x, Times(df, g.At(x)) + Times(f.At(x), dg))
  {
    hide Times, HasDeriv, Continuous;
    var sf := SlopeOf(f, x, df);
    var sg := SlopeOf(g, x, dg);
    DerivContinuous(g, x, dg);
    ContinuousProduct(sf, g, x);
    ContinuousConstant(f.At(x), x);
    ContinuousProduct(Constant(f.At(x)), sg, x);
    ContinuousSum(Product(sf, g), Product(Constant(f.At(x)), sg), x);
    var s := Sum(Product(sf, g), Product(Constant(f.At(x)), sg));
    forall y ensures Factors(Product(f, g), x, s, y) && s.At(y) == Times(sf.At(y), g.At(y)) + Times(f.At(x), sg.At(y)) {
      assert Factors(f, x, sf, y) && Factors(g, x, sg, y);
      assert Product(sf, g).At(y) == Times(sf.At(y), g.At(y));
      assert Constant(f.At(x)).At(y) == f.At(x);
      assert Product(Constant(f.At(x)), sg).At(y) == Times(f.At(x), sg.At(y));
      ProductIncrement(f.At(x), f.At(y), g.At(x), g.At(y), sf.At(y), sg.At(y), y - x);
    }
    DerivFromSlope(Product(f, g), x, Times(df, g.At(x)) + Times(f.At(x), dg), s, 1.0);
  }

  lemma ComposeFactors(f: Fn, g: Fn, x: real, sf: Fn, sg: Fn, y: real)
    requires Factors(f, g.At(x), sf, g.At(y)) && Factors(g, x, sg, y)
    ensures Factors(Compose(f, g), x, Product(Compose(sf, g), sg), y)
  {
    ComposeAt(f, g, x);
    ComposeAt(f, g, y);
    ComposeAt(sf, g, y);
    ProductAt(Compose(sf, g), sg, y);
    hide Times, Fn.At;
    TimesAssociative(sf.At(g.At(y)), sg.At(y), y - x);
  }

  lemma DerivCompose(f: Fn, g: Fn, x: real, df: real, dg: real)
    requires HasDeriv(f, g.At(x), df) && HasDeriv(g, x, dg)
    ensures HasDeriv(Compose(f, g), x, Times(df, dg))
  {
    hide Times, HasDeriv, Continuous;
    var sf := SlopeOf(f, g.At(x), df);
    var sg := SlopeOf(g, x, dg);
    DerivContinuous(g, x, dg);
    ContinuousCompose(sf, g, x);
    var s := Product(Compose(sf, g), sg);
    ContinuousProduct(Compose(sf, g), sg, x);
    forall y ensures Factors(Compose(f, g), x, s, y) { ComposeFactors(f, g, x, sf, sg, y); }
    assert s.At(x) == Times(df, dg) by { ProductAt(Compose(sf, g), sg, x); ComposeAt(sf, g, x); }
    hide Fn.At, Factors;
    DerivFromSlope(Compose(f, g), x, Times(df, dg), s, 1.0);
  }

  lemma DerivReciprocal(x: real)
    requires x != 0.0
    ensures HasDeriv(Reciprocal, x, Times(-Recip(x), Recip(x)))
  {
    hide Times, Recip;
    var c := Constant(-Recip(x));
    ContinuousReciprocal(x);
    ContinuousConstant(-Recip(x), x);
    var s := Product(c, Reciprocal);
    ContinuousProduct(c, Reciprocal, x);
    forall y | Abs(y - x) < Abs(x) ensures Factors(Reciprocal, x, s, y) {
      assert c.At(y) == -Recip(x) && Reciprocal.At(y) == Recip(y);
      RecipTimes(x);
      RecipTimes(y);
      RecipSplit(x, y, Recip(x), Recip(y));
    }
    DerivFromSlope(Reciprocal, x, Times(-Recip(x), Recip(x)), s, Abs(x));
  }

  // ---------------------------------------------------------------- square roots

  /** A square root on the positive reals. */
  ghost predicate IsRoot(root: Fn) {
    forall x :: x > 0.0 ==> RootAt(root, x)
  }

  ghost predicate RootAt(root: Fn, x: real) {
    root.At(x) > 0.0 && Times(root.At(x), root.At(x)) == x
  }

  lemma ContinuousRoot(root: Fn, x: real)
    requires IsRoot(root) && x > 0.0
    ensures Continuous(root, x)
  {
    hide Times;
    var p := root.At(x);
    assert RootAt(root, x);
    forall eps: real | eps > 0.0 ensures HasDelta(root, x, eps) {
      TimesPositive(eps, p);
      var delta := Min(x, Times(eps, p));
      forall y | Abs(y - x) < delta ensures Abs(root.At(y) - root.At(x)) < eps {
        assert RootAt(root, y);
        RootBound(p, root.At(y), x, y, eps);
      }
      assert Within(root, x, eps, delta);
    }
  }

  lemma DerivRoot(root: Fn, x: real)
    requires IsRoot(root) && x > 0.0
    ensures HasDeriv(root, x, 0.5 * Recip(root.At(x)))
  {
    hide Times, Recip;
    var p := root.At(x);
    assert RootAt(root, x);
    ContinuousRoot(root, x);
    ContinuousConstant(p, x);
    ContinuousSum(root, Constant(p), x);
    ContinuousReciprocal(p + p);
    ContinuousCompose(Reciprocal, Sum(root, Constant(p)), x);
    var s := Compose(Reciprocal, Sum(root, Constant(p)));
    forall y | Abs(y - x) < x ensures Factors(root, x, s, y) {
      assert Sum(root, Constant(p)).At(y) == root.At(y) + p;
      assert s.At(y) == Reciprocal.At(root.At(y) + p) == Recip(root.At(y) + p);
      assert RootAt(root, y);
      RootIncrement(p, root.At(y), x, y);
    }
    assert s.At(x) == Recip(p + p) by {
      assert Sum(root, Constant(p)).At(x) == root.At(x) + p;
    }
    RecipDouble(p);
    DerivFromSlope(root, x, 0.5 * Recip(p), s, x);
  }

  // ---------------------------------------------------------------- uniqueness

  /** A function has at most one derivative at a point. */
  lemma DerivUnique(f: Fn, x: real, d: real, e: real)
    requires HasDeriv(f, x, d) && HasDeriv(f, x, e)
    ensures d == e
  {
    hide Times, HasDeriv;
    var sd := SlopeOf(f, x, d);
    var se := SlopeOf(f, x, e);
    if d != e {
      var eps := Abs(d - e) / 2.0;
      var d1 := Delta(sd, x, eps);
      var d2 := Delta(se, x, eps);
      var y := x + Min(d1, d2) / 2.0;
      assert Factors(f, x, sd, y) && Factors(f, x, se, y);
      FactorUnique(sd.At(y), se.At(y), y - x);
      DistanceBound(sd.At(y), d, e, eps);
    }
  }

  lemma DistanceBound(p: real, d: real, e: real, eps: real)
    requires Abs(p - d) < eps && Abs(p - e) < eps
    ensures Abs(d - e) < eps + eps
  {
  }
}
