/** The extended kernel's static moments, integrated by parts. */
module EkMoments {
  import opened Calculus
  import opened MeanValue
  import opened Terms

  // A double integral over [alpha, s] x [A, t] of an integrand k(s, t) is stated by what determines it: it
  // vanishes when either interval is empty, and its mixed derivative is the integrand.

  // ---------------------------------------------------------------- the problem

  /** The segment pair: observer start, source start, wire radius, and the two degrees. */
  datatype Pair = Pair(alpha: real, lo: real, a: real, p: nat, q: nat)

  /** R = sqrt(xi^2 + a^2) */
  ghost function Dist(root: Fn, a: real, xi: real): real {
    root.At(Times(xi, xi) + Times(a, a))
  }

  /** 1/R */
  ghost function InvDist(root: Fn, a: real, xi: real): real { Recip(Dist(root, a, xi)) }

  /** xi/R^3 */
  ghost function XiOverCube(root: Fn, a: real, xi: real): real {
    var i := InvDist(root, a, xi);
    Times(xi, Times(i, Times(i, i)))
  }

  /** The static correction: -a^2/(2R^3) + 3a^4/(4R^5) */
  ghost function DeltaG(root: Fn, a: real, xi: real): real {
    var i, a2 := InvDist(root, a, xi), Times(a, a);
    var i3 := Times(i, Times(i, i));
    -0.5 * Times(a2, i3) + 0.75 * Times(Times(a2, a2), Times(i3, Times(i, i)))
  }

  datatype KernelKind = Reduced | Correction

  ghost function KernelAt(kind: KernelKind, root: Fn, a: real, xi: real): real {
    match kind
    case Reduced => InvDist(root, a, xi)
    case Correction => DeltaG(root, a, xi)
  }

  /** (s - alpha)^p (t - A)^q k(s - t) */
  ghost function Integrand(kind: KernelKind, root: Fn, c: Pair, q: nat, s: real, t: real): real {
    Times(Times(RealPower(s - c.alpha, c.p), RealPower(t - c.lo, q)), KernelAt(kind, root, c.a, s - t))
  }

  /** `fs` is the s-derivative of `f`, and its t-derivative is the integrand. */
  ghost predicate Unfolds(kind: KernelKind, root: Fn, c: Pair, q: nat, f: Fn2, fs: Fn2, s: real, t: real) {
    && HasDeriv(Column(f, t), s, fs.At(s, t))
    && HasDeriv(Row(fs, s), t, Integrand(kind, root, c, q, s, t))
  }

  ghost predicate InnerIntegral(kind: KernelKind, root: Fn, c: Pair, q: nat, f: Fn2, fs: Fn2) {
    && (forall s, t :: Unfolds(kind, root, c, q, f, fs, s, t))
    && (forall s :: fs.At(s, c.lo) == 0.0)
  }

  /** `f(s, t)` is the double integral of the integrand over [alpha, s] x [A, t]. */
  ghost predicate IsMoment(kind: KernelKind, root: Fn, c: Pair, q: nat, f: Fn2) {
    && (forall t :: f.At(c.alpha, t) == 0.0)
    && (forall s :: f.At(s, c.lo) == 0.0)
    && exists fs :: InnerIntegral(kind, root, c, q, f, fs)
  }

  /** What is stated determines the value: on the complete line at most one function is the double integral. */
  lemma MomentIsUnique(kind: KernelKind, root: Fn, c: Pair, q: nat, f: Fn2, g: Fn2, s: real, t: real)
    requires Complete() && IsMoment(kind, root, c, q, f) && IsMoment(kind, root, c, q, g)
    ensures f.At(s, t) == g.At(s, t)
  {
    hide HasDeriv, Complete, Fn2.At, Integrand, InnerIntegral, SharesRate;
    var fs :| InnerIntegral(kind, root, c, q, f, fs);
    var gs :| InnerIntegral(kind, root, c, q, g, gs);
    forall x ensures SharesRate(Column(f, t), Column(g, t), x) {
      InnerIsUnique(kind, root, c, q, f, fs, g, gs, x, t);
      InnerRates(kind, root, c, q, f, fs, x, t);
      InnerRates(kind, root, c, q, g, gs, x, t);
      CommonRate(Column(f, t), Column(g, t), x, fs.At(x, t));
    }
    SameDifferences(Column(f, t), Column(g, t), c.alpha, s);
  }

  lemma CommonRate(f: Fn, g: Fn, x: real, d: real)
    requires HasDeriv(f, x, d) && HasDeriv(g, x, d)
    ensures SharesRate(f, g, x)
  {
  }

  lemma InnerRates(kind: KernelKind, root: Fn, c: Pair, q: nat, f: Fn2, fs: Fn2, s: real, t: real)
    requires InnerIntegral(kind, root, c, q, f, fs)
    ensures HasDeriv(Column(f, t), s, fs.At(s, t))
    ensures HasDeriv(Row(fs, s), t, Integrand(kind, root, c, q, s, t))
    ensures fs.At(s, c.lo) == 0.0
  {
    hide HasDeriv, Fn2.At, Integrand;
    assert Unfolds(kind, root, c, q, f, fs, s, t);
  }

  lemma InnerIsUnique(kind: KernelKind, root: Fn, c: Pair, q: nat, f: Fn2, fs: Fn2, g: Fn2, gs: Fn2, s: real, t: real)
    requires Complete() && InnerIntegral(kind, root, c, q, f, fs) && InnerIntegral(kind, root, c, q, g, gs)
    ensures fs.At(s, t) == gs.At(s, t)
  {
    hide HasDeriv, Complete, Fn2.At, Integrand, InnerIntegral, SharesRate;
    forall y ensures SharesRate(Row(fs, s), Row(gs, s), y) {
      InnerRates(kind, root, c, q, f, fs, s, y);
      InnerRates(kind, root, c, q, g, gs, s, y);
      CommonRate(Row(fs, s), Row(gs, s), y, Integrand(kind, root, c, q, s, y));
    }
    SameDifferences(Row(fs, s), Row(gs, s), c.lo, t);
    InnerRates(kind, root, c, q, f, fs, s, t);
    InnerRates(kind, root, c, q, g, gs, s, t);
  }

  // ---------------------------------------------------------------- the closed form

  /** The two indefinite integrals in xi, d being the offset of the endpoint: f0 of (xi+d)^p / R and
      f1 of (xi+d)^p xi / R^3. */
  ghost predicate BoundaryIntegrals(root: Fn, c: Pair, f0: Fn2, f1: Fn2) {
    forall xi, d :: BoundaryIntegralsAt(root, c, f0, f1, xi, d)
  }

  ghost predicate BoundaryIntegralsAt(root: Fn, c: Pair, f0: Fn2, f1: Fn2, xi: real, d: real) {
    && HasDeriv(Column(f0, d), xi, Times(RealPower(xi + d, c.p), InvDist(root, c.a, xi)))
    && HasDeriv(Column(f1, d), xi, Times(RealPower(xi + d, c.p), XiOverCube(root, c.a, xi)))
  }

  /** [F]_{alpha}^{beta} about the source endpoint e. */
  ghost function Corner(f: Fn2, c: Pair, beta: real, e: real): real {
    f.At(beta - e, e - c.alpha) - f.At(c.alpha - e, e - c.alpha)
  }

  /** Q(t) = (t - A)^q and Q'(t) at the far endpoint. */
  function QHi(q: nat, t: real): real { RealPower(t, q) }

  function QpHi(q: nat, t: real): real { if q >= 1 then Times(q as real, RealPower(t, q - 1)) else 0.0 }

  /** and at the near one. */
  function QLo(q: nat): real { if q == 0 then 1.0 else 0.0 }

  function QpLo(q: nat): real { if q == 1 then 1.0 else 0.0 }

  ghost function Bracket(c: Pair, f0: Fn2, f1: Fn2, j: Fn2, beta: real, hi: real): real {
    -Times(QHi(c.q, hi - c.lo), Corner(f1, c, beta, hi)) + Times(QLo(c.q), Corner(f1, c, beta, c.lo))
    + (Times(QpHi(c.q, hi - c.lo), Corner(f0, c, beta, hi)) - Times(QpLo(c.q), Corner(f0, c, beta, c.lo)))
    - Times((c.q * (c.q - 1)) as real, j.At(beta, hi))
  }

  /** a^2/4 times the bracket; `j` is the reused moment of the reduced kernel. */
  ghost function ClosedFormAt(c: Pair, f0: Fn2, f1: Fn2, j: Fn2, s: real, t: real): real {
    Times(0.25 * Times(c.a, c.a), Bracket(c, f0, f1, j, s, t))
  }

  ghost function ClosedForm(c: Pair, f0: Fn2, f1: Fn2, j: Fn2): (f: Fn2)
    ensures forall s, t :: f.At(s, t) == ClosedFormAt(c, f0, f1, j, s, t)
  {
    hide ClosedFormAt;
    Fn2(imap x: (real, real) | true :: ClosedFormAt(c, f0, f1, j, x.0, x.1))
  }

  /** The index of the reused moment. */
  function ReuseIndex(q: nat): nat { if q >= 2 then q - 2 else 0 }

  // ---------------------------------------------------------------- derivative in beta

  /** The bracket's beta-derivative, given that of `j`. */
  ghost function BracketS(root: Fn, c: Pair, js: Fn2, s: real, t: real): real {
    Times(RealPower(s - c.alpha, c.p),
          -Times(QHi(c.q, t - c.lo), XiOverCube(root, c.a, s - t)) + Times(QLo(c.q), XiOverCube(root, c.a, s - c.lo))
          + (Times(QpHi(c.q, t - c.lo), InvDist(root, c.a, s - t)) - Times(QpLo(c.q), InvDist(root, c.a, s - c.lo))))
    - Times((c.q * (c.q - 1)) as real, js.At(s, t))
  }

  ghost function ClosedFormSAt(root: Fn, c: Pair, js: Fn2, s: real, t: real): real {
    Times(0.25 * Times(c.a, c.a), BracketS(root, c, js, s, t))
  }

  ghost function ClosedFormS(root: Fn, c: Pair, js: Fn2): (f: Fn2)
    ensures forall s, t :: f.At(s, t) == ClosedFormSAt(root, c, js, s, t)
  {
    hide ClosedFormSAt;
    Fn2(imap x: (real, real) | true :: ClosedFormSAt(root, c, js, x.0, x.1))
  }

  /** f(x - e, d) as a function of x. */
  lemma ShiftedDeriv(f: Fn2, d: real, e: real, x: real, df: real)
    requires HasDeriv(Column(f, d), x - e, df)
    ensures HasDeriv(Compose(Column(f, d), Sum(Identity, Constant(-e))), x, df)
  {
    hide HasDeriv, Times;
    var shift := Sum(Identity, Constant(-e));
    DerivIdentity(x);
    DerivConstant(-e, x);
    DerivSum(Identity, Constant(-e), x, 1.0, 0.0);
    assert Identity.At(x) == x && Constant(-e).At(x) == -e;
    assert shift.At(x) == x - e;
    DerivCompose(Column(f, d), shift, x, df, 1.0);
    TimesOne(df);
  }

  /** The corner as a function of beta, and its derivative. */
  ghost function CornerFn(f: Fn2, c: Pair, e: real): Fn {
    Sum(Compose(Column(f, e - c.alpha), Sum(Identity, Constant(-e))), Constant(-f.At(c.alpha - e, e - c.alpha)))
  }

  lemma CornerDeriv(f: Fn2, c: Pair, e: real, x: real, df: real)
    requires HasDeriv(Column(f, e - c.alpha), x - e, df)
    ensures HasDeriv(CornerFn(f, c, e), x, df)
  {
    hide HasDeriv, Times, Fn2.At, Fn.At;
    var k := -f.At(c.alpha - e, e - c.alpha);
    ShiftedDeriv(f, e - c.alpha, e, x, df);
    DerivConstant(k, x);
    DerivSum(Compose(Column(f, e - c.alpha), Sum(Identity, Constant(-e))), Constant(k), x, df, 0.0);
  }

  lemma CornerFnAt(f: Fn2, c: Pair, e: real, y: real)
    ensures CornerFn(f, c, e).At(y) == Corner(f, c, y, e)
  {
    hide Fn2.At;
    var k := -f.At(c.alpha - e, e - c.alpha);
    assert Identity.At(y) == y && Constant(-e).At(y) == -e && Constant(k).At(y) == k;
    SumAt(Identity, Constant(-e), y);
    ComposeAt(Column(f, e - c.alpha), Sum(Identity, Constant(-e)), y);
    SumAt(Compose(Column(f, e - c.alpha), Sum(Identity, Constant(-e))), Constant(k), y);
  }

  /** A scaled function. */
  lemma DerivScaled(k: real, f: Fn, x: real, df: real)
    requires HasDeriv(f, x, df)
    ensures HasDeriv(Product(Constant(k), f), x, Times(k, df))
  {
    hide HasDeriv, Times;
    DerivConstant(k, x);
    DerivProduct(Constant(k), f, x, 0.0, df);
    assert Constant(k).At(x) == k;
    TimesSwap(0.0, f.At(x));
    TimesZero(f.At(x));
  }

  /** The bracket along beta, as a combination of the four corners and the reused moment. */
  ghost function BracketFn(c: Pair, f0: Fn2, f1: Fn2, j: Fn2, t: real): Fn {
    Sum(Sum(Sum(Product(Constant(-QHi(c.q, t - c.lo)), CornerFn(f1, c, t)),
                Product(Constant(QLo(c.q)), CornerFn(f1, c, c.lo))),
            Sum(Product(Constant(QpHi(c.q, t - c.lo)), CornerFn(f0, c, t)),
                Product(Constant(-QpLo(c.q)), CornerFn(f0, c, c.lo)))),
        Product(Constant(-((c.q * (c.q - 1)) as real)), Column(j, t)))
  }

  lemma ScaledAt(k: real, f: Fn, y: real)
    ensures Product(Constant(k), f).At(y) == Times(k, f.At(y))
  {
    hide Times;
    assert Constant(k).At(y) == k;
  }

  lemma BracketFnAt(c: Pair, f0: Fn2, f1: Fn2, j: Fn2, t: real, s: real)
    ensures BracketFn(c, f0, f1, j, t).At(s) == Bracket(c, f0, f1, j, s, t)
  {
    hide Times, Corner, QHi, QpHi, QLo, QpLo, Fn2.At, CornerFn;
    var n := (c.q * (c.q - 1)) as real;
    CornerFnAt(f1, c, t, s);
    CornerFnAt(f1, c, c.lo, s);
    CornerFnAt(f0, c, t, s);
    CornerFnAt(f0, c, c.lo, s);
    ScaledAt(-QHi(c.q, t - c.lo), CornerFn(f1, c, t), s);
    ScaledAt(QLo(c.q), CornerFn(f1, c, c.lo), s);
    ScaledAt(QpHi(c.q, t - c.lo), CornerFn(f0, c, t), s);
    ScaledAt(-QpLo(c.q), CornerFn(f0, c, c.lo), s);
    ScaledAt(-n, Column(j, t), s);
    NegTimes(QHi(c.q, t - c.lo), Corner(f1, c, s, t));
    NegTimes(QpLo(c.q), Corner(f0, c, s, c.lo));
    NegTimes(n, j.At(s, t));
    var a, b := Product(Constant(-QHi(c.q, t - c.lo)), CornerFn(f1, c, t)),
        Product(Constant(QLo(c.q)), CornerFn(f1, c, c.lo));
    var d, e := Product(Constant(QpHi(c.q, t - c.lo)), CornerFn(f0, c, t)),
        Product(Constant(-QpLo(c.q)), CornerFn(f0, c, c.lo));
    SumAt(a, b, s);
    SumAt(d, e, s);
    SumAt(Sum(a, b), Sum(d, e), s);
    SumAt(Sum(Sum(a, b), Sum(d, e)), Product(Constant(-n), Column(j, t)), s);
  }

  lemma NegTimes(p: real, q: real)
    ensures Times(-p, q) == -Times(p, q)
  {
  }

  lemma BracketSDeriv(root: Fn, c: Pair, f0: Fn2, f1: Fn2, j: Fn2, js: Fn2, s: real, t: real)
    requires BoundaryIntegrals(root, c, f0, f1) && (c.q < 2 || HasDeriv(Column(j, t), s, js.At(s, t)))
    ensures HasDeriv(Column(ClosedForm(c, f0, f1, j), t), s, ClosedFormS(root, c, js).At(s, t))
  {
    hide HasDeriv, Times, Corner, QHi, QpHi, QLo, QpLo, XiOverCube, InvDist, Bracket, BracketFn, BracketS, Fn2.At,
        BoundaryIntegrals;
    var b := BracketFn(c, f0, f1, j, t);
    var k := 0.25 * Times(c.a, c.a);
    BracketFnDeriv(root, c, f0, f1, j, js, s, t);
    DerivScaled(k, b, s, BracketS(root, c, js, s, t));
    var scaled, whole := Product(Constant(k), b), Column(ClosedForm(c, f0, f1, j), t);
    forall y ensures scaled.At(y) == whole.At(y) {
      ScaledAt(k, b, y);
      BracketFnAt(c, f0, f1, j, t, y);
    }
    DerivLocal(scaled, whole, s, Times(k, BracketS(root, c, js, s, t)), 1.0);
  }

  lemma BracketFnDeriv(root: Fn, c: Pair, f0: Fn2, f1: Fn2, j: Fn2, js: Fn2, s: real, t: real)
    requires BoundaryIntegrals(root, c, f0, f1) && (c.q < 2 || HasDeriv(Column(j, t), s, js.At(s, t)))
    ensures HasDeriv(BracketFn(c, f0, f1, j, t), s, BracketS(root, c, js, s, t))
  {
    hide HasDeriv, Times, Corner, QHi, QpHi, QLo, QpLo, XiOverCube, InvDist, Fn2.At, Fn.At, CornerFn,
        BoundaryIntegrals, RealPower;
    var pw, n := RealPower(s - c.alpha, c.p), (c.q * (c.q - 1)) as real;
    CornerRates(root, c, f0, f1, t, s);
    CornerRates(root, c, f0, f1, c.lo, s);
    var h1t, h1l := XiOverCube(root, c.a, s - t), XiOverCube(root, c.a, s - c.lo);
    var h0t, h0l := InvDist(root, c.a, s - t), InvDist(root, c.a, s - c.lo);
    var k1, k2, k3, k4 := -QHi(c.q, t - c.lo), QLo(c.q), QpHi(c.q, t - c.lo), -QpLo(c.q);
    DerivScaled(k1, CornerFn(f1, c, t), s, Times(pw, h1t));
    DerivScaled(k2, CornerFn(f1, c, c.lo), s, Times(pw, h1l));
    DerivScaled(k3, CornerFn(f0, c, t), s, Times(pw, h0t));
    DerivScaled(k4, CornerFn(f0, c, c.lo), s, Times(pw, h0l));
    ReuseDeriv(c, j, js, s, t);
    var a, b := Product(Constant(k1), CornerFn(f1, c, t)), Product(Constant(k2), CornerFn(f1, c, c.lo));
    var d, e := Product(Constant(k3), CornerFn(f0, c, t)), Product(Constant(k4), CornerFn(f0, c, c.lo));
    var da, db, dd, de := Times(k1, Times(pw, h1t)), Times(k2, Times(pw, h1l)), Times(k3, Times(pw, h0t)),
        Times(k4, Times(pw, h0l));
    DerivSum(a, b, s, da, db);
    DerivSum(d, e, s, dd, de);
    DerivSum(Sum(a, b), Sum(d, e), s, da + db, dd + de);
    DerivSum(Sum(Sum(a, b), Sum(d, e)), Product(Constant(-n), Column(j, t)), s, da + db + (dd + de),
        Times(-n, js.At(s, t)));
    FactorPower(pw, QHi(c.q, t - c.lo), h1t, QLo(c.q), h1l, QpHi(c.q, t - c.lo), h0t, QpLo(c.q), h0l);
    NegTimes(n, js.At(s, t));
  }

  lemma FactorPower(pw: real, k1: real, h1: real, k2: real, h2: real, k3: real, h3: real, k4: real, h4: real)
    ensures Times(-k1, Times(pw, h1)) + Times(k2, Times(pw, h2))
        + (Times(k3, Times(pw, h3)) + Times(-k4, Times(pw, h4)))
         == Times(pw, -Times(k1, h1) + Times(k2, h2) + (Times(k3, h3) - Times(k4, h4)))
  {
  }

  /** The reused moment's share: dead when q(q-1) is zero. */
  lemma ReuseDeriv(c: Pair, j: Fn2, js: Fn2, s: real, t: real)
    requires c.q < 2 || HasDeriv(Column(j, t), s, js.At(s, t))
    ensures var n := (c.q * (c.q - 1)) as real;
            HasDeriv(Product(Constant(-n), Column(j, t)), s, Times(-n, js.At(s, t)))
  {
    hide HasDeriv, Times;
    var n := (c.q * (c.q - 1)) as real;
    if c.q < 2 {
      assert c.q * (c.q - 1) == 0;
      TimesSwap(0.0, js.At(s, t));
      TimesZero(js.At(s, t));
      DerivConstant(0.0, s);
      forall y ensures Constant(0.0).At(y) == Product(Constant(-n), Column(j, t)).At(y) {
        ScaledAt(-n, Column(j, t), y);
        TimesSwap(0.0, j.At(y, t));
        TimesZero(j.At(y, t));
      }
      DerivLocal(Constant(0.0), Product(Constant(-n), Column(j, t)), s, 0.0, 1.0);
    } else {
      DerivScaled(-n, Column(j, t), s, js.At(s, t));
    }
  }

  lemma CornerRates(root: Fn, c: Pair, f0: Fn2, f1: Fn2, e: real, s: real)
    requires BoundaryIntegrals(root, c, f0, f1)
    ensures HasDeriv(CornerFn(f1, c, e), s, Times(RealPower(s - c.alpha, c.p), XiOverCube(root, c.a, s - e)))
    ensures HasDeriv(CornerFn(f0, c, e), s, Times(RealPower(s - c.alpha, c.p), InvDist(root, c.a, s - e)))
  {
    hide HasDeriv, Times, XiOverCube, InvDist, RealPower;
    assert BoundaryIntegralsAt(root, c, f0, f1, s - e, e - c.alpha);
    assert s - e + (e - c.alpha) == s - c.alpha;
    CornerDeriv(f1, c, e, s, Times(RealPower(s - c.alpha, c.p), XiOverCube(root, c.a, s - e)));
    CornerDeriv(f0, c, e, s, Times(RealPower(s - c.alpha, c.p), InvDist(root, c.a, s - e)));
  }

  // ---------------------------------------------------------------- derivative in the source endpoint

  function LTerm(): Term { Sub(Var(Hi), Var(Lo)) }

  function XTerm(): Term { Sub(Var(Beta), Var(Hi)) }

  function SquareTerm(): Term { Add(Mul(XTerm(), XTerm()), Mul(Var(A), Var(A))) }

  function ITerm(): Term { Inv(Sqrt(SquareTerm())) }

  function CubeTerm(): Term { Mul(XTerm(), Mul(ITerm(), Mul(ITerm(), ITerm()))) }

  function QTerm(q: nat): Term { Pow(LTerm(), q) }

  function QpTerm(q: nat): Term { if q >= 1 then Mul(Num(q as real), Pow(LTerm(), q - 1)) else Num(0.0) }

  /** -Q H'(s - t) - Q' H(s - t), up to the factor a^2/4. */
  function BoundaryTerm(q: nat): Term {
    Add(Neg(Mul(QTerm(q), CubeTerm())), Mul(QpTerm(q), ITerm()))
  }

  /** Q'' */
  function QppHi(q: nat, t: real): real {
    if q >= 2 then Times((q * (q - 1)) as real, RealPower(t, q - 2)) else 0.0
  }

  ghost predicate AtPair(e: Env, c: Pair, s: real, t: real) {
    e == map[Hi := t, Lo := c.lo, Beta := s, A := c.a]
  }

  lemma EvalSteps(F: Functions, e: Env, c: Pair, s: real, t: real)
    requires AtPair(e, c, s, t)
    ensures Eval(F, e, LTerm()) == t - c.lo && Eval(F, e, XTerm()) == s - t
    ensures Eval(F, e, Sqrt(SquareTerm())) == Dist(F.sqrt, c.a, s - t)
    ensures Eval(F, e, ITerm()) == InvDist(F.sqrt, c.a, s - t)
    ensures Eval(F, e, CubeTerm()) == XiOverCube(F.sqrt, c.a, s - t)
  {
    hide Times, Recip;
    assert Val(e, Hi) == t && Val(e, Lo) == c.lo && Val(e, Beta) == s;
    EvalDifference(F, e, Hi, Lo);
    EvalDifference(F, e, Beta, Hi);
    hide XTerm, LTerm;
    assert Eval(F, e, Var(A)) == c.a;
    assert Eval(F, e, Mul(XTerm(), XTerm())) == Times(s - t, s - t);
    assert Eval(F, e, Mul(Var(A), Var(A))) == Times(c.a, c.a);
    assert Eval(F, e, SquareTerm()) == Times(s - t, s - t) + Times(c.a, c.a);
    assert Eval(F, e, Sqrt(SquareTerm())) == Dist(F.sqrt, c.a, s - t);
    assert Eval(F, e, ITerm()) == InvDist(F.sqrt, c.a, s - t);
    hide SquareTerm, ITerm;
    var i := InvDist(F.sqrt, c.a, s - t);
    assert Eval(F, e, Mul(ITerm(), ITerm())) == Times(i, i);
    assert Eval(F, e, Mul(ITerm(), Mul(ITerm(), ITerm()))) == Times(i, Times(i, i));
  }

  lemma EvalDifference(F: Functions, e: Env, v: Sym, w: Sym)
    ensures Eval(F, e, Sub(Var(v), Var(w))) == Val(e, v) - Val(e, w)
    ensures Defined(F, e, Sub(Var(v), Var(w)))
    ensures Eval(F, e, Diff(Sub(Var(v), Var(w)), Hi)) == (if v == Hi then 1.0 else 0.0) - (if w == Hi then 1.0 else 0.0)
  {
    var one := map[Hi := Num(1.0)];
    assert Eval(F, e, Var(v)) == Val(e, v) && Eval(F, e, Var(w)) == Val(e, w) && Eval(F, e, Num(1.0)) == 1.0;
    assert Eval(F, e, Neg(Var(w))) == -Val(e, w);
    assert Eval(F, e, Num(-1.0)) == -1.0;
    assert Defined(F, e, Var(w)) && Defined(F, e, Num(-1.0)) && Defined(F, e, Neg(Var(w)));
    hide Eval;
    EvalDer(F, e, Sub(Var(v), Var(w)), one);
    EvalDer(F, e, Var(v), one);
    EvalDer(F, e, Neg(Var(w)), one);
    EvalDer(F, e, Num(-1.0), one);
    EvalDer(F, e, Var(w), one);
  }

  lemma DistPositive(F: Functions, a: real, xi: real)
    requires Lawful(F) && a > 0.0
    ensures Dist(F.sqrt, a, xi) > 0.0
    ensures Times(Dist(F.sqrt, a, xi), Dist(F.sqrt, a, xi)) == Times(xi, xi) + Times(a, a) > 0.0
    ensures Times(InvDist(F.sqrt, a, xi), Dist(F.sqrt, a, xi)) == 1.0
  {
    hide Times, Recip, Lawful;
    SquareNonnegative(xi);
    TimesPositive(a, a);
    RootPositive(F, Times(xi, xi) + Times(a, a));
    RecipTimes(Dist(F.sqrt, a, xi));
  }

  lemma StepsDefined(F: Functions, e: Env, c: Pair, s: real, t: real, q: nat)
    requires Lawful(F) && AtPair(e, c, s, t) && c.a > 0.0
    ensures Defined(F, e, BoundaryTerm(q))
  {
    hide Times, Recip, Lawful;
    EvalDifference(F, e, Hi, Lo);
    DistancesDefined(F, e, c, s, t);
    hide LTerm, CubeTerm, ITerm;
    PowDefined(F, e, LTerm(), q);
    if q >= 1 { PowDefined(F, e, LTerm(), q - 1); }
    assert Defined(F, e, Num(q as real)) && Defined(F, e, Num(0.0));
    assert Defined(F, e, QpTerm(q));
    hide QpTerm;
    assert Defined(F, e, Mul(QTerm(q), CubeTerm()));
    assert Defined(F, e, Neg(Mul(QTerm(q), CubeTerm())));
    assert Defined(F, e, Mul(QpTerm(q), ITerm()));
  }

  lemma DistancesDefined(F: Functions, e: Env, c: Pair, s: real, t: real)
    requires Lawful(F) && AtPair(e, c, s, t) && c.a > 0.0
    ensures Defined(F, e, ITerm()) && Defined(F, e, CubeTerm())
  {
    hide Times, Recip, Lawful, Dist, InvDist;
    EvalDifference(F, e, Beta, Hi);
    EvalSteps(F, e, c, s, t);
    DistPositive(F, c.a, s - t);
    SquareValue(F, e, c, s, t);
    hide XTerm;
    assert Defined(F, e, Var(A));
    assert Defined(F, e, Mul(XTerm(), XTerm())) && Defined(F, e, Mul(Var(A), Var(A)));
    assert Defined(F, e, SquareTerm());
    assert Defined(F, e, Sqrt(SquareTerm()));
    assert Defined(F, e, ITerm());
    hide SquareTerm, ITerm;
    assert Defined(F, e, Mul(ITerm(), ITerm()));
    assert Defined(F, e, Mul(ITerm(), Mul(ITerm(), ITerm())));
    assert Defined(F, e, CubeTerm());
  }

  lemma SquareValue(F: Functions, e: Env, c: Pair, s: real, t: real)
    requires AtPair(e, c, s, t)
    ensures Eval(F, e, SquareTerm()) == Times(s - t, s - t) + Times(c.a, c.a)
  {
    hide Times;
    assert Val(e, Hi) == t && Val(e, Beta) == s;
    EvalDifference(F, e, Beta, Hi);
    hide XTerm;
    assert Eval(F, e, Var(A)) == c.a;
    assert Eval(F, e, Mul(XTerm(), XTerm())) == Times(s - t, s - t);
    assert Eval(F, e, Mul(Var(A), Var(A))) == Times(c.a, c.a);
  }

  /** d(1/R)/dt = xi/R^3 and d(xi/R^3)/dt = -1/R^3 + 3 xi^2/R^5. */
  lemma DiffSteps(F: Functions, e: Env, c: Pair, s: real, t: real)
    requires AtPair(e, c, s, t)
    ensures Eval(F, e, Diff(ITerm(), Hi)) == XiOverCube(F.sqrt, c.a, s - t)
    ensures var i, x := InvDist(F.sqrt, c.a, s - t), s - t;
            var i3 := Times(i, Times(i, i));
            Eval(F, e, Diff(CubeTerm(), Hi)) == -i3 + 3.0 * Times(Times(x, x), Times(i3, Times(i, i)))
  {
    EvalSteps(F, e, c, s, t);
    EvalDifference(F, e, Beta, Hi);
    hide Times, Recip;
    var one := map[Hi := Num(1.0)];
    var i, x := InvDist(F.sqrt, c.a, s - t), s - t;
    assert Eval(F, e, Var(A)) == c.a;
    assert Eval(F, e, Mul(ITerm(), ITerm())) == Times(i, i);
    assert Eval(F, e, Mul(ITerm(), Mul(ITerm(), ITerm()))) == Times(i, Times(i, i));
    hide Eval, Der, XTerm;
    EvalDer(F, e, ITerm(), one);
    EvalDer(F, e, Sqrt(SquareTerm()), one);
    EvalDer(F, e, SquareTerm(), one);
    EvalDer(F, e, Mul(XTerm(), XTerm()), one);
    EvalDer(F, e, Mul(Var(A), Var(A)), one);
    EvalDer(F, e, Var(A), one);
    InvAlgebra(i, x, c.a);
    EvalDer(F, e, CubeTerm(), one);
    EvalDer(F, e, Mul(ITerm(), Mul(ITerm(), ITerm())), one);
    EvalDer(F, e, Mul(ITerm(), ITerm()), one);
    CubeAlgebra(i, x);
  }

  lemma InvAlgebra(i: real, x: real, a: real)
    ensures Times(Times(-i, i), Times(0.5 * i, Times(-1.0, x) + Times(x, -1.0) + (Times(0.0, a) + Times(a, 0.0))))
         == Times(x, Times(i, Times(i, i)))
  {
  }

  lemma CubeAlgebra(i: real, x: real)
    ensures var d, i2, i3 := Times(x, Times(i, Times(i, i))), Times(i, i), Times(i, Times(i, i));
            Times(-1.0, i3) + Times(x, Times(d, i2) + Times(i, Times(d, i) + Times(i, d)))
            == -i3 + 3.0 * Times(Times(x, x), Times(i3, i2))
  {
    var i3 := i * (i * i);
    assert x * i3 * (i * i) == x * (i3 * (i * i));
    assert i * (x * i3 * i + i * (x * i3)) == 2.0 * (x * (i3 * (i * i)));
    assert x * (3.0 * (x * (i3 * (i * i)))) == 3.0 * (x * x * (i3 * (i * i)));
  }

  lemma EvalQ(F: Functions, e: Env, c: Pair, s: real, t: real, q: nat)
    requires AtPair(e, c, s, t)
    ensures Eval(F, e, QTerm(q)) == QHi(q, t - c.lo) && Eval(F, e, QpTerm(q)) == QpHi(q, t - c.lo)
    ensures Eval(F, e, Diff(QTerm(q), Hi)) == QpHi(q, t - c.lo)
    ensures Eval(F, e, Diff(QpTerm(q), Hi)) == QppHi(q, t - c.lo)
  {
    EvalSteps(F, e, c, s, t);
    EvalDifference(F, e, Hi, Lo);
    hide Times, LTerm;
    EvalPow(F, e, LTerm(), q);
    var x, one := t - c.lo, map[Hi := Num(1.0)];
    EvalNum(F, e, 0.0);
    EvalNum(F, e, q as real);
    if q == 0 {
      EvalDer(F, e, Num(1.0), one);
      EvalDer(F, e, Num(0.0), one);
    } else {
      EvalPow(F, e, LTerm(), q - 1);
      EvalDerPow(F, e, LTerm(), q - 1, one);
      TimesOne(Times(q as real, RealPower(x, q - 1)));
      hide Eval, Der, Pow;
      EvalDer(F, e, QpTerm(q), one);
      EvalDer(F, e, Num(q as real), one);
      TimesSwap(0.0, RealPower(x, q - 1));
      TimesZero(RealPower(x, q - 1));
      QpRate(F, e, c, s, t, q);
    }
  }

  lemma QpRate(F: Functions, e: Env, c: Pair, s: real, t: real, q: nat)
    requires AtPair(e, c, s, t) && q >= 1
    ensures Times(q as real, Eval(F, e, Diff(Pow(LTerm(), q - 1), Hi))) == QppHi(q, t - c.lo)
  {
    EvalSteps(F, e, c, s, t);
    EvalDifference(F, e, Hi, Lo);
    hide Times, LTerm;
    var x, one := t - c.lo, map[Hi := Num(1.0)];
    if q == 1 {
      EvalDer(F, e, Num(1.0), one);
      TimesZero(1.0);
    } else {
      EvalDerPow(F, e, LTerm(), q - 2, one);
      var m := Times((q - 1) as real, RealPower(x, q - 2));
      TimesOne(m);
      TimesAssociative(q as real, (q - 1) as real, RealPower(x, q - 2));
      ProductAsReal(q, q - 1);
    }
  }

  /** The derivative of the boundary term: Q H'' appears, the Q' terms cancel, Q'' is left over. */
  lemma DiffBoundary(F: Functions, e: Env, c: Pair, s: real, t: real, q: nat)
    requires AtPair(e, c, s, t)
    ensures var i, x := InvDist(F.sqrt, c.a, s - t), s - t;
            var i3 := Times(i, Times(i, i));
            Eval(F, e, Diff(BoundaryTerm(q), Hi))
            == Times(QHi(q, t - c.lo), i3 - 3.0 * Times(Times(x, x), Times(i3, Times(i, i))))
                + Times(QppHi(q, t - c.lo), i)
    ensures Eval(F, e, BoundaryTerm(q))
         == -Times(QHi(q, t - c.lo), XiOverCube(F.sqrt, c.a, s - t))
             + Times(QpHi(q, t - c.lo), InvDist(F.sqrt, c.a, s - t))
  {
    EvalSteps(F, e, c, s, t);
    DiffSteps(F, e, c, s, t);
    EvalQ(F, e, c, s, t, q);
    hide Times, Recip, QHi, QpHi, QppHi, QTerm, QpTerm, CubeTerm, ITerm;
    var one := map[Hi := Num(1.0)];
    var m := Mul(QTerm(q), CubeTerm());
    assert Eval(F, e, m) == Times(Eval(F, e, QTerm(q)), Eval(F, e, CubeTerm()));
    assert Eval(F, e, Mul(QpTerm(q), ITerm())) == Times(Eval(F, e, QpTerm(q)), Eval(F, e, ITerm()));
    assert Eval(F, e, Neg(m)) == -Eval(F, e, m) by { TimesNegate(Eval(F, e, m), 1.0); }
    EvalNum(F, e, -1.0);
    hide Eval, Der;
    EvalDer(F, e, BoundaryTerm(q), one);
    EvalDer(F, e, Neg(m), one);
    EvalDer(F, e, Num(-1.0), one);
    EvalDer(F, e, m, one);
    EvalDer(F, e, Mul(QpTerm(q), ITerm()), one);
    var i, x := InvDist(F.sqrt, c.a, s - t), s - t;
    CancelAlgebra(QHi(q, t - c.lo), QpHi(q, t - c.lo), QppHi(q, t - c.lo), i, x, XiOverCube(F.sqrt, c.a, s - t),
                  Times(i, Times(i, i)), 3.0 * Times(Times(x, x), Times(Times(i, Times(i, i)), Times(i, i))),
                      Eval(F, e, m));
  }

  lemma CancelAlgebra(q: real, qp: real, qpp: real, i: real, x: real, h: real, i3: real, y: real, m: real)
    ensures Times(0.0, m) + Times(-1.0, Times(qp, h) + Times(q, -i3 + y)) + (Times(qpp, i) + Times(qp, h))
         == Times(q, i3 - y) + Times(qpp, i)
  {
  }

  // ---------------------------------------------------------------- the moment

  /** (s - alpha)^p (t - A)^n / R: what the reused moment unfolds to, up to its index. */
  ghost function Excess(root: Fn, c: Pair, r: nat, s: real, t: real): real {
    Times(0.25 * Times(c.a, c.a),
          Times(QppHi(c.q, t - c.lo), Times(RealPower(s - c.alpha, c.p), InvDist(root, c.a, s - t)))
          - Times((c.q * (c.q - 1)) as real, Integrand(Reduced, root, c, r, s, t)))
  }

  /** The parts of the bracket's beta-derivative that the source endpoint moves. */
  lemma BracketSAt(F: Functions, c: Pair, js: Fn2, s: real, t: real)
    ensures var e := map[Hi := t, Lo := c.lo, Beta := s, A := c.a];
            BracketS(F.sqrt, c, js, s, t)
            == Times(RealPower(s - c.alpha, c.p), Eval(F, e, BoundaryTerm(c.q)) + NearPart(F.sqrt, c, s))
             - Times((c.q * (c.q - 1)) as real, js.At(s, t))
  {
    hide Times, Eval, BoundaryTerm, QHi, QpHi, XiOverCube, InvDist;
    var e := map[Hi := t, Lo := c.lo, Beta := s, A := c.a];
    DiffBoundary(F, e, c, s, t, c.q);
    var pw := RealPower(s - c.alpha, c.p);
    assert -Times(QHi(c.q, t - c.lo), XiOverCube(F.sqrt, c.a, s - t))
        + Times(QLo(c.q), XiOverCube(F.sqrt, c.a, s - c.lo))
          + (Times(QpHi(c.q, t - c.lo), InvDist(F.sqrt, c.a, s - t)) - Times(QpLo(c.q), InvDist(F.sqrt, c.a, s - c.lo)))
        == Eval(F, e, BoundaryTerm(c.q)) + NearPart(F.sqrt, c, s);
  }

  /** The near endpoint's share, which does not move. */
  ghost function NearPart(root: Fn, c: Pair, s: real): real {
    Times(QLo(c.q), XiOverCube(root, c.a, s - c.lo)) - Times(QpLo(c.q), InvDist(root, c.a, s - c.lo))
  }

  /** The t-derivative of the closed form's beta-derivative: the integrand plus the excess. */
  lemma ClosedFormSRow(F: Functions, c: Pair, js: Fn2, r: nat, s: real, t: real)
    requires Lawful(F) && c.a > 0.0
    requires c.q < 2 || HasDeriv(Row(js, s), t, Integrand(Reduced, F.sqrt, c, r, s, t))
    ensures HasDeriv(Row(ClosedFormS(F.sqrt, c, js), s), t,
                     Integrand(Correction, F.sqrt, c, c.q, s, t) + Excess(F.sqrt, c, r, s, t))
  {
    hide HasDeriv, Times, Lawful, Eval, Diff, BoundaryTerm, Integrand, InvDist, BracketS, NearPart, Excess, Defined,
        QppHi;
    var e := map[Hi := t, Lo := c.lo, Beta := s, A := c.a];
    var path, pw, n, k := Line(e, Hi), RealPower(s - c.alpha, c.p), (c.q * (c.q - 1)) as real, 0.25 * Times(c.a, c.a);
    StepsDefined(F, e, c, s, t, c.q);
    DiffSound(F, e, Hi, BoundaryTerm(c.q));
    var b, db := Along(F, path, BoundaryTerm(c.q)), Eval(F, e, Diff(BoundaryTerm(c.q), Hi));
    DerivConstant(NearPart(F.sqrt, c, s), t);
    DerivSum(b, Constant(NearPart(F.sqrt, c, s)), t, db, 0.0);
    var moving := Sum(b, Constant(NearPart(F.sqrt, c, s)));
    DerivScaled(pw, moving, t, db);
    ReuseRow(F, c, js, r, s, t);
    var reuse := Product(Constant(-n), Row(js, s));
    var di := Times(-n, Integrand(Reduced, F.sqrt, c, r, s, t));
    DerivSum(Product(Constant(pw), moving), reuse, t, Times(pw, db), di);
    var bracket := Sum(Product(Constant(pw), moving), reuse);
    DerivScaled(k, bracket, t, Times(pw, db) + di);
    forall y ensures Product(Constant(k), bracket).At(y) == Row(ClosedFormS(F.sqrt, c, js), s).At(y) {
      RowAt(F, c, js, s, t, y);
    }
    DerivLocal(Product(Constant(k), bracket), Row(ClosedFormS(F.sqrt, c, js), s), t, Times(k, Times(pw, db) + di), 1.0);
    RowValue(F, c, r, s, t);
  }

  lemma ReuseRow(F: Functions, c: Pair, js: Fn2, r: nat, s: real, t: real)
    requires c.q < 2 || HasDeriv(Row(js, s), t, Integrand(Reduced, F.sqrt, c, r, s, t))
    ensures var n := (c.q * (c.q - 1)) as real;
            HasDeriv(Product(Constant(-n), Row(js, s)), t, Times(-n, Integrand(Reduced, F.sqrt, c, r, s, t)))
  {
    hide HasDeriv, Times, Integrand;
    var n, d := (c.q * (c.q - 1)) as real, Integrand(Reduced, F.sqrt, c, r, s, t);
    if c.q < 2 {
      assert c.q * (c.q - 1) == 0;
      TimesSwap(0.0, d);
      TimesZero(d);
      DerivConstant(0.0, t);
      forall y ensures Constant(0.0).At(y) == Product(Constant(-n), Row(js, s)).At(y) {
        ScaledAt(-n, Row(js, s), y);
        TimesSwap(0.0, js.At(s, y));
        TimesZero(js.At(s, y));
      }
      DerivLocal(Constant(0.0), Product(Constant(-n), Row(js, s)), t, 0.0, 1.0);
    } else {
      DerivScaled(-n, Row(js, s), t, d);
    }
  }

  lemma RowAt(F: Functions, c: Pair, js: Fn2, s: real, t: real, y: real)
    ensures var e := map[Hi := t, Lo := c.lo, Beta := s, A := c.a];
            var moving := Sum(Along(F, Line(e, Hi), BoundaryTerm(c.q)), Constant(NearPart(F.sqrt, c, s)));
            Product(Constant(0.25 * Times(c.a, c.a)),
                    Sum(Product(Constant(RealPower(s - c.alpha, c.p)), moving),
                        Product(Constant(-((c.q * (c.q - 1)) as real)), Row(js, s)))).At(y)
            == Row(ClosedFormS(F.sqrt, c, js), s).At(y)
  {
    hide Times, Eval, BoundaryTerm, BracketS, NearPart, Along, Line;
    var e := map[Hi := t, Lo := c.lo, Beta := s, A := c.a];
    var b, m, n := Along(F, Line(e, Hi), BoundaryTerm(c.q)), NearPart(F.sqrt, c, s), (c.q * (c.q - 1)) as real;
    var pw, k := RealPower(s - c.alpha, c.p), 0.25 * Times(c.a, c.a);
    AlongAt(F, Line(e, Hi), BoundaryTerm(c.q), y);
    LineAt(e, Hi, y);
    assert e[Hi := y] == map[Hi := y, Lo := c.lo, Beta := s, A := c.a];
    BracketSAt(F, c, js, s, y);
    SumAt(b, Constant(m), y);
    assert Constant(m).At(y) == m;
    ScaledAt(pw, Sum(b, Constant(m)), y);
    ScaledAt(-n, Row(js, s), y);
    NegTimes(n, js.At(s, y));
    SumAt(Product(Constant(pw), Sum(b, Constant(m))), Product(Constant(-n), Row(js, s)), y);
    ScaledAt(k, Sum(Product(Constant(pw), Sum(b, Constant(m))), Product(Constant(-n), Row(js, s))), y);
  }

  lemma RowValue(F: Functions, c: Pair, r: nat, s: real, t: real)
    requires Lawful(F) && c.a > 0.0
    ensures var e := map[Hi := t, Lo := c.lo, Beta := s, A := c.a];
            Times(0.25 * Times(c.a, c.a),
                  Times(RealPower(s - c.alpha, c.p), Eval(F, e, Diff(BoundaryTerm(c.q), Hi)))
                  + Times(-((c.q * (c.q - 1)) as real), Integrand(Reduced, F.sqrt, c, r, s, t)))
            == Integrand(Correction, F.sqrt, c, c.q, s, t) + Excess(F.sqrt, c, r, s, t)
  {
    hide Times, Lawful, Eval, Diff, BoundaryTerm, Dist, InvDist, RealPower, QppHi;
    var e := map[Hi := t, Lo := c.lo, Beta := s, A := c.a];
    DiffBoundary(F, e, c, s, t, c.q);
    DistPositive(F, c.a, s - t);
    var i := InvDist(F.sqrt, c.a, s - t);
    CorrectionIdentity(F, c.a, s - t);
    RowAlgebra(0.25 * Times(c.a, c.a), RealPower(s - c.alpha, c.p), QHi(c.q, t - c.lo), QppHi(c.q, t - c.lo), i,
               Times(i, Times(i, i)) - 3.0 * Times(Times(s - t, s - t), Times(Times(i, Times(i, i)), Times(i, i))),
               (c.q * (c.q - 1)) as real, Integrand(Reduced, F.sqrt, c, r, s, t));
  }

  /** a^2/4 (1/R^3 - 3 xi^2/R^5) is the correction kernel. */
  lemma CorrectionIdentity(F: Functions, a: real, xi: real)
    requires Lawful(F) && a > 0.0
    ensures var i := InvDist(F.sqrt, a, xi);
            Times(0.25 * Times(a, a), Times(i, Times(i, i)) - 3.0 * Times(Times(xi, xi),
                Times(Times(i, Times(i, i)), Times(i, i))))
            == DeltaG(F.sqrt, a, xi)
  {
    hide Recip, Lawful, Dist, InvDist;
    DistPositive(F, a, xi);
    DeltaAlgebra(InvDist(F.sqrt, a, xi), Dist(F.sqrt, a, xi), xi, a);
  }

  /** H(s - t) = -a^2 / (4R), and its derivative in t. */
  function HTerm(): Term { Mul(Num(-0.25), Mul(Mul(Var(A), Var(A)), ITerm())) }

  function HRateTerm(): Term { Mul(Num(-0.25), Mul(Mul(Var(A), Var(A)), CubeTerm())) }

  lemma HDefined(F: Functions, e: Env, c: Pair, s: real, t: real)
    requires Lawful(F) && AtPair(e, c, s, t) && c.a > 0.0
    ensures Defined(F, e, HTerm()) && Defined(F, e, HRateTerm())
  {
    hide Lawful, ITerm, CubeTerm;
    DistancesDefined(F, e, c, s, t);
    assert Defined(F, e, Num(-0.25)) && Defined(F, e, Mul(Var(A), Var(A)));
    assert Defined(F, e, Mul(Mul(Var(A), Var(A)), ITerm()));
    assert Defined(F, e, Mul(Mul(Var(A), Var(A)), CubeTerm()));
  }

  /** -a^2/4 times an expression that does not contain a: its derivative in t. */
  lemma ScaledByWire(F: Functions, e: Env, t: Term)
    ensures var k := -0.25 * Times(Val(e, A), Val(e, A));
            var scaled := Mul(Num(-0.25), Mul(Mul(Var(A), Var(A)), t));
            && Eval(F, e, scaled) == Times(k, Eval(F, e, t))
            && Eval(F, e, Diff(scaled, Hi)) == Times(k, Eval(F, e, Diff(t, Hi)))
  {
    hide Times;
    var one, aa := map[Hi := Num(1.0)], Mul(Var(A), Var(A));
    var a, x, dx := Val(e, A), Eval(F, e, t), Eval(F, e, Diff(t, Hi));
    assert Eval(F, e, Var(A)) == a && Eval(F, e, aa) == Times(a, a);
    assert Eval(F, e, Mul(aa, t)) == Times(Times(a, a), x);
    EvalNum(F, e, -0.25);
    assert Eval(F, e, Mul(Num(-0.25), Mul(aa, t))) == Times(-0.25, Times(Times(a, a), x));
    hide Eval, Der;
    EvalDer(F, e, Mul(Num(-0.25), Mul(aa, t)), one);
    EvalDer(F, e, Num(-0.25), one);
    EvalDer(F, e, Mul(aa, t), one);
    EvalDer(F, e, aa, one);
    EvalDer(F, e, Var(A), one);
    WireAlgebra(a, x, dx);
  }

  lemma WireAlgebra(a: real, x: real, dx: real)
    ensures Times(-0.25, Times(Times(a, a), x)) == Times(-0.25 * Times(a, a), x)
    ensures Times(0.0, Times(Times(a, a), x))
          + Times(-0.25, Times(Times(0.0, a) + Times(a, 0.0), x) + Times(Times(a, a), dx))
         == Times(-0.25 * Times(a, a), dx)
  {
  }

  /** One derivative in t of H(s - t) has the value of its named form. */
  lemma HRate(F: Functions, e: Env, c: Pair, s: real, t: real)
    requires AtPair(e, c, s, t)
    ensures Eval(F, e, Diff(HTerm(), Hi)) == Eval(F, e, HRateTerm())
  {
    DiffSteps(F, e, c, s, t);
    EvalSteps(F, e, c, s, t);
    hide Eval, Diff, ITerm, CubeTerm, Times, XiOverCube, InvDist;
    ScaledByWire(F, e, ITerm());
    ScaledByWire(F, e, CubeTerm());
  }

  /** H'' is the correction kernel, at every offset: two derivatives of H(s - t) in t. */
  lemma SecondDerivativeOfH(F: Functions, e: Env, c: Pair, s: real, t: real)
    requires Lawful(F) && AtPair(e, c, s, t) && c.a > 0.0
    ensures Eval(F, e, Diff(Diff(HTerm(), Hi), Hi)) == DeltaG(F.sqrt, c.a, s - t)
  {
    hide Eval, Der, HTerm, HRateTerm, Lawful, DeltaG, Defined, Times, InvDist;
    HDefined(F, e, c, s, t);
    DiffDefined(F, e, HTerm());
    forall y ensures AgreeAt(F, e, Hi, y, Diff(HTerm(), Hi), HRateTerm()) {
      HRate(F, e[Hi := y], c, s, y);
    }
    DiffCongruent(F, e, Hi, Diff(HTerm(), Hi), HRateTerm(), 1.0);
    HSecondRate(F, e, c, s, t);
  }

  lemma DiffDefined(F: Functions, e: Env, t: Term)
    requires Lawful(F) && Defined(F, e, t)
    ensures Defined(F, e, Diff(t, Hi))
  {
    hide Lawful, Der;
    DerDefined(F, e, map[Hi := Num(1.0)], t);
  }

  lemma HSecondRate(F: Functions, e: Env, c: Pair, s: real, t: real)
    requires Lawful(F) && AtPair(e, c, s, t) && c.a > 0.0
    ensures Eval(F, e, Diff(HRateTerm(), Hi)) == DeltaG(F.sqrt, c.a, s - t)
  {
    DiffSteps(F, e, c, s, t);
    hide Eval, Diff, ITerm, CubeTerm, Times, InvDist, Lawful, DeltaG;
    ScaledByWire(F, e, CubeTerm());
    CorrectionIdentity(F, c.a, s - t);
    var i, x := InvDist(F.sqrt, c.a, s - t), s - t;
    var i3 := Times(i, Times(i, i));
    FlipSigns(0.25 * Times(c.a, c.a), i3, 3.0 * Times(Times(x, x), Times(i3, Times(i, i))));
  }

  lemma FlipSigns(k: real, p: real, q: real)
    ensures Times(-k, -p + q) == Times(k, p - q)
  {
  }

  lemma DeltaAlgebra(i: real, r: real, x: real, a: real)
    requires Times(i, r) == 1.0 && Times(r, r) == Times(x, x) + Times(a, a)
    ensures var i2, i3 := Times(i, i), Times(i, Times(i, i));
            Times(0.25 * Times(a, a), i3 - 3.0 * Times(Times(x, x), Times(i3, i2)))
            == -0.5 * Times(Times(a, a), i3) + 0.75 * Times(Times(Times(a, a), Times(a, a)), Times(i3, i2))
  {
    var a2, x2, i2, i3 := a * a, x * x, i * i, i * (i * i);
    assert r * r * i2 == 1.0 by { UnitProduct(i, r); }
    assert x2 * i2 == 1.0 - a2 * i2 by { assert (x2 + a2) * i2 == x2 * i2 + a2 * i2; }
    assert x2 * (i3 * i2) == i3 - a2 * (i3 * i2) by {
      assert x2 * (i3 * i2) == (x2 * i2) * i3;
      assert (1.0 - a2 * i2) * i3 == i3 - a2 * (i3 * i2);
    }
    assert 0.25 * a2 * (i3 - 3.0 * (i3 - a2 * (i3 * i2))) == -0.5 * (a2 * i3) + 0.75 * (a2 * a2 * (i3 * i2));
  }

  lemma UnitProduct(i: real, r: real)
    requires i * r == 1.0
    ensures r * r * (i * i) == 1.0
  {
    var u := i * r;
    assert r * r * (i * i) == u * u;
  }

  lemma RowAlgebra(k: real, pw: real, q: real, qpp: real, i: real, h: real, n: real, j: real)
    ensures Times(k, Times(pw, Times(q, h) + Times(qpp, i)) + Times(-n, j))
         == Times(Times(pw, q), Times(k, h)) + Times(k, Times(qpp, Times(pw, i)) - Times(n, j))
  {
  }

  /** With the index q - 2 nothing is left over. */
  lemma NoExcess(root: Fn, c: Pair, s: real, t: real)
    ensures Excess(root, c, ReuseIndex(c.q), s, t) == 0.0
  {
    hide InvDist, RealPower;
    if c.q < 2 { assert c.q * (c.q - 1) == 0; }
    var n := (c.q * (c.q - 1)) as real;
    var l, pw, i := RealPower(t - c.lo, ReuseIndex(c.q)), RealPower(s - c.alpha, c.p), InvDist(root, c.a, s - t);
    assert Times(Times(n, l), Times(pw, i)) == Times(n, Times(Times(pw, l), i)) by { ExcessAlgebra(n, l, pw, i); }
  }

  lemma ExcessAlgebra(n: real, l: real, pw: real, i: real)
    ensures Times(Times(n, l), Times(pw, i)) == Times(n, Times(Times(pw, l), i))
  {
  }

  // ---------------------------------------------------------------- the theorem and the index trap

  lemma {:induction false} PowerOfZero(n: nat)
    ensures RealPower(0.0, n) == if n == 0 then 1.0 else 0.0
  {
  }

  lemma EndValues(q: nat)
    ensures QHi(q, 0.0) == QLo(q) && QpHi(q, 0.0) == QpLo(q)
  {
    PowerOfZero(q);
    if q >= 1 {
      PowerOfZero(q - 1);
      TimesOne(q as real);
      TimesZero(q as real);
    }
  }

  /** The closed form vanishes on empty intervals when the reused moment does. */
  lemma EmptyObserver(c: Pair, f0: Fn2, f1: Fn2, j: Fn2, t: real)
    requires c.q < 2 || j.At(c.alpha, t) == 0.0
    ensures ClosedForm(c, f0, f1, j).At(c.alpha, t) == 0.0
  {
    hide Times, QHi, QpHi, QLo, QpLo, Fn2.At;
    var n := (c.q * (c.q - 1)) as real;
    if c.q < 2 { assert c.q * (c.q - 1) == 0; }
    DeadOrZero(n, j.At(c.alpha, t));
    TimesZero(QHi(c.q, t - c.lo));
    TimesZero(QLo(c.q));
    TimesZero(QpHi(c.q, t - c.lo));
    TimesZero(QpLo(c.q));
    assert Bracket(c, f0, f1, j, c.alpha, t) == 0.0;
    TimesZero(0.25 * Times(c.a, c.a));
  }

  lemma EmptySource(c: Pair, f0: Fn2, f1: Fn2, j: Fn2, s: real)
    requires c.q < 2 || j.At(s, c.lo) == 0.0
    ensures ClosedForm(c, f0, f1, j).At(s, c.lo) == 0.0
  {
    hide Times, QHi, QpHi, QLo, QpLo, Fn2.At, Corner;
    var n := (c.q * (c.q - 1)) as real;
    if c.q < 2 { assert c.q * (c.q - 1) == 0; }
    DeadOrZero(n, j.At(s, c.lo));
    EndValues(c.q);
    assert Bracket(c, f0, f1, j, s, c.lo) == 0.0;
    TimesZero(0.25 * Times(c.a, c.a));
  }

  lemma DeadOrZero(n: real, x: real)
    requires n == 0.0 || x == 0.0
    ensures Times(n, x) == 0.0
  {
  }

  lemma EmptyInner(root: Fn, c: Pair, js: Fn2, s: real)
    requires c.q < 2 || js.At(s, c.lo) == 0.0
    ensures ClosedFormS(root, c, js).At(s, c.lo) == 0.0
  {
    hide Times, QHi, QpHi, QLo, QpLo, XiOverCube, InvDist, RealPower;
    var n := (c.q * (c.q - 1)) as real;
    if c.q < 2 { assert c.q * (c.q - 1) == 0; }
    DeadOrZero(n, js.At(s, c.lo));
    EndValues(c.q);
    TimesZero(RealPower(s - c.alpha, c.p));
    TimesZero(0.25 * Times(c.a, c.a));
  }

  /** What the closed form unfolds to, whichever moment of the reduced kernel it reuses. */
  lemma ClosedFormUnfolds(F: Functions, c: Pair, f0: Fn2, f1: Fn2, j: Fn2, js: Fn2, r: nat, s: real, t: real)
    requires Lawful(F) && c.a > 0.0 && BoundaryIntegrals(F.sqrt, c, f0, f1)
    requires c.q < 2 || Unfolds(Reduced, F.sqrt, c, r, j, js, s, t)
    ensures HasDeriv(Column(ClosedForm(c, f0, f1, j), t), s, ClosedFormS(F.sqrt, c, js).At(s, t))
    ensures HasDeriv(Row(ClosedFormS(F.sqrt, c, js), s), t, Integrand(Correction, F.sqrt, c, c.q, s, t)
        + Excess(F.sqrt, c, r, s, t))
  {
    hide HasDeriv, Lawful, BoundaryIntegrals, Integrand, Excess;
    BracketSDeriv(F.sqrt, c, f0, f1, j, js, s, t);
    ClosedFormSRow(F, c, js, r, s, t);
  }

  /** The emitted expression is the double integral of the correction, for every p and q. */
  lemma EkMoment(F: Functions, c: Pair, f0: Fn2, f1: Fn2, j: Fn2)
    requires Lawful(F) && c.a > 0.0 && BoundaryIntegrals(F.sqrt, c, f0, f1)
    requires c.q < 2 || IsMoment(Reduced, F.sqrt, c, ReuseIndex(c.q), j)
    ensures IsMoment(Correction, F.sqrt, c, c.q, ClosedForm(c, f0, f1, j))
  {
    hide Lawful, BoundaryIntegrals, InnerIntegral, ClosedForm, ClosedFormS, Fn2.At;
    var js := j;
    if c.q >= 2 { js := InnerOf(F.sqrt, c, ReuseIndex(c.q), j); }
    InnerCorrect(F, c, f0, f1, j, js);
    ClosedFormEmpty(F.sqrt, c, f0, f1, j);
  }

  /** So on the complete line it is the value of every function that is this double integral. */
  lemma EkMomentValue(F: Functions, c: Pair, f0: Fn2, f1: Fn2, j: Fn2, d: Fn2, s: real, t: real)
    requires Complete() && Lawful(F) && c.a > 0.0 && BoundaryIntegrals(F.sqrt, c, f0, f1)
    requires c.q < 2 || IsMoment(Reduced, F.sqrt, c, ReuseIndex(c.q), j)
    requires IsMoment(Correction, F.sqrt, c, c.q, d)
    ensures d.At(s, t) == ClosedFormAt(c, f0, f1, j, s, t)
  {
    hide Complete, Lawful, BoundaryIntegrals, IsMoment, ClosedFormAt, Fn2.At;
    EkMoment(F, c, f0, f1, j);
    MomentIsUnique(Correction, F.sqrt, c, c.q, d, ClosedForm(c, f0, f1, j), s, t);
  }

  lemma InnerOf(root: Fn, c: Pair, q: nat, j: Fn2) returns (js: Fn2)
    requires IsMoment(Reduced, root, c, q, j)
    ensures InnerIntegral(Reduced, root, c, q, j, js)
  {
    hide InnerIntegral;
    js :| InnerIntegral(Reduced, root, c, q, j, js);
  }

  /** Over an empty segment the closed form is 0. */
  lemma ClosedFormEmpty(root: Fn, c: Pair, f0: Fn2, f1: Fn2, j: Fn2)
    requires c.q < 2 || IsMoment(Reduced, root, c, ReuseIndex(c.q), j)
    ensures forall t :: ClosedForm(c, f0, f1, j).At(c.alpha, t) == 0.0
    ensures forall s :: ClosedForm(c, f0, f1, j).At(s, c.lo) == 0.0
  {
    hide ClosedForm, Fn2.At, InnerIntegral;
    forall t ensures ClosedForm(c, f0, f1, j).At(c.alpha, t) == 0.0 { EmptyObserver(c, f0, f1, j, t); }
    forall s ensures ClosedForm(c, f0, f1, j).At(s, c.lo) == 0.0 { EmptySource(c, f0, f1, j, s); }
  }

  lemma InnerCorrect(F: Functions, c: Pair, f0: Fn2, f1: Fn2, j: Fn2, js: Fn2)
    requires Lawful(F) && c.a > 0.0 && BoundaryIntegrals(F.sqrt, c, f0, f1)
    requires c.q < 2 || InnerIntegral(Reduced, F.sqrt, c, ReuseIndex(c.q), j, js)
    ensures InnerIntegral(Correction, F.sqrt, c, c.q, ClosedForm(c, f0, f1, j), ClosedFormS(F.sqrt, c, js))
  {
    hide Lawful, BoundaryIntegrals, ClosedForm, ClosedFormS, Unfolds, Fn2.At;
    var f, fs := ClosedForm(c, f0, f1, j), ClosedFormS(F.sqrt, c, js);
    forall s, t ensures Unfolds(Correction, F.sqrt, c, c.q, f, fs, s, t) {
      UnfoldsCorrectly(F, c, f0, f1, j, js, s, t);
    }
    forall s ensures fs.At(s, c.lo) == 0.0 { EmptyInner(F.sqrt, c, js, s); }
  }

  lemma UnfoldsCorrectly(F: Functions, c: Pair, f0: Fn2, f1: Fn2, j: Fn2, js: Fn2, s: real, t: real)
    requires Lawful(F) && c.a > 0.0 && BoundaryIntegrals(F.sqrt, c, f0, f1)
    requires c.q < 2 || Unfolds(Reduced, F.sqrt, c, ReuseIndex(c.q), j, js, s, t)
    ensures Unfolds(Correction, F.sqrt, c, c.q, ClosedForm(c, f0, f1, j), ClosedFormS(F.sqrt, c, js), s, t)
  {
    hide HasDeriv, Lawful, BoundaryIntegrals, Integrand, Excess, ClosedForm, ClosedFormS, Fn2.At, Fn.At;
    ClosedFormUnfolds(F, c, f0, f1, j, js, ReuseIndex(c.q), s, t);
    NoExcess(F.sqrt, c, s, t);
  }

  /** Reusing the moment of index 0 instead is right exactly for q <= 2. */
  lemma IndexZero(F: Functions, c: Pair, f0: Fn2, f1: Fn2, j: Fn2)
    requires Lawful(F) && c.a > 0.0 && BoundaryIntegrals(F.sqrt, c, f0, f1)
    requires IsMoment(Reduced, F.sqrt, c, 0, j)
    ensures IsMoment(Correction, F.sqrt, c, c.q, ClosedForm(c, f0, f1, j)) <==> c.q <= 2
  {
    hide HasDeriv, Lawful, BoundaryIntegrals, ClosedForm;
    if c.q <= 2 {
      EkMoment(F, c, f0, f1, j);
    } else {
      IndexZeroWrong(F, c, f0, f1, j);
    }
  }

  lemma IndexZeroWrong(F: Functions, c: Pair, f0: Fn2, f1: Fn2, j: Fn2)
    requires Lawful(F) && c.a > 0.0 && BoundaryIntegrals(F.sqrt, c, f0, f1) && c.q > 2
    requires IsMoment(Reduced, F.sqrt, c, 0, j)
    ensures !IsMoment(Correction, F.sqrt, c, c.q, ClosedForm(c, f0, f1, j))
  {
    hide HasDeriv, Lawful, BoundaryIntegrals, Integrand, Excess, ClosedForm, ClosedFormS, Unfolds, Fn2.At;
    var js :| InnerIntegral(Reduced, F.sqrt, c, 0, j, js);
    var f, fs := ClosedForm(c, f0, f1, j), ClosedFormS(F.sqrt, c, js);
    var s, t := c.alpha + 1.0, c.lo + 2.0;
    ExcessNonzero(F, c, s, t);
    if IsMoment(Correction, F.sqrt, c, c.q, f) {
      var gs :| InnerIntegral(Correction, F.sqrt, c, c.q, f, gs);
      RowsAgree(F, c, f0, f1, j, js, gs, s);
      TwoIntegrands(F, c, f0, f1, j, js, gs, s, t);
    }
  }

  lemma RowsAgree(F: Functions, c: Pair, f0: Fn2, f1: Fn2, j: Fn2, js: Fn2, gs: Fn2, s: real)
    requires Lawful(F) && c.a > 0.0 && BoundaryIntegrals(F.sqrt, c, f0, f1)
    requires InnerIntegral(Reduced, F.sqrt, c, 0, j, js)
    requires InnerIntegral(Correction, F.sqrt, c, c.q, ClosedForm(c, f0, f1, j), gs)
    ensures forall y :: Row(ClosedFormS(F.sqrt, c, js), s).At(y) == Row(gs, s).At(y)
  {
    hide Lawful, BoundaryIntegrals, ClosedForm, ClosedFormS, Unfolds, Fn2.At;
    forall y ensures Row(ClosedFormS(F.sqrt, c, js), s).At(y) == Row(gs, s).At(y) {
      SameInner(F, c, f0, f1, j, js, gs, s, y);
    }
  }

  /** The beta-derivative of the closed form is determined by the closed form. */
  lemma SameInner(F: Functions, c: Pair, f0: Fn2, f1: Fn2, j: Fn2, js: Fn2, gs: Fn2, s: real, t: real)
    requires Lawful(F) && c.a > 0.0 && BoundaryIntegrals(F.sqrt, c, f0, f1)
    requires Unfolds(Reduced, F.sqrt, c, 0, j, js, s, t)
    requires Unfolds(Correction, F.sqrt, c, c.q, ClosedForm(c, f0, f1, j), gs, s, t)
    ensures ClosedFormS(F.sqrt, c, js).At(s, t) == gs.At(s, t)
  {
    hide HasDeriv, Lawful, BoundaryIntegrals, Integrand, Excess, ClosedForm, ClosedFormS, Fn2.At;
    ClosedFormUnfolds(F, c, f0, f1, j, js, 0, s, t);
    DerivUnique(Column(ClosedForm(c, f0, f1, j), t), s, ClosedFormS(F.sqrt, c, js).At(s, t), gs.At(s, t));
  }

  lemma TwoIntegrands(F: Functions, c: Pair, f0: Fn2, f1: Fn2, j: Fn2, js: Fn2, gs: Fn2, s: real, t: real)
    requires Lawful(F) && c.a > 0.0 && BoundaryIntegrals(F.sqrt, c, f0, f1)
    requires Unfolds(Reduced, F.sqrt, c, 0, j, js, s, t)
    requires Unfolds(Correction, F.sqrt, c, c.q, ClosedForm(c, f0, f1, j), gs, s, t)
    requires forall y :: Row(ClosedFormS(F.sqrt, c, js), s).At(y) == Row(gs, s).At(y)
    ensures Excess(F.sqrt, c, 0, s, t) == 0.0
  {
    hide HasDeriv, Lawful, BoundaryIntegrals, Integrand, Excess, ClosedForm, ClosedFormS, Fn2.At;
    ClosedFormUnfolds(F, c, f0, f1, j, js, 0, s, t);
    var k := Integrand(Correction, F.sqrt, c, c.q, s, t);
    DerivLocal(Row(gs, s), Row(ClosedFormS(F.sqrt, c, js), s), t, k, 1.0);
    DerivUnique(Row(ClosedFormS(F.sqrt, c, js), s), t, k, k + Excess(F.sqrt, c, 0, s, t));
  }

  lemma {:induction false} PowerOfOne(n: nat)
    ensures RealPower(1.0, n) == 1.0
  {
    hide Times;
    if n > 0 {
      PowerOfOne(n - 1);
      TimesOne(1.0);
    }
  }

  lemma {:induction false} PowerOfTwo(n: nat)
    requires n >= 1
    ensures RealPower(2.0, n) >= 2.0
  {
    if n == 1 {
      assert RealPower(2.0, 0) == 1.0;
    } else {
      PowerOfTwo(n - 1);
    }
  }

  lemma ExcessNonzero(F: Functions, c: Pair, s: real, t: real)
    requires Lawful(F) && c.a > 0.0 && c.q > 2 && s == c.alpha + 1.0 && t == c.lo + 2.0
    ensures Excess(F.sqrt, c, 0, s, t) != 0.0
  {
    hide Times, Recip, Lawful, Dist, InvDist;
    var n, i, w := (c.q * (c.q - 1)) as real, InvDist(F.sqrt, c.a, s - t), RealPower(2.0, c.q - 2);
    assert RealPower(1.0, c.p) == 1.0 by { PowerOfOne(c.p); }
    assert RealPower(2.0, 0) == 1.0;
    PowerOfTwo(c.q - 2);
    DistPositive(F, c.a, s - t);
    assert i > 0.0 by { InvDistPositive(F, c.a, s - t); }
    assert s - c.alpha == 1.0 && t - c.lo == 2.0;
    assert n > 0.0 by { assert c.q * (c.q - 1) > 0; }
    ExcessValue(0.25 * Times(c.a, c.a), n, w, i);
    TimesPositive(c.a, c.a);
    TimesPositive(n, i);
    TimesPositive(w - 1.0, Times(n, i));
    TimesPositive(0.25 * Times(c.a, c.a), Times(w - 1.0, Times(n, i)));
  }

  lemma InvDistPositive(F: Functions, a: real, xi: real)
    requires Dist(F.sqrt, a, xi) > 0.0
    ensures InvDist(F.sqrt, a, xi) > 0.0
  {
    hide Recip, Dist;
    RecipTimes(Dist(F.sqrt, a, xi));
  }

  lemma ExcessValue(k: real, n: real, w: real, i: real)
    ensures Times(k, Times(Times(n, w), Times(1.0, i)) - Times(n, Times(Times(1.0, 1.0), i)))
        == Times(k, Times(w - 1.0, Times(n, i)))
  {
  }
}
