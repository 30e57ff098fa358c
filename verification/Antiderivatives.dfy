/** The closed forms that integrate the field operators over the source shapes 1 and sin(k xi).

    G = e^{-jkR}/R moves with R at -(1/R + jk) G, the factor P = (1 + jkR)/R^2 at a rate of its own, and the second
    derivatives of G are a curvature times G less P G.  Each of the four theorems adds up such rates along d_dxi and
    finds the integrand; the algebra is done on complex values, one product at a time. */
module Antiderivatives {
  import opened Calculus
  import opened Terms
  import opened Substitution
  import opened ComplexTerms
  import opened DeltaKernel
  import opened DeltaOperators
  import opened FieldOperators
  import ChainRules

  // ---------------------------------------------------------------- expressions

  function KR(): Term { Mul(Var(K), Var(R)) }

  /** e^{-jkR} */
  function PhaseR(): CTerm { CTerm(Cos(KR()), Neg(Sin(KR()))) }

  /** G = e^{-jkR}/R */
  function Green(): CTerm { TScale(InvR(), PhaseR()) }

  /** P = (1 + jkR)/R^2 */
  function Pole(): CTerm { TScale(Mul(InvR(), InvR()), CTerm(Num(1.0), KR())) }

  function KXi(): Term { Mul(Var(K), Var(Xi)) }

  function CosShape(): Term { Cos(KXi()) }

  function SinShape(): Term { Sin(KXi()) }

  /** The four table entries. */
  function ConstZ(): CTerm { TScale(Var(Zeta), TMul(Pole(), Green())) }

  function ConstRho(): CTerm { TScale(Var(Rho), TMul(Pole(), Green())) }

  /** k cos(k xi) - P zeta sin(k xi) */
  function SinZFactor(): CTerm {
    TAdd(CTerm(Mul(Var(K), CosShape()), Num(0.0)), TScale(Neg(Mul(Var(Zeta), SinShape())), Pole()))
  }

  function SinZ(): CTerm { TScale(Num(-1.0), TMul(Green(), SinZFactor())) }

  /** k zeta cos(k xi) + (1 - zeta^2 P) sin(k xi) */
  function SinRhoFactor(): CTerm {
    TAdd(CTerm(Mul(Mul(Var(K), Var(Zeta)), CosShape()), Num(0.0)),
         TScale(SinShape(), TAdd(CTerm(Num(1.0), Num(0.0)), TScale(Neg(Sq(Zeta)), Pole()))))
  }

  function SinRho(): CTerm { TScale(Inv(Var(Rho)), TMul(Green(), SinRhoFactor())) }

  /** The operators applied to G. */
  function CChainZ2(z: CTerm): CTerm { CTerm(ChainZ2(z.re), ChainZ2(z.im)) }

  function CChainRhoZ(z: CTerm): CTerm { CTerm(ChainRhoZ(z.re), ChainRhoZ(z.im)) }

  /** s (k^2 G + d^2 G/dz^2) */
  function AxialIntegrand(s: Term): CTerm { TScale(s, TAdd(TScale(Sq(K), Green()), CChainZ2(Green()))) }

  /** s d^2 G/d rho dz */
  function RadialIntegrand(s: Term): CTerm { TScale(s, CChainRhoZ(Green())) }

  /** For the constant shape the closed form keeps k^2 times the integral of G. */
  function ConstZIntegrand(): CTerm {
    TAdd(AxialIntegrand(Num(1.0)), TScale(Num(-1.0), TScale(Sq(K), Green())))
  }

  // ---------------------------------------------------------------- values

  ghost predicate InChart(e: Env) {
    R in e && e[R] > 0.0 && Val(e, Rho) > 0.0
    && Times(e[R], e[R]) == Times(Val(e, Rho), Val(e, Rho)) + Times(Val(e, Zeta), Val(e, Zeta))
  }

  ghost function GreenAt(F: Functions, e: Env): Complex {
    CScale(Recip(Val(e, R)), Cis(F, Times(Val(e, K), Val(e, R))))
  }

  /** P = 1/R^2 + jk/R */
  ghost function PoleAt(e: Env): Complex {
    var i := Recip(Val(e, R));
    Complex(Times(i, i), Times(Val(e, K), i))
  }

  /** (3/R^4 - k^2/R^2) + j 3k/R^3: the second derivatives of G are built from it. */
  ghost function Curvature(i: real, k: real): Complex {
    Complex(3.0 * Times(Times(i, i), Times(i, i)) - Times(Times(k, k), Times(i, i)),
        3.0 * Times(k, Times(i, Times(i, i))))
  }

  lemma EvalParts(F: Functions, e: Env)
    ensures Eval(F, e, InvR()) == Recip(Val(e, R)) && Eval(F, e, KR()) == Times(Val(e, K), Val(e, R))
    ensures Eval(F, e, Mul(InvR(), InvR())) == Times(Recip(Val(e, R)), Recip(Val(e, R)))
    ensures CEval(F, e, PhaseR()) == Cis(F, Times(Val(e, K), Val(e, R)))
  {
    hide Times, Recip;
    assert Eval(F, e, Var(K)) == Val(e, K) && Eval(F, e, Var(R)) == Val(e, R);
    assert Eval(F, e, KR()) == Times(Val(e, K), Val(e, R));
    assert Eval(F, e, Sin(KR())) == F.sin.At(Eval(F, e, KR()));
    EvalNeg(F, e, Sin(KR()));
  }

  lemma EvalGreen(F: Functions, e: Env)
    ensures CEval(F, e, Green()) == GreenAt(F, e)
  {
    EvalParts(F, e);
    hide Times, Recip, PhaseR, InvR;
    EvalTScale(F, e, InvR(), PhaseR());
  }

  lemma EvalPole(F: Functions, e: Env)
    requires R in e && e[R] > 0.0
    ensures CEval(F, e, Pole()) == PoleAt(e)
  {
    EvalParts(F, e);
    EvalTScale(F, e, Mul(InvR(), InvR()), CTerm(Num(1.0), KR()));
    EvalNum(F, e, 1.0);
    RecipTimes(e[R]);
    hide Recip, InvR, KR, Eval;
    PoleAlgebra(Recip(e[R]), e[R], Val(e, K));
  }

  lemma PoleAlgebra(i: real, r: real, k: real)
    requires Times(i, r) == 1.0
    ensures Times(Times(i, i), 1.0) == Times(i, i)
    ensures Times(Times(i, i), Times(k, r)) == Times(k, i)
  {
    assert i * i * (k * r) == (i * r) * (k * i);
  }

  // ---------------------------------------------------------------- rates

  ghost predicate Rated(F: Functions, e: Env, rates: map<Sym, Term>, d: real) {
    R in rates && K !in rates && Eval(F, e, rates[R]) == d
  }

  /** How G moves with R: G' = -(1/R + jk) G R'. */
  lemma GreenRate(F: Functions, e: Env, rates: map<Sym, Term>, d: real)
    requires Rated(F, e, rates, d)
    ensures CEval(F, e, CDer(Green(), rates))
         == CScale(d, CMul(Complex(-Recip(Val(e, R)), -Val(e, K)), GreenAt(F, e)))
  {
    EvalParts(F, e);
    hide Times, Recip;
    assert Eval(F, e, Var(K)) == Val(e, K) && Eval(F, e, Var(R)) == Val(e, R);
    assert Eval(F, e, Sin(KR())) == F.sin.At(Eval(F, e, KR()));
    hide Eval, Der;
    EvalDerTScale(F, e, InvR(), PhaseR(), rates);
    EvalDer(F, e, InvR(), rates);
    EvalDer(F, e, Var(R), rates);
    EvalDer(F, e, PhaseR().re, rates);
    EvalDer(F, e, PhaseR().im, rates);
    EvalDer(F, e, Num(-1.0), rates);
    EvalDer(F, e, Sin(KR()), rates);
    EvalDer(F, e, KR(), rates);
    EvalDer(F, e, Var(K), rates);
    EvalNum(F, e, -1.0);
    GreenRateAlgebra(F.cos.At(Eval(F, e, KR())), F.sin.At(Eval(F, e, KR())), Recip(Val(e, R)), Val(e, R), Val(e, K), d);
  }

  lemma GreenRateAlgebra(c: real, s: real, i: real, r: real, k: real, d: real)
    ensures var m := Times(0.0, r) + Times(k, d);
            CAdd(CScale(Times(Times(-i, i), d), Complex(c, -s)),
                 CScale(i, Complex(Times(-s, m), Times(0.0, s) + Times(-1.0, Times(c, m)))))
            == CScale(d, CMul(Complex(-i, -k), CScale(i, Complex(c, -s))))
  {
    var E, w := Complex(c, -s), Complex(-i, -k);
    var m := Times(k, d);
    assert Times(0.0, r) == 0.0;
    PhaseRate(c, s, m);
    SplitFactor(i, k, E);
    ScaledRotation(k, d, E);
    assert Times(Times(-i, i), d) == Times(d, Times(i, -i));
    hide Times, CMul, CScale;
    var turn := CMul(Complex(0.0, -k), E);
    CMulScale(i, w, E);
    CScaleTwice(d, i, CMul(w, E));
    CScaleTwice(i, d, turn);
    TimesSwap(d, i);
    CScaleAdd(Times(d, i), CScale(-i, E), turn);
    CScaleTwice(Times(d, i), -i, E);
    TimesAssociative(d, i, -i);
  }

  lemma SplitFactor(i: real, k: real, E: Complex)
    ensures CMul(Complex(-i, -k), E) == CAdd(CScale(-i, E), CMul(Complex(0.0, -k), E))
  {
  }

  lemma ScaledRotation(k: real, d: real, E: Complex)
    ensures CMul(Complex(0.0, -Times(k, d)), E) == CScale(d, CMul(Complex(0.0, -k), E))
  {
    assert CScale(d, Complex(0.0, -k)) == Complex(0.0, -Times(k, d));
    CMulScale(d, Complex(0.0, -k), E);
  }

  /** How P moves with R. */
  lemma PoleRate(F: Functions, e: Env, rates: map<Sym, Term>, d: real)
    requires Rated(F, e, rates, d) && R in e && e[R] > 0.0
    ensures var i := Recip(Val(e, R));
            CEval(F, e, CDer(Pole(), rates))
            == CScale(d, Complex(-2.0 * Times(i, Times(i, i)), -Times(Val(e, K), Times(i, i))))
  {
    EvalParts(F, e);
    hide Times, Recip;
    assert Eval(F, e, Var(K)) == Val(e, K) && Eval(F, e, Var(R)) == Val(e, R);
    RecipTimes(e[R]);
    hide Eval, Der;
    var one := CTerm(Num(1.0), KR());
    EvalDerTScale(F, e, Mul(InvR(), InvR()), one, rates);
    EvalDer(F, e, Mul(InvR(), InvR()), rates);
    EvalDer(F, e, InvR(), rates);
    EvalDer(F, e, Var(R), rates);
    EvalDer(F, e, Num(1.0), rates);
    EvalDer(F, e, KR(), rates);
    EvalDer(F, e, Var(K), rates);
    EvalNum(F, e, 1.0);
    PoleRateAlgebra(Recip(e[R]), e[R], Val(e, K), d);
  }

  lemma PoleRateAlgebra(i: real, r: real, k: real, d: real)
    requires Times(i, r) == 1.0
    ensures var q := Times(Times(-i, i), d);
            CAdd(CScale(Times(q, i) + Times(i, q), Complex(1.0, Times(k, r))),
                 CScale(Times(i, i), Complex(0.0, Times(0.0, r) + Times(k, d))))
            == CScale(d, Complex(-2.0 * Times(i, Times(i, i)), -Times(k, Times(i, i))))
  {
    var q := -i * i * d;
    assert (q * i + i * q) * (k * r) == 2.0 * (q * k) * (i * r) == 2.0 * (q * k);
  }

  /** The chart's rate of R at a point, times -1/zeta. */
  lemma ChartRated(F: Functions, e: Env)
    ensures Rated(F, e, SourceRates(), Times(-Val(e, Zeta), Recip(Val(e, R))))
  {
    RateOfR(F, e);
  }

  /** Along the source: G' = zeta P G and P' = zeta (2/R^4 + jk/R^3). */
  lemma SourceRatesOfGP(F: Functions, e: Env)
    requires R in e && e[R] > 0.0
    ensures CEval(F, e, CDer(Green(), SourceRates())) == CScale(Val(e, Zeta), CMul(PoleAt(e), GreenAt(F, e)))
    ensures var i := Recip(Val(e, R));
            CEval(F, e, CDer(Pole(), SourceRates()))
            == CScale(Val(e, Zeta), Complex(2.0 * Times(Times(i, i), Times(i, i)),
                Times(Val(e, K), Times(i, Times(i, i)))))
  {
    hide Recip, GreenAt, CEval, SourceRates;
    ChartRated(F, e);
    GreenRate(F, e, SourceRates(), Times(-Val(e, Zeta), Recip(Val(e, R))));
    PoleRate(F, e, SourceRates(), Times(-Val(e, Zeta), Recip(Val(e, R))));
    SourceAlgebra(Val(e, Zeta), Recip(Val(e, R)), Val(e, K), GreenAt(F, e));
  }

  lemma SourceAlgebra(z: real, i: real, k: real, g: Complex)
    ensures CScale(Times(-z, i), CMul(Complex(-i, -k), g)) == CScale(z, CMul(Complex(Times(i, i), Times(k, i)), g))
    ensures CScale(Times(-z, i), Complex(-2.0 * Times(i, Times(i, i)), -Times(k, Times(i, i))))
         == CScale(z, Complex(2.0 * Times(Times(i, i), Times(i, i)), Times(k, Times(i, Times(i, i)))))
  {
    hide CMul;
    var w, p := Complex(-i, -k), Complex(Times(i, i), Times(k, i));
    CMulScale(Times(-z, i), w, g);
    CMulScale(z, p, g);
    assert CScale(Times(-z, i), w) == CScale(z, p);
  }

  // ---------------------------------------------------------------- G'' in R

  /** -(1/R + jk) G, the first R-derivative. */
  function GreenSlope(): CTerm { TMul(CTerm(Neg(InvR()), Neg(Var(K))), Green()) }

  lemma GreenSecond(F: Functions, e: Env)
    requires Lawful(F) && R in e && e[R] > 0.0
    ensures var i, k := Recip(Val(e, R)), Val(e, K);
            && CEval(F, e, CDiff(Green(), R)) == CMul(Complex(-i, -k), GreenAt(F, e))
            && CEval(F, e, CDiff(CDiff(Green(), R), R))
               == CMul(Complex(2.0 * Times(i, i) - Times(k, k), 2.0 * Times(k, i)), GreenAt(F, e))
  {
    hide Times, Recip, Lawful, Green, GreenAt, Eval, Diff, Defined, GreenSlope, CMul;
    GreenFirst(F, e);
    forall y | Abs(y - e[R]) < e[R]
      ensures AgreeAt(F, e, R, y, CDiff(Green(), R).re, GreenSlope().re)
      ensures AgreeAt(F, e, R, y, CDiff(Green(), R).im, GreenSlope().im)
    {
      GreenFirst(F, e[R := y]);
      EvalGreenSlope(F, e[R := y]);
    }
    GreenDefined(F, e);
    DiffCongruent(F, e, R, CDiff(Green(), R).re, GreenSlope().re, e[R]);
    DiffCongruent(F, e, R, CDiff(Green(), R).im, GreenSlope().im, e[R]);
    DiffGreenSlope(F, e);
  }

  lemma GreenFirst(F: Functions, e: Env)
    ensures CEval(F, e, CDiff(Green(), R)) == CMul(Complex(-Recip(Val(e, R)), -Val(e, K)), GreenAt(F, e))
  {
    EvalNum(F, e, 1.0);
    hide Times, Recip, Green, GreenAt, Eval, CMul;
    GreenRate(F, e, map[R := Num(1.0)], 1.0);
    CScaleOne(CMul(Complex(-Recip(Val(e, R)), -Val(e, K)), GreenAt(F, e)));
  }

  lemma EvalGreenSlope(F: Functions, e: Env)
    ensures CEval(F, e, GreenSlope()) == CMul(Complex(-Recip(Val(e, R)), -Val(e, K)), GreenAt(F, e))
  {
    EvalParts(F, e);
    hide Times, Recip;
    assert Eval(F, e, Var(K)) == Val(e, K);
    EvalNeg(F, e, InvR());
    EvalNeg(F, e, Var(K));
    hide Eval, Green, GreenAt;
    EvalTMul(F, e, CTerm(Neg(InvR()), Neg(Var(K))), Green());
    EvalGreen(F, e);
  }

  lemma GreenDefined(F: Functions, e: Env)
    requires Lawful(F) && R in e && e[R] > 0.0
    ensures CDefined(F, e, Green()) && CDefined(F, e, CDiff(Green(), R)) && CDefined(F, e, GreenSlope())
  {
    hide Lawful, Times, Recip;
    assert Eval(F, e, Var(R)) == e[R];
    assert Defined(F, e, InvR());
    assert Defined(F, e, KR());
    assert Defined(F, e, Sin(KR())) && Defined(F, e, Cos(KR()));
    assert Defined(F, e, Neg(Sin(KR())));
    hide InvR, KR;
    MulDefined(F, e, InvR(), Cos(KR()));
    MulDefined(F, e, InvR(), Neg(Sin(KR())));
    assert CDefined(F, e, Green());
    assert Defined(F, e, Neg(InvR())) && Defined(F, e, Neg(Var(K)));
    TMulDefined(F, e, CTerm(Neg(InvR()), Neg(Var(K))), Green());
    assert Defined(F, e, Num(1.0));
    DerDefined(F, e, map[R := Num(1.0)], Green().re);
    DerDefined(F, e, map[R := Num(1.0)], Green().im);
  }

  lemma DiffGreenSlope(F: Functions, e: Env)
    ensures var i, k := Recip(Val(e, R)), Val(e, K);
            CEval(F, e, CDiff(GreenSlope(), R))
            == CMul(Complex(2.0 * Times(i, i) - Times(k, k), 2.0 * Times(k, i)), GreenAt(F, e))
  {
    EvalParts(F, e);
    hide Times, Recip;
    var i, k := Recip(Val(e, R)), Val(e, K);
    assert Eval(F, e, Var(K)) == k && Eval(F, e, Var(R)) == Val(e, R);
    EvalNeg(F, e, InvR());
    EvalNeg(F, e, Var(K));
    EvalNum(F, e, 1.0);
    EvalNum(F, e, -1.0);
    GreenFirst(F, e);
    EvalGreen(F, e);
    hide Eval, Der, Green, GreenAt;
    var rates := map[R := Num(1.0)];
    var w := CTerm(Neg(InvR()), Neg(Var(K)));
    EvalDerTMul(F, e, w, Green(), rates);
    EvalDer(F, e, w.re, rates);
    EvalDer(F, e, w.im, rates);
    EvalDer(F, e, Num(-1.0), rates);
    EvalDer(F, e, InvR(), rates);
    EvalDer(F, e, Var(R), rates);
    EvalDer(F, e, Var(K), rates);
    SlopeRateAlgebra(i, k, GreenAt(F, e));
  }

  lemma SlopeRateAlgebra(i: real, k: real, g: Complex)
    ensures CAdd(CMul(Complex(Times(0.0, i) + Times(-1.0, Times(Times(-i, i), 1.0)), Times(0.0, k)
        + Times(-1.0, 0.0)), g),
                 CMul(Complex(-i, -k), CMul(Complex(-i, -k), g)))
         == CMul(Complex(2.0 * Times(i, i) - Times(k, k), 2.0 * Times(k, i)), g)
  {
    var w := Complex(-i, -k);
    var a := Complex(Times(0.0, i) + Times(-1.0, Times(Times(-i, i), 1.0)), Times(0.0, k) + Times(-1.0, 0.0));
    assert CAdd(a, CMul(w, w)) == Complex(2.0 * Times(i, i) - Times(k, k), 2.0 * Times(k, i));
    hide CMul;
    CMulAssociative(w, w, g);
    CMulDistributesRight(a, CMul(w, w), g);
  }

  // ---------------------------------------------------------------- the integrands

  /** chain_z2(G) = (zeta^2 S - P) G and chain_rho_z(G) = zeta rho S G, with S the curvature. */
  lemma ChainsOfGreen(F: Functions, e: Env)
    requires Lawful(F) && R in e && e[R] > 0.0
    ensures var z, S := Val(e, Zeta), Curvature(Recip(Val(e, R)), Val(e, K));
            && CEval(F, e, CChainZ2(Green()))
               == CMul(CAdd(CScale(Times(z, z), S), CScale(-1.0, PoleAt(e))), GreenAt(F, e))
            && CEval(F, e, CChainRhoZ(Green()))
               == CScale(Times(z, Val(e, Rho)), CMul(S, GreenAt(F, e)))
  {
    hide Recip, Lawful, Green, GreenAt, Eval, Diff, ChainZ2, ChainRhoZ;
    GreenSecond(F, e);
    ChainRulesEval(F, e, Green().re);
    ChainRulesEval(F, e, Green().im);
    var i, z, k, p, g := Recip(Val(e, R)), Val(e, Zeta), Val(e, K), Val(e, Rho), GreenAt(F, e);
    ChainZ2Algebra(i, z, k, g);
    ChainRhoZAlgebra(i, z, p, k, g);
  }

  lemma ChainRulesEval(F: Functions, e: Env, f: Term)
    ensures var i, z, p := Recip(Val(e, R)), Val(e, Zeta), Val(e, Rho);
            var df, ddf := Eval(F, e, Diff(f, R)), Eval(F, e, Diff(Diff(f, R), R));
            && Eval(F, e, ChainZ2(f)) == Times(ddf, Times(Times(z, z), Times(i, i)))
                + Times(df, i - Times(Times(z, z), Times(i, Times(i, i))))
            && Eval(F, e, ChainRhoZ(f))
                == Times(Times(z, p), Times(ddf, Times(i, i)) - Times(df, Times(i, Times(i, i))))
  {
    ChainRules.EvalChains(F, e, f);
  }

  lemma ChainZ2Algebra(i: real, z: real, k: real, g: Complex)
    ensures var d, dd := CMul(Complex(-i, -k), g), CMul(Complex(2.0 * Times(i, i) - Times(k, k), 2.0 * Times(k, i)), g);
            var x, y := Times(Times(z, z), Times(i, i)), i - Times(Times(z, z), Times(i, Times(i, i)));
            Complex(Times(dd.re, x) + Times(d.re, y), Times(dd.im, x) + Times(d.im, y))
            == CMul(CAdd(CScale(Times(z, z), Curvature(i, k)), CScale(-1.0, Complex(Times(i, i), Times(k, i)))), g)
  {
    var D, DD := Complex(-i, -k), Complex(2.0 * Times(i, i) - Times(k, k), 2.0 * Times(k, i));
    var x, y := Times(Times(z, z), Times(i, i)), i - Times(Times(z, z), Times(i, Times(i, i)));
    ChainZ2Coefficients(i, z, k);
    Combine(x, y, CMul(DD, g), CMul(D, g));
    hide CMul, Times, Curvature;
    CMulScale(x, DD, g);
    CMulScale(y, D, g);
    CMulDistributesRight(CScale(x, DD), CScale(y, D), g);
  }

  /** A real combination of two complex values, part by part. */
  lemma Combine(x: real, y: real, v: Complex, w: Complex)
    ensures Complex(Times(v.re, x) + Times(w.re, y), Times(v.im, x) + Times(w.im, y))
        == CAdd(CScale(x, v), CScale(y, w))
  {
  }

  lemma ChainZ2Coefficients(i: real, z: real, k: real)
    ensures CAdd(CScale(Times(Times(z, z), Times(i, i)), Complex(2.0 * Times(i, i) - Times(k, k), 2.0 * Times(k, i))),
                 CScale(i - Times(Times(z, z), Times(i, Times(i, i))), Complex(-i, -k)))
         == CAdd(CScale(Times(z, z), Curvature(i, k)), CScale(-1.0, Complex(Times(i, i), Times(k, i))))
  {
    var b := z * z;
    assert b * (i * i) * (2.0 * (i * i) - k * k) == 2.0 * (b * (i * i * i * i)) - b * (k * k * (i * i));
    assert (i - b * (i * (i * i))) * -i == -(i * i) + b * (i * i * i * i);
    assert (i - b * (i * (i * i))) * -k == -(k * i) + b * (k * (i * (i * i)));
    assert b * (i * i) * (2.0 * (k * i)) == 2.0 * (b * (k * (i * (i * i))));
  }

  lemma ChainRhoZAlgebra(i: real, z: real, p: real, k: real, g: Complex)
    ensures var d, dd := CMul(Complex(-i, -k), g), CMul(Complex(2.0 * Times(i, i) - Times(k, k), 2.0 * Times(k, i)), g);
            var x, y := Times(i, i), Times(i, Times(i, i));
            Complex(Times(Times(z, p), Times(dd.re, x) - Times(d.re, y)),
                Times(Times(z, p), Times(dd.im, x) - Times(d.im, y)))
            == CScale(Times(z, p), CMul(Curvature(i, k), g))
  {
    var D, DD := Complex(-i, -k), Complex(2.0 * Times(i, i) - Times(k, k), 2.0 * Times(k, i));
    var x, y := Times(i, i), Times(i, Times(i, i));
    ChainRhoZCoefficients(i, k);
    Combine(x, -y, CMul(DD, g), CMul(D, g));
    NegativeTimes(CMul(D, g).re, y);
    NegativeTimes(CMul(D, g).im, y);
    hide CMul, Times, Curvature;
    CMulScale(x, DD, g);
    CMulScale(-y, D, g);
    CMulDistributesRight(CScale(x, DD), CScale(-y, D), g);
  }

  lemma NegativeTimes(p: real, q: real)
    ensures Times(p, -q) == -Times(p, q)
  {
  }

  lemma ChainRhoZCoefficients(i: real, k: real)
    ensures CAdd(CScale(Times(i, i), Complex(2.0 * Times(i, i) - Times(k, k), 2.0 * Times(k, i))),
                 CScale(-Times(i, Times(i, i)), Complex(-i, -k)))
         == Curvature(i, k)
  {
    assert -(i * (i * i)) * -i == i * i * (i * i);
    assert -(i * (i * i)) * -k == k * (i * (i * i));
    assert i * i * (2.0 * (k * i)) == 2.0 * (k * (i * (i * i)));
  }

  // ---------------------------------------------------------------- the table

  /** P G and its rate along the source. */
  lemma PoleGreenRate(F: Functions, e: Env)
    requires R in e && e[R] > 0.0
    ensures var z, p, g, S := Val(e, Zeta), PoleAt(e), GreenAt(F, e), Curvature(Recip(Val(e, R)), Val(e, K));
            && CEval(F, e, TMul(Pole(), Green())) == CMul(p, g)
            && CEval(F, e, CDer(TMul(Pole(), Green()), SourceRates())) == CScale(z, CMul(S, g))
  {
    hide Recip, Times, GreenAt, CEval, SourceRates, CMul, Pole, Green, PoleAt, Curvature;
    EvalTMul(F, e, Pole(), Green());
    EvalPole(F, e);
    EvalGreen(F, e);
    EvalDerTMul(F, e, Pole(), Green(), SourceRates());
    SourceRatesOfGP(F, e);
    PoleCurvature(e);
    CurvatureRate(Val(e, Zeta), PoleAt(e), PoleSlope(e), GreenAt(F, e));
  }

  /** P' / zeta along the source. */
  ghost function PoleSlope(e: Env): Complex {
    var i := Recip(Val(e, R));
    Complex(2.0 * Times(Times(i, i), Times(i, i)), Times(Val(e, K), Times(i, Times(i, i))))
  }

  lemma PoleCurvature(e: Env)
    ensures CAdd(PoleSlope(e), CMul(PoleAt(e), PoleAt(e))) == Curvature(Recip(Val(e, R)), Val(e, K))
  {
    hide Recip;
    PoleCurvatureParts(Recip(Val(e, R)), Val(e, K));
  }

  lemma PoleCurvatureParts(i: real, k: real)
    ensures 2.0 * (i * i * (i * i)) + (i * i * (i * i) - k * i * (k * i)) == 3.0 * (i * i * (i * i)) - k * k * (i * i)
    ensures k * (i * (i * i)) + (i * i * (k * i) + k * i * (i * i)) == 3.0 * (k * (i * (i * i)))
  {
  }

  lemma CurvatureRate(z: real, p: Complex, q: Complex, g: Complex)
    ensures CAdd(CMul(CScale(z, q), g), CMul(p, CScale(z, CMul(p, g)))) == CScale(z, CMul(CAdd(q, CMul(p, p)), g))
  {
    hide CMul, Times;
    CMulScale(z, q, g);
    CMulScale(z, p, CMul(p, g));
    CMulAssociative(p, p, g);
    CMulDistributesRight(q, CMul(p, p), g);
    CScaleAdd(z, CMul(q, g), CMul(CMul(p, p), g));
  }

  lemma SymbolRates(F: Functions, e: Env)
    ensures Eval(F, e, Der(Var(Zeta), SourceRates())) == -1.0
    ensures Eval(F, e, Der(Var(Xi), SourceRates())) == 1.0
    ensures Eval(F, e, Der(Var(Rho), SourceRates())) == 0.0 == Eval(F, e, Der(Var(K), SourceRates()))
  {
    EvalNum(F, e, 1.0);
    EvalNum(F, e, -1.0);
    hide Eval;
    EvalDer(F, e, Var(Zeta), SourceRates());
    EvalDer(F, e, Var(Xi), SourceRates());
    EvalDer(F, e, Var(Rho), SourceRates());
    EvalDer(F, e, Var(K), SourceRates());
  }

  lemma EvalIntegrands(F: Functions, e: Env, s: Term)
    requires Lawful(F) && R in e && e[R] > 0.0
    ensures var z, k, x, g, p, S := Val(e, Zeta), Val(e, K), Eval(F, e, s), GreenAt(F, e), PoleAt(e),
        Curvature(Recip(Val(e, R)), Val(e, K));
            && CEval(F, e, AxialIntegrand(s))
               == CScale(x, CAdd(CScale(Times(k, k), g),
                   CAdd(CScale(Times(z, z), CMul(S, g)), CScale(-1.0, CMul(p, g)))))
            && CEval(F, e, RadialIntegrand(s)) == CScale(x, CScale(Times(z, Val(e, Rho)), CMul(S, g)))
  {
    hide Recip, Times, Lawful, Green, GreenAt, CMul, PoleAt, Curvature, CChainZ2, CChainRhoZ;
    EvalSq(F, e, K);
    hide Eval;
    EvalTScale(F, e, s, TAdd(TScale(Sq(K), Green()), CChainZ2(Green())));
    EvalTAdd(F, e, TScale(Sq(K), Green()), CChainZ2(Green()));
    EvalTScale(F, e, Sq(K), Green());
    EvalGreen(F, e);
    EvalTScale(F, e, s, CChainRhoZ(Green()));
    ChainsOfGreen(F, e);
    var z, g, p, S := Val(e, Zeta), GreenAt(F, e), PoleAt(e), Curvature(Recip(Val(e, R)), Val(e, K));
    CMulDistributesRight(CScale(Times(z, z), S), CScale(-1.0, p), g);
    CMulScale(Times(z, z), S, g);
    CMulScale(-1.0, p, g);
  }

  /** d/d xi of the entry is the integrand: constant shape, axial field. */
  lemma ConstZCorrect(F: Functions, e: Env)
    requires Lawful(F) && InChart(e)
    ensures CEval(F, e, CDXi(ConstZ())) == CEval(F, e, ConstZIntegrand())
  {
    hide Recip, Times, Lawful, Green, Pole, GreenAt, CMul, PoleAt, Curvature, SourceRates, TMul, DXi;
    DXiIsTotal(F, e, ConstZ().re);
    DXiIsTotal(F, e, ConstZ().im);
    SymbolRates(F, e);
    EvalNum(F, e, 1.0);
    EvalNum(F, e, -1.0);
    EvalSq(F, e, K);
    assert Eval(F, e, Var(Zeta)) == Val(e, Zeta);
    hide Eval, Der, AxialIntegrand, Sq;
    EvalDerTScale(F, e, Var(Zeta), TMul(Pole(), Green()), SourceRates());
    PoleGreenRate(F, e);
    EvalIntegrands(F, e, Num(1.0));
    EvalTAdd(F, e, AxialIntegrand(Num(1.0)), TScale(Num(-1.0), TScale(Sq(K), Green())));
    EvalTScale(F, e, Num(-1.0), TScale(Sq(K), Green()));
    EvalTScale(F, e, Sq(K), Green());
    EvalGreen(F, e);
    ConstZCombine(Val(e, Zeta), Times(Val(e, K), Val(e, K)), GreenAt(F, e), CMul(PoleAt(e), GreenAt(F, e)),
                  CMul(Curvature(Recip(Val(e, R)), Val(e, K)), GreenAt(F, e)));
  }

  lemma ConstZCombine(z: real, k2: real, g: Complex, pg: Complex, sg: Complex)
    ensures CAdd(CScale(-1.0, pg), CScale(z, CScale(z, sg)))
         == CAdd(CScale(1.0, CAdd(CScale(k2, g), CAdd(CScale(Times(z, z), sg), CScale(-1.0, pg)))),
                 CScale(-1.0, CScale(k2, g)))
  {
  }

  /** Constant shape, radial field. */
  lemma ConstRhoCorrect(F: Functions, e: Env)
    requires Lawful(F) && InChart(e)
    ensures CEval(F, e, CDXi(ConstRho())) == CEval(F, e, RadialIntegrand(Num(1.0)))
  {
    hide Recip, Times, Lawful, Green, Pole, GreenAt, CMul, PoleAt, Curvature, SourceRates, TMul, DXi;
    DXiIsTotal(F, e, ConstRho().re);
    DXiIsTotal(F, e, ConstRho().im);
    SymbolRates(F, e);
    EvalNum(F, e, 1.0);
    assert Eval(F, e, Var(Rho)) == Val(e, Rho);
    hide Eval, Der, RadialIntegrand;
    EvalDerTScale(F, e, Var(Rho), TMul(Pole(), Green()), SourceRates());
    PoleGreenRate(F, e);
    EvalIntegrands(F, e, Num(1.0));
    ConstRhoCombine(Val(e, Zeta), Val(e, Rho), CMul(PoleAt(e), GreenAt(F, e)),
                    CMul(Curvature(Recip(Val(e, R)), Val(e, K)), GreenAt(F, e)));
  }

  lemma ConstRhoCombine(z: real, p: real, pg: Complex, sg: Complex)
    ensures CAdd(CScale(0.0, pg), CScale(p, CScale(z, sg))) == CScale(1.0, CScale(Times(z, p), sg))
  {
  }

  // ---------------------------------------------------------------- the sine shape

  lemma ShapeRates(F: Functions, e: Env)
    ensures var c, s, k := Eval(F, e, CosShape()), Eval(F, e, SinShape()), Val(e, K);
            && Eval(F, e, Der(CosShape(), SourceRates())) == Times(-s, k)
            && Eval(F, e, Der(SinShape(), SourceRates())) == Times(c, k)
  {
    SymbolRates(F, e);
    hide Times, SourceRates;
    assert Eval(F, e, Var(K)) == Val(e, K) && Eval(F, e, Var(Xi)) == Val(e, Xi);
    assert Eval(F, e, CosShape()) == F.cos.At(Eval(F, e, KXi()));
    assert Eval(F, e, SinShape()) == F.sin.At(Eval(F, e, KXi()));
    hide Eval, Der;
    EvalDer(F, e, CosShape(), SourceRates());
    EvalDer(F, e, SinShape(), SourceRates());
    EvalDer(F, e, KXi(), SourceRates());
    TimesSwap(0.0, Val(e, Xi));
    TimesZero(Val(e, Xi));
    TimesOne(Val(e, K));
  }

  /** The second factor of the (sin, z) entry and its rate. */
  lemma SinZFactorRate(F: Functions, e: Env)
    requires R in e && e[R] > 0.0
    ensures var c, s, k, z, p := Eval(F, e, CosShape()), Eval(F, e, SinShape()), Val(e, K), Val(e, Zeta), PoleAt(e);
            && CEval(F, e, SinZFactor()) == CAdd(Complex(Times(k, c), 0.0), CScale(-Times(z, s), p))
            && CEval(F, e, CDer(SinZFactor(), SourceRates()))
               == CAdd(Complex(Times(k, Times(-s, k)), 0.0),
                       CAdd(CScale(s - Times(z, Times(c, k)), p), CScale(-Times(z, s), CScale(z, PoleSlope(e)))))
  {
    SymbolRates(F, e);
    ShapeRates(F, e);
    hide Times, Recip, SourceRates, CosShape, SinShape, Pole, PoleAt;
    var c, s, k, z := Eval(F, e, CosShape()), Eval(F, e, SinShape()), Val(e, K), Val(e, Zeta);
    assert Eval(F, e, Var(K)) == k && Eval(F, e, Var(Zeta)) == z;
    var a, b := CTerm(Mul(Var(K), CosShape()), Num(0.0)), Mul(Var(Zeta), SinShape());
    assert Eval(F, e, Mul(Var(K), CosShape())) == Times(k, c);
    assert Eval(F, e, b) == Times(z, s);
    EvalNeg(F, e, b);
    EvalNum(F, e, 0.0);
    hide Eval, Der;
    EvalTAdd(F, e, a, TScale(Neg(b), Pole()));
    EvalTScale(F, e, Neg(b), Pole());
    EvalPole(F, e);
    EvalDerTAdd(F, e, a, TScale(Neg(b), Pole()), SourceRates());
    EvalDer(F, e, a.re, SourceRates());
    EvalDer(F, e, a.im, SourceRates());
    EvalDerTScale(F, e, Neg(b), Pole(), SourceRates());
    EvalDerNeg(F, e, b, SourceRates());
    EvalDer(F, e, b, SourceRates());
    SourceRatesOfGP(F, e);
    FactorRateValues(c, s, k, z);
  }

  lemma EvalDerNeg(F: Functions, e: Env, t: Term, rates: map<Sym, Term>)
    ensures Eval(F, e, Der(Neg(t), rates)) == -Eval(F, e, Der(t, rates))
  {
    EvalNum(F, e, -1.0);
    hide Eval, Der, Times;
    EvalDer(F, e, Neg(t), rates);
    EvalDer(F, e, Num(-1.0), rates);
    NegateRate(Eval(F, e, t), Eval(F, e, Der(t, rates)));
  }

  lemma FactorRateValues(c: real, s: real, k: real, z: real)
    ensures Times(0.0, c) + Times(k, Times(-s, k)) == Times(k, Times(-s, k))
    ensures -(Times(-1.0, s) + Times(z, Times(c, k))) == s - Times(z, Times(c, k))
  {
  }

  /** Sine shape, axial field. */
  lemma SinZCorrect(F: Functions, e: Env)
    requires Lawful(F) && InChart(e)
    ensures CEval(F, e, CDXi(SinZ())) == CEval(F, e, AxialIntegrand(SinShape()))
  {
    hide Recip, Times, Lawful, Green, Pole, GreenAt, CMul, PoleAt, Curvature, SourceRates, TMul, DXi, SinShape,
        CosShape, SinZFactor, PoleSlope;
    DXiIsTotal(F, e, SinZ().re);
    DXiIsTotal(F, e, SinZ().im);
    EvalNum(F, e, -1.0);
    hide Eval, Der, AxialIntegrand;
    var c, s, k, z := Eval(F, e, CosShape()), Eval(F, e, SinShape()), Val(e, K), Val(e, Zeta);
    var p, g, q := PoleAt(e), GreenAt(F, e), PoleSlope(e);
    EvalDerTScale(F, e, Num(-1.0), TMul(Green(), SinZFactor()), SourceRates());
    EvalDer(F, e, Num(-1.0), SourceRates());
    EvalDerTMul(F, e, Green(), SinZFactor(), SourceRates());
    EvalGreen(F, e);
    SourceRatesOfGP(F, e);
    SinZFactorRate(F, e);
    EvalIntegrands(F, e, SinShape());
    PoleCurvature(e);
    SinZExpand(c, s, k, z, p, g, q, CEval(F, e, TMul(Green(), SinZFactor())));
  }

  lemma SinZExpand(c: real, s: real, k: real, z: real, p: Complex, g: Complex, q: Complex, w: Complex)
    ensures var X := CAdd(Complex(Times(k, c), 0.0), CScale(-Times(z, s), p));
            var dX := CAdd(Complex(Times(k, Times(-s, k)), 0.0),
                           CAdd(CScale(s - Times(z, Times(c, k)), p), CScale(-Times(z, s), CScale(z, q))));
            CAdd(CScale(0.0, w), CScale(-1.0, CAdd(CMul(CScale(z, CMul(p, g)), X), CMul(g, dX))))
            == CScale(s, CAdd(CScale(Times(k, k), g),
                              CAdd(CScale(Times(z, z), CMul(CAdd(q, CMul(p, p)), g)), CScale(-1.0, CMul(p, g)))))
  {
    hide CMul, Times;
    var pg := CMul(p, g);
    var ppg, qg := CMul(p, pg), CMul(q, g);
    ExpandProduct(pg, Times(k, c), -Times(z, s), p);
    CMulScale(z, pg, CAdd(Complex(Times(k, c), 0.0), CScale(-Times(z, s), p)));
    CMulCommutative(pg, p);
    ExpandProduct3(g, Times(k, Times(-s, k)), s - Times(z, Times(c, k)), p, -Times(z, s), z, q);
    CMulCommutative(g, p);
    CMulCommutative(g, q);
    CMulAssociative(p, p, g);
    CMulDistributesRight(q, CMul(p, p), g);
    SinZCombine(c, s, k, z, g, pg, ppg, qg, w);
  }

  lemma ExpandProduct(x: Complex, a: real, b: real, p: Complex)
    ensures CMul(x, CAdd(Complex(a, 0.0), CScale(b, p))) == CAdd(CScale(a, x), CScale(b, CMul(x, p)))
  {
    hide CMul;
    CMulDistributes(x, Complex(a, 0.0), CScale(b, p));
    CMulRealFactor(x, a);
    CMulScale(b, x, p);
  }

  lemma CMulRealFactor(x: Complex, a: real)
    ensures CMul(x, Complex(a, 0.0)) == CScale(a, x)
  {
  }

  lemma ExpandProduct3(x: Complex, a: real, b: real, p: Complex, d: real, z: real, q: Complex)
    ensures CMul(x, CAdd(Complex(a, 0.0), CAdd(CScale(b, p), CScale(d, CScale(z, q)))))
         == CAdd(CScale(a, x), CAdd(CScale(b, CMul(x, p)), CScale(d, CScale(z, CMul(x, q)))))
  {
    hide CMul, Times;
    CMulDistributes(x, Complex(a, 0.0), CAdd(CScale(b, p), CScale(d, CScale(z, q))));
    CMulRealFactor(x, a);
    CMulDistributes(x, CScale(b, p), CScale(d, CScale(z, q)));
    CMulScale(b, x, p);
    CMulScale(d, x, CScale(z, q));
    CMulScale(z, x, q);
  }

  lemma SinZCombine(c: real, s: real, k: real, z: real, g: Complex, pg: Complex, ppg: Complex, qg: Complex, w: Complex)
    ensures CAdd(CScale(0.0, w),
                 CScale(-1.0, CAdd(CScale(z, CAdd(CScale(Times(k, c), pg), CScale(-Times(z, s), ppg))),
                                   CAdd(CScale(Times(k, Times(-s, k)), g),
                                        CAdd(CScale(s - Times(z, Times(c, k)), pg),
                                            CScale(-Times(z, s), CScale(z, qg)))))))
         == CScale(s, CAdd(CScale(Times(k, k), g),
                           CAdd(CScale(Times(z, z), CAdd(qg, ppg)), CScale(-1.0, pg))))
  {
    SinZCombinePart(c, s, k, z, g.re, pg.re, ppg.re, qg.re, w.re);
    SinZCombinePart(c, s, k, z, g.im, pg.im, ppg.im, qg.im, w.im);
    hide Times;
  }

  lemma SinZCombinePart(c: real, s: real, k: real, z: real, g: real, pg: real, ppg: real, qg: real, w: real)
    ensures Times(0.0, w)
          + Times(-1.0, Times(z, Times(Times(k, c), pg) + Times(-Times(z, s), ppg))
                      + (Times(Times(k, Times(-s, k)), g)
                      + (Times(s - Times(z, Times(c, k)), pg) + Times(-Times(z, s), Times(z, qg)))))
         == Times(s, Times(Times(k, k), g) + (Times(Times(z, z), qg + ppg) + Times(-1.0, pg)))
  {
    AxialPart1(c, s, k, z, pg, ppg);
    AxialPart2(s, k, g);
    AxialPart3(c, s, k, z, pg);
    AxialPart4(s, z, qg);
    AxialWhole(s, k, z, g, pg, ppg, qg);
    TimesZero(w);
    TimesSwap(0.0, w);
    hide Times;
    TimesNegate(Times(z, Times(Times(k, c), pg) + Times(-Times(z, s), ppg))
                + (Times(Times(k, Times(-s, k)), g)
                   + (Times(s - Times(z, Times(c, k)), pg) + Times(-Times(z, s), Times(z, qg)))), 1.0);
  }

  lemma AxialPart1(c: real, s: real, k: real, z: real, pg: real, ppg: real)
    ensures Times(z, Times(Times(k, c), pg) + Times(-Times(z, s), ppg)) == z * k * c * pg - s * z * z * ppg
  {
  }

  lemma AxialPart2(s: real, k: real, g: real)
    ensures Times(Times(k, Times(-s, k)), g) == -(s * k * k * g)
  {
  }

  lemma AxialPart3(c: real, s: real, k: real, z: real, pg: real)
    ensures Times(s - Times(z, Times(c, k)), pg) == s * pg - z * k * c * pg
  {
  }

  lemma AxialPart4(s: real, z: real, qg: real)
    ensures Times(-Times(z, s), Times(z, qg)) == -(s * z * z * qg)
  {
  }

  lemma AxialWhole(s: real, k: real, z: real, g: real, pg: real, ppg: real, qg: real)
    ensures Times(s, Times(Times(k, k), g) + (Times(Times(z, z), qg + ppg) + Times(-1.0, pg)))
         == s * k * k * g + s * z * z * qg + s * z * z * ppg - s * pg
  {
  }

  /** The second factor of the (sin, rho) entry and its rate. */
  lemma SinRhoFactorRate(F: Functions, e: Env)
    requires R in e && e[R] > 0.0
    ensures var c, s, k, z, p := Eval(F, e, CosShape()), Eval(F, e, SinShape()), Val(e, K), Val(e, Zeta), PoleAt(e);
            && CEval(F, e, SinRhoFactor())
               == CAdd(Complex(Times(Times(k, z), c), 0.0), CScale(s, CAdd(Complex(1.0, 0.0), CScale(-Times(z, z), p))))
            && CEval(F, e, CDer(SinRhoFactor(), SourceRates()))
               == CAdd(Complex(Times(-k, c) + Times(Times(k, z), Times(-s, k)), 0.0),
                       CAdd(CScale(Times(c, k), CAdd(Complex(1.0, 0.0), CScale(-Times(z, z), p))),
                            CScale(s, CAdd(CScale(2.0 * z, p), CScale(-Times(z, z), CScale(z, PoleSlope(e)))))))
  {
    SymbolRates(F, e);
    ShapeRates(F, e);
    hide Times, Recip, SourceRates, CosShape, SinShape, Pole, PoleAt;
    var c, s, k, z := Eval(F, e, CosShape()), Eval(F, e, SinShape()), Val(e, K), Val(e, Zeta);
    assert Eval(F, e, Var(K)) == k && Eval(F, e, Var(Zeta)) == z;
    EvalSq(F, e, Zeta);
    var kz, one := Mul(Var(K), Var(Zeta)), CTerm(Num(1.0), Num(0.0));
    var a := CTerm(Mul(kz, CosShape()), Num(0.0));
    assert Eval(F, e, kz) == Times(k, z);
    assert Eval(F, e, Mul(kz, CosShape())) == Times(Times(k, z), c);
    EvalNeg(F, e, Sq(Zeta));
    EvalNum(F, e, 0.0);
    EvalNum(F, e, 1.0);
    hide Eval, Der;
    var inner := TAdd(one, TScale(Neg(Sq(Zeta)), Pole()));
    EvalTAdd(F, e, a, TScale(SinShape(), inner));
    EvalTScale(F, e, SinShape(), inner);
    EvalTAdd(F, e, one, TScale(Neg(Sq(Zeta)), Pole()));
    EvalTScale(F, e, Neg(Sq(Zeta)), Pole());
    EvalPole(F, e);
    EvalDerTAdd(F, e, a, TScale(SinShape(), inner), SourceRates());
    EvalDer(F, e, a.re, SourceRates());
    EvalDer(F, e, kz, SourceRates());
    EvalDer(F, e, a.im, SourceRates());
    EvalDerTScale(F, e, SinShape(), inner, SourceRates());
    EvalDerTAdd(F, e, one, TScale(Neg(Sq(Zeta)), Pole()), SourceRates());
    EvalDer(F, e, one.re, SourceRates());
    EvalDer(F, e, one.im, SourceRates());
    EvalDerTScale(F, e, Neg(Sq(Zeta)), Pole(), SourceRates());
    EvalDerNeg(F, e, Sq(Zeta), SourceRates());
    EvalDer(F, e, Sq(Zeta), SourceRates());
    SourceRatesOfGP(F, e);
    RhoFactorRateValues(c, s, k, z);
  }

  lemma RhoFactorRateValues(c: real, s: real, k: real, z: real)
    ensures Times(Times(0.0, z) + Times(k, -1.0), c) + Times(Times(k, z), Times(-s, k)) == Times(-k, c)
        + Times(Times(k, z), Times(-s, k))
    ensures -(Times(-1.0, z) + Times(z, -1.0)) == 2.0 * z
  {
  }

  /** Sine shape, radial field. */
  lemma SinRhoCorrect(F: Functions, e: Env)
    requires Lawful(F) && InChart(e)
    ensures CEval(F, e, CDXi(SinRho())) == CEval(F, e, RadialIntegrand(SinShape()))
  {
    hide Recip, Times, Lawful, Green, Pole, GreenAt, CMul, PoleAt, Curvature, SourceRates, TMul, DXi, SinShape,
        CosShape, SinRhoFactor, PoleSlope;
    DXiIsTotal(F, e, SinRho().re);
    DXiIsTotal(F, e, SinRho().im);
    SymbolRates(F, e);
    assert Eval(F, e, Var(Rho)) == Val(e, Rho);
    assert Eval(F, e, Inv(Var(Rho))) == Recip(Val(e, Rho));
    hide Eval, Der, RadialIntegrand;
    var c, s, k, z, p0 := Eval(F, e, CosShape()), Eval(F, e, SinShape()), Val(e, K), Val(e, Zeta), Val(e, Rho);
    var p, g, q := PoleAt(e), GreenAt(F, e), PoleSlope(e);
    EvalDerTScale(F, e, Inv(Var(Rho)), TMul(Green(), SinRhoFactor()), SourceRates());
    EvalDer(F, e, Inv(Var(Rho)), SourceRates());
    EvalDerTMul(F, e, Green(), SinRhoFactor(), SourceRates());
    EvalGreen(F, e);
    SourceRatesOfGP(F, e);
    SinRhoFactorRate(F, e);
    EvalIntegrands(F, e, SinShape());
    PoleCurvature(e);
    SinRhoExpand(c, s, k, z, p, g, q);
    CurvatureBalance(e, g);
    RecipTimes(p0);
    TimesZero(InvRate(p0));
    SinRhoFinish(s, z, k, p0, Recip(p0), g, CMul(p, g), CMul(CAdd(q, CMul(p, p)), g),
        CEval(F, e, TMul(Green(), SinRhoFactor())));
  }

  lemma SinRhoExpand(c: real, s: real, k: real, z: real, p: Complex, g: Complex, q: Complex)
    ensures var Y := CAdd(Complex(Times(Times(k, z), c), 0.0),
        CScale(s, CAdd(Complex(1.0, 0.0), CScale(-Times(z, z), p))));
            var dY := CAdd(Complex(Times(-k, c) + Times(Times(k, z), Times(-s, k)), 0.0),
                           CAdd(CScale(Times(c, k), CAdd(Complex(1.0, 0.0), CScale(-Times(z, z), p))),
                                CScale(s, CAdd(CScale(2.0 * z, p), CScale(-Times(z, z), CScale(z, q))))));
            CAdd(CMul(CScale(z, CMul(p, g)), Y), CMul(g, dY))
            == CScale(Times(s, z), CAdd(CScale(3.0, CMul(p, g)),
                                        CAdd(CScale(-Times(k, k), g), CScale(-Times(z, z),
                                            CMul(CAdd(q, CMul(p, p)), g)))))
  {
    hide CMul, Times;
    var pg := CMul(p, g);
    var ppg, qg := CMul(p, pg), CMul(q, g);
    var one := CAdd(Complex(1.0, 0.0), CScale(-Times(z, z), p));
    CMulScale(z, pg, CAdd(Complex(Times(Times(k, z), c), 0.0), CScale(s, one)));
    ExpandProduct(pg, Times(Times(k, z), c), s, one);
    ExpandProduct(pg, 1.0, -Times(z, z), p);
    CMulCommutative(pg, p);
    var m := Times(-k, c) + Times(Times(k, z), Times(-s, k));
    var tail := CAdd(CScale(2.0 * z, p), CScale(-Times(z, z), CScale(z, q)));
    CMulDistributes(g, Complex(m, 0.0), CAdd(CScale(Times(c, k), one), CScale(s, tail)));
    CMulRealFactor(g, m);
    CMulDistributes(g, CScale(Times(c, k), one), CScale(s, tail));
    CMulScale(Times(c, k), g, one);
    CMulScale(s, g, tail);
    ExpandProduct(g, 1.0, -Times(z, z), p);
    CMulDistributes(g, CScale(2.0 * z, p), CScale(-Times(z, z), CScale(z, q)));
    CMulScale(2.0 * z, g, p);
    CMulScale(-Times(z, z), g, CScale(z, q));
    CMulScale(z, g, q);
    CMulCommutative(g, p);
    CMulCommutative(g, q);
    CMulAssociative(p, p, g);
    CMulDistributesRight(q, CMul(p, p), g);
    SinRhoCombine(c, s, k, z, g, pg, ppg, qg);
  }

  lemma SinRhoCombine(c: real, s: real, k: real, z: real, g: Complex, pg: Complex, ppg: Complex, qg: Complex)
    ensures CAdd(CScale(z, CAdd(CScale(Times(Times(k, z), c), pg),
        CScale(s, CAdd(CScale(1.0, pg), CScale(-Times(z, z), ppg))))),
                 CAdd(CScale(Times(-k, c) + Times(Times(k, z), Times(-s, k)), g),
                      CAdd(CScale(Times(c, k), CAdd(CScale(1.0, g), CScale(-Times(z, z), pg))),
                           CScale(s, CAdd(CScale(2.0 * z, pg), CScale(-Times(z, z), CScale(z, qg)))))))
         == CScale(Times(s, z), CAdd(CScale(3.0, pg),
             CAdd(CScale(-Times(k, k), g), CScale(-Times(z, z), CAdd(qg, ppg)))))
  {
    SinRhoCombinePart(c, s, k, z, g.re, pg.re, ppg.re, qg.re);
    SinRhoCombinePart(c, s, k, z, g.im, pg.im, ppg.im, qg.im);
    hide Times;
  }

  lemma SinRhoCombinePart(c: real, s: real, k: real, z: real, g: real, pg: real, ppg: real, qg: real)
    ensures Times(z, Times(Times(Times(k, z), c), pg) + Times(s, Times(1.0, pg) + Times(-Times(z, z), ppg)))
          + (Times(Times(-k, c) + Times(Times(k, z), Times(-s, k)), g)
          + (Times(Times(c, k), Times(1.0, g) + Times(-Times(z, z), pg))
           + Times(s, Times(2.0 * z, pg) + Times(-Times(z, z), Times(z, qg)))))
         == Times(Times(s, z), Times(3.0, pg) + (Times(-Times(k, k), g) + Times(-Times(z, z), qg + ppg)))
  {
    Part1(c, s, k, z, pg, ppg);
    Part2(c, s, k, z, g, pg);
    Part3(s, z, pg, qg);
    Part4(s, k, z, g, pg, ppg, qg);
    hide Times;
  }

  lemma Part1(c: real, s: real, k: real, z: real, pg: real, ppg: real)
    ensures Times(z, Times(Times(Times(k, z), c), pg) + Times(s, Times(1.0, pg) + Times(-Times(z, z), ppg)))
         == k * z * z * c * pg + s * z * pg - s * z * z * z * ppg
  {
  }

  lemma Part2(c: real, s: real, k: real, z: real, g: real, pg: real)
    ensures Times(Times(-k, c) + Times(Times(k, z), Times(-s, k)), g) == -(k * c * g) - s * z * k * k * g
    ensures Times(Times(c, k), Times(1.0, g) + Times(-Times(z, z), pg)) == k * c * g - k * z * z * c * pg
  {
    assert k * z * (-s * k) == -(s * z * k * k);
  }

  lemma Part3(s: real, z: real, pg: real, qg: real)
    ensures Times(s, Times(2.0 * z, pg) + Times(-Times(z, z), Times(z, qg))) == 2.0 * (s * z * pg) - s * z * z * z * qg
  {
  }

  lemma Part4(s: real, k: real, z: real, g: real, pg: real, ppg: real, qg: real)
    ensures Times(Times(s, z), Times(3.0, pg) + (Times(-Times(k, k), g) + Times(-Times(z, z), qg + ppg)))
         == 3.0 * (s * z * pg) - s * z * k * k * g - s * z * z * z * qg - s * z * z * z * ppg
  {
  }

  /** R^2 S = 3P - k^2, with R^2 = rho^2 + zeta^2. */
  lemma CurvatureBalance(e: Env, g: Complex)
    requires InChart(e)
    ensures var S := Curvature(Recip(Val(e, R)), Val(e, K));
            CAdd(CScale(3.0, CMul(PoleAt(e), g)), CScale(-Times(Val(e, K), Val(e, K)), g))
            == CScale(Times(Val(e, Rho), Val(e, Rho)) + Times(Val(e, Zeta), Val(e, Zeta)), CMul(S, g))
  {
    RecipTimes(e[R]);
    hide Recip;
    var S, r2 := Curvature(Recip(Val(e, R)), Val(e, K)), Times(e[R], e[R]);
    var k := Val(e, K);
    CurvatureBalanceParts(Recip(e[R]), e[R], k);
    assert CAdd(CScale(3.0, PoleAt(e)), Complex(-Times(k, k), 0.0)) == CScale(r2, S);
    hide CMul, Times, PoleAt, Curvature;
    CMulScale(3.0, PoleAt(e), g);
    CMulRealFactor(g, -Times(k, k));
    CMulCommutative(g, Complex(-Times(k, k), 0.0));
    CMulDistributesRight(CScale(3.0, PoleAt(e)), Complex(-Times(k, k), 0.0), g);
    CMulScale(r2, S, g);
  }

  lemma CurvatureBalanceParts(i: real, r: real, k: real)
    requires Times(i, r) == 1.0
    ensures 3.0 * (i * i) + -(k * k) == r * r * (3.0 * (i * i * (i * i)) - k * k * (i * i))
    ensures 3.0 * (k * i) == r * r * (3.0 * (k * (i * (i * i))))
  {
    UnitSquare(i * r, 3.0 * (i * i) - k * k);
    QuarticBalance(i, r, k);
    CubicBalance(i, r, k);
  }

  lemma UnitSquare(one: real, x: real)
    requires one == 1.0
    ensures one * one * x == x
  {
  }

  lemma QuarticBalance(i: real, r: real, k: real)
    ensures r * r * (3.0 * (i * i * (i * i)) - k * k * (i * i)) == i * r * (i * r) * (3.0 * (i * i) - k * k)
  {
  }

  lemma CubicBalance(i: real, r: real, k: real)
    requires i * r == 1.0
    ensures 3.0 * (k * i) == r * r * (3.0 * (k * (i * (i * i))))
  {
    var ri := r * i;
    calc {
      r * r * (3.0 * (k * (i * (i * i))));
      3.0 * k * i * ri * ri;
      3.0 * k * i;
    }
  }

  lemma SinRhoFinish(s: real, z: real, k: real, p: real, ip: real, g: Complex, pg: Complex, sg: Complex, w: Complex)
    requires Times(ip, p) == 1.0
    requires CAdd(CScale(3.0, pg), CScale(-Times(k, k), g)) == CScale(Times(p, p) + Times(z, z), sg)
    ensures CAdd(CScale(0.0, w), CScale(ip,
        CScale(Times(s, z), CAdd(CScale(3.0, pg), CAdd(CScale(-Times(k, k), g), CScale(-Times(z, z), sg))))))
         == CScale(s, CScale(Times(z, p), sg))
  {
    assert CScale(0.0, w) == ZERO;
    UnitScale(s, z, p, ip);
    hide Times, CScale;
    CScaleSum(Times(p, p) + Times(z, z), -Times(z, z), sg);
    CScaleTwice(Times(s, z), Times(p, p), sg);
    CScaleTwice(ip, Times(Times(s, z), Times(p, p)), sg);
    CScaleTwice(s, Times(z, p), sg);
    var a, b, c := CScale(3.0, pg), CScale(-Times(k, k), g), CScale(-Times(z, z), sg);
    assert CAdd(a, CAdd(b, c)) == CAdd(CAdd(a, b), c);
  }

  lemma UnitScale(s: real, z: real, p: real, ip: real)
    requires Times(ip, p) == 1.0
    ensures Times(ip, Times(Times(s, z), Times(p, p))) == Times(s, Times(z, p))
  {
    var u := ip * p;
    calc {
      ip * (s * z * (p * p));
      u * (s * z * p);
      s * z * p;
    }
  }
}
