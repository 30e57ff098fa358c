/** The reduced kernel g(u) = e^{-jk sqrt u} / sqrt u and its derivatives in u of every order. */
module DeltaKernel {
  import opened Calculus
  import opened Terms
  import opened BesselPolynomials
  import opened ComplexTerms

  // ---------------------------------------------------------------- expressions

  function Root(): Term { Sqrt(Var(U)) }

  function Angle(): Term { Mul(Var(K), Root()) }

  /** e^{-jk sqrt u}, by Euler's formula. */
  function Phase(): CTerm { CTerm(Cos(Angle()), Neg(Sin(Angle()))) }

  function Kernel(): CTerm { TScale(Inv(Root()), Phase()) }

  /** jkR as an expression in u. */
  function JkR(): CTerm { CTerm(Num(0.0), Angle()) }

  /** n formal derivatives in u. */
  function NthDiff(z: CTerm, n: nat): CTerm {
    CTerm(Nth(z.re, U, n), Nth(z.im, U, n))
  }

  /** (-1/2)^n */
  function HalfPower(n: nat): real {
    if n == 0 then 1.0 else -0.5 * HalfPower(n - 1)
  }

  /** (-1/2)^n / R^{2n+1} */
  function Prefactor(n: nat): Term {
    Mul(Num(HalfPower(n)), Pow(Inv(Root()), 2 * n + 1))
  }

  /** (-1/2)^n e^{-jkR} A_n(jkR) / R^{2n+1}, with R = sqrt u */
  function ClosedForm(n: nat): CTerm {
    TScale(Prefactor(n), TMul(Phase(), PolyTerm(ReverseBessel(n), JkR())))
  }

  // ---------------------------------------------------------------- values

  /** e^{-jx} */
  ghost function Cis(F: Functions, x: real): Complex {
    Complex(F.cos.At(x), -F.sin.At(x))
  }

  /** The closed form of the n-th derivative at u = R^2. */
  ghost function ClosedValue(F: Functions, k: real, r: real, n: nat): Complex {
    CScale(Times(HalfPower(n), RealPower(Recip(r), 2 * n + 1)),
           CMul(Cis(F, Times(k, r)), PolyAt(ReverseBessel(n), Complex(0.0, Times(k, r)))))
  }

  ghost predicate Point(F: Functions, e: Env) {
    Lawful(F) && U in e && e[U] > 0.0
  }

  ghost function RootOf(F: Functions, e: Env): real {
    F.sqrt.At(Val(e, U))
  }

  lemma RootLaw(F: Functions, e: Env)
    requires Point(F, e)
    ensures RootOf(F, e) > 0.0 && Times(RootOf(F, e), RootOf(F, e)) == e[U]
    ensures Times(Recip(RootOf(F, e)), RootOf(F, e)) == 1.0
  {
    hide Recip, Times, Lawful;
    RootPositive(F, e[U]);
    RecipTimes(RootOf(F, e));
  }

  lemma EvalRoot(F: Functions, e: Env)
    ensures Eval(F, e, Root()) == RootOf(F, e)
    ensures Eval(F, e, Diff(Root(), U)) == 0.5 * Recip(RootOf(F, e))
  {
    hide Times, Recip;
    var rates := map[U := Num(1.0)];
    EvalDer(F, e, Root(), rates);
    EvalDer(F, e, Var(U), rates);
    TimesOne(0.5 * Recip(RootOf(F, e)));
    assert Eval(F, e, Var(U)) == Val(e, U);
  }

  lemma EvalAngle(F: Functions, e: Env)
    ensures Eval(F, e, Angle()) == Times(Val(e, K), RootOf(F, e))
    ensures Eval(F, e, Diff(Angle(), U)) == Times(Val(e, K), 0.5 * Recip(RootOf(F, e)))
  {
    EvalRoot(F, e);
    hide Times, Recip, Root;
    var rates := map[U := Num(1.0)];
    EvalDer(F, e, Angle(), rates);
    EvalDer(F, e, Var(K), rates);
    TimesZero(Eval(F, e, Root()));
    TimesSwap(0.0, Eval(F, e, Root()));
    assert Eval(F, e, Var(K)) == Val(e, K);
  }

  lemma EvalJkR(F: Functions, e: Env)
    ensures CEval(F, e, JkR()) == Complex(0.0, Times(Val(e, K), RootOf(F, e)))
    ensures CEval(F, e, CDiff(JkR(), U)) == Complex(0.0, Times(Val(e, K), 0.5 * Recip(RootOf(F, e))))
  {
    hide Times, Recip, Angle;
    EvalAngle(F, e);
  }

  lemma EvalPhase(F: Functions, e: Env)
    ensures CEval(F, e, Phase()) == Cis(F, Times(Val(e, K), RootOf(F, e)))
    ensures CEval(F, e, CDiff(Phase(), U))
         == CMul(Complex(0.0, -Times(Val(e, K), 0.5 * Recip(RootOf(F, e)))), Cis(F, Times(Val(e, K), RootOf(F, e))))
  {
    EvalAngle(F, e);
    hide Times, Recip, Angle;
    var rates := map[U := Num(1.0)];
    var x, d := Eval(F, e, Angle()), Eval(F, e, Diff(Angle(), U));
    EvalDer(F, e, Cos(Angle()), rates);
    EvalDer(F, e, Neg(Sin(Angle())), rates);
    EvalDer(F, e, Num(-1.0), rates);
    EvalDer(F, e, Sin(Angle()), rates);
    assert Eval(F, e, Sin(Angle())) == F.sin.At(x);
    PhaseRate(F.cos.At(x), F.sin.At(x), d);
  }

  lemma PhaseRate(c: real, s: real, d: real)
    ensures Times(-1.0, s) == -s
    ensures Complex(Times(-s, d), Times(0.0, s) + Times(-1.0, Times(c, d))) == CMul(Complex(0.0, -d), Complex(c, -s))
  {
  }

  lemma EvalPrefactor(F: Functions, e: Env, n: nat)
    ensures Eval(F, e, Prefactor(n)) == Times(HalfPower(n), RealPower(Recip(RootOf(F, e)), 2 * n + 1))
  {
    hide Times, Recip, Root;
    EvalRoot(F, e);
    EvalPow(F, e, Inv(Root()), 2 * n + 1);
    assert Eval(F, e, Inv(Root())) == Recip(RootOf(F, e));
  }

  lemma EvalDiffPrefactor(F: Functions, e: Env, n: nat)
    ensures Eval(F, e, Diff(Prefactor(n), U))
         == -0.5 * Times((2 * n + 1) as real, Times(HalfPower(n), RealPower(Recip(RootOf(F, e)), 2 * n + 3)))
  {
    EvalRoot(F, e);
    hide Times, Recip, Root, Pow, RealPower;
    var rates := map[U := Num(1.0)];
    var r := Recip(RootOf(F, e));
    var h, p := Num(HalfPower(n)), Pow(Inv(Root()), 2 * n + 1);
    assert Eval(F, e, Inv(Root())) == r;
    EvalDer(F, e, Prefactor(n), rates);
    EvalDer(F, e, h, rates);
    EvalDer(F, e, Inv(Root()), rates);
    EvalDerPow(F, e, Inv(Root()), 2 * n, rates);
    PrefactorRate(HalfPower(n), Eval(F, e, p), (2 * n + 1) as real, RealPower(r, 2 * n), r);
    PowerThree(r, 2 * n);
  }

  lemma PowerThree(r: real, n: nat)
    ensures RealPower(r, n + 3) == Times(Times(r, Times(r, r)), RealPower(r, n))
  {
    hide Times;
    assert RealPower(r, n + 3) == Times(r, RealPower(r, n + 2));
    assert RealPower(r, n + 2) == Times(r, RealPower(r, n + 1));
    TimesAssociative(r, Times(r, r), RealPower(r, n));
    TimesAssociative(r, r, RealPower(r, n));
  }

  lemma PrefactorRate(h: real, q: real, m: real, p: real, r: real)
    ensures Times(0.0, q) + Times(h, Times(Times(m, p), Times(Times(-r, r), 0.5 * r)))
         == -0.5 * Times(m, Times(h, Times(Times(r, Times(r, r)), p)))
  {
  }

  // ---------------------------------------------------------------- the derivative of the closed form

  lemma EvalClosedForm(F: Functions, e: Env, n: nat)
    ensures CEval(F, e, ClosedForm(n)) == ClosedValue(F, Val(e, K), RootOf(F, e), n)
  {
    hide Times, Recip, Phase, JkR, Prefactor, PolyTerm, TMul, CMul, TScale, CScale;
    EvalTScale(F, e, Prefactor(n), TMul(Phase(), PolyTerm(ReverseBessel(n), JkR())));
    EvalTMul(F, e, Phase(), PolyTerm(ReverseBessel(n), JkR()));
    EvalPhase(F, e);
    EvalPolyTerm(F, e, ReverseBessel(n), JkR());
    EvalJkR(F, e);
    EvalPrefactor(F, e, n);
  }

  /** The derivative of the closed form, by the product rule. */
  ghost function ProductRuleValue(F: Functions, k: real, r: real, n: nat): Complex {
    var E, x, d := Cis(F, Times(k, r)), Complex(0.0, Times(k, r)), Times(k, 0.5 * Recip(r));
    var p, dp := PolyAt(ReverseBessel(n), x), PolyAt(Derivative(ReverseBessel(n)), x);
    CAdd(CScale(-0.5 * Times((2 * n + 1) as real, Times(HalfPower(n), RealPower(Recip(r), 2 * n + 3))), CMul(E, p)),
         CScale(Times(HalfPower(n), RealPower(Recip(r), 2 * n + 1)),
                CAdd(CMul(CMul(Complex(0.0, -d), E), p), CMul(E, CMul(Complex(0.0, d), dp)))))
  }

  lemma EvalDiffClosedForm(F: Functions, e: Env, n: nat)
    ensures CEval(F, e, CDiff(ClosedForm(n), U)) == ProductRuleValue(F, Val(e, K), RootOf(F, e), n)
  {
    hide Times, Recip, Phase, JkR, Prefactor, PolyTerm, TMul, CMul, TScale, CScale, Cis, CAdd, HalfPower, RealPower,
        PolyAt, Derivative;
    var rates := map[U := Num(1.0)];
    var poly := PolyTerm(ReverseBessel(n), JkR());
    EvalDerTScale(F, e, Prefactor(n), TMul(Phase(), poly), rates);
    EvalDerTMul(F, e, Phase(), poly, rates);
    EvalTMul(F, e, Phase(), poly);
    EvalPhase(F, e);
    EvalPolyTerm(F, e, ReverseBessel(n), JkR());
    EvalDerPolyTerm(F, e, ReverseBessel(n), JkR(), rates);
    EvalJkR(F, e);
    EvalPrefactor(F, e, n);
    EvalDiffPrefactor(F, e, n);
  }

  /** The algebra of one step.  `w` and `v` are e^{-x} A_n and e^{-x} A_n', `q` is R^{-(2n+1)}. */
  lemma StepAlgebra(h: real, q: real, r: real, ri: real, k: real, m: real, w: Complex, v: Complex)
    requires Times(ri, r) == 1.0
    ensures CAdd(CScale(-0.5 * Times(m, Times(h, Times(ri, Times(ri, q)))), w),
                 CScale(Times(h, q), CMul(Complex(0.0, -Times(k, 0.5 * ri)), CAdd(w, CScale(-1.0, v)))))
         == CScale(Times(-0.5 * h, Times(ri, Times(ri, q))),
                   CAdd(CScale(m, w), CMul(Complex(0.0, Times(k, r)), CAdd(w, CScale(-1.0, v)))))
  {
    hide Times;
    var d := CAdd(w, CScale(-1.0, v));
    RealStep(h, q, r, ri, k, m, w.re, d.re, d.im);
    ImaginaryStep(h, q, r, ri, k, m, w.im, d.re, d.im);
  }

  lemma RealStep(h: real, q: real, r: real, ri: real, k: real, m: real, w: real, x: real, y: real)
    requires Times(ri, r) == 1.0
    ensures Times(-0.5 * Times(m, Times(h, Times(ri, Times(ri, q)))), w)
            + Times(Times(h, q), Times(0.0, x) - Times(-Times(k, 0.5 * ri), y))
         == Times(Times(-0.5 * h, Times(ri, Times(ri, q))), Times(m, w) + (Times(0.0, x) - Times(Times(k, r), y)))
  {
    StepPart(h, q, r, ri, k, m, w, y);
    assert Times(-Times(k, 0.5 * ri), y) == -(k * (0.5 * ri) * y);
    assert Times(0.0, x) == 0.0;
  }

  lemma ImaginaryStep(h: real, q: real, r: real, ri: real, k: real, m: real, w: real, x: real, y: real)
    requires Times(ri, r) == 1.0
    ensures Times(-0.5 * Times(m, Times(h, Times(ri, Times(ri, q)))), w)
            + Times(Times(h, q), Times(0.0, y) + Times(-Times(k, 0.5 * ri), x))
         == Times(Times(-0.5 * h, Times(ri, Times(ri, q))), Times(m, w) + (Times(0.0, y) + Times(Times(k, r), x)))
  {
    StepPart(h, q, r, ri, k, m, w, -x);
    assert Times(-Times(k, 0.5 * ri), x) == k * (0.5 * ri) * -x;
    assert Times(Times(k, r), x) == -(k * r * -x);
    assert Times(0.0, y) == 0.0;
  }

  lemma StepPart(h: real, q: real, r: real, ri: real, k: real, m: real, w: real, d: real)
    requires ri * r == 1.0
    ensures -0.5 * (m * (h * (ri * (ri * q)))) * w + h * q * (k * (0.5 * ri) * d)
         == -0.5 * h * (ri * (ri * q)) * (m * w - k * r * d)
  {
    var a := h * q * ri;
    assert -0.5 * h * (ri * (ri * q)) * (m * w - k * r * d) == -0.5 * (a * ri) * (m * w) + 0.5 * a * (ri * r) * (k * d);
    assert -0.5 * (m * (h * (ri * (ri * q)))) * w == -0.5 * (a * ri) * (m * w);
    assert h * q * (k * (0.5 * ri) * d) == 0.5 * a * (k * d);
  }

  /** The product rule's value is the next closed form. */
  lemma ProductRuleIsNext(F: Functions, k: real, r: real, n: nat)
    requires Times(Recip(r), r) == 1.0
    ensures ProductRuleValue(F, k, r, n) == ClosedValue(F, k, r, n + 1)
  {
    hide Times, Recip, CMul, CAdd, CScale, Cis, PolyAt, Derivative, Step;
    var E, x, d := Cis(F, Times(k, r)), Complex(0.0, Times(k, r)), Times(k, 0.5 * Recip(r));
    var A := ReverseBessel(n);
    var p, dp := PolyAt(A, x), PolyAt(Derivative(A), x);
    var w, v := CMul(E, p), CMul(E, dp);
    var h, q, m := HalfPower(n), RealPower(Recip(r), 2 * n + 1), (2 * n + 1) as real;
    RealPowerTwo(Recip(r), 2 * n + 1);
    Rotations(E, d, p, dp);
    StepAlgebra(h, q, r, Recip(r), k, m, w, v);
    PolyAtStep(n, A, x);
    assert ReverseBessel(n + 1) == Step(n, A);
    NextPolynomial(E, x, m, p, dp);
  }

  lemma RealPowerTwo(x: real, n: nat)
    ensures RealPower(x, n + 2) == Times(x, Times(x, RealPower(x, n)))
  {
    hide Times;
  }

  lemma Rotations(E: Complex, d: real, p: Complex, dp: Complex)
    ensures CAdd(CMul(CMul(Complex(0.0, -d), E), p), CMul(E, CMul(Complex(0.0, d), dp)))
         == CMul(Complex(0.0, -d), CAdd(CMul(E, p), CScale(-1.0, CMul(E, dp))))
  {
    hide CMul;
    var i := Complex(0.0, -d);
    CMulAssociative(i, E, p);
    CMulDistributes(i, CMul(E, p), CScale(-1.0, CMul(E, dp)));
    CMulAssociative(E, Complex(0.0, d), dp);
    CMulCommutative(E, Complex(0.0, d));
    CMulAssociative(Complex(0.0, d), E, dp);
    CMulScale(-1.0, i, CMul(E, dp));
    OppositeRotation(d, CMul(E, dp));
  }

  lemma OppositeRotation(d: real, z: Complex)
    ensures CScale(-1.0, CMul(Complex(0.0, -d), z)) == CMul(Complex(0.0, d), z)
  {
  }

  lemma NextPolynomial(E: Complex, x: Complex, m: real, p: Complex, dp: Complex)
    ensures CMul(E, CAdd(CAdd(CScale(m, p), CMul(x, p)), CScale(-1.0, CMul(x, dp))))
         == CAdd(CScale(m, CMul(E, p)), CMul(x, CAdd(CMul(E, p), CScale(-1.0, CMul(E, dp)))))
  {
    hide CMul, CScale;
    CMulDistributes(E, CAdd(CScale(m, p), CMul(x, p)), CScale(-1.0, CMul(x, dp)));
    CMulDistributes(E, CScale(m, p), CMul(x, p));
    CMulScale(m, E, p);
    CMulScale(-1.0, E, CMul(x, dp));
    CMulAssociative(E, x, p);
    CMulCommutative(E, x);
    CMulAssociative(x, E, p);
    CMulAssociative(E, x, dp);
    CMulAssociative(x, E, dp);
    CMulDistributes(x, CMul(E, p), CScale(-1.0, CMul(E, dp)));
    CMulScale(-1.0, x, CMul(E, dp));
  }

  // ---------------------------------------------------------------- every order

  lemma RootDefined(F: Functions, e: Env)
    requires Point(F, e)
    ensures Defined(F, e, Inv(Root())) && Defined(F, e, Angle())
  {
    hide Times, Recip;
    RootLaw(F, e);
    assert Eval(F, e, Var(U)) == e[U];
    assert Defined(F, e, Var(U)) && Defined(F, e, Var(K));
    assert Defined(F, e, Root()) && Eval(F, e, Root()) == RootOf(F, e);
  }

  lemma PhaseDefined(F: Functions, e: Env)
    requires Point(F, e)
    ensures CDefined(F, e, Phase()) && CDefined(F, e, JkR()) && CDefined(F, e, Kernel())
  {
    RootDefined(F, e);
    hide Angle, Root;
    assert Defined(F, e, Neg(Sin(Angle())));
  }

  lemma ClosedFormDefined(F: Functions, e: Env, n: nat)
    requires Point(F, e)
    ensures CDefined(F, e, ClosedForm(n))
  {
    RootDefined(F, e);
    PhaseDefined(F, e);
    hide Root, Phase, JkR, TMul, PolyTerm;
    PowDefined(F, e, Inv(Root()), 2 * n + 1);
    PolyTermDefined(F, e, ReverseBessel(n), JkR());
    TMulDefined(F, e, Phase(), PolyTerm(ReverseBessel(n), JkR()));
    assert Defined(F, e, Prefactor(n));
  }

  lemma {:induction false} NthDiffDefined(F: Functions, e: Env, n: nat)
    requires Point(F, e)
    ensures CDefined(F, e, NthDiff(Kernel(), n))
  {
    hide Kernel;
    if n == 0 {
      PhaseDefined(F, e);
    } else {
      NthDiffDefined(F, e, n - 1);
      DerDefined(F, e, map[U := Num(1.0)], NthDiff(Kernel(), n - 1).re);
      DerDefined(F, e, map[U := Num(1.0)], NthDiff(Kernel(), n - 1).im);
    }
  }

  lemma KernelIsClosedForm(F: Functions, e: Env)
    requires Point(F, e)
    ensures CEval(F, e, Kernel()) == ClosedValue(F, Val(e, K), RootOf(F, e), 0)
  {
    hide Times, Recip, Phase, Cis;
    EvalTScale(F, e, Inv(Root()), Phase());
    EvalPhase(F, e);
    EvalRoot(F, e);
    var E, k, r := CEval(F, e, Phase()), Val(e, K), RootOf(F, e);
    assert ReverseBessel(0) == [1];
    PolyOne(E, Complex(0.0, Times(k, r)));
    assert RealPower(Recip(r), 1) == Recip(r) by { TimesOne(Recip(r)); }
    TimesOne(Recip(r));
  }

  lemma PolyOne(E: Complex, x: Complex)
    ensures CMul(E, PolyAt([1], x)) == E
  {
    assert PolyAt([], x) == ZERO;
    CMulZero(x);
    assert PolyAt([1], x) == Complex(1.0, 0.0);
  }

  /** The n-th formal derivative of the kernel in u is its closed form, for every order and every point. */
  lemma {:induction false} UDerivatives(F: Functions, e: Env, n: nat)
    requires Point(F, e)
    ensures CEval(F, e, NthDiff(Kernel(), n)) == ClosedValue(F, Val(e, K), RootOf(F, e), n)
    decreases n, 1
  {
    hide Recip, Times, Kernel, ClosedValue, Eval, Point, RootOf;
    if n == 0 {
      KernelIsClosedForm(F, e);
    } else {
      UDerivativesStep(F, e, n - 1);
    }
  }

  lemma {:induction false} UDerivativesStep(F: Functions, e: Env, n: nat)
    requires Point(F, e)
    ensures CEval(F, e, NthDiff(Kernel(), n + 1)) == ClosedValue(F, Val(e, K), RootOf(F, e), n + 1)
    decreases n + 1, 0
  {
    hide Recip, Kernel, ClosedForm, ClosedValue, ProductRuleValue, Eval, Diff, Defined;
    var g, c := NthDiff(Kernel(), n), ClosedForm(n);
    NthDiffDefined(F, e, n);
    ClosedFormDefined(F, e, n);
    forall y | Abs(y - e[U]) < e[U]
      ensures AgreeAt(F, e, U, y, g.re, c.re) && AgreeAt(F, e, U, y, g.im, c.im)
    {
      UDerivatives(F, e[U := y], n);
      EvalClosedForm(F, e[U := y], n);
    }
    DiffCongruent(F, e, U, g.re, c.re, e[U]);
    DiffCongruent(F, e, U, g.im, c.im, e[U]);
    EvalDiffClosedForm(F, e, n);
    RootLaw(F, e);
    ProductRuleIsNext(F, Val(e, K), RootOf(F, e), n);
  }
}
