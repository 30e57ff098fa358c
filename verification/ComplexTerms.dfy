/** Complex numbers, complex-valued expressions and polynomials of a complex argument.

    A complex number is a pair of reals; products are written with `Times`, so that proofs can use the ring laws
    stated here without opening them.  A complex-valued expression is a pair of expressions with its own product,
    its derivative is taken in each part, and a polynomial of such an expression obeys the chain rule. */
module ComplexTerms {
  import opened Calculus
  import opened Terms
  import opened BesselPolynomials

  datatype Complex = Complex(re: real, im: real)

  const ZERO := Complex(0.0, 0.0)

  function CAdd(z: Complex, w: Complex): Complex {
    Complex(z.re + w.re, z.im + w.im)
  }

  function CMul(z: Complex, w: Complex): Complex {
    Complex(Times(z.re, w.re) - Times(z.im, w.im), Times(z.re, w.im) + Times(z.im, w.re))
  }

  function CScale(c: real, z: Complex): Complex {
    Complex(Times(c, z.re), Times(c, z.im))
  }

  lemma CMulAssociative(x: Complex, y: Complex, z: Complex)
    ensures CMul(CMul(x, y), z) == CMul(x, CMul(y, z))
  {
    hide Times;
    var a, b, c, d, e, f := x.re, x.im, y.re, y.im, z.re, z.im;
    TimesDistributes(Times(a, c), Times(b, d), e);
    TimesDistributes(Times(a, c), Times(b, d), f);
    TimesDistributes(Times(a, d), Times(b, c), e);
    TimesDistributes(Times(a, d), Times(b, c), f);
    TimesDistributes(Times(c, e), Times(d, f), a);
    TimesDistributes(Times(c, e), Times(d, f), b);
    TimesDistributes(Times(c, f), Times(d, e), a);
    TimesDistributes(Times(c, f), Times(d, e), b);
    TimesAssociative(a, c, e);
    TimesAssociative(b, d, e);
    TimesAssociative(a, c, f);
    TimesAssociative(b, d, f);
    TimesAssociative(a, d, e);
    TimesAssociative(b, c, e);
    TimesAssociative(a, d, f);
    TimesAssociative(b, c, f);
  }

  lemma CMulCommutative(x: Complex, y: Complex)
    ensures CMul(x, y) == CMul(y, x)
  {
    hide Times;
    TimesSwap(x.re, y.re);
    TimesSwap(x.im, y.im);
    TimesSwap(x.re, y.im);
    TimesSwap(x.im, y.re);
  }

  lemma CMulDistributes(x: Complex, y: Complex, z: Complex)
    ensures CMul(x, CAdd(y, z)) == CAdd(CMul(x, y), CMul(x, z))
  {
    hide Times;
    TimesDistributes(y.re, z.re, x.re);
    TimesDistributes(y.im, z.im, x.im);
    TimesDistributes(y.im, z.im, x.re);
    TimesDistributes(y.re, z.re, x.im);
  }

  lemma CMulDistributesRight(x: Complex, y: Complex, z: Complex)
    ensures CMul(CAdd(x, y), z) == CAdd(CMul(x, z), CMul(y, z))
  {
    hide Times;
    TimesDistributes(x.re, y.re, z.re);
    TimesDistributes(x.im, y.im, z.im);
    TimesDistributes(x.re, y.re, z.im);
    TimesDistributes(x.im, y.im, z.re);
  }

  lemma CMulScale(c: real, x: Complex, y: Complex)
    ensures CMul(x, CScale(c, y)) == CScale(c, CMul(x, y)) == CMul(CScale(c, x), y)
  {
    hide Times;
    ScaleFactor(c, x.re, y.re);
    ScaleFactor(c, x.im, y.im);
    ScaleFactor(c, x.re, y.im);
    ScaleFactor(c, x.im, y.re);
    TimesDistributes(Times(x.re, y.re), Times(x.im, y.im), c);
    TimesDistributes(Times(x.re, y.im), Times(x.im, y.re), c);
  }

  lemma ScaleFactor(c: real, p: real, q: real)
    ensures Times(p, Times(c, q)) == Times(c, Times(p, q)) == Times(Times(c, p), q)
  {
    hide Times;
    TimesAssociative(c, p, q);
    TimesAssociative(p, c, q);
    TimesSwap(p, c);
  }

  // ---------------------------------------------------------------- polynomials

  /** The value of a polynomial with integer coefficients at a complex point (Horner's rule). */
  function PolyAt(p: Poly, x: Complex): Complex {
    if p == [] then ZERO else CAdd(Complex(p[0] as real, 0.0), CMul(x, PolyAt(p[1..], x)))
  }

  lemma {:induction false} PolyAtPlus(p: Poly, q: Poly, x: Complex)
    ensures PolyAt(Plus(p, q), x) == CAdd(PolyAt(p, x), PolyAt(q, x))
  {
    hide CMul;
    if p != [] && q != [] {
      PolyAtPlus(p[1..], q[1..], x);
      CMulDistributes(x, PolyAt(p[1..], x), PolyAt(q[1..], x));
      assert Plus(p, q) == [p[0] + q[0]] + Plus(p[1..], q[1..]);
      assert Plus(p, q)[1..] == Plus(p[1..], q[1..]);
      assert (p[0] + q[0]) as real == p[0] as real + q[0] as real;
    }
  }

  lemma PolyAtShift(p: Poly, x: Complex)
    ensures PolyAt(Shift(p), x) == CMul(x, PolyAt(p, x))
  {
    hide CMul;
    assert Shift(p)[1..] == p;
  }

  lemma {:induction false} PolyAtScale(c: int, p: Poly, x: Complex)
    ensures PolyAt(Scale(c, p), x) == CScale(c as real, PolyAt(p, x))
  {
    hide CMul;
    if p != [] {
      PolyAtScale(c, p[1..], x);
      CMulScale(c as real, x, PolyAt(p[1..], x));
      assert Scale(c, p)[1..] == Scale(c, p[1..]);
      CScaleAdd(c as real, Complex(p[0] as real, 0.0), CMul(x, PolyAt(p[1..], x)));
      ProductAsReal(c, p[0]);
    }
  }

  lemma CScaleAdd(c: real, y: Complex, z: Complex)
    ensures CScale(c, CAdd(y, z)) == CAdd(CScale(c, y), CScale(c, z))
  {
  }

  lemma CScaleSum(c: real, d: real, z: Complex)
    ensures CAdd(CScale(c, z), CScale(d, z)) == CScale(c + d, z)
  {
  }

  lemma CScaleTwice(c: real, d: real, z: Complex)
    ensures CScale(c, CScale(d, z)) == CScale(Times(c, d), z)
  {
  }

  lemma {:induction false} PolyAtWeighted(k: nat, p: Poly, x: Complex)
    ensures PolyAt(Weighted(k, p), x)
         == CAdd(CScale(k as real, PolyAt(p, x)), CMul(x, PolyAt(Derivative(p), x)))
    decreases |p|
  {
    hide CMul;
    if p == [] {
      CMulZero(x);
    } else {
      var t := p[1..];
      PolyAtWeighted(k + 1, t, x);
      PolyAtWeighted(1, t, x);
      assert Weighted(k, p)[1..] == Weighted(k + 1, t);
      assert Derivative(p) == Weighted(1, t);
      WeightedStep(k, p[0], x, PolyAt(t, x), PolyAt(Derivative(t), x));
    }
  }

  lemma CMulZero(x: Complex)
    ensures CMul(x, ZERO) == ZERO
  {
  }

  lemma WeightedStep(k: nat, c: int, x: Complex, t: Complex, d: Complex)
    ensures CAdd(Complex((k * c) as real, 0.0), CMul(x, CAdd(CScale((k + 1) as real, t), CMul(x, d))))
         == CAdd(CScale(k as real, CAdd(Complex(c as real, 0.0), CMul(x, t))),
                 CMul(x, CAdd(CScale(1.0, t), CMul(x, d))))
  {
    hide CMul;
    ProductAsReal(k, c);
    CScaleAdd(k as real, Complex(c as real, 0.0), CMul(x, t));
    CMulDistributes(x, CScale((k + 1) as real, t), CMul(x, d));
    CMulDistributes(x, CScale(1.0, t), CMul(x, d));
    CMulScale((k + 1) as real, x, t);
    CMulScale(1.0, x, t);
    CScaleSum(k as real, 1.0, CMul(x, t));
  }

  /** The derivative polynomial, by Horner's rule. */
  lemma PolyAtDerivative(p: Poly, x: Complex)
    requires p != []
    ensures PolyAt(Derivative(p), x) == CAdd(PolyAt(p[1..], x), CMul(x, PolyAt(Derivative(p[1..]), x)))
  {
    hide CMul;
    PolyAtWeighted(1, p[1..], x);
    CScaleOne(PolyAt(p[1..], x));
  }

  lemma CScaleOne(z: Complex)
    ensures CScale(1.0, z) == z
  {
  }

  /** One turn of the loop, at a point. */
  lemma PolyAtStep(m: nat, p: Poly, x: Complex)
    ensures PolyAt(Step(m, p), x)
         == CAdd(CAdd(CScale((2 * m + 1) as real, PolyAt(p, x)), CMul(x, PolyAt(p, x))),
                 CScale(-1.0, CMul(x, PolyAt(Derivative(p), x))))
  {
    hide CMul, Plus, Scale, Shift, PolyAt, Derivative;
    PolyAtPlus(Plus(Scale(2 * m + 1, p), Shift(p)), Scale(-1, Shift(Derivative(p))), x);
    PolyAtPlus(Scale(2 * m + 1, p), Shift(p), x);
    PolyAtScale(2 * m + 1, p, x);
    PolyAtShift(p, x);
    PolyAtScale(-1, Shift(Derivative(p)), x);
    PolyAtShift(Derivative(p), x);
  }

  // ---------------------------------------------------------------- complex-valued expressions

  datatype CTerm = CTerm(re: Term, im: Term)

  ghost function CEval(F: Functions, e: Env, z: CTerm): Complex {
    Complex(Eval(F, e, z.re), Eval(F, e, z.im))
  }

  ghost predicate CDefined(F: Functions, e: Env, z: CTerm) {
    Defined(F, e, z.re) && Defined(F, e, z.im)
  }

  function CDer(z: CTerm, rates: map<Sym, Term>): CTerm {
    CTerm(Der(z.re, rates), Der(z.im, rates))
  }

  function CDiff(z: CTerm, v: Sym): CTerm {
    CTerm(Diff(z.re, v), Diff(z.im, v))
  }

  function TAdd(z: CTerm, w: CTerm): CTerm {
    CTerm(Add(z.re, w.re), Add(z.im, w.im))
  }

  function TMul(z: CTerm, w: CTerm): CTerm {
    CTerm(Sub(Mul(z.re, w.re), Mul(z.im, w.im)), Add(Mul(z.re, w.im), Mul(z.im, w.re)))
  }

  function TScale(t: Term, z: CTerm): CTerm {
    CTerm(Mul(t, z.re), Mul(t, z.im))
  }

  lemma EvalNeg(F: Functions, e: Env, t: Term)
    ensures Eval(F, e, Neg(t)) == -Eval(F, e, t)
  {
  }

  lemma EvalSub(F: Functions, e: Env, s: Term, t: Term)
    ensures Eval(F, e, Sub(s, t)) == Eval(F, e, s) - Eval(F, e, t)
  {
    assert Eval(F, e, Neg(t)) == -Eval(F, e, t);
  }

  lemma EvalTMul(F: Functions, e: Env, z: CTerm, w: CTerm)
    ensures CEval(F, e, TMul(z, w)) == CMul(CEval(F, e, z), CEval(F, e, w))
  {
    hide Times;
    EvalSub(F, e, Mul(z.re, w.re), Mul(z.im, w.im));
    assert Eval(F, e, Mul(z.re, w.re)) == Times(Eval(F, e, z.re), Eval(F, e, w.re));
    assert Eval(F, e, Mul(z.im, w.im)) == Times(Eval(F, e, z.im), Eval(F, e, w.im));
    assert Eval(F, e, Mul(z.re, w.im)) == Times(Eval(F, e, z.re), Eval(F, e, w.im));
    assert Eval(F, e, Mul(z.im, w.re)) == Times(Eval(F, e, z.im), Eval(F, e, w.re));
  }

  lemma EvalTAdd(F: Functions, e: Env, z: CTerm, w: CTerm)
    ensures CEval(F, e, TAdd(z, w)) == CAdd(CEval(F, e, z), CEval(F, e, w))
  {
  }

  lemma EvalTScale(F: Functions, e: Env, t: Term, z: CTerm)
    ensures CEval(F, e, TScale(t, z)) == CScale(Eval(F, e, t), CEval(F, e, z))
  {
    hide Times;
  }

  lemma EvalDerSub(F: Functions, e: Env, s: Term, t: Term, rates: map<Sym, Term>)
    ensures Eval(F, e, Der(Sub(s, t), rates)) == Eval(F, e, Der(s, rates)) - Eval(F, e, Der(t, rates))
  {
    hide Times;
    EvalDer(F, e, Sub(s, t), rates);
    EvalDer(F, e, Neg(t), rates);
    EvalDer(F, e, Num(-1.0), rates);
    NegateRate(Eval(F, e, t), Eval(F, e, Der(t, rates)));
  }

  lemma NegateRate(t: real, d: real)
    ensures Times(0.0, t) + Times(-1.0, d) == -d
  {
  }

  /** The product rule. */
  lemma EvalDerTMul(F: Functions, e: Env, z: CTerm, w: CTerm, rates: map<Sym, Term>)
    ensures CEval(F, e, CDer(TMul(z, w), rates))
         == CAdd(CMul(CEval(F, e, CDer(z, rates)), CEval(F, e, w)), CMul(CEval(F, e, z), CEval(F, e, CDer(w, rates))))
  {
    hide Times, Eval, Der;
    EvalDerSub(F, e, Mul(z.re, w.re), Mul(z.im, w.im), rates);
    EvalDer(F, e, Mul(z.re, w.re), rates);
    EvalDer(F, e, Mul(z.im, w.im), rates);
    EvalDer(F, e, TMul(z, w).im, rates);
    EvalDer(F, e, Mul(z.re, w.im), rates);
    EvalDer(F, e, Mul(z.im, w.re), rates);
  }

  lemma EvalDerTScale(F: Functions, e: Env, t: Term, z: CTerm, rates: map<Sym, Term>)
    ensures CEval(F, e, CDer(TScale(t, z), rates))
         == CAdd(CScale(Eval(F, e, Der(t, rates)), CEval(F, e, z)), CScale(Eval(F, e, t), CEval(F, e, CDer(z, rates))))
  {
    hide Times, Eval, Der;
    EvalDer(F, e, Mul(t, z.re), rates);
    EvalDer(F, e, Mul(t, z.im), rates);
  }

  lemma EvalDerTAdd(F: Functions, e: Env, z: CTerm, w: CTerm, rates: map<Sym, Term>)
    ensures CEval(F, e, CDer(TAdd(z, w), rates)) == CAdd(CEval(F, e, CDer(z, rates)), CEval(F, e, CDer(w, rates)))
  {
    hide Eval, Der;
    EvalDer(F, e, TAdd(z, w).re, rates);
    EvalDer(F, e, TAdd(z, w).im, rates);
  }

  // ---------------------------------------------------------------- polynomials of an expression

  function PolyTerm(p: Poly, x: CTerm): CTerm {
    if p == [] then CTerm(Num(0.0), Num(0.0))
    else TAdd(CTerm(Num(p[0] as real), Num(0.0)), TMul(x, PolyTerm(p[1..], x)))
  }

  lemma {:induction false} EvalPolyTerm(F: Functions, e: Env, p: Poly, x: CTerm)
    ensures CEval(F, e, PolyTerm(p, x)) == PolyAt(p, CEval(F, e, x))
  {
    hide CMul, TMul;
    if p != [] {
      EvalPolyTerm(F, e, p[1..], x);
      EvalTMul(F, e, x, PolyTerm(p[1..], x));
      EvalTAdd(F, e, CTerm(Num(p[0] as real), Num(0.0)), TMul(x, PolyTerm(p[1..], x)));
    }
  }

  lemma {:induction false} PolyTermDefined(F: Functions, e: Env, p: Poly, x: CTerm)
    requires CDefined(F, e, x)
    ensures CDefined(F, e, PolyTerm(p, x))
  {
    if p != [] {
      PolyTermDefined(F, e, p[1..], x);
      TMulDefined(F, e, x, PolyTerm(p[1..], x));
    }
  }

  lemma TMulDefined(F: Functions, e: Env, z: CTerm, w: CTerm)
    requires CDefined(F, e, z) && CDefined(F, e, w)
    ensures CDefined(F, e, TMul(z, w))
  {
    assert Defined(F, e, Mul(z.im, w.im));
    assert Defined(F, e, Neg(Mul(z.im, w.im)));
    assert Defined(F, e, Mul(z.re, w.re));
    assert Defined(F, e, Mul(z.re, w.im)) && Defined(F, e, Mul(z.im, w.re));
  }

  /** The chain rule: the derivative polynomial times the rate of the argument. */
  lemma {:induction false} EvalDerPolyTerm(F: Functions, e: Env, p: Poly, x: CTerm, rates: map<Sym, Term>)
    ensures CEval(F, e, CDer(PolyTerm(p, x), rates))
         == CMul(CEval(F, e, CDer(x, rates)), PolyAt(Derivative(p), CEval(F, e, x)))
  {
    hide CMul, TMul, Derivative, CScale;
    var dx, x0 := CEval(F, e, CDer(x, rates)), CEval(F, e, x);
    if p == [] {
      assert Derivative(p) == [];
      CMulZero(dx);
    } else {
      hide PolyAt;
      var t := p[1..];
      var c := CTerm(Num(p[0] as real), Num(0.0));
      EvalDerPolyTerm(F, e, t, x, rates);
      EvalPolyTerm(F, e, t, x);
      EvalDerTAdd(F, e, c, TMul(x, PolyTerm(t, x)), rates);
      EvalDerTMul(F, e, x, PolyTerm(t, x), rates);
      assert CEval(F, e, CDer(c, rates)) == ZERO;
      PolyAtDerivative(p, x0);
      HornerRate(dx, x0, PolyAt(t, x0), PolyAt(Derivative(t), x0));
    }
  }

  lemma HornerRate(dx: Complex, x: Complex, t: Complex, d: Complex)
    ensures CAdd(ZERO, CAdd(CMul(dx, t), CMul(x, CMul(dx, d)))) == CMul(dx, CAdd(t, CMul(x, d)))
  {
    hide CMul;
    CMulDistributes(dx, t, CMul(x, d));
    CMulAssociative(x, dx, d);
    CMulAssociative(dx, x, d);
    CMulCommutative(x, dx);
  }
}
