/** The table of closed forms read in space: along the source each entry is an antiderivative of its integrand. */
module FieldIntegrals {
  import opened Antiderivatives
  import opened Calculus
  import opened ComplexTerms
  import opened DeltaOperators
  import opened FieldOperators
  import opened MeanValue
  import opened Terms

  datatype Shape = Constant | Sine

  datatype Component = Axial | Radial

  /** The table of antiderivatives. */
  function Entry(s: Shape, c: Component): CTerm {
    match (s, c)
    case (Constant, Axial) => ConstZ()
    case (Constant, Radial) => ConstRho()
    case (Sine, Axial) => SinZ()
    case (Sine, Radial) => SinRho()
  }

  /** What each entry stands for: the shape times the field operator on G, less k^2 G for the constant shape's
      axial field, whose closed form keeps that part as an integral. */
  function Integrand(s: Shape, c: Component): CTerm {
    match (s, c)
    case (Constant, Axial) => ConstZIntegrand()
    case (Constant, Radial) => RadialIntegrand(Num(1.0))
    case (Sine, Axial) => AxialIntegrand(SinShape())
    case (Sine, Radial) => RadialIntegrand(SinShape())
  }

  lemma TScaleDefined(F: Functions, e: Env, t: Term, z: CTerm)
    requires Defined(F, e, t) && CDefined(F, e, z)
    ensures CDefined(F, e, TScale(t, z))
  {
  }

  lemma TAddDefined(F: Functions, e: Env, z: CTerm, w: CTerm)
    requires CDefined(F, e, z) && CDefined(F, e, w)
    ensures CDefined(F, e, TAdd(z, w))
  {
  }

  lemma SymbolsDefined(F: Functions, e: Env)
    requires Lawful(F) && InChart(e)
    ensures CDefined(F, e, Pole()) && Defined(F, e, CosShape()) && Defined(F, e, SinShape())
    ensures Defined(F, e, Inv(Var(Rho))) && Defined(F, e, Neg(Sq(Zeta)))
  {
    hide Lawful, Times, Recip;
    assert Eval(F, e, Var(R)) == e[R] && Eval(F, e, Var(Rho)) == Val(e, Rho);
    assert Defined(F, e, InvR());
    MulDefined(F, e, InvR(), InvR());
    MulDefined(F, e, Var(K), Var(R));
    MulDefined(F, e, Var(K), Var(Xi));
    assert Defined(F, e, Num(1.0)) && Defined(F, e, Num(-1.0));
    hide InvR;
    TScaleDefined(F, e, Mul(InvR(), InvR()), CTerm(Num(1.0), KR()));
    MulDefined(F, e, Var(Zeta), Var(Zeta));
    MulDefined(F, e, Num(-1.0), Sq(Zeta));
  }

  /** Every entry of the table is defined where R and rho are positive. */
  lemma EntryDefined(F: Functions, e: Env, s: Shape, c: Component)
    requires Lawful(F) && InChart(e)
    ensures CDefined(F, e, Entry(s, c))
  {
    SymbolsDefined(F, e);
    GreenDefined(F, e);
    assert forall v: Sym :: Defined(F, e, Var(v));
    assert forall x: real :: Defined(F, e, Num(x));
    hide Lawful, InChart, Pole, Green, CosShape, SinShape, Sq, CDefined, TMul, Eval;
    match (s, c)
    case (Constant, _) =>
      TMulDefined(F, e, Pole(), Green());
      TScaleDefined(F, e, Var(Zeta), TMul(Pole(), Green()));
      TScaleDefined(F, e, Var(Rho), TMul(Pole(), Green()));
    case (Sine, Axial) =>
      MulDefined(F, e, Var(Zeta), SinShape());
      MulDefined(F, e, Num(-1.0), Mul(Var(Zeta), SinShape()));
      MulDefined(F, e, Var(K), CosShape());
      TScaleDefined(F, e, Neg(Mul(Var(Zeta), SinShape())), Pole());
      RealDefined(F, e, Mul(Var(K), CosShape()));
      TAddDefined(F, e, CTerm(Mul(Var(K), CosShape()), Num(0.0)), TScale(Neg(Mul(Var(Zeta), SinShape())), Pole()));
      TMulDefined(F, e, Green(), SinZFactor());
      TScaleDefined(F, e, Num(-1.0), TMul(Green(), SinZFactor()));
    case (Sine, Radial) =>
      MulDefined(F, e, Var(K), Var(Zeta));
      MulDefined(F, e, Mul(Var(K), Var(Zeta)), CosShape());
      RealDefined(F, e, Mul(Mul(Var(K), Var(Zeta)), CosShape()));
      RealDefined(F, e, Num(1.0));
      TScaleDefined(F, e, Neg(Sq(Zeta)), Pole());
      var tail := TAdd(CTerm(Num(1.0), Num(0.0)), TScale(Neg(Sq(Zeta)), Pole()));
      TAddDefined(F, e, CTerm(Num(1.0), Num(0.0)), TScale(Neg(Sq(Zeta)), Pole()));
      TScaleDefined(F, e, SinShape(), tail);
      TAddDefined(F, e, CTerm(Mul(Mul(Var(K), Var(Zeta)), CosShape()), Num(0.0)), TScale(SinShape(), tail));
      TMulDefined(F, e, Green(), SinRhoFactor());
      TScaleDefined(F, e, Inv(Var(Rho)), TMul(Green(), SinRhoFactor()));
  }

  lemma RealDefined(F: Functions, e: Env, t: Term)
    requires Defined(F, e, t)
    ensures CDefined(F, e, CTerm(t, Num(0.0)))
  {
  }

  /** Off the axis, every point of space lies in the chart. */
  lemma SpaceIsInChart(F: Functions, e: Env)
    requires Lawful(F) && SpacePoint(e)
    ensures InChart(OnChart(F, e))
  {
    hide Lawful, Distance, Offset, Eval, Times;
    EvalOffset(F, e);
    EvalDistance(F, e);
  }

  lemma EntryCorrect(F: Functions, e: Env, s: Shape, c: Component)
    requires Lawful(F) && InChart(e)
    ensures CEval(F, e, CDXi(Entry(s, c))) == CEval(F, e, Integrand(s, c))
  {
    hide Lawful, InChart, CEval, CDXi, ConstZ, ConstRho, SinZ, SinRho, ConstZIntegrand, AxialIntegrand, RadialIntegrand;
    match (s, c)
    case (Constant, Axial) => ConstZCorrect(F, e);
    case (Constant, Radial) => ConstRhoCorrect(F, e);
    case (Sine, Axial) => SinZCorrect(F, e);
    case (Sine, Radial) => SinRhoCorrect(F, e);
  }

  /** As the source point moves at fixed rho > 0 and z, each entry changes at the rate its integrand gives there:
      the bracket of its end values is the field integral. */
  lemma EntriesIntegrateAlongSource(F: Functions, e: Env, s: Shape, c: Component)
    requires Lawful(F) && SpacePoint(e)
    ensures var value := CEval(F, OnChart(F, e), Integrand(s, c));
            && HasDeriv(Along(F, SourceCurve(F, e), Entry(s, c).re), e[Xi], value.re)
            && HasDeriv(Along(F, SourceCurve(F, e), Entry(s, c).im), e[Xi], value.im)
  {
    hide HasDeriv, Lawful, OnChart, SourceCurve, Entry, Integrand, InChart, DXi;
    SpaceIsInChart(F, e);
    EntryDefined(F, OnChart(F, e), s, c);
    EntryCorrect(F, OnChart(F, e), s, c);
    DXiSound(F, e, Entry(s, c).re);
    DXiSound(F, e, Entry(s, c).im);
  }

  /** At x, `g` changes at the rate of the integrand. */
  ghost predicate HasFieldRate(F: Functions, e: Env, s: Shape, c: Component, g: CFn, x: real) {
    var value := CEval(F, OnChart(F, e[Xi := x]), Integrand(s, c));
    HasDeriv(g.re, x, value.re) && HasDeriv(g.im, x, value.im)
  }

  /** A complex function of the source position, by its parts. */
  datatype CFn = CFn(re: Fn, im: Fn)

  lemma EntrySharesRate(F: Functions, e: Env, s: Shape, c: Component, g: CFn, x: real)
    requires Lawful(F) && SpacePoint(e) && HasFieldRate(F, e, s, c, g, x)
    ensures SharesRate(Along(F, SourceCurve(F, e), Entry(s, c).re), g.re, x)
    ensures SharesRate(Along(F, SourceCurve(F, e), Entry(s, c).im), g.im, x)
  {
    hide HasDeriv, Lawful, OnChart, Entry, Integrand, Along, CEval, Offset, Distance;
    EntriesIntegrateAlongSource(F, e[Xi := x], s, c);
    assert Line(e[Xi := x], Xi) == Line(e, Xi);
  }

  lemma EntryAt(F: Functions, e: Env, t: Term, x: real)
    requires SpacePoint(e)
    ensures Along(F, SourceCurve(F, e), t).At(x) == Eval(F, OnChart(F, e[Xi := x]), t)
  {
    hide SourceCurve, OnChart, Along, Eval;
    AlongAt(F, SourceCurve(F, e), t, x);
    SourceCurveAt(F, e, x);
  }

  /** The bracket of an entry's values at two source positions is the definite integral of its integrand between
      them, off the axis: whatever function has that integrand for its derivative changes by it. */
  lemma EntryIsTheIntegral(F: Functions, e: Env, s: Shape, c: Component, g: CFn, x1: real, x2: real)
    requires Complete() && Lawful(F) && SpacePoint(e) && forall x :: HasFieldRate(F, e, s, c, g, x)
    ensures var near := CEval(F, OnChart(F, e[Xi := x1]), Entry(s, c));
            var far := CEval(F, OnChart(F, e[Xi := x2]), Entry(s, c));
            && far.re - near.re == g.re.At(x2) - g.re.At(x1)
            && far.im - near.im == g.im.At(x2) - g.im.At(x1)
  {
    hide Lawful, Complete, HasFieldRate, SharesRate, SourceCurve, Along, OnChart, Entry, Eval;
    var curve, t := SourceCurve(F, e), Entry(s, c);
    forall x ensures SharesRate(Along(F, curve, t.re), g.re, x) && SharesRate(Along(F, curve, t.im), g.im, x) {
      EntrySharesRate(F, e, s, c, g, x);
    }
    SameDifferences(Along(F, curve, t.re), g.re, x1, x2);
    SameDifferences(Along(F, curve, t.im), g.im, x1, x2);
    EntryAt(F, e, t.re, x1);
    EntryAt(F, e, t.re, x2);
    EntryAt(F, e, t.im, x1);
    EntryAt(F, e, t.im, x2);
  }
}
