/** The field operators in the chart (R, zeta, xi) at fixed rho and z. */
module FieldOperators {
  import opened Calculus
  import opened Terms
  import opened Substitution
  import opened ComplexTerms
  import opened DeltaOperators

  // d_dxi and the two chain rules are rewritings of expressions in the chart's symbols.  `DXiIsTotal` reads d_dxi
  // as the derivative with all symbols moving together, and `DXiSound` as the derivative of what an expression
  // denotes while the source point moves: the chart is then a curve through the symbols.

  function InvR(): Term { Inv(Var(R)) }

  /** d/d xi in the chart: d_xi - d_zeta - (zeta/R) d_R. */
  function DXi(t: Term): Term {
    Sub(Sub(Diff(t, Xi), Diff(t, Zeta)), Mul(Mul(Var(Zeta), InvR()), Diff(t, R)))
  }

  function CDXi(z: CTerm): CTerm { CTerm(DXi(z.re), DXi(z.im)) }

  /** The rates of the chart's symbols when the source point xi moves. */
  function SourceRates(): map<Sym, Term> {
    map[Xi := Num(1.0), Zeta := Num(-1.0), R := Neg(Mul(Var(Zeta), InvR()))]
  }

  /** d^2/dz^2 of f(R) */
  function ChainZ2(f: Term): Term {
    Add(Mul(Diff(Diff(f, R), R), Mul(Sq(Zeta), Mul(InvR(), InvR()))),
        Mul(Diff(f, R), Sub(InvR(), Mul(Sq(Zeta), Mul(InvR(), Mul(InvR(), InvR()))))))
  }

  /** d^2/d rho dz of f(R) */
  function ChainRhoZ(f: Term): Term {
    Mul(Mul(Var(Zeta), Var(Rho)),
        Sub(Mul(Diff(Diff(f, R), R), Mul(InvR(), InvR())), Mul(Diff(f, R), Mul(InvR(), Mul(InvR(), InvR())))))
  }

  // ---------------------------------------------------------------- d_dxi is a total derivative

  lemma {:induction false} DXiParts(F: Functions, e: Env, t: Term)
    ensures Eval(F, e, Der(t, SourceRates()))
         == Eval(F, e, Diff(t, Xi)) - Eval(F, e, Diff(t, Zeta))
          + Times(Eval(F, e, SourceRates()[R]), Eval(F, e, Diff(t, R)))
  {
    hide Times, Eval, Der, InvR;
    var rates, x, z, r := SourceRates(), map[Xi := Num(1.0)], map[Zeta := Num(1.0)], map[R := Num(1.0)];
    var c := Eval(F, e, rates[R]);
    EvalDer(F, e, t, rates);
    EvalDer(F, e, t, x);
    EvalDer(F, e, t, z);
    EvalDer(F, e, t, r);
    match t
    case Num(_) => TimesZero(c);
    case Var(w) =>
      EvalNum(F, e, 1.0);
      EvalNum(F, e, -1.0);
      TimesZero(c);
      TimesOne(c);
    case Add(a, b) =>
      DXiParts(F, e, a);
      DXiParts(F, e, b);
      TimesSplit(c, Eval(F, e, Der(a, r)), Eval(F, e, Der(b, r)));
    case Mul(a, b) =>
      DXiParts(F, e, a);
      DXiParts(F, e, b);
      ProductParts(Eval(F, e, a), Eval(F, e, b), c,
                   Eval(F, e, Der(a, x)), Eval(F, e, Der(a, z)), Eval(F, e, Der(a, r)),
                   Eval(F, e, Der(b, x)), Eval(F, e, Der(b, z)), Eval(F, e, Der(b, r)));
    case _ =>
      DXiParts(F, e, t.arg);
      OuterParts(OuterRate(F, e, t), c, Eval(F, e, Der(t.arg, x)), Eval(F, e, Der(t.arg, z)),
          Eval(F, e, Der(t.arg, r)));
  }

  lemma TimesSplit(c: real, p: real, q: real)
    ensures Times(c, p) + Times(c, q) == Times(c, p + q)
  {
  }

  lemma OuterParts(o: real, c: real, x: real, z: real, r: real)
    ensures Times(o, x - z + Times(c, r)) == Times(o, x) - Times(o, z) + Times(c, Times(o, r))
  {
  }

  lemma ProductParts(a: real, b: real, c: real, ax: real, az: real, ar: real, bx: real, bz: real, br: real)
    ensures Times(ax - az + Times(c, ar), b) + Times(a, bx - bz + Times(c, br))
         == (Times(ax, b) + Times(a, bx)) - (Times(az, b) + Times(a, bz)) + Times(c, Times(ar, b) + Times(a, br))
  {
  }

  /** The script's d_dxi is the derivative with the chart's symbols moving together. */
  lemma DXiIsTotal(F: Functions, e: Env, t: Term)
    ensures Eval(F, e, DXi(t)) == Eval(F, e, Der(t, SourceRates()))
  {
    DXiParts(F, e, t);
    var q := Mul(Var(Zeta), InvR());
    assert Eval(F, e, SourceRates()[R]) == Times(-1.0, Eval(F, e, q));
    hide InvR, Diff;
    EvalSub(F, e, Sub(Diff(t, Xi), Diff(t, Zeta)), Mul(q, Diff(t, R)));
    EvalSub(F, e, Diff(t, Xi), Diff(t, Zeta));
    assert Eval(F, e, Mul(q, Diff(t, R))) == Times(Eval(F, e, q), Eval(F, e, Diff(t, R)));
    TimesNegateLeft(Eval(F, e, q), Eval(F, e, Diff(t, R)));
  }

  lemma TimesNegateLeft(p: real, q: real)
    ensures Times(Times(-1.0, p), q) == -Times(p, q)
  {
  }

  // ---------------------------------------------------------------- the curve the chart describes

  /** z - xi */
  function Offset(): Term { Sub(Var(Z), Var(Xi)) }

  /** sqrt(rho^2 + (z - xi)^2) */
  function Distance(): Term { Sqrt(Add(Sq(Rho), Mul(Offset(), Offset()))) }

  ghost predicate SpacePoint(e: Env) {
    Rho in e && Xi in e && Z in e && e[Rho] > 0.0
  }

  /** The chart point over a point of space. */
  ghost function OnChart(F: Functions, e: Env): Env {
    e[Zeta := Eval(F, e, Offset())][R := Eval(F, e, Distance())]
  }

  lemma EvalOffset(F: Functions, e: Env)
    requires SpacePoint(e)
    ensures Eval(F, e, Offset()) == e[Z] - e[Xi] && Defined(F, e, Offset())
    ensures Eval(F, e, Diff(Offset(), Z)) == 1.0 && Eval(F, e, Diff(Offset(), Xi)) == -1.0
    ensures Eval(F, e, Diff(Offset(), Rho)) == 0.0
  {
    EvalSub(F, e, Var(Z), Var(Xi));
    assert Eval(F, e, Var(Z)) == e[Z] && Eval(F, e, Var(Xi)) == e[Xi];
    assert Defined(F, e, Neg(Var(Xi)));
    EvalNum(F, e, 1.0);
    hide Eval;
    forall v: Sym ensures Eval(F, e, Diff(Offset(), v)) == Eval(F, e, Diff(Var(Z), v)) - Eval(F, e, Diff(Var(Xi), v)) {
      EvalDerSub(F, e, Var(Z), Var(Xi), map[v := Num(1.0)]);
    }
    EvalDiffVar(F, e, Z);
    EvalDiffVar(F, e, Xi);
  }

  lemma EvalDiffVar(F: Functions, e: Env, v: Sym)
    ensures forall w: Sym :: Eval(F, e, Diff(Var(v), w)) == if v == w then 1.0 else 0.0
  {
    forall w: Sym ensures Eval(F, e, Diff(Var(v), w)) == if v == w then 1.0 else 0.0 {
      EvalDer(F, e, Var(v), map[w := Num(1.0)]);
      EvalNum(F, e, 1.0);
    }
  }

  lemma MulDefined(F: Functions, e: Env, a: Term, b: Term)
    requires Defined(F, e, a) && Defined(F, e, b)
    ensures Defined(F, e, Mul(a, b))
  {
  }

  lemma EvalDistance(F: Functions, e: Env)
    requires Lawful(F) && SpacePoint(e)
    ensures var r := Eval(F, e, Distance());
            && r > 0.0 && Times(r, r) == Times(e[Rho], e[Rho]) + Times(e[Z] - e[Xi], e[Z] - e[Xi])
            && Defined(F, e, Distance())
            && Eval(F, e, Diff(Distance(), Z)) == Times(e[Z] - e[Xi], Recip(r))
            && Eval(F, e, Diff(Distance(), Xi)) == Times(-(e[Z] - e[Xi]), Recip(r))
            && Eval(F, e, Diff(Distance(), Rho)) == Times(e[Rho], Recip(r))
  {
    hide Lawful, Recip, RootAt;
    var sum := Add(Sq(Rho), Mul(Offset(), Offset()));
    var d := e[Z] - e[Xi];
    EvalSq(F, e, Rho);
    EvalOffset(F, e);
    EvalDiffSq(F, e, Rho, Z);
    EvalDiffSq(F, e, Rho, Xi);
    EvalDiffSq(F, e, Rho, Rho);
    assert Eval(F, e, Mul(Offset(), Offset())) == Times(d, d);
    assert Eval(F, e, sum) == Times(e[Rho], e[Rho]) + Times(d, d);
    assert Defined(F, e, Sq(Rho));
    MulDefined(F, e, Offset(), Offset());
    assert Defined(F, e, sum);
    hide Times;
    TimesPositive(e[Rho], e[Rho]);
    SquareNonnegative(d);
    RootPositive(F, Eval(F, e, sum));
    hide Offset, Sq;
    var r := Eval(F, e, Distance());
    assert r == F.sqrt.At(Eval(F, e, sum));
    forall v: Sym ensures Eval(F, e, Diff(Distance(), v))
        == Times(0.5 * Recip(r), Eval(F, e, Diff(Sq(Rho), v))
            + (Times(Eval(F, e, Diff(Offset(), v)), d) + Times(d, Eval(F, e, Diff(Offset(), v)))))
    {
      var rates := map[v := Num(1.0)];
      EvalDer(F, e, Distance(), rates);
      EvalDer(F, e, sum, rates);
      EvalDer(F, e, Mul(Offset(), Offset()), rates);
    }
    SlopeAlgebra(Recip(r), d, e[Rho]);
  }

  lemma SlopeAlgebra(i: real, d: real, p: real)
    ensures Times(0.5 * i, 0.0 + (Times(1.0, d) + Times(d, 1.0))) == Times(d, i)
    ensures Times(0.5 * i, 0.0 + (Times(-1.0, d) + Times(d, -1.0))) == Times(-d, i)
    ensures Times(0.5 * i, Times(2.0, p) + (Times(0.0, d) + Times(d, 0.0))) == Times(p, i)
  {
  }

  /** The chart as a curve: the source point moves, rho, z and k stay. */
  ghost function SourceCurve(F: Functions, e: Env): Path {
    var line := Line(e, Xi);
    line[Zeta := Along(F, line, Offset())][R := Along(F, line, Distance())]
  }

  lemma SourceCurveAt(F: Functions, e: Env, x: real)
    requires SpacePoint(e)
    ensures EnvAt(SourceCurve(F, e), x) == OnChart(F, e[Xi := x])
  {
    hide Offset, Distance, Eval, Along;
    var line := Line(e, Xi);
    LineAt(e, Xi, x);
    AlongAt(F, line, Offset(), x);
    AlongAt(F, line, Distance(), x);
  }

  /** The rates d_dxi assigns are the derivatives of the chart along the source. */
  lemma SourceTangent(F: Functions, e: Env)
    requires Lawful(F) && SpacePoint(e)
    ensures Tangent(F, SourceCurve(F, e), e[Xi], SourceRates())
  {
    hide HasDeriv, Lawful, Times, Recip, Der, Distance, Offset, Along;
    var line, path := Line(e, Xi), SourceCurve(F, e);
    var x := e[Xi];
    assert e[Xi := x] == e;
    LineAt(e, Xi, x);
    LineTangent(F, e, Xi, x);
    SourceCurveAt(F, e, x);
    var e' := OnChart(F, e);
    assert EnvAt(path, x) == e';
    EvalOffset(F, e);
    EvalDistance(F, e);
    Sound(F, line, x, map[Xi := Num(1.0)], Offset());
    Sound(F, line, x, map[Xi := Num(1.0)], Distance());
    EvalNum(F, e', 1.0);
    EvalNum(F, e', -1.0);
    assert Eval(F, e', SourceRates()[R]) == Times(-(e[Z] - e[Xi]), Recip(Eval(F, e, Distance()))) by {
      RateOfR(F, e');
      assert Val(e', Zeta) == e[Z] - e[Xi] && Val(e', R) == Eval(F, e, Distance());
    }
    forall w | w in path ensures Moves(F, path, x, SourceRates(), w) {
      if w != R && w != Zeta {
        assert Moves(F, line, x, map[Xi := Num(1.0)], w);
        EvalNum(F, e, 1.0);
      }
    }
  }

  lemma RateOfR(F: Functions, e: Env)
    ensures Eval(F, e, SourceRates()[R]) == Times(-Val(e, Zeta), Recip(Val(e, R)))
  {
    hide Times, Recip;
    assert Eval(F, e, InvR()) == Recip(Val(e, R));
    assert Eval(F, e, Mul(Var(Zeta), InvR())) == Times(Val(e, Zeta), Recip(Val(e, R)));
    TimesNegate(Val(e, Zeta), Recip(Val(e, R)));
  }

  /** d_dxi is d/d xi: of any expression in the chart, at fixed rho and z, along the source. */
  lemma DXiSound(F: Functions, e: Env, t: Term)
    requires Lawful(F) && SpacePoint(e) && Defined(F, OnChart(F, e), t)
    ensures HasDeriv(Along(F, SourceCurve(F, e), t), e[Xi], Eval(F, OnChart(F, e), DXi(t)))
  {
    hide HasDeriv, Lawful, Eval, Der, DXi, OnChart, SourceCurve, Defined;
    SourceTangent(F, e);
    SourceCurveAt(F, e, e[Xi]);
    assert e[Xi := e[Xi]] == e;
    Sound(F, SourceCurve(F, e), e[Xi], SourceRates(), t);
    DXiIsTotal(F, OnChart(F, e), t);
  }
}
