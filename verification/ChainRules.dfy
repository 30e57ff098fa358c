/** The chart spellings of d^2/dz^2 and d^2/d rho dz are the second derivatives of f(R) in space. */
module ChainRules {
  import opened Calculus
  import opened Terms
  import opened Substitution
  import opened ComplexTerms
  import opened DeltaOperators
  import opened FieldOperators

  /** A function of R (and of symbols that do not move), differentiable wherever R is positive. */
  ghost predicate RadialTerm(F: Functions, f: Term) {
    && OnlyMoves(f, R, map[Z := Num(1.0)])
    && OnlyMoves(f, R, map[Rho := Num(1.0)])
    && forall e: Env | R in e && e[R] > 0.0 :: Defined(F, e, f)
  }

  /** f with R spelled out in space. */
  function InSpace(f: Term): Term { Subst(f, R, Distance()) }

  /** R over the point of space. */
  ghost function AtDistance(F: Functions, e: Env): Env { e[R := Eval(F, e, Distance())] }

  lemma InSpaceDefined(F: Functions, e: Env, f: Term)
    requires Lawful(F) && SpacePoint(e) && RadialTerm(F, f)
    ensures Defined(F, e, InSpace(f)) && Defined(F, e, InSpace(Diff(f, R)))
  {
    hide Lawful, Times, Recip, Distance, Eval, Defined;
    EvalDistance(F, e);
    var e' := AtDistance(F, e);
    assert Defined(F, e', f);
    DerDefined(F, e', map[R := Num(1.0)], f) by {
      assert Defined(F, e', Num(1.0)) by { NumDefined(F, e', 1.0); }
    }
    SubstDefined(F, e, f, R, Distance());
    SubstDefined(F, e, Diff(f, R), R, Distance());
  }

  lemma NumDefined(F: Functions, e: Env, c: real)
    ensures Defined(F, e, Num(c))
  {
  }

  lemma SlopeInSpace(F: Functions, e: Env, f: Term)
    requires Lawful(F) && SpacePoint(e) && RadialTerm(F, f)
    ensures var r, df := Eval(F, e, Distance()), Eval(F, e, InSpace(Diff(f, R)));
            && Eval(F, e, Diff(InSpace(f), Z)) == Times(df, Times(e[Z] - e[Xi], Recip(r)))
            && Eval(F, e, Diff(InSpace(f), Rho)) == Times(df, Times(e[Rho], Recip(r)))
  {
    hide Lawful, Times, Recip, Distance, Eval, Subst;
    EvalDistance(F, e);
    DerSubst(F, e, f, R, Distance(), map[Z := Num(1.0)]);
    DerSubst(F, e, f, R, Distance(), map[Rho := Num(1.0)]);
    EvalSubst(F, e, Diff(f, R), R, Distance());
  }

  /** f'(R) (z - xi)/R: the first z-derivative. */
  function ZSlope(f: Term): Term {
    Mul(InSpace(Diff(f, R)), Mul(Offset(), Inv(Distance())))
  }

  lemma EvalZSlope(F: Functions, e: Env, f: Term)
    requires SpacePoint(e)
    ensures Eval(F, e, ZSlope(f))
         == Times(Eval(F, e, InSpace(Diff(f, R))), Times(e[Z] - e[Xi], Recip(Eval(F, e, Distance()))))
  {
    hide Times, Recip, Distance, InSpace;
    EvalOffset(F, e);
    hide Offset;
    assert Eval(F, e, Inv(Distance())) == Recip(Eval(F, e, Distance()));
    assert Eval(F, e, Mul(Offset(), Inv(Distance()))) == Times(e[Z] - e[Xi], Recip(Eval(F, e, Distance())));
  }

  lemma ZSlopeDefined(F: Functions, e: Env, f: Term)
    requires Lawful(F) && SpacePoint(e) && RadialTerm(F, f)
    ensures Defined(F, e, ZSlope(f)) && Defined(F, e, Diff(InSpace(f), Z))
  {
    hide Lawful, Times, Recip, Distance, InSpace, RadialTerm;
    InSpaceDefined(F, e, f);
    EvalDistance(F, e);
    EvalOffset(F, e);
    hide Offset;
    assert Defined(F, e, Inv(Distance()));
    assert Defined(F, e, Mul(Offset(), Inv(Distance())));
    DerDefined(F, e, map[Z := Num(1.0)], InSpace(f));
  }

  lemma RadialDerivative(F: Functions, f: Term)
    requires Lawful(F) && RadialTerm(F, f)
    ensures RadialTerm(F, Diff(f, R))
  {
    hide Lawful;
    DiffOnlyMoves(f, R, map[Z := Num(1.0)]);
    DiffOnlyMoves(f, R, map[Rho := Num(1.0)]);
    forall e: Env | R in e && e[R] > 0.0 ensures Defined(F, e, Diff(f, R)) {
      DerDefined(F, e, map[R := Num(1.0)], f);
    }
  }

  /** Differentiating the first z-derivative once more, in z and in rho. */
  lemma DiffZSlope(F: Functions, e: Env, f: Term)
    requires Lawful(F) && SpacePoint(e) && RadialTerm(F, f)
    ensures var i, d, p := Recip(Eval(F, e, Distance())), e[Z] - e[Xi], e[Rho];
            var df, ddf := Eval(F, e, InSpace(Diff(f, R))), Eval(F, e, InSpace(Diff(Diff(f, R), R)));
            && Eval(F, e, Diff(ZSlope(f), Z))
               == Times(Times(ddf, Times(d, i)), Times(d, i))
                   + Times(df, Times(1.0, i) + Times(d, Times(Times(-i, i), Times(d, i))))
            && Eval(F, e, Diff(ZSlope(f), Rho))
               == Times(Times(ddf, Times(p, i)), Times(d, i))
                   + Times(df, Times(0.0, i) + Times(d, Times(Times(-i, i), Times(p, i))))
  {
    hide Lawful, Times, Recip, Distance, InSpace, RadialTerm;
    RadialDerivative(F, f);
    SlopeInSpace(F, e, Diff(f, R));
    EvalDistance(F, e);
    EvalOffset(F, e);
    hide Offset;
    assert Eval(F, e, Inv(Distance())) == Recip(Eval(F, e, Distance()));
    assert Eval(F, e, Mul(Offset(), Inv(Distance()))) == Times(e[Z] - e[Xi], Recip(Eval(F, e, Distance())));
    hide Eval, Der;
    forall v: Sym ensures DiffZSlopeParts(F, e, f, v) {
      var rates := map[v := Num(1.0)];
      EvalDer(F, e, ZSlope(f), rates);
      EvalDer(F, e, Mul(Offset(), Inv(Distance())), rates);
      EvalDer(F, e, Inv(Distance()), rates);
    }
    assert DiffZSlopeParts(F, e, f, Z) && DiffZSlopeParts(F, e, f, Rho);
  }

  ghost predicate DiffZSlopeParts(F: Functions, e: Env, f: Term, v: Sym) {
    Eval(F, e, Diff(ZSlope(f), v))
    == Times(Eval(F, e, Diff(InSpace(Diff(f, R)), v)), Eval(F, e, Mul(Offset(), Inv(Distance()))))
     + Times(Eval(F, e, InSpace(Diff(f, R))),
             Times(Eval(F, e, Diff(Offset(), v)), Eval(F, e, Inv(Distance())))
           + Times(Eval(F, e, Offset()), Times(InvRate(Eval(F, e, Distance())), Eval(F, e, Diff(Distance(), v)))))
  }

  /** The second derivatives of f(R) in space, through the first z-derivative. */
  lemma SecondDerivatives(F: Functions, e: Env, f: Term)
    requires Lawful(F) && SpacePoint(e) && RadialTerm(F, f)
    ensures Eval(F, e, Diff(Diff(InSpace(f), Z), Z)) == Eval(F, e, Diff(ZSlope(f), Z))
    ensures Eval(F, e, Diff(Diff(InSpace(f), Z), Rho)) == Eval(F, e, Diff(ZSlope(f), Rho))
  {
    hide Lawful, Times, Recip, Distance, InSpace, RadialTerm, Eval, Diff, ZSlope, Defined;
    ZSlopeDefined(F, e, f);
    forall y | Abs(y - e[Z]) < 1.0 ensures AgreeAt(F, e, Z, y, Diff(InSpace(f), Z), ZSlope(f)) {
      SlopeInSpace(F, e[Z := y], f);
      EvalZSlope(F, e[Z := y], f);
    }
    DiffCongruent(F, e, Z, Diff(InSpace(f), Z), ZSlope(f), 1.0);
    forall y | Abs(y - e[Rho]) < e[Rho] ensures AgreeAt(F, e, Rho, y, Diff(InSpace(f), Z), ZSlope(f)) {
      SlopeInSpace(F, e[Rho := y], f);
      EvalZSlope(F, e[Rho := y], f);
    }
    DiffCongruent(F, e, Rho, Diff(InSpace(f), Z), ZSlope(f), e[Rho]);
  }

  /** f, f' and f'' do not see zeta. */
  predicate Ignores(t: Term, v: Sym) {
    match t
    case Num(_) => true
    case Var(w) => w != v
    case Add(l, r) => Ignores(l, v) && Ignores(r, v)
    case Mul(l, r) => Ignores(l, v) && Ignores(r, v)
    case _ => Ignores(t.arg, v)
  }

  lemma {:induction false} EvalIgnores(F: Functions, e: Env, t: Term, v: Sym, x: real)
    requires Ignores(t, v)
    ensures Eval(F, e[v := x], t) == Eval(F, e, t)
  {
    hide Times, Recip;
    match t
    case Num(_) =>
    case Var(_) =>
    case Add(l, r) => EvalIgnores(F, e, l, v, x); EvalIgnores(F, e, r, v, x);
    case Mul(l, r) => EvalIgnores(F, e, l, v, x); EvalIgnores(F, e, r, v, x);
    case _ => EvalIgnores(F, e, t.arg, v, x);
  }

  lemma {:induction false} DiffIgnores(t: Term, w: Sym, v: Sym)
    requires Ignores(t, v)
    ensures Ignores(Diff(t, w), v)
  {
    match t
    case Num(_) =>
    case Var(_) =>
    case Add(l, r) => DiffIgnores(l, w, v); DiffIgnores(r, w, v);
    case Mul(l, r) =>
      DiffIgnores(l, w, v);
      DiffIgnores(r, w, v);
      assert Ignores(Mul(Diff(l, w), r), v);
    case Inv(a) =>
      DiffIgnores(a, w, v);
      assert Ignores(Mul(Inv(a), Inv(a)), v);
      assert Ignores(Neg(Mul(Inv(a), Inv(a))), v);
      assert Diff(t, w) == Mul(Neg(Mul(Inv(a), Inv(a))), Diff(a, w));
    case Sqrt(a) =>
      DiffIgnores(a, w, v);
      assert Ignores(Sqrt(a), v) && Ignores(Inv(Sqrt(a)), v);
      assert Ignores(Mul(Num(0.5), Inv(Sqrt(a))), v);
      assert Diff(t, w) == Mul(Mul(Num(0.5), Inv(Sqrt(a))), Diff(a, w));
    case Sin(a) => DiffIgnores(a, w, v);
    case Cos(a) =>
      DiffIgnores(a, w, v);
      assert Ignores(Sin(a), v);
      assert Ignores(Neg(Sin(a)), v);
    case Asinh(a) =>
      DiffIgnores(a, w, v);
      assert Ignores(Mul(a, a), v);
      assert Ignores(Add(Num(1.0), Mul(a, a)), v);
      assert Ignores(Inv(Sqrt(Add(Num(1.0), Mul(a, a)))), v);
      assert Diff(t, w) == Mul(Inv(Sqrt(Add(Num(1.0), Mul(a, a)))), Diff(a, w));
  }

  lemma EvalChains(F: Functions, e: Env, f: Term)
    ensures var i, z, p := Recip(Val(e, R)), Val(e, Zeta), Val(e, Rho);
            var df, ddf := Eval(F, e, Diff(f, R)), Eval(F, e, Diff(Diff(f, R), R));
            && Eval(F, e, ChainZ2(f)) == Times(ddf, Times(Times(z, z), Times(i, i)))
                + Times(df, i - Times(Times(z, z), Times(i, Times(i, i))))
            && Eval(F, e, ChainRhoZ(f))
                == Times(Times(z, p), Times(ddf, Times(i, i)) - Times(df, Times(i, Times(i, i))))
  {
    hide Times, Recip, Diff;
    var i, z, p := Recip(Val(e, R)), Val(e, Zeta), Val(e, Rho);
    assert Eval(F, e, InvR()) == i;
    EvalSq(F, e, Zeta);
    hide InvR, Sq;
    var i2, i3 := Mul(InvR(), InvR()), Mul(InvR(), Mul(InvR(), InvR()));
    assert Eval(F, e, i2) == Times(i, i);
    assert Eval(F, e, i3) == Times(i, Times(i, i));
    assert Eval(F, e, Mul(Sq(Zeta), i2)) == Times(Times(z, z), Times(i, i));
    assert Eval(F, e, Mul(Sq(Zeta), i3)) == Times(Times(z, z), Times(i, Times(i, i)));
    EvalSub(F, e, InvR(), Mul(Sq(Zeta), i3));
    var f1, f2 := Diff(f, R), Diff(Diff(f, R), R);
    assert Eval(F, e, Mul(f2, Mul(Sq(Zeta), i2))) == Times(Eval(F, e, f2), Times(Times(z, z), Times(i, i)));
    assert Eval(F, e, Mul(f1, Sub(InvR(), Mul(Sq(Zeta), i3))))
        == Times(Eval(F, e, f1), i - Times(Times(z, z), Times(i, Times(i, i))));
    assert Eval(F, e, Var(Zeta)) == z && Eval(F, e, Var(Rho)) == p;
    assert Eval(F, e, Mul(Var(Zeta), Var(Rho))) == Times(z, p);
    EvalSub(F, e, Mul(f2, i2), Mul(f1, i3));
    assert Eval(F, e, Mul(f2, i2)) == Times(Eval(F, e, f2), Times(i, i));
    assert Eval(F, e, Mul(f1, i3)) == Times(Eval(F, e, f1), Times(i, Times(i, i)));
  }

  /** chain_z2 and chain_rho_z are the second derivatives of f(R), for every f and every point off the axis. */
  lemma ChainsCorrect(F: Functions, e: Env, f: Term)
    requires Lawful(F) && SpacePoint(e) && RadialTerm(F, f) && Ignores(f, Zeta)
    ensures Eval(F, OnChart(F, e), ChainZ2(f)) == Eval(F, e, Diff(Diff(InSpace(f), Z), Z))
    ensures Eval(F, OnChart(F, e), ChainRhoZ(f)) == Eval(F, e, Diff(Diff(InSpace(f), Z), Rho))
  {
    hide Lawful, Times, Recip, Distance, RadialTerm, Eval, Diff, ZSlope, Defined, ChainZ2, ChainRhoZ, Offset;
    SecondDerivatives(F, e, f);
    DiffZSlope(F, e, f);
    EvalOffset(F, e);
    var e' := OnChart(F, e);
    EvalChains(F, e', f);
    ChartSlopes(F, e, f);
    var d := e[Z] - e[Xi];
    ChainAlgebra(Recip(Eval(F, e, Distance())), d, e[Rho],
                 Eval(F, e, InSpace(Diff(f, R))), Eval(F, e, InSpace(Diff(Diff(f, R), R))));
    MixedChainAlgebra(Recip(Eval(F, e, Distance())), d, e[Rho],
                      Eval(F, e, InSpace(Diff(f, R))), Eval(F, e, InSpace(Diff(Diff(f, R), R))));
  }

  lemma ChartSlopes(F: Functions, e: Env, f: Term)
    requires Ignores(f, Zeta)
    ensures Eval(F, OnChart(F, e), Diff(f, R)) == Eval(F, e, InSpace(Diff(f, R)))
    ensures Eval(F, OnChart(F, e), Diff(Diff(f, R), R)) == Eval(F, e, InSpace(Diff(Diff(f, R), R)))
  {
    hide Eval, Diff, Distance, Offset;
    DiffIgnores(f, R, Zeta);
    DiffIgnores(Diff(f, R), R, Zeta);
    EvalSubst(F, e, Diff(f, R), R, Distance());
    EvalSubst(F, e, Diff(Diff(f, R), R), R, Distance());
    var z := Eval(F, e, Offset());
    assert OnChart(F, e) == AtDistance(F, e)[Zeta := z];
    EvalIgnores(F, AtDistance(F, e), Diff(f, R), Zeta, z);
    EvalIgnores(F, AtDistance(F, e), Diff(Diff(f, R), R), Zeta, z);
  }

  lemma ChainAlgebra(i: real, d: real, p: real, df: real, ddf: real)
    ensures Times(Times(ddf, Times(d, i)), Times(d, i))
        + Times(df, Times(1.0, i) + Times(d, Times(Times(-i, i), Times(d, i))))
         == Times(ddf, Times(Times(d, d), Times(i, i))) + Times(df, i - Times(Times(d, d), Times(i, Times(i, i))))
  {
  }

  lemma MixedChainAlgebra(i: real, d: real, p: real, df: real, ddf: real)
    ensures Times(Times(ddf, Times(p, i)), Times(d, i))
        + Times(df, Times(0.0, i) + Times(d, Times(Times(-i, i), Times(p, i))))
         == Times(Times(d, p), Times(ddf, Times(i, i)) - Times(df, Times(i, Times(i, i))))
  {
    MixedLeft(i, d, p, ddf);
    MixedRight(i, d, p, df);
    MixedWhole(i, d, p, df, ddf);
    hide Times;
  }

  lemma MixedLeft(i: real, d: real, p: real, ddf: real)
    ensures Times(Times(ddf, Times(p, i)), Times(d, i)) == ddf * p * d * i * i
  {
  }

  lemma MixedRight(i: real, d: real, p: real, df: real)
    ensures Times(df, Times(0.0, i) + Times(d, Times(Times(-i, i), Times(p, i)))) == -(df * p * d * i * i * i)
  {
    assert -i * i * (p * i) == -(p * i * i * i);
    assert d * -(p * i * i * i) == -(p * d * i * i * i);
  }

  lemma MixedWhole(i: real, d: real, p: real, df: real, ddf: real)
    ensures Times(Times(d, p), Times(ddf, Times(i, i)) - Times(df, Times(i, Times(i, i))))
        == ddf * p * d * i * i - df * p * d * i * i * i
  {
  }
}
