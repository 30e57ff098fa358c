/** The delta kernel W = a^2 g' + a^2 rho^2 g'' in the (rho, zeta) chart, and the two field operators on it. */
module DeltaOperators {
  import opened Calculus
  import opened Terms
  import opened Substitution

  function Sq(v: Sym): Term { Mul(Var(v), Var(v)) }

  /** u = rho^2 + zeta^2 */
  function ChartU(): Term { Add(Sq(Rho), Sq(Zeta)) }

  /** The n-th u-derivative of g, with u spelled out. */
  function Gd(g: Term, n: nat): Term { Subst(Nth(g, U, n), U, ChartU()) }

  /** a^2 g^(n) + a^2 rho^2 g^(n+1); the delta kernel is the case n = 1. */
  function WOrder(g: Term, n: nat): Term {
    Add(Mul(Sq(A), Gd(g, n)), Mul(Mul(Sq(A), Sq(Rho)), Gd(g, n + 1)))
  }

  function W(g: Term): Term { WOrder(g, 1) }

  /** k^2 W + d^2 W / d zeta^2 */
  function LhsZ(g: Term): Term {
    Add(Mul(Sq(K), W(g)), Diff(Diff(W(g), Zeta), Zeta))
  }

  /** d^2 W / d rho d zeta */
  function LhsRho(g: Term): Term {
    Diff(Diff(W(g), Rho), Zeta)
  }

  /** A function of u and k alone, differentiable wherever u is positive. */
  ghost predicate KernelTerm(F: Functions, g: Term) {
    && OnlyMoves(g, U, map[Zeta := Num(1.0)])
    && OnlyMoves(g, U, map[Rho := Num(1.0)])
    && forall e: Env | U in e && e[U] > 0.0 :: Defined(F, e, g)
  }

  /** Anywhere but at R = 0, the axis included. */
  ghost predicate ChartPoint(e: Env) {
    Rho in e && Zeta in e && (e[Rho] != 0.0 || e[Zeta] != 0.0)
  }

  /** How far zeta may move without meeting R = 0. */
  ghost function Clearance(e: Env): (radius: real)
    requires ChartPoint(e)
    ensures radius > 0.0
  {
    if e[Rho] != 0.0 then 1.0 else Abs(e[Zeta])
  }

  lemma StaysInChart(e: Env, y: real)
    requires ChartPoint(e) && Abs(y - e[Zeta]) < Clearance(e)
    ensures ChartPoint(e[Zeta := y])
  {
  }

  lemma SquaresPositive(x: real, y: real)
    requires x != 0.0 || y != 0.0
    ensures Times(x, x) + Times(y, y) > 0.0
  {
    SquarePositive(x);
    SquarePositive(y);
    hide Times;
  }

  lemma SquarePositive(x: real)
    ensures if x == 0.0 then Times(x, x) == 0.0 else Times(x, x) > 0.0
  {
    if x > 0.0 { TimesPositive(x, x); } else if x < 0.0 { TimesPositive(-x, -x); }
  }

  lemma EvalSq(F: Functions, e: Env, v: Sym)
    ensures Eval(F, e, Sq(v)) == Times(Val(e, v), Val(e, v))
  {
    hide Times;
    assert Eval(F, e, Var(v)) == Val(e, v);
  }

  lemma EvalDiffSq(F: Functions, e: Env, v: Sym, w: Sym)
    ensures Eval(F, e, Diff(Sq(v), w)) == if v == w then Times(2.0, Val(e, v)) else 0.0
  {
    var rates := map[w := Num(1.0)];
    assert Eval(F, e, Var(v)) == Val(e, v) && Eval(F, e, Num(1.0)) == 1.0;
    hide Eval;
    EvalDer(F, e, Sq(v), rates);
    EvalDer(F, e, Var(v), rates);
  }

  lemma EvalChartU(F: Functions, e: Env)
    requires ChartPoint(e)
    ensures Eval(F, e, ChartU()) == Times(e[Rho], e[Rho]) + Times(e[Zeta], e[Zeta]) > 0.0
    ensures Defined(F, e, ChartU())
    ensures Eval(F, e, Diff(ChartU(), Zeta)) == Times(2.0, e[Zeta])
    ensures Eval(F, e, Diff(ChartU(), Rho)) == Times(2.0, e[Rho])
  {
    hide Times;
    EvalSq(F, e, Rho);
    EvalSq(F, e, Zeta);
    EvalDiffSq(F, e, Rho, Zeta);
    EvalDiffSq(F, e, Zeta, Zeta);
    EvalDiffSq(F, e, Rho, Rho);
    EvalDiffSq(F, e, Zeta, Rho);
    EvalDer(F, e, ChartU(), map[Zeta := Num(1.0)]);
    EvalDer(F, e, ChartU(), map[Rho := Num(1.0)]);
    SquaresPositive(e[Rho], e[Zeta]);
    assert Defined(F, e, Var(Rho)) && Defined(F, e, Var(Zeta));
    assert Defined(F, e, Sq(Rho)) && Defined(F, e, Sq(Zeta));
  }

  lemma {:induction false} NthOnlyMoves(g: Term, n: nat, rates: map<Sym, Term>)
    requires OnlyMoves(g, U, rates)
    ensures OnlyMoves(Nth(g, U, n), U, rates)
  {
    if n > 0 {
      NthOnlyMoves(g, n - 1, rates);
      DiffOnlyMoves(Nth(g, U, n - 1), U, rates);
    }
  }

  lemma {:induction false} NthDefined(F: Functions, e: Env, g: Term, n: nat)
    requires Lawful(F) && KernelTerm(F, g) && U in e && e[U] > 0.0
    ensures Defined(F, e, Nth(g, U, n))
  {
    hide Lawful;
    if n > 0 {
      NthDefined(F, e, g, n - 1);
      DerDefined(F, e, map[U := Num(1.0)], Nth(g, U, n - 1));
    }
  }

  lemma GdDefined(F: Functions, e: Env, g: Term, n: nat)
    requires Lawful(F) && KernelTerm(F, g) && ChartPoint(e)
    ensures Defined(F, e, Gd(g, n))
  {
    hide Lawful, Times, KernelTerm, Defined, Nth;
    EvalChartU(F, e);
    NthDefined(F, e[U := Eval(F, e, ChartU())], g, n);
    SubstDefined(F, e, Nth(g, U, n), U, ChartU());
  }

  lemma WOrderDefined(F: Functions, e: Env, g: Term, n: nat)
    requires Lawful(F) && KernelTerm(F, g) && ChartPoint(e)
    ensures Defined(F, e, WOrder(g, n))
  {
    hide Lawful, Gd;
    GdDefined(F, e, g, n);
    GdDefined(F, e, g, n + 1);
    assert Defined(F, e, Sq(A)) && Defined(F, e, Sq(Rho));
    assert Defined(F, e, Mul(Sq(A), Sq(Rho)));
    assert Defined(F, e, Mul(Sq(A), Gd(g, n)));
    assert Defined(F, e, Mul(Mul(Sq(A), Sq(Rho)), Gd(g, n + 1)));
  }

  /** Differentiating g^(n) through u raises the order. */
  lemma EvalDiffGd(F: Functions, e: Env, g: Term, n: nat)
    requires KernelTerm(F, g) && ChartPoint(e)
    ensures Eval(F, e, Diff(Gd(g, n), Zeta)) == Times(Eval(F, e, Gd(g, n + 1)), Times(2.0, e[Zeta]))
    ensures Eval(F, e, Diff(Gd(g, n), Rho)) == Times(Eval(F, e, Gd(g, n + 1)), Times(2.0, e[Rho]))
  {
    hide Times, Eval, Subst;
    EvalChartU(F, e);
    NthOnlyMoves(g, n, map[Zeta := Num(1.0)]);
    NthOnlyMoves(g, n, map[Rho := Num(1.0)]);
    DerSubst(F, e, Nth(g, U, n), U, ChartU(), map[Zeta := Num(1.0)]);
    DerSubst(F, e, Nth(g, U, n), U, ChartU(), map[Rho := Num(1.0)]);
    EvalSubst(F, e, Nth(g, U, n + 1), U, ChartU());
  }

  lemma EvalWOrder(F: Functions, e: Env, g: Term, n: nat)
    ensures Eval(F, e, WOrder(g, n))
         == Times(Times(Val(e, A), Val(e, A)),
                  Eval(F, e, Gd(g, n)) + Times(Times(Val(e, Rho), Val(e, Rho)), Eval(F, e, Gd(g, n + 1))))
  {
    hide Gd;
    EvalSq(F, e, A);
    EvalSq(F, e, Rho);
    hide Sq;
    assert Eval(F, e, Mul(Sq(A), Gd(g, n))) == Times(Eval(F, e, Sq(A)), Eval(F, e, Gd(g, n)));
    assert Eval(F, e, Mul(Sq(A), Sq(Rho))) == Times(Eval(F, e, Sq(A)), Eval(F, e, Sq(Rho)));
    assert Eval(F, e, Mul(Mul(Sq(A), Sq(Rho)), Gd(g, n + 1)))
        == Times(Times(Eval(F, e, Sq(A)), Eval(F, e, Sq(Rho))), Eval(F, e, Gd(g, n + 1)));
    Factor(Eval(F, e, Sq(A)), Eval(F, e, Sq(Rho)), Eval(F, e, Gd(g, n)), Eval(F, e, Gd(g, n + 1)));
  }

  lemma Factor(a: real, p: real, g: real, h: real)
    ensures Times(a, g) + Times(Times(a, p), h) == Times(a, g + Times(p, h))
  {
  }

  // ---------------------------------------------------------------- first derivatives

  /** 2 zeta times the next order: what differentiating WOrder in zeta gives. */
  function ZetaSlope(g: Term, n: nat): Term {
    Mul(Mul(Num(2.0), Var(Zeta)), WOrder(g, n + 1))
  }

  /** 2 rho (WOrder(n+1) + a^2 g^(n+1)): what differentiating WOrder in rho gives. */
  function RhoSlope(g: Term, n: nat): Term {
    Mul(Mul(Num(2.0), Var(Rho)), Add(WOrder(g, n + 1), Mul(Sq(A), Gd(g, n + 1))))
  }

  lemma EvalZetaSlope(F: Functions, e: Env, g: Term, n: nat)
    ensures Eval(F, e, ZetaSlope(g, n)) == Times(Times(2.0, Val(e, Zeta)), Eval(F, e, WOrder(g, n + 1)))
  {
    hide Times, WOrder;
    assert Eval(F, e, Mul(Num(2.0), Var(Zeta))) == Times(2.0, Val(e, Zeta));
  }

  lemma EvalRhoSlope(F: Functions, e: Env, g: Term, n: nat)
    ensures Eval(F, e, RhoSlope(g, n))
         == Times(Times(2.0, Val(e, Rho)),
                  Eval(F, e, WOrder(g, n + 1)) + Times(Times(Val(e, A), Val(e, A)), Eval(F, e, Gd(g, n + 1))))
  {
    EvalSq(F, e, A);
    hide Times, WOrder, Gd, Sq;
    assert Eval(F, e, Mul(Num(2.0), Var(Rho))) == Times(2.0, Val(e, Rho));
    assert Eval(F, e, Mul(Sq(A), Gd(g, n + 1))) == Times(Eval(F, e, Sq(A)), Eval(F, e, Gd(g, n + 1)));
    assert Eval(F, e, Add(WOrder(g, n + 1), Mul(Sq(A), Gd(g, n + 1))))
        == Eval(F, e, WOrder(g, n + 1)) + Eval(F, e, Mul(Sq(A), Gd(g, n + 1)));
  }

  /** The product rule on the kernel combination. */
  lemma DiffWOrder(F: Functions, e: Env, g: Term, n: nat, v: Sym)
    ensures var a, p, da, dp := Eval(F, e, Sq(A)), Eval(F, e, Sq(Rho)), Eval(F, e, Diff(Sq(A), v)),
        Eval(F, e, Diff(Sq(Rho), v));
            Eval(F, e, Diff(WOrder(g, n), v))
            == (Times(da, Eval(F, e, Gd(g, n))) + Times(a, Eval(F, e, Diff(Gd(g, n), v))))
             + (Times(Times(da, p) + Times(a, dp), Eval(F, e, Gd(g, n + 1)))
              + Times(Times(a, p), Eval(F, e, Diff(Gd(g, n + 1), v))))
  {
    hide Times, Gd, Sq;
    assert Eval(F, e, Mul(Sq(A), Sq(Rho))) == Times(Eval(F, e, Sq(A)), Eval(F, e, Sq(Rho)));
    hide Eval, Der;
    var rates := map[v := Num(1.0)];
    EvalDer(F, e, WOrder(g, n), rates);
    EvalDer(F, e, Mul(Sq(A), Gd(g, n)), rates);
    EvalDer(F, e, Mul(Mul(Sq(A), Sq(Rho)), Gd(g, n + 1)), rates);
    EvalDer(F, e, Mul(Sq(A), Sq(Rho)), rates);
  }

  lemma DiffWZeta(F: Functions, e: Env, g: Term, n: nat)
    requires KernelTerm(F, g) && ChartPoint(e)
    ensures Eval(F, e, Diff(WOrder(g, n), Zeta)) == Times(Times(2.0, e[Zeta]), Eval(F, e, WOrder(g, n + 1)))
  {
    hide Eval, Der, Times, Gd, Sq, KernelTerm, WOrder;
    EvalWOrder(F, e, g, n + 1);
    EvalSq(F, e, A);
    EvalSq(F, e, Rho);
    EvalDiffSq(F, e, A, Zeta);
    EvalDiffSq(F, e, Rho, Zeta);
    EvalDiffGd(F, e, g, n);
    EvalDiffGd(F, e, g, n + 1);
    DiffWOrder(F, e, g, n, Zeta);
    ZetaAlgebra(Eval(F, e, Sq(A)), Eval(F, e, Sq(Rho)), e[Zeta],
                Eval(F, e, Gd(g, n)), Eval(F, e, Gd(g, n + 1)), Eval(F, e, Gd(g, n + 2)));
  }

  lemma ZetaAlgebra(a: real, p: real, z: real, g: real, h: real, i: real)
    ensures (Times(0.0, g) + Times(a, Times(h, Times(2.0, z))))
          + (Times(Times(0.0, p) + Times(a, 0.0), h) + Times(Times(a, p), Times(i, Times(2.0, z))))
         == Times(Times(2.0, z), Times(a, h + Times(p, i)))
  {
  }

  lemma DiffWRho(F: Functions, e: Env, g: Term, n: nat)
    requires KernelTerm(F, g) && ChartPoint(e)
    ensures Eval(F, e, Diff(WOrder(g, n), Rho)) == Eval(F, e, RhoSlope(g, n))
  {
    hide Eval, Der, Times, Gd, Sq, KernelTerm, WOrder, RhoSlope;
    EvalWOrder(F, e, g, n + 1);
    EvalRhoSlope(F, e, g, n);
    EvalSq(F, e, A);
    EvalSq(F, e, Rho);
    EvalDiffSq(F, e, A, Rho);
    EvalDiffSq(F, e, Rho, Rho);
    EvalDiffGd(F, e, g, n);
    EvalDiffGd(F, e, g, n + 1);
    DiffWOrder(F, e, g, n, Rho);
    RhoAlgebra(Eval(F, e, Sq(A)), Eval(F, e, Sq(Rho)), e[Rho],
               Eval(F, e, Gd(g, n)), Eval(F, e, Gd(g, n + 1)), Eval(F, e, Gd(g, n + 2)));
  }

  lemma RhoAlgebra(a: real, p: real, r: real, g: real, h: real, i: real)
    ensures (Times(0.0, g) + Times(a, Times(h, Times(2.0, r))))
          + (Times(Times(0.0, p) + Times(a, Times(2.0, r)), h) + Times(Times(a, p), Times(i, Times(2.0, r))))
         == Times(Times(2.0, r), Times(a, h + Times(p, i)) + Times(a, h))
  {
  }

  // ---------------------------------------------------------------- second derivatives

  lemma WOrderSlopesDefined(F: Functions, e: Env, g: Term, n: nat)
    requires Lawful(F) && KernelTerm(F, g) && ChartPoint(e)
    ensures Defined(F, e, Diff(WOrder(g, n), Zeta)) && Defined(F, e, ZetaSlope(g, n))
    ensures Defined(F, e, Diff(WOrder(g, n), Rho)) && Defined(F, e, RhoSlope(g, n))
  {
    WOrderDefined(F, e, g, n);
    WOrderDefined(F, e, g, n + 1);
    GdDefined(F, e, g, n + 1);
    hide WOrder, Lawful, Gd, KernelTerm;
    DerDefined(F, e, map[Zeta := Num(1.0)], WOrder(g, n));
    DerDefined(F, e, map[Rho := Num(1.0)], WOrder(g, n));
    assert Defined(F, e, Sq(A));
    assert Defined(F, e, Mul(Sq(A), Gd(g, n + 1)));
    assert Defined(F, e, Num(2.0)) && Defined(F, e, Var(Zeta)) && Defined(F, e, Var(Rho));
    assert Defined(F, e, Mul(Num(2.0), Var(Zeta))) && Defined(F, e, Mul(Num(2.0), Var(Rho)));
    assert Defined(F, e, Add(WOrder(g, n + 1), Mul(Sq(A), Gd(g, n + 1))));
  }

  lemma DiffZetaSlope(F: Functions, e: Env, g: Term, n: nat)
    requires KernelTerm(F, g) && ChartPoint(e)
    ensures Eval(F, e, Diff(ZetaSlope(g, n), Zeta))
         == Times(2.0, Eval(F, e, WOrder(g, n + 1)))
          + Times(Times(2.0, e[Zeta]), Times(Times(2.0, e[Zeta]), Eval(F, e, WOrder(g, n + 2))))
  {
    DiffWZeta(F, e, g, n + 1);
    hide Times, WOrder, KernelTerm;
    assert Eval(F, e, Mul(Num(2.0), Var(Zeta))) == Times(2.0, e[Zeta]);
    DiffTwice(F, e, Zeta);
    hide Eval, Der;
    EvalDer(F, e, ZetaSlope(g, n), map[Zeta := Num(1.0)]);
  }

  lemma DiffTwice(F: Functions, e: Env, v: Sym)
    ensures Eval(F, e, Diff(Mul(Num(2.0), Var(v)), v)) == 2.0
  {
    assert Eval(F, e, Num(1.0)) == 1.0 && Eval(F, e, Num(2.0)) == 2.0;
    hide Eval;
    var rates := map[v := Num(1.0)];
    EvalDer(F, e, Mul(Num(2.0), Var(v)), rates);
    EvalDer(F, e, Num(2.0), rates);
    EvalDer(F, e, Var(v), rates);
  }

  lemma DiffRhoSlopeZeta(F: Functions, e: Env, g: Term, n: nat)
    requires KernelTerm(F, g) && ChartPoint(e)
    ensures Eval(F, e, Diff(RhoSlope(g, n), Zeta))
         == Times(Times(2.0, e[Rho]),
                  Times(Times(2.0, e[Zeta]), Eval(F, e, WOrder(g, n + 2)))
                + Times(Times(Val(e, A), Val(e, A)), Times(Eval(F, e, Gd(g, n + 2)), Times(2.0, e[Zeta]))))
  {
    DiffWZeta(F, e, g, n + 1);
    EvalDiffGd(F, e, g, n + 1);
    EvalSq(F, e, A);
    EvalDiffSq(F, e, A, Zeta);
    hide Times, WOrder, KernelTerm, Gd, Sq;
    assert Eval(F, e, Mul(Num(2.0), Var(Rho))) == Times(2.0, e[Rho]);
    TwoRhoStill(F, e);
    hide Eval, Der;
    var rates := map[Zeta := Num(1.0)];
    EvalDer(F, e, RhoSlope(g, n), rates);
    EvalDer(F, e, Add(WOrder(g, n + 1), Mul(Sq(A), Gd(g, n + 1))), rates);
    EvalDer(F, e, Mul(Sq(A), Gd(g, n + 1)), rates);
    TimesSwap(0.0, Eval(F, e, Gd(g, n + 1)));
    TimesZero(Eval(F, e, Gd(g, n + 1)));
    TimesSwap(0.0, Eval(F, e, Add(WOrder(g, n + 1), Mul(Sq(A), Gd(g, n + 1)))));
    TimesZero(Eval(F, e, Add(WOrder(g, n + 1), Mul(Sq(A), Gd(g, n + 1)))));
  }

  lemma TwoRhoStill(F: Functions, e: Env)
    ensures Eval(F, e, Diff(Mul(Num(2.0), Var(Rho)), Zeta)) == 0.0
  {
    hide Eval;
    var rates := map[Zeta := Num(1.0)];
    EvalDer(F, e, Mul(Num(2.0), Var(Rho)), rates);
    EvalDer(F, e, Num(2.0), rates);
    EvalDer(F, e, Var(Rho), rates);
  }

  /** The bracket of the axial operator, from the values of g', g'', g''', g''''. */
  function BracketZ(a: real, k: real, rho: real, zeta: real, g1: real, g2: real, g3: real, g4: real): real {
    a * a * (k * k * (g1 + rho * rho * g2) + 2.0 * (g2 + rho * rho * g3) + 4.0 * (zeta * zeta) * (g3 + rho * rho * g4))
  }

  /** The bracket of the mixed operator. */
  function BracketRho(a: real, rho: real, zeta: real, g3: real, g4: real): real {
    a * a * rho * zeta * (8.0 * g3 + 4.0 * (rho * rho) * g4)
  }

  /** The axial operator on the delta kernel is its bracket, for every kernel g(u). */
  lemma OperatorZ(F: Functions, e: Env, g: Term)
    requires Lawful(F) && KernelTerm(F, g) && ChartPoint(e)
    ensures Eval(F, e, LhsZ(g))
         == BracketZ(Val(e, A), Val(e, K), e[Rho], e[Zeta],
                     Eval(F, e, Gd(g, 1)), Eval(F, e, Gd(g, 2)), Eval(F, e, Gd(g, 3)), Eval(F, e, Gd(g, 4)))
  {
    SecondZeta(F, e, g);
    EvalWOrder(F, e, g, 1);
    EvalWOrder(F, e, g, 2);
    EvalWOrder(F, e, g, 3);
    EvalSq(F, e, K);
    EvalLhsZ(F, e, g);
    hide Eval, Diff, Gd, WOrder, LhsZ, W, Lawful, KernelTerm, Sq;
    BracketZAlgebra(Val(e, A), Val(e, K), e[Rho], e[Zeta],
                    Eval(F, e, Gd(g, 1)), Eval(F, e, Gd(g, 2)), Eval(F, e, Gd(g, 3)), Eval(F, e, Gd(g, 4)));
  }

  lemma EvalLhsZ(F: Functions, e: Env, g: Term)
    ensures Eval(F, e, LhsZ(g)) == Times(Eval(F, e, Sq(K)), Eval(F, e, WOrder(g, 1)))
        + Eval(F, e, Diff(Diff(WOrder(g, 1), Zeta), Zeta))
  {
    hide Times, WOrder, Sq, Diff;
    assert Eval(F, e, Mul(Sq(K), W(g))) == Times(Eval(F, e, Sq(K)), Eval(F, e, W(g)));
  }

  lemma BracketZAlgebra(a: real, k: real, p: real, z: real, g1: real, g2: real, g3: real, g4: real)
    ensures Times(Times(k, k), Times(Times(a, a), g1 + Times(Times(p, p), g2)))
          + (Times(2.0, Times(Times(a, a), g2 + Times(Times(p, p), g3)))
          + Times(Times(2.0, z), Times(Times(2.0, z), Times(Times(a, a), g3 + Times(Times(p, p), g4)))))
         == BracketZ(a, k, p, z, g1, g2, g3, g4)
  {
  }

  lemma SecondZeta(F: Functions, e: Env, g: Term)
    requires Lawful(F) && KernelTerm(F, g) && ChartPoint(e)
    ensures Eval(F, e, Diff(Diff(WOrder(g, 1), Zeta), Zeta))
         == Times(2.0, Eval(F, e, WOrder(g, 2)))
          + Times(Times(2.0, e[Zeta]), Times(Times(2.0, e[Zeta]), Eval(F, e, WOrder(g, 3))))
  {
    hide Times, WOrder, Lawful, KernelTerm, Eval, Diff, ZetaSlope, Defined;
    forall y | Abs(y - e[Zeta]) < Clearance(e)
      ensures AgreeAt(F, e, Zeta, y, Diff(WOrder(g, 1), Zeta), ZetaSlope(g, 1))
    {
      StaysInChart(e, y);
      DiffWZeta(F, e[Zeta := y], g, 1);
      EvalZetaSlope(F, e[Zeta := y], g, 1);
    }
    WOrderSlopesDefined(F, e, g, 1);
    DiffCongruent(F, e, Zeta, Diff(WOrder(g, 1), Zeta), ZetaSlope(g, 1), Clearance(e));
    DiffZetaSlope(F, e, g, 1);
  }

  /** The mixed operator on the delta kernel is its bracket, for every kernel g(u). */
  lemma OperatorRho(F: Functions, e: Env, g: Term)
    requires Lawful(F) && KernelTerm(F, g) && ChartPoint(e)
    ensures Eval(F, e, LhsRho(g))
         == BracketRho(Val(e, A), e[Rho], e[Zeta], Eval(F, e, Gd(g, 3)), Eval(F, e, Gd(g, 4)))
  {
    hide Times, WOrder, Lawful, KernelTerm, Eval, Diff, RhoSlope, Defined, BracketRho, Gd;
    forall y | Abs(y - e[Zeta]) < Clearance(e)
      ensures AgreeAt(F, e, Zeta, y, Diff(WOrder(g, 1), Rho), RhoSlope(g, 1))
    {
      StaysInChart(e, y);
      DiffWRho(F, e[Zeta := y], g, 1);
    }
    WOrderSlopesDefined(F, e, g, 1);
    DiffCongruent(F, e, Zeta, Diff(WOrder(g, 1), Rho), RhoSlope(g, 1), Clearance(e));
    DiffRhoSlopeZeta(F, e, g, 1);
    EvalWOrder(F, e, g, 3);
    BracketRhoAlgebra(Val(e, A), e[Rho], e[Zeta], Eval(F, e, Gd(g, 3)), Eval(F, e, Gd(g, 4)));
  }

  lemma BracketRhoAlgebra(a: real, p: real, z: real, g3: real, g4: real)
    ensures Times(Times(2.0, p),
                  Times(Times(2.0, z), Times(Times(a, a), g3 + Times(Times(p, p), g4)))
                + Times(Times(a, a), Times(g3, Times(2.0, z))))
         == BracketRho(a, p, z, g3, g4)
  {
  }
}
