/** Substituting an expression for a symbol, and the chain rule for the result.

    The kernel is an expression in u alone.  Putting rho^2 + zeta^2 for u gives an expression in the chart, and its
    derivatives in rho and zeta are the derivatives in u times the rate of the substituted expression: `DerSubst`
    proves this for the formal derivative, wherever the expression moves with that one symbol only. */
module Substitution {
  import opened Calculus
  import opened Terms

  function Subst(t: Term, v: Sym, s: Term): Term {
    match t
    case Num(c) => t
    case Var(w) => if w == v then s else t
    case Add(l, r) => Add(Subst(l, v, s), Subst(r, v, s))
    case Mul(l, r) => Mul(Subst(l, v, s), Subst(r, v, s))
    case Inv(a) => Inv(Subst(a, v, s))
    case Sqrt(a) => Sqrt(Subst(a, v, s))
    case Sin(a) => Sin(Subst(a, v, s))
    case Cos(a) => Cos(Subst(a, v, s))
    case Asinh(a) => Asinh(Subst(a, v, s))
  }

  /** `t` mentions, besides `v`, only symbols that `rates` leaves in place. */
  predicate OnlyMoves(t: Term, v: Sym, rates: map<Sym, Term>) {
    match t
    case Num(_) => true
    case Var(w) => w == v || w !in rates
    case Add(l, r) => OnlyMoves(l, v, rates) && OnlyMoves(r, v, rates)
    case Mul(l, r) => OnlyMoves(l, v, rates) && OnlyMoves(r, v, rates)
    case _ => OnlyMoves(t.arg, v, rates)
  }

  lemma {:induction false} EvalSubst(F: Functions, e: Env, t: Term, v: Sym, s: Term)
    ensures Eval(F, e, Subst(t, v, s)) == Eval(F, e[v := Eval(F, e, s)], t)
  {
    hide Times, Recip;
    match t
    case Num(_) =>
    case Var(_) =>
    case Add(l, r) => EvalSubst(F, e, l, v, s); EvalSubst(F, e, r, v, s);
    case Mul(l, r) => EvalSubst(F, e, l, v, s); EvalSubst(F, e, r, v, s);
    case _ => EvalSubst(F, e, t.arg, v, s);
  }

  lemma {:induction false} SubstDefined(F: Functions, e: Env, t: Term, v: Sym, s: Term)
    requires Defined(F, e, s) && Defined(F, e[v := Eval(F, e, s)], t)
    ensures Defined(F, e, Subst(t, v, s))
  {
    hide Times, Recip, Eval;
    match t
    case Num(_) =>
    case Var(_) =>
    case Add(l, r) => SubstDefined(F, e, l, v, s); SubstDefined(F, e, r, v, s);
    case Mul(l, r) => SubstDefined(F, e, l, v, s); SubstDefined(F, e, r, v, s);
    case _ =>
      SubstDefined(F, e, t.arg, v, s);
      EvalSubst(F, e, t.arg, v, s);
  }

  /** The chain rule for formal derivatives. */
  lemma {:induction false} DerSubst(F: Functions, e: Env, t: Term, v: Sym, s: Term, rates: map<Sym, Term>)
    requires OnlyMoves(t, v, rates)
    ensures Eval(F, e, Der(Subst(t, v, s), rates))
         == Times(Eval(F, e[v := Eval(F, e, s)], Diff(t, v)), Eval(F, e, Der(s, rates)))
  {
    hide Times, Recip, Eval, Der;
    var one := map[v := Num(1.0)];
    var e' := e[v := Eval(F, e, s)];
    var ds := Eval(F, e, Der(s, rates));
    EvalDer(F, e, Subst(t, v, s), rates);
    EvalDer(F, e', t, one);
    match t
    case Num(_) => TimesSwap(0.0, ds); TimesZero(ds);
    case Var(w) =>
      assert Eval(F, e', Num(1.0)) == 1.0 by { EvalNum(F, e', 1.0); }
      TimesOne(ds);
      TimesSwap(0.0, ds);
      TimesZero(ds);
    case Add(l, r) =>
      DerSubst(F, e, l, v, s, rates);
      DerSubst(F, e, r, v, s, rates);
      SumIncrement(Eval(F, e', Der(l, one)), Eval(F, e', Der(r, one)), ds);
    case Mul(l, r) =>
      DerSubst(F, e, l, v, s, rates);
      DerSubst(F, e, r, v, s, rates);
      EvalSubst(F, e, l, v, s);
      EvalSubst(F, e, r, v, s);
      ProductChain(Eval(F, e', Der(l, one)), Eval(F, e', r), Eval(F, e', l), Eval(F, e', Der(r, one)), ds);
    case _ =>
      DerSubst(F, e, t.arg, v, s, rates);
      EvalSubst(F, e, t.arg, v, s);
      TimesAssociative(OuterRate(F, e', t), Eval(F, e', Der(t.arg, one)), ds);
      assert OuterRate(F, e, Subst(t, v, s)) == OuterRate(F, e', t);
  }

  lemma ProductChain(dl: real, r: real, l: real, dr: real, ds: real)
    ensures Times(Times(dl, ds), r) + Times(l, Times(dr, ds)) == Times(Times(dl, r) + Times(l, dr), ds)
  {
  }

  /** Differentiating keeps to the same symbols. */
  lemma {:induction false} DiffOnlyMoves(t: Term, v: Sym, rates: map<Sym, Term>)
    requires OnlyMoves(t, v, rates)
    ensures OnlyMoves(Diff(t, v), v, rates)
  {
    match t
    case Num(_) =>
    case Var(_) =>
    case Add(l, r) => DiffOnlyMoves(l, v, rates); DiffOnlyMoves(r, v, rates);
    case Mul(l, r) =>
      DiffOnlyMoves(l, v, rates);
      DiffOnlyMoves(r, v, rates);
      assert OnlyMoves(Mul(Diff(l, v), r), v, rates);
    case Inv(a) =>
      DiffOnlyMoves(a, v, rates);
      assert OnlyMoves(Mul(Inv(a), Inv(a)), v, rates);
      assert OnlyMoves(Neg(Mul(Inv(a), Inv(a))), v, rates);
      assert Diff(t, v) == Mul(Neg(Mul(Inv(a), Inv(a))), Diff(a, v));
    case Sqrt(a) =>
      DiffOnlyMoves(a, v, rates);
      assert OnlyMoves(Sqrt(a), v, rates) && OnlyMoves(Inv(Sqrt(a)), v, rates);
      assert OnlyMoves(Mul(Num(0.5), Inv(Sqrt(a))), v, rates);
      assert Diff(t, v) == Mul(Mul(Num(0.5), Inv(Sqrt(a))), Diff(a, v));
    case Sin(a) => DiffOnlyMoves(a, v, rates);
    case Cos(a) =>
      DiffOnlyMoves(a, v, rates);
      assert OnlyMoves(Sin(a), v, rates);
      assert OnlyMoves(Neg(Sin(a)), v, rates);
    case Asinh(a) =>
      DiffOnlyMoves(a, v, rates);
      assert OnlyMoves(Mul(a, a), v, rates);
      assert OnlyMoves(Add(Num(1.0), Mul(a, a)), v, rates);
      assert OnlyMoves(Inv(Sqrt(Add(Num(1.0), Mul(a, a)))), v, rates);
      assert Diff(t, v) == Mul(Inv(Sqrt(Add(Num(1.0), Mul(a, a)))), Diff(a, v));
  }
}
