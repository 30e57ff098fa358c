/** The Taylor coefficients of the sinusoidal shapes about an axial foot. */
module TaylorShapes {
  import opened Calculus
  import opened Terms
  import opened Results

  // The coefficients are tied to formal differentiation by `CoefficientsAreDerivatives`, and to each other by the
  // term-by-term derivative laws and by the Pythagorean identity read as a Cauchy product.

  datatype Kind = Const | Sine | Cosine | Folded | DSine | DCosine

  function KindOf(name: string): Option<Kind> {
    if name == "const" then Some(Const)
    else if name == "sin" then Some(Sine)
    else if name == "cos" then Some(Cosine)
    else if name == "cos1" then Some(Folded)
    else if name == "dsin" then Some(DSine)
    else if name == "dcos" then Some(DCosine)
    else None
  }

  /** (s, c, -s, -c)[i mod 4] */
  function Cycle(s: real, c: real, i: nat): real {
    if i % 4 == 0 then s else if i % 4 == 1 then c else if i % 4 == 2 then -s else -c
  }

  /** The p-th derivative of a shape, from the sine `s` and cosine `c` of k z0. */
  function Raw(kind: Kind, k: real, s: real, c: real, p: nat): real {
    match kind
    case Const => if p == 0 then 1.0 else 0.0
    case Sine => Times(RealPower(k, p), Cycle(s, c, p))
    case Cosine => Times(RealPower(k, p), Cycle(c, -s, p))
    case Folded => Times(RealPower(k, p), Cycle(c, -s, p))
    case DSine => Times(RealPower(k, p + 1), Cycle(c, -s, p))
    case DCosine => Times(-RealPower(k, p + 1), Cycle(s, c, p))
  }

  function Factorial(p: nat): (f: real)
    ensures f > 0.0
  {
    if p == 0 then 1.0
    else
      TimesPositive(Factorial(p - 1), p as real);
      Times(Factorial(p - 1), p as real)
  }

  /** cos - 1 is folded: its order-0 entry is lowered by one. */
  function Fold(kind: Kind, p: nat): real {
    if kind == Folded && p == 0 then 1.0 else 0.0
  }

  function Coefficient(kind: Kind, k: real, s: real, c: real, p: nat): real {
    Over(Raw(kind, k, s, c, p), Factorial(p)) - Fold(kind, p)
  }

  /** The list of a shape by its name: exactly the six names are known, and p! times the p-th entry is the p-th
      derivative in z' of the expression the name stands for, wherever k, sin k z' and cos k z' are as given. */
  method TaylorCoeffs(name: string, k: real, s: real, c: real, pmax: nat) returns (r: Result<seq<real>, string>)
    ensures r.Ok? <==> name in ["const", "sin", "cos", "cos1", "dsin", "dcos"]
    ensures r.Err? ==> r.error == name
    ensures r.Ok? ==> |r.value| == pmax + 1
    ensures r.Ok? ==> forall p :: 0 <= p <= pmax ==> r.value[p] == Coefficient(KindOf(name).value, k, s, c, p)
    ensures r.Ok? ==> forall F, e | ShapePoint(F, e, k, s, c) ::
      && (name == "const" ==> ListsDerivatives(F, e, Num(1.0), r.value))
      && (name == "sin" ==> ListsDerivatives(F, e, Sin(Mul(Var(K), Var(Z))), r.value))
      && (name == "cos" ==> ListsDerivatives(F, e, Cos(Mul(Var(K), Var(Z))), r.value))
      && (name == "cos1" ==> ListsDerivatives(F, e, Add(Cos(Mul(Var(K), Var(Z))), Num(-1.0)), r.value))
      && (name == "dsin" ==> ListsDerivatives(F, e, Mul(Var(K), Cos(Mul(Var(K), Var(Z)))), r.value))
      && (name == "dcos" ==> ListsDerivatives(F, e, Mul(Mul(Num(-1.0), Var(K)), Sin(Mul(Var(K), Var(Z)))), r.value))
  {
    KnownNames(name);
    hide ShapePoint, ListsDerivatives, Coefficient, Fold, ShapeTerm;
    hide Raw, Over, KindOf, RealPower, Cycle, Times;
    var out: seq<real> := [];
    var fac := 1.0;
    var p := 0;
    while p < pmax + 1
      invariant 0 <= p == |out| <= pmax + 1
      invariant fac == if p == 0 then 1.0 else Factorial(p - 1)
      invariant p > 0 ==> KindOf(name).Some?
      invariant forall i :: 0 <= i < p ==> out[i] == Over(Raw(KindOf(name).value, k, s, c, i), Factorial(i))
    {
      if p > 0 { fac := Times(fac, p as real); }
      var kind := KindOf(name);
      if kind == None { return Err(name); }
      assert fac == Factorial(p);
      out := out + [Over(Raw(kind.value, k, s, c, p), fac)];
      p := p + 1;
    }
    if KindOf(name) == Some(Folded) { out := out[0 := out[0] - 1.0]; }
    r := Ok(out);
    forall i | 0 <= i <= pmax ensures out[i] == Coefficient(KindOf(name).value, k, s, c, i) {
      EntryIs(KindOf(name).value, k, s, c, i);
    }
    forall F, e | ShapePoint(F, e, k, s, c) ensures ListsDerivatives(F, e, ShapeTerm(KindOf(name).value), out) {
      ListOfDerivatives(F, e, KindOf(name).value, k, s, c, out);
    }
  }

  lemma EntryIs(kind: Kind, k: real, s: real, c: real, p: nat)
    ensures Coefficient(kind, k, s, c, p)
         == Over(Raw(kind, k, s, c, p), Factorial(p)) - (if kind == Folded && p == 0 then 1.0 else 0.0)
  {
  }

  /** A point z' at which k, sin k z' and cos k z' have the given values. */
  ghost predicate ShapePoint(F: Functions, e: Env, k: real, s: real, c: real) {
    && Lawful(F) && Z in e && Val(e, K) == k
    && s == F.sin.At(Times(k, e[Z])) && c == F.cos.At(Times(k, e[Z]))
  }

  /** p! times the p-th value is the p-th derivative of `t` in z'. */
  ghost predicate ListsDerivatives(F: Functions, e: Env, t: Term, values: seq<real>) {
    forall p :: 0 <= p < |values| ==> Times(Factorial(p), values[p]) == Eval(F, e, Nth(t, Z, p))
  }

  /** What the six names stand for; no other name stands for anything. */
  lemma KnownNames(name: string)
    ensures KindOf(name).Some? <==> name in ["const", "sin", "cos", "cos1", "dsin", "dcos"]
    ensures KindOf(name).Some? ==>
      var t := ShapeTerm(KindOf(name).value);
      && (name == "const" ==> t == Num(1.0))
      && (name == "sin" ==> t == Sin(Mul(Var(K), Var(Z))))
      && (name == "cos" ==> t == Cos(Mul(Var(K), Var(Z))))
      && (name == "cos1" ==> t == Add(Cos(Mul(Var(K), Var(Z))), Num(-1.0)))
      && (name == "dsin" ==> t == Mul(Var(K), Cos(Mul(Var(K), Var(Z)))))
      && (name == "dcos" ==> t == Mul(Mul(Num(-1.0), Var(K)), Sin(Mul(Var(K), Var(Z)))))
  {
  }

  lemma ListOfDerivatives(F: Functions, e: Env, kind: Kind, k: real, s: real, c: real, values: seq<real>)
    requires ShapePoint(F, e, k, s, c)
    requires forall p :: 0 <= p < |values| ==> values[p] == Coefficient(kind, k, s, c, p)
    ensures ListsDerivatives(F, e, ShapeTerm(kind), values)
  {
    hide Lawful, Eval, Nth, ShapeTerm, Coefficient, Times;
    forall p | 0 <= p < |values| ensures Times(Factorial(p), values[p]) == Eval(F, e, Nth(ShapeTerm(kind), Z, p)) {
      CoefficientsAreDerivatives(F, e, kind, p);
    }
  }

  // ---------------------------------------------------------------- the shapes as expressions in z'

  function Phase(): Term { Mul(Var(K), Var(Z)) }

  function ShapeTerm(kind: Kind): Term {
    match kind
    case Const => Num(1.0)
    case Sine => Sin(Phase())
    case Cosine => Cos(Phase())
    case Folded => Add(Cos(Phase()), Num(-1.0))
    case DSine => Mul(Var(K), Cos(Phase()))
    case DCosine => Mul(Neg(Var(K)), Sin(Phase()))
  }

  /** An expression without reciprocals or roots. */
  predicate Entire(t: Term) {
    match t
    case Num(_) => true
    case Var(_) => true
    case Add(l, r) => Entire(l) && Entire(r)
    case Mul(l, r) => Entire(l) && Entire(r)
    case Sin(a) => Entire(a)
    case Cos(a) => Entire(a)
    case _ => false
  }

  lemma {:induction false} EntireDefined(F: Functions, e: Env, t: Term)
    requires Entire(t)
    ensures Defined(F, e, t)
  {
    match t
    case Num(_) =>
    case Var(_) =>
    case Add(l, r) => EntireDefined(F, e, l); EntireDefined(F, e, r);
    case Mul(l, r) => EntireDefined(F, e, l); EntireDefined(F, e, r);
    case Sin(a) => EntireDefined(F, e, a);
    case Cos(a) => EntireDefined(F, e, a);
  }

  lemma {:induction false} EntireDiff(t: Term, v: Sym)
    requires Entire(t)
    ensures Entire(Diff(t, v))
  {
    match t
    case Num(_) =>
    case Var(_) =>
    case Add(l, r) => EntireDiff(l, v); EntireDiff(r, v);
    case Mul(l, r) =>
      EntireDiff(l, v);
      EntireDiff(r, v);
      assert Entire(Mul(Diff(l, v), r));
    case Sin(a) => EntireDiff(a, v);
    case Cos(a) =>
      EntireDiff(a, v);
      assert Entire(Num(-1.0)) && Entire(Sin(a));
      assert Entire(Neg(Sin(a)));
  }

  lemma {:induction false} EntireNth(t: Term, v: Sym, n: nat)
    requires Entire(t)
    ensures Entire(Nth(t, v, n))
  {
    if n > 0 {
      EntireNth(t, v, n - 1);
      EntireDiff(Nth(t, v, n - 1), v);
    }
  }

  /** Both expressions denote the same function of z'. */
  ghost predicate Same(F: Functions, t: Term, u: Term) {
    forall e: Env :: Z in e ==> Eval(F, e, t) == Eval(F, e, u)
  }

  lemma SameAt(F: Functions, e: Env, t: Term, u: Term)
    requires Same(F, t, u) && Z in e
    ensures Eval(F, e, t) == Eval(F, e, u)
  {
  }

  lemma SameDiff(F: Functions, t: Term, u: Term)
    requires Lawful(F) && Entire(t) && Entire(u) && Same(F, t, u)
    ensures Same(F, Diff(t, Z), Diff(u, Z))
  {
    hide Lawful, Eval, Der, Entire;
    forall e: Env | Z in e ensures Eval(F, e, Diff(t, Z)) == Eval(F, e, Diff(u, Z)) {
      EntireDefined(F, e, t);
      EntireDefined(F, e, u);
      forall y | Abs(y - e[Z]) < 1.0 ensures AgreeAt(F, e, Z, y, t, u) {
      }
      DiffCongruent(F, e, Z, t, u, 1.0);
    }
  }

  lemma {:induction false} SameNth(F: Functions, t: Term, u: Term, n: nat)
    requires Lawful(F) && Entire(t) && Entire(u) && Same(F, t, u)
    ensures Same(F, Nth(t, Z, n), Nth(u, Z, n))
  {
    hide Lawful, Same, Entire;
    if n > 0 {
      SameNth(F, t, u, n - 1);
      EntireNth(t, Z, n - 1);
      EntireNth(u, Z, n - 1);
      SameDiff(F, Nth(t, Z, n - 1), Nth(u, Z, n - 1));
    }
  }

  /** Differentiating first or last makes no difference. */
  lemma {:induction false} NthOfDiff(t: Term, v: Sym, n: nat)
    ensures Nth(t, v, n + 1) == Nth(Diff(t, v), v, n)
  {
    hide Der;
    if n > 0 { NthOfDiff(t, v, n - 1); }
  }

  // ---------------------------------------------------------------- the mod-4 cycle

  function CycleTerm(j: nat): Term {
    if j % 4 == 0 then Sin(Phase())
    else if j % 4 == 1 then Cos(Phase())
    else if j % 4 == 2 then Neg(Sin(Phase()))
    else Neg(Cos(Phase()))
  }

  /** k^m times the j-th function of the cycle. */
  function Trig(m: nat, j: nat): Term { Mul(Pow(Var(K), m), CycleTerm(j)) }

  ghost function SinAt(F: Functions, e: Env): real { F.sin.At(Times(Val(e, K), Val(e, Z))) }

  ghost function CosAt(F: Functions, e: Env): real { F.cos.At(Times(Val(e, K), Val(e, Z))) }

  ghost function TrigValue(F: Functions, e: Env, m: nat, j: nat): real {
    Times(RealPower(Val(e, K), m), Cycle(SinAt(F, e), CosAt(F, e), j))
  }

  lemma EvalPhase(F: Functions, e: Env)
    ensures Eval(F, e, Phase()) == Times(Val(e, K), Val(e, Z))
    ensures Eval(F, e, Diff(Phase(), Z)) == Val(e, K)
  {
    hide Times;
    var one := map[Z := Num(1.0)];
    assert Eval(F, e, Var(K)) == Val(e, K) && Eval(F, e, Var(Z)) == Val(e, Z);
    EvalDer(F, e, Phase(), one);
    EvalDer(F, e, Var(K), one);
    EvalDer(F, e, Var(Z), one);
    TimesOne(Val(e, K));
    TimesZero(Val(e, Z));
    TimesSwap(0.0, Val(e, Z));
  }

  lemma EvalCycle(F: Functions, e: Env, j: nat)
    ensures Eval(F, e, CycleTerm(j)) == Cycle(SinAt(F, e), CosAt(F, e), j)
    ensures Eval(F, e, Diff(CycleTerm(j), Z)) == Times(Cycle(SinAt(F, e), CosAt(F, e), j + 1), Val(e, K))
  {
    EvalPhase(F, e);
    hide Times, Phase;
    var one := map[Z := Num(1.0)];
    var s, c, k := SinAt(F, e), CosAt(F, e), Val(e, K);
    assert Eval(F, e, Sin(Phase())) == s && Eval(F, e, Cos(Phase())) == c;
    TimesNegate(s, k);
    TimesNegate(c, k);
    TimesNegate(s, 1.0);
    TimesNegate(c, 1.0);
    assert Eval(F, e, Neg(Sin(Phase()))) == -s && Eval(F, e, Neg(Cos(Phase()))) == -c;
    hide Eval, Der;
    EvalDer(F, e, Sin(Phase()), one);
    EvalDer(F, e, Cos(Phase()), one);
    EvalDer(F, e, Neg(Sin(Phase())), one);
    EvalDer(F, e, Neg(Cos(Phase())), one);
    EvalDer(F, e, Num(-1.0), one);
    CycleRate(s, c, k);
  }

  lemma CycleRate(s: real, c: real, k: real)
    ensures Times(0.0, s) + Times(-1.0, Times(c, k)) == Times(-c, k)
    ensures Times(0.0, c) + Times(-1.0, Times(-s, k)) == Times(s, k)
  {
  }

  lemma {:induction false} PowerOfKStays(F: Functions, e: Env, m: nat)
    ensures Eval(F, e, Diff(Pow(Var(K), m), Z)) == 0.0
  {
    hide Times;
    var one := map[Z := Num(1.0)];
    if m == 0 {
      EvalDer(F, e, Num(1.0), one);
    } else {
      EvalDerPow(F, e, Var(K), m - 1, one);
      EvalDer(F, e, Var(K), one);
      TimesZero(Times(m as real, RealPower(Eval(F, e, Var(K)), m - 1)));
    }
  }

  lemma EvalTrig(F: Functions, e: Env, m: nat, j: nat)
    ensures Eval(F, e, Trig(m, j)) == TrigValue(F, e, m, j)
    ensures Eval(F, e, Diff(Trig(m, j), Z)) == TrigValue(F, e, m + 1, j + 1)
  {
    EvalPow(F, e, Var(K), m);
    assert Eval(F, e, Var(K)) == Val(e, K);
    EvalCycle(F, e, j);
    hide Times, CycleTerm, Cycle, SinAt, CosAt;
    PowerOfKStays(F, e, m);
    assert Eval(F, e, Trig(m, j)) == TrigValue(F, e, m, j);
    EvalDer(F, e, Trig(m, j), map[Z := Num(1.0)]);
    TrigRate(RealPower(Val(e, K), m), Cycle(SinAt(F, e), CosAt(F, e), j), Cycle(SinAt(F, e), CosAt(F, e), j + 1),
        Val(e, K));
  }

  lemma TrigRate(q: real, f: real, g: real, k: real)
    ensures Times(0.0, f) + Times(q, Times(g, k)) == Times(Times(k, q), g)
  {
  }

  lemma EntireTrig(m: nat, j: nat)
    ensures Entire(Trig(m, j))
  {
    if m > 0 { EntireTrig(m - 1, j); }
    assert Entire(Phase());
    assert Entire(Sin(Phase())) && Entire(Cos(Phase()));
    assert Entire(Neg(Sin(Phase()))) && Entire(Neg(Cos(Phase())));
  }

  lemma {:induction false} NthTrig(F: Functions, m: nat, j: nat, n: nat)
    requires Lawful(F)
    ensures Same(F, Nth(Trig(m, j), Z, n), Trig(m + n, j + n))
  {
    hide Lawful, Eval, Der, Trig, TrigValue, Entire;
    if n > 0 {
      NthTrig(F, m, j, n - 1);
      EntireTrig(m, j);
      EntireNth(Trig(m, j), Z, n - 1);
      EntireTrig(m + n - 1, j + n - 1);
      SameDiff(F, Nth(Trig(m, j), Z, n - 1), Trig(m + n - 1, j + n - 1));
      forall e: Env | Z in e ensures Eval(F, e, Nth(Trig(m, j), Z, n)) == Eval(F, e, Trig(m + n, j + n)) {
        EvalTrig(F, e, m + n - 1, j + n - 1);
        EvalTrig(F, e, m + n, j + n);
      }
    }
  }

  // ---------------------------------------------------------------- the lists are the derivatives

  /** A shape that is one function of the cycle. */
  lemma NthShape(F: Functions, e: Env, t: Term, m: nat, j: nat, n: nat)
    requires Lawful(F) && Z in e && Entire(t) && Same(F, t, Trig(m, j))
    ensures Eval(F, e, Nth(t, Z, n)) == TrigValue(F, e, m + n, j + n)
  {
    hide Lawful, Eval, Der, Trig, TrigValue, Entire;
    EntireTrig(m, j);
    SameNth(F, t, Trig(m, j), n);
    NthTrig(F, m, j, n);
    EvalTrig(F, e, m + n, j + n);
  }

  lemma SineShapes(F: Functions)
    ensures Same(F, ShapeTerm(Sine), Trig(0, 0)) && Same(F, ShapeTerm(Cosine), Trig(0, 1))
    ensures Same(F, ShapeTerm(DSine), Trig(1, 1)) && Same(F, ShapeTerm(DCosine), Trig(1, 2))
  {
    hide Times;
    forall e: Env | Z in e
      ensures Eval(F, e, ShapeTerm(Sine)) == Eval(F, e, Trig(0, 0)) && Eval(F, e, ShapeTerm(Cosine))
          == Eval(F, e, Trig(0, 1))
      ensures Eval(F, e, ShapeTerm(DSine)) == Eval(F, e, Trig(1, 1)) && Eval(F, e, ShapeTerm(DCosine))
          == Eval(F, e, Trig(1, 2))
    {
      ShapeValues(F, e);
    }
  }

  lemma ShapeEntire(kind: Kind)
    ensures Entire(ShapeTerm(kind))
  {
    assert Entire(Phase());
    assert Entire(Sin(Phase())) && Entire(Cos(Phase())) && Entire(Neg(Var(K)));
  }

  lemma ShapeValues(F: Functions, e: Env)
    ensures Eval(F, e, ShapeTerm(Sine)) == Eval(F, e, Trig(0, 0)) && Eval(F, e, ShapeTerm(Cosine))
        == Eval(F, e, Trig(0, 1))
    ensures Eval(F, e, ShapeTerm(DSine)) == Eval(F, e, Trig(1, 1)) && Eval(F, e, ShapeTerm(DCosine))
        == Eval(F, e, Trig(1, 2))
  {
    EvalPhase(F, e);
    hide Times, Phase;
    var s, c, k := SinAt(F, e), CosAt(F, e), Val(e, K);
    assert Eval(F, e, Sin(Phase())) == s && Eval(F, e, Cos(Phase())) == c && Eval(F, e, Var(K)) == k;
    assert Eval(F, e, Neg(Var(K))) == Times(-1.0, k);
    hide Trig;
    EvalTrig(F, e, 0, 0);
    EvalTrig(F, e, 0, 1);
    EvalTrig(F, e, 1, 1);
    EvalTrig(F, e, 1, 2);
    assert RealPower(k, 0) == 1.0 && RealPower(k, 1) == Times(k, 1.0);
    TimesOne(k);
    TimesOne(s);
    TimesOne(c);
    NegatedProduct(k, s);
  }

  lemma NegatedProduct(k: real, s: real)
    ensures Times(Times(-1.0, k), s) == Times(k, -s)
  {
  }

  /** Every coefficient, times p!, is the p-th derivative of its shape at z0: for every kind, order and point. */
  lemma CoefficientsAreDerivatives(F: Functions, e: Env, kind: Kind, p: nat)
    requires Lawful(F) && Z in e
    ensures Times(Factorial(p), Coefficient(kind, Val(e, K), SinAt(F, e), CosAt(F, e), p))
         == Eval(F, e, Nth(ShapeTerm(kind), Z, p))
  {
    var s, c, k := SinAt(F, e), CosAt(F, e), Val(e, K);
    RawIsDerivative(F, e, kind, p);
    hide Lawful, Eval, Der, Nth, Raw, ShapeTerm;
    ClearFactorial(Raw(kind, k, s, c, p), Factorial(p));
  }

  lemma ClearFactorial(v: real, f: real)
    requires f > 0.0
    ensures Times(f, Over(v, f)) == v && Times(f, Over(v, f) - 0.0) == v
    ensures f == 1.0 ==> Times(f, Over(v, f) - 1.0) == v - 1.0
  {
  }

  lemma RawIsDerivative(F: Functions, e: Env, kind: Kind, p: nat)
    requires Lawful(F) && Z in e
    ensures Eval(F, e, Nth(ShapeTerm(kind), Z, p))
         == Raw(kind, Val(e, K), SinAt(F, e), CosAt(F, e), p) - Fold(kind, p)
  {
    hide Lawful, Same, Entire, Eval, Der, Nth, Times, RealPower, SinAt, CosAt, Cycle, TrigValue, ShapeTerm;
    SineShapes(F);
    ShapeEntire(kind);
    RawIsTrig(F, e, p);
    match kind
    case Const => ConstantDerivatives(F, e, p);
    case Sine => NthShape(F, e, ShapeTerm(kind), 0, 0, p);
    case Cosine => NthShape(F, e, ShapeTerm(kind), 0, 1, p);
    case Folded => FoldedCosine(F, e, p);
    case DSine => NthShape(F, e, ShapeTerm(kind), 1, 1, p);
    case DCosine => NthShape(F, e, ShapeTerm(kind), 1, 2, p);
  }

  /** The list's formulas are powers of k times the cycle. */
  lemma RawIsTrig(F: Functions, e: Env, p: nat)
    ensures var s, c, k := SinAt(F, e), CosAt(F, e), Val(e, K);
            && Raw(Sine, k, s, c, p) == TrigValue(F, e, p, p)
            && Raw(Cosine, k, s, c, p) == Raw(Folded, k, s, c, p) == TrigValue(F, e, p, p + 1)
            && Raw(DSine, k, s, c, p) == TrigValue(F, e, p + 1, p + 1)
            && Raw(DCosine, k, s, c, p) == TrigValue(F, e, p + 1, p + 2)
  {
    hide Times, RealPower, SinAt, CosAt;
    NegatedFactors(RealPower(Val(e, K), p + 1), Cycle(SinAt(F, e), CosAt(F, e), p));
  }

  lemma NegatedFactors(x: real, y: real)
    ensures Times(-x, y) == Times(x, -y)
  {
  }

  lemma {:induction false} ConstantDerivatives(F: Functions, e: Env, p: nat)
    ensures Nth(ShapeTerm(Const), Z, p) == Num(if p == 0 then 1.0 else 0.0)
    ensures Eval(F, e, Nth(ShapeTerm(Const), Z, p)) == if p == 0 then 1.0 else 0.0
  {
    if p > 0 { ConstantDerivatives(F, e, p - 1); }
  }

  /** cos - 1 has the derivatives of cos, save at order 0. */
  lemma FoldedCosine(F: Functions, e: Env, p: nat)
    requires Lawful(F) && Z in e
    ensures Eval(F, e, Nth(ShapeTerm(Folded), Z, p)) == TrigValue(F, e, p, p + 1) - (if p == 0 then 1.0 else 0.0)
  {
    hide Lawful, Times, RealPower, SinAt, CosAt, Cycle, TrigValue;
    var folded, cosine := ShapeTerm(Folded), ShapeTerm(Cosine);
    SineShapes(F);
    ShapeEntire(Folded);
    ShapeEntire(Cosine);
    hide Entire, Same, ShapeTerm;
    NthShape(F, e, cosine, 0, 1, p);
    if p == 0 {
      EvalFolded(F, e);
    } else {
      FoldedRate(F);
      EntireDiff(folded, Z);
      EntireDiff(cosine, Z);
      NthOfDiff(folded, Z, p - 1);
      NthOfDiff(cosine, Z, p - 1);
      hide Der, Eval;
      SameNth(F, Diff(folded, Z), Diff(cosine, Z), p - 1);
      SameAt(F, e, Nth(Diff(folded, Z), Z, p - 1), Nth(Diff(cosine, Z), Z, p - 1));
    }
  }

  lemma EvalFolded(F: Functions, e: Env)
    ensures Eval(F, e, ShapeTerm(Folded)) == Eval(F, e, ShapeTerm(Cosine)) - 1.0
  {
    hide Times;
    assert ShapeTerm(Folded) == Add(ShapeTerm(Cosine), Num(-1.0));
  }

  lemma FoldedRate(F: Functions)
    ensures Same(F, Diff(ShapeTerm(Folded), Z), Diff(ShapeTerm(Cosine), Z))
  {
    hide Eval, Der;
    forall e: Env | Z in e ensures Eval(F, e, Diff(ShapeTerm(Folded), Z)) == Eval(F, e, Diff(ShapeTerm(Cosine), Z)) {
      EvalDer(F, e, ShapeTerm(Folded), map[Z := Num(1.0)]);
      EvalDer(F, e, Num(-1.0), map[Z := Num(1.0)]);
    }
  }

  // ---------------------------------------------------------------- the series laws

  /** The derivative lists are the term-by-term derivatives, and sine and cosine drive each other. */
  lemma TermByTerm(k: real, s: real, c: real, p: nat)
    ensures Times((p + 1) as real, Coefficient(Sine, k, s, c, p + 1)) == Coefficient(DSine, k, s, c, p)
    ensures Times((p + 1) as real, Coefficient(Folded, k, s, c, p + 1)) == Coefficient(DCosine, k, s, c, p)
    ensures Times((p + 1) as real, Coefficient(Cosine, k, s, c, p + 1)) == Coefficient(DCosine, k, s, c, p)
    ensures Coefficient(DSine, k, s, c, p) == Times(k, Coefficient(Cosine, k, s, c, p))
    ensures Coefficient(DCosine, k, s, c, p) == -Times(k, Coefficient(Sine, k, s, c, p))
  {
    var q, f, n, u, v := RealPower(k, p), Factorial(p), (p + 1) as real, Cycle(s, c, p), Cycle(c, -s, p);
    CoefficientForms(k, s, c, p);
    hide Coefficient, Times, RealPower, Cycle, Over, Factorial;
    LowerOrder(k, q, v, f, n);
    LowerOrder(k, q, -u, f, n);
    NegatedRight(q, u);
    NegatedOver(Times(q, u), f);
    NegatedRight(k, Over(Times(q, u), f));
  }

  /** The entries of one order, over powers of k, the cycle and a factorial. */
  lemma CoefficientForms(k: real, s: real, c: real, p: nat)
    ensures var q, f, n, u, v := RealPower(k, p), Factorial(p), (p + 1) as real, Cycle(s, c, p), Cycle(c, -s, p);
            && Times(f, n) > 0.0
            && Coefficient(Sine, k, s, c, p + 1) == Over(Times(Times(k, q), v), Times(f, n))
            && Coefficient(Cosine, k, s, c, p + 1) == Over(Times(Times(k, q), -u), Times(f, n))
            && Coefficient(Folded, k, s, c, p + 1) == Over(Times(Times(k, q), -u), Times(f, n))
            && Coefficient(DSine, k, s, c, p) == Over(Times(Times(k, q), v), f)
            && Coefficient(DCosine, k, s, c, p) == Over(Times(Times(k, q), -u), f)
            && Coefficient(Sine, k, s, c, p) == Over(Times(q, u), f)
            && Coefficient(Cosine, k, s, c, p) == Over(Times(q, v), f)
  {
    var q, f, n, u, v := RealPower(k, p), Factorial(p), (p + 1) as real, Cycle(s, c, p), Cycle(c, -s, p);
    assert Cycle(s, c, p + 1) == v && Cycle(c, -s, p + 1) == -u;
    hide Times, Over, Cycle;
    assert Factorial(p + 1) == Times(f, n) by { assert p + 1 - 1 == p; }
    assert RealPower(k, p + 1) == Times(k, q);
    NegatedFactors(Times(k, q), u);
  }

  lemma LowerOrder(k: real, q: real, v: real, f: real, n: real)
    requires f > 0.0 && n > 0.0 && Times(f, n) > 0.0
    ensures Times(n, Over(Times(Times(k, q), v), Times(f, n))) == Over(Times(Times(k, q), v), f)
    ensures Over(Times(Times(k, q), v), f) == Times(k, Over(Times(q, v), f))
  {
    var w := Times(Times(k, q), v);
    hide Over, Times;
    OverTimes(w, Times(f, n));
    OverTimes(w, f);
    OverTimes(Times(q, v), f);
    assert Times(Times(n, Over(w, Times(f, n))), f) == w by { Regroup(n, Over(w, Times(f, n)), f); }
    FactorUnique(Times(n, Over(w, Times(f, n))), Over(w, f), f);
    TimesAssociative(k, q, v);
    TimesAssociative(k, Over(Times(q, v), f), f);
    FactorUnique(Over(w, f), Times(k, Over(Times(q, v), f)), f);
  }

  lemma Regroup(n: real, x: real, f: real)
    ensures Times(Times(n, x), f) == Times(x, Times(f, n))
  {
  }

  lemma NegatedOver(x: real, f: real)
    requires f > 0.0
    ensures Over(-x, f) == -Over(x, f)
  {
  }

  lemma NegatedRight(k: real, x: real)
    ensures Times(k, -x) == -Times(k, x)
  {
  }

  /** The first m terms of the order-n coefficient of sin^2 + cos^2. */
  function SquareSum(k: real, s: real, c: real, n: nat, m: nat): real
    requires m <= n + 1
  {
    if m == 0 then 0.0
    else SquareSum(k, s, c, n, m - 1)
         + Times(Coefficient(Sine, k, s, c, m - 1), Coefficient(Sine, k, s, c, n - (m - 1)))
         + Times(Coefficient(Cosine, k, s, c, m - 1), Coefficient(Cosine, k, s, c, n - (m - 1)))
  }

  /** What is left over after m terms, in closed form: the sum telescopes. */
  function Leftover(k: real, s: real, c: real, n: nat, m: nat): real
    requires m <= n
  {
    if m == 0 then 0.0
    else Times(k, Times(Coefficient(Sine, k, s, c, m - 1), Coefficient(Cosine, k, s, c, n - m))
                  - Times(Coefficient(Cosine, k, s, c, m - 1), Coefficient(Sine, k, s, c, n - m)))
  }

  lemma {:induction false} Telescopes(k: real, s: real, c: real, n: nat, m: nat)
    requires m <= n
    ensures Times(n as real, SquareSum(k, s, c, n, m)) == Leftover(k, s, c, n, m)
  {
    hide Times, Coefficient;
    TimesZero(n as real);
    if m > 0 {
      Telescopes(k, s, c, n, m - 1);
      var i := m - 1;
      var j := n - i;
      TermByTerm(k, s, c, j - 1);
      if i > 0 { TermByTerm(k, s, c, i - 1); }
      var si, ci, sj, cj := Coefficient(Sine, k, s, c, i), Coefficient(Cosine, k, s, c, i),
          Coefficient(Sine, k, s, c, j), Coefficient(Cosine, k, s, c, j);
      var sp, cp := Coefficient(Sine, k, s, c, j - 1), Coefficient(Cosine, k, s, c, j - 1);
      assert n as real == i as real + j as real;
      if i > 0 {
        StepOf(i as real, j as real, k, SquareSum(k, s, c, n, i), si, ci, sj, cj,
               Coefficient(Sine, k, s, c, i - 1), Coefficient(Cosine, k, s, c, i - 1), sp, cp);
      } else {
        FirstStep(j as real, k, si, ci, sj, cj, sp, cp);
      }
    }
  }

  lemma StepOf(i: real, j: real, k: real, sum: real, si: real, ci: real, sj: real, cj: real,
               sq: real, cq: real, sp: real, cp: real)
    requires Times(i, si) == Times(k, cq) && Times(i, ci) == -Times(k, sq)
    requires Times(j, sj) == Times(k, cp) && Times(j, cj) == -Times(k, sp)
    requires Times(i + j, sum) == Times(k, Times(sq, cj) - Times(cq, sj))
    ensures Times(i + j, sum + Times(si, sj) + Times(ci, cj)) == Times(k, Times(si, cp) - Times(ci, sp))
  {
    assert i * si * sj == k * cq * sj && i * ci * cj == -(k * sq * cj);
    assert si * (j * sj) == si * (k * cp) && ci * (j * cj) == -(ci * (k * sp));
  }

  lemma FirstStep(j: real, k: real, si: real, ci: real, sj: real, cj: real, sp: real, cp: real)
    requires Times(j, sj) == Times(k, cp) && Times(j, cj) == -Times(k, sp)
    ensures Times(j, 0.0 + Times(si, sj) + Times(ci, cj)) == Times(k, Times(si, cp) - Times(ci, sp))
  {
    assert si * (j * sj) == si * (k * cp) && ci * (j * cj) == -(ci * (k * sp));
  }

  /** sin^2 + cos^2 as a Cauchy product: s^2 + c^2 at order 0 and nothing at any later order. */
  lemma Pythagoras(k: real, s: real, c: real, n: nat)
    ensures SquareSum(k, s, c, n, n + 1) == if n == 0 then Times(s, s) + Times(c, c) else 0.0
  {
    if n == 0 {
      OrderZero(k, s, c);
    } else {
      hide Times, Coefficient;
      Telescopes(k, s, c, n, n);
      TermByTerm(k, s, c, n - 1);
      var i := n - 1;
      LastStep(n as real, k, SquareSum(k, s, c, n, n), Coefficient(Sine, k, s, c, n), Coefficient(Cosine, k, s, c, n),
               Coefficient(Sine, k, s, c, 0), Coefficient(Cosine, k, s, c, 0),
               Coefficient(Sine, k, s, c, i), Coefficient(Cosine, k, s, c, i));
    }
  }

  lemma OrderZero(k: real, s: real, c: real)
    ensures SquareSum(k, s, c, 0, 1) == Times(s, s) + Times(c, c)
  {
    assert Factorial(0) == 1.0 && RealPower(k, 0) == 1.0;
    assert Coefficient(Sine, k, s, c, 0) == s && Coefficient(Cosine, k, s, c, 0) == c;
    hide Coefficient, Times;
    assert SquareSum(k, s, c, 0, 0) == 0.0;
  }

  lemma LastStep(n: real, k: real, sum: real, sn: real, cn: real, s0: real, c0: real, sq: real, cq: real)
    requires n > 0.0
    requires Times(n, sn) == Times(k, cq) && Times(n, cn) == -Times(k, sq)
    requires Times(n, sum) == Times(k, Times(sq, c0) - Times(cq, s0))
    ensures sum + Times(sn, s0) + Times(cn, c0) == 0.0
  {
    assert n * sn * s0 == k * cq * s0 && n * cn * c0 == -(k * sq * c0);
    assert n * (sum + sn * s0 + cn * c0) == 0.0;
  }
}
