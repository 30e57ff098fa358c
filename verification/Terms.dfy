/** Expressions in several real symbols, their formal derivatives, and what those mean.

    `Der` is the textbook rewriting: sums, products, reciprocals and the chain rule through the named
    functions.  `Sound` says that it computes the derivative of the function the expression denotes, along
    any curve through the symbols; a partial derivative moves one symbol, a total derivative moves several. */
module Terms {
  import opened Calculus

  datatype Sym = U | K | R | Rho | Zeta | Xi | Z | A | Beta | Lo | Hi

  datatype Term =
    | Num(value: real)
    | Var(sym: Sym)
    | Add(left: Term, right: Term)
    | Mul(left: Term, right: Term)
    | Inv(arg: Term)
    | Sqrt(arg: Term)
    | Sin(arg: Term)
    | Cos(arg: Term)
    | Asinh(arg: Term)

  /** The functions an expression names.  `Lawful` is all that is ever assumed of them. */
  datatype Functions = Functions(sqrt: Fn, sin: Fn, cos: Fn, asinh: Fn)

  ghost predicate LawfulAt(F: Functions, x: real) {
    && HasDeriv(F.sin, x, F.cos.At(x))
    && HasDeriv(F.cos, x, -F.sin.At(x))
    && HasDeriv(F.asinh, x, Recip(F.sqrt.At(1.0 + Times(x, x))))
  }

  ghost predicate Lawful(F: Functions) {
    IsRoot(F.sqrt) && forall x :: LawfulAt(F, x)
  }

  type Env = map<Sym, real>

  function Val(e: Env, v: Sym): real {
    if v in e then e[v] else 0.0
  }

  ghost function Eval(F: Functions, e: Env, t: Term): real {
    match t
    case Num(c) => c
    case Var(v) => Val(e, v)
    case Add(l, r) => Eval(F, e, l) + Eval(F, e, r)
    case Mul(l, r) => Times(Eval(F, e, l), Eval(F, e, r))
    case Inv(a) => Recip(Eval(F, e, a))
    case Sqrt(a) => F.sqrt.At(Eval(F, e, a))
    case Sin(a) => F.sin.At(Eval(F, e, a))
    case Cos(a) => F.cos.At(Eval(F, e, a))
    case Asinh(a) => F.asinh.At(Eval(F, e, a))
  }

  /** No reciprocal of zero, and roots of positive numbers only. */
  ghost predicate Defined(F: Functions, e: Env, t: Term) {
    match t
    case Num(_) => true
    case Var(_) => true
    case Add(l, r) => Defined(F, e, l) && Defined(F, e, r)
    case Mul(l, r) => Defined(F, e, l) && Defined(F, e, r)
    case Inv(a) => Defined(F, e, a) && Eval(F, e, a) != 0.0
    case Sqrt(a) => Defined(F, e, a) && Eval(F, e, a) > 0.0
    case Sin(a) => Defined(F, e, a)
    case Cos(a) => Defined(F, e, a)
    case Asinh(a) => Defined(F, e, a)
  }

  function Neg(t: Term): Term { Mul(Num(-1.0), t) }

  function Sub(s: Term, t: Term): Term { Add(s, Neg(t)) }

  function Pow(t: Term, n: nat): Term {
    if n == 0 then Num(1.0) else Mul(t, Pow(t, n - 1))
  }

  /** The derivative of `t` when each symbol `v` moves at the rate `rates[v]` and the others stay. */
  function Der(t: Term, rates: map<Sym, Term>): Term {
    match t
    case Num(_) => Num(0.0)
    case Var(v) => if v in rates then rates[v] else Num(0.0)
    case Add(l, r) => Add(Der(l, rates), Der(r, rates))
    case Mul(l, r) => Add(Mul(Der(l, rates), r), Mul(l, Der(r, rates)))
    case Inv(a) => Mul(Neg(Mul(Inv(a), Inv(a))), Der(a, rates))
    case Sqrt(a) => Mul(Mul(Num(0.5), Inv(Sqrt(a))), Der(a, rates))
    case Sin(a) => Mul(Cos(a), Der(a, rates))
    case Cos(a) => Mul(Neg(Sin(a)), Der(a, rates))
    case Asinh(a) => Mul(Inv(Sqrt(Add(Num(1.0), Mul(a, a)))), Der(a, rates))
  }

  /** The partial derivative in one symbol. */
  function Diff(t: Term, v: Sym): Term {
    Der(t, map[v := Num(1.0)])
  }

  /** n formal derivatives in one symbol. */
  function Nth(t: Term, v: Sym, n: nat): Term {
    if n == 0 then t else Diff(Nth(t, v, n - 1), v)
  }

  /** The value of a derivative, from the values and derivatives of the parts. */
  ghost function DerValue(F: Functions, e: Env, t: Term, rates: map<Sym, Term>): real {
    match t
    case Num(_) => 0.0
    case Var(v) => if v in rates then Eval(F, e, rates[v]) else 0.0
    case Add(l, r) => Eval(F, e, Der(l, rates)) + Eval(F, e, Der(r, rates))
    case Mul(l, r) => Times(Eval(F, e, Der(l, rates)), Eval(F, e, r)) + Times(Eval(F, e, l), Eval(F, e, Der(r, rates)))
    case _ => Times(OuterRate(F, e, t), Eval(F, e, Der(t.arg, rates)))
  }

  predicate IsUnary(t: Term) {
    t.Inv? || t.Sqrt? || t.Sin? || t.Cos? || t.Asinh?
  }

  /** The derivative of a named function at the value of its argument. */
  ghost function OuterRate(F: Functions, e: Env, t: Term): real
    requires IsUnary(t)
  {
    var x := Eval(F, e, t.arg);
    match t
    case Inv(_) => InvRate(x)
    case Sqrt(_) => 0.5 * Recip(F.sqrt.At(x))
    case Sin(_) => F.cos.At(x)
    case Cos(_) => -F.sin.At(x)
    case Asinh(_) => AsinhRate(F, x)
  }

  function InvRate(x: real): real { Times(-Recip(x), Recip(x)) }

  ghost function AsinhRate(F: Functions, x: real): real { Recip(F.sqrt.At(1.0 + Times(x, x))) }

  lemma EvalOnePlusSquare(F: Functions, e: Env, a: Term)
    ensures Eval(F, e, Add(Num(1.0), Mul(a, a))) == 1.0 + Times(Eval(F, e, a), Eval(F, e, a))
  {
    hide Times;
    assert Eval(F, e, Mul(a, a)) == Times(Eval(F, e, a), Eval(F, e, a));
  }

  lemma EvalDer(F: Functions, e: Env, t: Term, rates: map<Sym, Term>)
    ensures Eval(F, e, Der(t, rates)) == DerValue(F, e, t, rates)
  {
    hide Recip, Times;
    match t
    case Num(_) =>
    case Var(_) =>
    case Add(_, _) =>
    case Mul(l, r) =>
      assert Eval(F, e, Mul(Der(l, rates), r)) == Times(Eval(F, e, Der(l, rates)), Eval(F, e, r));
    case Inv(a) =>
      assert Eval(F, e, Mul(Inv(a), Inv(a))) == Times(Recip(Eval(F, e, a)), Recip(Eval(F, e, a)));
      TimesNegate(Recip(Eval(F, e, a)), Recip(Eval(F, e, a)));
      assert Eval(F, e, Neg(Mul(Inv(a), Inv(a)))) == InvRate(Eval(F, e, a));
      assert Der(t, rates) == Mul(Neg(Mul(Inv(a), Inv(a))), Der(a, rates));
    case Sqrt(a) =>
      assert Eval(F, e, Inv(Sqrt(a))) == Recip(F.sqrt.At(Eval(F, e, a)));
      TimesHalf(Recip(F.sqrt.At(Eval(F, e, a))));
      assert Eval(F, e, Mul(Num(0.5), Inv(Sqrt(a)))) == 0.5 * Recip(F.sqrt.At(Eval(F, e, a)));
    case Sin(_) =>
    case Cos(a) =>
      TimesNegate(F.sin.At(Eval(F, e, a)), 1.0);
      assert Eval(F, e, Neg(Sin(a))) == -F.sin.At(Eval(F, e, a));
    case Asinh(a) =>
      EvalOnePlusSquare(F, e, a);
      assert Eval(F, e, Inv(Sqrt(Add(Num(1.0), Mul(a, a))))) == AsinhRate(F, Eval(F, e, a));
  }

  lemma EvalNum(F: Functions, e: Env, c: real)
    ensures Eval(F, e, Num(c)) == c
  {
  }

  lemma TimesNegate(p: real, q: real)
    ensures Times(-1.0, Times(p, q)) == Times(-p, q)
    ensures Times(-1.0, p) == -p
  {
  }

  lemma TimesHalf(p: real)
    ensures Times(0.5, p) == 0.5 * p
  {
  }

  // ---------------------------------------------------------------- curves

  type Path = map<Sym, Fn>

  ghost function EnvAt(path: Path, s: real): Env {
    map v | v in path :: path[v].At(s)
  }

  /** The function of the curve parameter that `t` denotes along `path`. */
  ghost function Along(F: Functions, path: Path, t: Term): Fn {
    match t
    case Num(c) => Constant(c)
    case Var(v) => if v in path then path[v] else Constant(0.0)
    case Add(l, r) => Sum(Along(F, path, l), Along(F, path, r))
    case Mul(l, r) => Product(Along(F, path, l), Along(F, path, r))
    case Inv(a) => Compose(Reciprocal, Along(F, path, a))
    case Sqrt(a) => Compose(F.sqrt, Along(F, path, a))
    case Sin(a) => Compose(F.sin, Along(F, path, a))
    case Cos(a) => Compose(F.cos, Along(F, path, a))
    case Asinh(a) => Compose(F.asinh, Along(F, path, a))
  }

  ghost predicate Moves(F: Functions, path: Path, s: real, rates: map<Sym, Term>, v: Sym)
    requires v in path
  {
    HasDeriv(path[v], s, if v in rates then Eval(F, EnvAt(path, s), rates[v]) else 0.0)
  }

  /** `rates` are the derivatives of the curve's components at `s`. */
  ghost predicate Tangent(F: Functions, path: Path, s: real, rates: map<Sym, Term>) {
    rates.Keys <= path.Keys && forall v | v in path :: Moves(F, path, s, rates, v)
  }

  lemma {:induction false} AlongAt(F: Functions, path: Path, t: Term, s: real)
    ensures Along(F, path, t).At(s) == Eval(F, EnvAt(path, s), t)
  {
    match t
    case Num(_) =>
    case Var(_) =>
    case Add(l, r) => AlongAt(F, path, l, s); AlongAt(F, path, r, s);
    case Mul(l, r) => AlongAt(F, path, l, s); AlongAt(F, path, r, s);
    case Inv(a) => AlongAt(F, path, a, s);
    case Sqrt(a) => AlongAt(F, path, a, s);
    case Sin(a) => AlongAt(F, path, a, s);
    case Cos(a) => AlongAt(F, path, a, s);
    case Asinh(a) => AlongAt(F, path, a, s);
  }

  /** The chain rule for one of the named functions applied to an expression. */
  lemma ComposeSound(F: Functions, path: Path, s: real, f: Fn, df: real, a: Term, da: real)
    requires HasDeriv(f, Eval(F, EnvAt(path, s), a), df)
    requires HasDeriv(Along(F, path, a), s, da)
    ensures HasDeriv(Compose(f, Along(F, path, a)), s, Times(df, da))
  {
    hide HasDeriv, Times;
    AlongAt(F, path, a, s);
    DerivCompose(f, Along(F, path, a), s, df, da);
  }

  lemma UnarySound(F: Functions, path: Path, s: real, t: Term, da: real)
    requires Lawful(F) && Defined(F, EnvAt(path, s), t) && IsUnary(t)
    requires HasDeriv(Along(F, path, t.arg), s, da)
    ensures HasDeriv(Along(F, path, t), s, Times(OuterRate(F, EnvAt(path, s), t), da))
  {
    hide HasDeriv, Recip, LawfulAt, EnvAt, IsRoot, Times;
    var x := Eval(F, EnvAt(path, s), t.arg);
    match t
    case Inv(a) =>
      DerivReciprocal(x);
      ComposeSound(F, path, s, Reciprocal, InvRate(x), a, da);
    case Sqrt(a) =>
      DerivRoot(F.sqrt, x);
      ComposeSound(F, path, s, F.sqrt, 0.5 * Recip(F.sqrt.At(x)), a, da);
    case Sin(a) =>
      LawsAt(F, x);
      ComposeSound(F, path, s, F.sin, F.cos.At(x), a, da);
    case Cos(a) =>
      LawsAt(F, x);
      ComposeSound(F, path, s, F.cos, -F.sin.At(x), a, da);
    case Asinh(a) =>
      LawsAt(F, x);
      ComposeSound(F, path, s, F.asinh, AsinhRate(F, x), a, da);
  }

  /** Formal differentiation computes the derivative along every curve. */
  lemma {:induction false} Sound(F: Functions, path: Path, s: real, rates: map<Sym, Term>, t: Term)
    requires Lawful(F) && Tangent(F, path, s, rates) && Defined(F, EnvAt(path, s), t)
    ensures HasDeriv(Along(F, path, t), s, Eval(F, EnvAt(path, s), Der(t, rates)))
  {
    hide HasDeriv, Recip, Lawful, EnvAt, Times, OuterRate, Eval, Der;
    var e := EnvAt(path, s);
    EvalDer(F, e, t, rates);
    match t
    case Num(c) => DerivConstant(c, s);
    case Var(v) =>
      if v in path { assert Moves(F, path, s, rates, v); } else { DerivConstant(0.0, s); }
    case Add(l, r) =>
      Sound(F, path, s, rates, l);
      Sound(F, path, s, rates, r);
      DerivSum(Along(F, path, l), Along(F, path, r), s, Eval(F, e, Der(l, rates)), Eval(F, e, Der(r, rates)));
    case Mul(l, r) =>
      Sound(F, path, s, rates, l);
      Sound(F, path, s, rates, r);
      AlongAt(F, path, l, s);
      AlongAt(F, path, r, s);
      DerivProduct(Along(F, path, l), Along(F, path, r), s, Eval(F, e, Der(l, rates)), Eval(F, e, Der(r, rates)));
    case _ =>
      Sound(F, path, s, rates, t.arg);
      UnarySound(F, path, s, t, Eval(F, e, Der(t.arg, rates)));
  }

  lemma LawsAt(F: Functions, x: real)
    requires Lawful(F)
    ensures HasDeriv(F.sin, x, F.cos.At(x))
    ensures HasDeriv(F.cos, x, -F.sin.At(x))
    ensures HasDeriv(F.asinh, x, AsinhRate(F, x))
  {
    hide HasDeriv, IsRoot, Times;
    assert LawfulAt(F, x);
  }

  /** A formal derivative is defined wherever the expression is. */
  lemma {:induction false} DerDefined(F: Functions, e: Env, rates: map<Sym, Term>, t: Term)
    requires Lawful(F) && Defined(F, e, t)
    requires forall v | v in rates :: Defined(F, e, rates[v])
    ensures Defined(F, e, Der(t, rates))
  {
    hide LawfulAt, Recip, Times, RootAt;
    match t
    case Num(_) =>
    case Var(_) =>
    case Add(l, r) => DerDefined(F, e, rates, l); DerDefined(F, e, rates, r);
    case Mul(l, r) =>
      DerDefined(F, e, rates, l);
      DerDefined(F, e, rates, r);
      assert Defined(F, e, Mul(Der(l, rates), r));
    case Inv(a) =>
      DerDefined(F, e, rates, a);
      assert Defined(F, e, Mul(Inv(a), Inv(a)));
      assert Defined(F, e, Neg(Mul(Inv(a), Inv(a))));
      assert Der(t, rates) == Mul(Neg(Mul(Inv(a), Inv(a))), Der(a, rates));
    case Sqrt(a) =>
      DerDefined(F, e, rates, a);
      RootPositive(F, Eval(F, e, a));
      assert Defined(F, e, Inv(Sqrt(a)));
      assert Defined(F, e, Mul(Num(0.5), Inv(Sqrt(a))));
    case Sin(a) => DerDefined(F, e, rates, a);
    case Cos(a) =>
      DerDefined(F, e, rates, a);
      assert Defined(F, e, Neg(Sin(a)));
    case Asinh(a) =>
      DerDefined(F, e, rates, a);
      var x := Eval(F, e, a);
      var sq := Add(Num(1.0), Mul(a, a));
      assert Defined(F, e, Mul(a, a)) && Eval(F, e, Mul(a, a)) == Times(x, x);
      SquareNonnegative(x);
      assert Defined(F, e, sq);
      EvalOnePlusSquare(F, e, a);
      RootPositive(F, 1.0 + Times(x, x));
      assert Defined(F, e, Sqrt(sq)) && Eval(F, e, Sqrt(sq)) == F.sqrt.At(1.0 + Times(x, x));
      assert Defined(F, e, Inv(Sqrt(sq)));
  }

  lemma SquareNonnegative(x: real)
    ensures Times(x, x) >= 0.0
  {
  }

  lemma RootPositive(F: Functions, x: real)
    requires Lawful(F) && x > 0.0
    ensures F.sqrt.At(x) > 0.0 && Times(F.sqrt.At(x), F.sqrt.At(x)) == x
  {
    hide LawfulAt, Times;
    assert RootAt(F.sqrt, x);
  }

  /** The curve that moves the symbol `v` alone. */
  ghost function Line(e: Env, v: Sym): Path {
    map w | w in e :: if w == v then Identity else Constant(e[w])
  }

  lemma LineAt(e: Env, v: Sym, x: real)
    requires v in e
    ensures EnvAt(Line(e, v), x) == e[v := x]
  {
  }

  lemma LineTangent(F: Functions, e: Env, v: Sym, x: real)
    requires v in e
    ensures Tangent(F, Line(e, v), x, map[v := Num(1.0)])
  {
    hide HasDeriv;
    var rates := map[v := Num(1.0)];
    var path := Line(e, v);
    forall w | w in path ensures Moves(F, path, x, rates, w) {
      if w == v {
        assert Eval(F, EnvAt(path, x), rates[v]) == 1.0;
        DerivIdentity(x);
      } else {
        DerivConstant(e[w], x);
      }
    }
  }

  /** The partial derivative is the derivative of the function of that one symbol. */
  lemma DiffSound(F: Functions, e: Env, v: Sym, t: Term)
    requires Lawful(F) && v in e && Defined(F, e, t)
    ensures HasDeriv(Along(F, Line(e, v), t), e[v], Eval(F, e, Diff(t, v)))
  {
    hide HasDeriv, Lawful, Tangent, Defined, Eval, Der;
    LineAt(e, v, e[v]);
    assert e[v := e[v]] == e;
    LineTangent(F, e, v, e[v]);
    Sound(F, Line(e, v), e[v], map[v := Num(1.0)], t);
  }

  /** Expressions that agree along a curve near a point have equal derivatives there. */
  lemma DerCongruent(F: Functions, path: Path, s: real, rates: map<Sym, Term>, t: Term, u: Term, radius: real)
    requires Lawful(F) && Tangent(F, path, s, rates) && radius > 0.0
    requires Defined(F, EnvAt(path, s), t) && Defined(F, EnvAt(path, s), u)
    requires forall y :: Abs(y - s) < radius ==> Eval(F, EnvAt(path, y), t) == Eval(F, EnvAt(path, y), u)
    ensures Eval(F, EnvAt(path, s), Der(t, rates)) == Eval(F, EnvAt(path, s), Der(u, rates))
  {
    hide HasDeriv, Lawful, Tangent, Defined, Eval, Der;
    Sound(F, path, s, rates, t);
    Sound(F, path, s, rates, u);
    forall y | Abs(y - s) < radius ensures Along(F, path, t).At(y) == Along(F, path, u).At(y) {
      AlongAt(F, path, t, y);
      AlongAt(F, path, u, y);
    }
    DerivLocal(Along(F, path, t), Along(F, path, u), s, Eval(F, EnvAt(path, s), Der(t, rates)), radius);
    DerivUnique(Along(F, path, u), s, Eval(F, EnvAt(path, s), Der(t, rates)), Eval(F, EnvAt(path, s), Der(u, rates)));
  }

  ghost predicate AgreeAt(F: Functions, e: Env, v: Sym, y: real, t: Term, u: Term) {
    Eval(F, e[v := y], t) == Eval(F, e[v := y], u)
  }

  /** The same for a partial derivative. */
  lemma DiffCongruent(F: Functions, e: Env, v: Sym, t: Term, u: Term, radius: real)
    requires Lawful(F) && v in e && radius > 0.0 && Defined(F, e, t) && Defined(F, e, u)
    requires forall y :: Abs(y - e[v]) < radius ==> AgreeAt(F, e, v, y, t, u)
    ensures Eval(F, e, Diff(t, v)) == Eval(F, e, Diff(u, v))
  {
    hide HasDeriv, Lawful, Tangent, Defined, Eval, Der;
    var s := e[v];
    assert e[v := s] == e;
    LineAt(e, v, s);
    LineTangent(F, e, v, s);
    forall y | Abs(y - s) < radius
      ensures Eval(F, EnvAt(Line(e, v), y), t) == Eval(F, EnvAt(Line(e, v), y), u)
    {
      LineAt(e, v, y);
      assert AgreeAt(F, e, v, y, t, u);
    }
    DerCongruent(F, Line(e, v), s, map[v := Num(1.0)], t, u, radius);
  }

  // ---------------------------------------------------------------- powers

  function RealPower(x: real, n: nat): real {
    if n == 0 then 1.0 else Times(x, RealPower(x, n - 1))
  }

  lemma {:induction false} EvalPow(F: Functions, e: Env, t: Term, n: nat)
    ensures Eval(F, e, Pow(t, n)) == RealPower(Eval(F, e, t), n)
  {
    hide Times;
    if n > 0 { EvalPow(F, e, t, n - 1); }
  }

  /** The derivative of a power. */
  lemma {:induction false} EvalDerPow(F: Functions, e: Env, t: Term, n: nat, rates: map<Sym, Term>)
    ensures Eval(F, e, Der(Pow(t, n + 1), rates))
         == Times(Times((n + 1) as real, RealPower(Eval(F, e, t), n)), Eval(F, e, Der(t, rates)))
  {
    hide Times;
    var x, d := Eval(F, e, t), Eval(F, e, Der(t, rates));
    EvalDer(F, e, Pow(t, n + 1), rates);
    EvalPow(F, e, t, n);
    if n == 0 {
      EvalDer(F, e, Num(1.0), rates);
      TimesOne(1.0);
      TimesOne(d);
      TimesZero(x);
    } else {
      EvalDerPow(F, e, t, n - 1, rates);
      PowRate(n, x, RealPower(x, n - 1), d);
    }
  }

  lemma PowRate(n: nat, x: real, p: real, d: real)
    ensures Times(d, Times(x, p)) + Times(x, Times(Times(n as real, p), d))
         == Times(Times((n + 1) as real, Times(x, p)), d)
  {
    assert (n + 1) as real == n as real + 1.0;
  }

  lemma {:induction false} PowDefined(F: Functions, e: Env, t: Term, n: nat)
    requires Defined(F, e, t)
    ensures Defined(F, e, Pow(t, n))
  {
    if n > 0 { PowDefined(F, e, t, n - 1); }
  }
}
