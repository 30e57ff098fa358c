/** The moments of u^p / sqrt(u^2 + b^2) that carry the singular part of the shape integrals. */
module ShapeMoments {
  import opened Calculus
  import opened MeanValue
  import opened Terms

  /** One entry of the list from the one two places before it. */
  function MomentStep(power: real, b: real, r: real, p: nat, before: real): real
    requires p > 0
  {
    power * r / (p as real) - (p - 1) as real * b * b / (p as real) * before
  }

  /** The p-th entry, from the two seeds asinh(u/b) and r = sqrt(u^2 + b^2). */
  function Moment(u: real, b: real, ash: real, r: real, p: nat): real {
    if p == 0 then ash
    else if p == 1 then r
    else MomentStep(RealPower(u, p - 1), b, r, p, Moment(u, b, ash, r, p - 2))
  }

  method Moments(u: real, b: real, ash: real, r: real, pmax: nat) returns (M: seq<real>)
    ensures |M| == if pmax < 1 then 2 else pmax + 1
    ensures forall p :: 0 <= p < |M| ==> M[p] == Moment(u, b, ash, r, p)
  {
    hide MomentStep;
    M := [ash, r];
    var p := 2;
    while p < pmax + 1
      invariant 2 <= p == |M| && (p <= pmax + 1 || p == 2)
      invariant forall i :: 0 <= i < |M| ==> M[i] == Moment(u, b, ash, r, i)
    {
      M := M + [MomentStep(RealPower(u, p - 1), b, r, p, M[p - 2])];
      p := p + 1;
    }
  }

  /** The entries of odd order do not involve asinh. */
  lemma {:induction false} OddIsAlgebraic(u: real, b: real, ash: real, ash': real, r: real, p: nat)
    requires p % 2 == 1
    ensures Moment(u, b, ash, r, p) == Moment(u, b, ash', r, p)
  {
    hide MomentStep;
    if p > 1 { OddIsAlgebraic(u, b, ash, ash', r, p - 2); }
  }

  // ---------------------------------------------------------------- as expressions in u = U, b = A

  function RTerm(): Term { Sqrt(Add(Mul(Var(U), Var(U)), Mul(Var(A), Var(A)))) }

  function LeadTerm(p: nat): Term
    requires p > 0
  {
    Mul(Num(1.0 / p as real), Mul(Pow(Var(U), p - 1), RTerm()))
  }

  function TailTerm(p: nat, before: Term): Term
    requires p > 0
  {
    Mul(Num(-((p - 1) as real / p as real)), Mul(Mul(Var(A), Var(A)), before))
  }

  function MomentTerm(p: nat): Term {
    if p == 0 then Asinh(Mul(Var(U), Inv(Var(A))))
    else if p == 1 then RTerm()
    else Add(LeadTerm(p), TailTerm(p, MomentTerm(p - 2)))
  }

  ghost predicate MomentPoint(F: Functions, e: Env) {
    Lawful(F) && U in e && A in e && e[A] > 0.0
  }

  ghost function Root(F: Functions, e: Env): real {
    F.sqrt.At(Times(Val(e, U), Val(e, U)) + Times(Val(e, A), Val(e, A)))
  }

  lemma RootLaws(F: Functions, e: Env)
    requires MomentPoint(F, e)
    ensures Root(F, e) > 0.0 && Times(Root(F, e), Root(F, e)) == Times(e[U], e[U]) + Times(e[A], e[A]) > 0.0
    ensures Times(Recip(Root(F, e)), Root(F, e)) == 1.0
  {
    hide Lawful, Times, Recip;
    SquareNonnegative(e[U]);
    TimesPositive(e[A], e[A]);
    RootPositive(F, Times(e[U], e[U]) + Times(e[A], e[A]));
    RecipTimes(Root(F, e));
  }

  lemma EvalR(F: Functions, e: Env)
    requires MomentPoint(F, e)
    ensures Eval(F, e, RTerm()) == Root(F, e) && Defined(F, e, RTerm())
    ensures Eval(F, e, Diff(RTerm(), U)) == Times(e[U], Recip(Root(F, e)))
  {
    hide Lawful, Times, Recip;
    var one := map[U := Num(1.0)];
    var uu, aa := Mul(Var(U), Var(U)), Mul(Var(A), Var(A));
    assert Eval(F, e, Var(U)) == e[U] && Eval(F, e, Var(A)) == e[A] && Eval(F, e, Num(1.0)) == 1.0;
    assert Eval(F, e, uu) == Times(e[U], e[U]) && Eval(F, e, aa) == Times(e[A], e[A]);
    assert Eval(F, e, Add(uu, aa)) == Times(e[U], e[U]) + Times(e[A], e[A]);
    RootLaws(F, e);
    assert Defined(F, e, Var(U)) && Defined(F, e, Var(A));
    assert Defined(F, e, uu) && Defined(F, e, aa);
    assert Defined(F, e, Add(uu, aa));
    hide Eval, Der;
    EvalDer(F, e, RTerm(), one);
    EvalDer(F, e, Add(uu, aa), one);
    EvalDer(F, e, uu, one);
    EvalDer(F, e, aa, one);
    EvalDer(F, e, Var(U), one);
    EvalDer(F, e, Var(A), one);
    RootRate(Recip(Root(F, e)), e[U], e[A]);
  }

  lemma RootRate(i: real, u: real, b: real)
    ensures Times(0.5 * i, Times(1.0, u) + Times(u, 1.0) + (Times(0.0, b) + Times(b, 0.0))) == Times(u, i)
  {
  }

  lemma EvalLead(F: Functions, e: Env, p: nat)
    requires MomentPoint(F, e) && p > 1
    ensures Eval(F, e, LeadTerm(p)) == Times(1.0 / p as real, Times(RealPower(e[U], p - 1), Root(F, e)))
    ensures Defined(F, e, LeadTerm(p))
    ensures Eval(F, e, Diff(LeadTerm(p), U))
         == Times(1.0 / p as real, Times(Times((p - 1) as real, RealPower(e[U], p - 2)), Root(F, e))
                                   + Times(RealPower(e[U], p - 1), Times(e[U], Recip(Root(F, e)))))
  {
    EvalR(F, e);
    hide Lawful, Times, Recip, Root, RTerm, RealPower;
    var one := map[U := Num(1.0)];
    var power, q := Pow(Var(U), p - 1), 1.0 / p as real;
    assert Eval(F, e, Var(U)) == e[U] && Eval(F, e, Num(1.0)) == 1.0;
    EvalPow(F, e, Var(U), p - 1);
    PowDefined(F, e, Var(U), p - 1);
    assert Eval(F, e, Num(q)) == q;
    assert Eval(F, e, Mul(power, RTerm())) == Times(RealPower(e[U], p - 1), Root(F, e));
    assert Eval(F, e, LeadTerm(p)) == Times(q, Times(RealPower(e[U], p - 1), Root(F, e)));
    assert Defined(F, e, Mul(power, RTerm()));
    hide Eval, Der, Pow;
    EvalDer(F, e, LeadTerm(p), one);
    EvalDer(F, e, Num(q), one);
    EvalDer(F, e, Mul(power, RTerm()), one);
    EvalDerPow(F, e, Var(U), p - 2, one);
    EvalDer(F, e, Var(U), one);
    TimesOne(Times((p - 1) as real, RealPower(e[U], p - 2)));
    TimesZero(Eval(F, e, Mul(power, RTerm())));
    TimesSwap(0.0, Eval(F, e, Mul(power, RTerm())));
  }

  lemma EvalTail(F: Functions, e: Env, p: nat, before: Term)
    requires MomentPoint(F, e) && p > 1 && Defined(F, e, before)
    ensures Eval(F, e, TailTerm(p, before))
         == Times(-((p - 1) as real / p as real), Times(Times(e[A], e[A]), Eval(F, e, before)))
    ensures Defined(F, e, TailTerm(p, before))
    ensures Eval(F, e, Diff(TailTerm(p, before), U))
         == Times(-((p - 1) as real / p as real), Times(Times(e[A], e[A]), Eval(F, e, Diff(before, U))))
  {
    hide Lawful, Times;
    var one := map[U := Num(1.0)];
    var aa, c := Mul(Var(A), Var(A)), -((p - 1) as real / p as real);
    assert Eval(F, e, Var(A)) == e[A];
    assert Eval(F, e, aa) == Times(e[A], e[A]);
    assert Eval(F, e, Mul(aa, before)) == Times(Times(e[A], e[A]), Eval(F, e, before));
    assert Eval(F, e, Num(c)) == c;
    assert Defined(F, e, aa);
    assert Defined(F, e, Mul(aa, before));
    hide Eval, Der, Defined;
    EvalDer(F, e, TailTerm(p, before), one);
    EvalDer(F, e, Num(c), one);
    EvalDer(F, e, Mul(aa, before), one);
    EvalDer(F, e, aa, one);
    EvalDer(F, e, Var(A), one);
    ConstantFactors(c, e[A], Times(e[A], e[A]), Eval(F, e, before), Eval(F, e, Mul(aa, before)),
        Eval(F, e, Diff(before, U)));
  }

  lemma ConstantFactors(c: real, a: real, aa: real, m: real, x: real, d: real)
    ensures Times(0.0, x) + Times(c, Times(Times(0.0, a) + Times(a, 0.0), m) + Times(aa, d)) == Times(c, Times(aa, d))
  {
  }

  /** The expressions denote the list, and are defined for every u. */
  lemma {:induction false} EvalMoment(F: Functions, e: Env, p: nat)
    requires MomentPoint(F, e)
    ensures Eval(F, e, MomentTerm(p)) == Moment(e[U], e[A], F.asinh.At(Times(e[U], Recip(e[A]))), Root(F, e), p)
    ensures Defined(F, e, MomentTerm(p))
  {
    EvalR(F, e);
    hide Lawful, Recip, Root, Times, RTerm, LeadTerm, TailTerm, MomentStep;
    if p == 0 {
      assert Eval(F, e, Inv(Var(A))) == Recip(e[A]) && Defined(F, e, Inv(Var(A)));
      assert Eval(F, e, Mul(Var(U), Inv(Var(A)))) == Times(e[U], Recip(e[A]));
      assert Defined(F, e, Mul(Var(U), Inv(Var(A))));
    } else if p > 1 {
      EvalMoment(F, e, p - 2);
      EvalLead(F, e, p);
      EvalTail(F, e, p, MomentTerm(p - 2));
      StepOf(RealPower(e[U], p - 1), e[A], Root(F, e), p, Eval(F, e, MomentTerm(p - 2)));
    }
  }

  lemma StepOf(power: real, b: real, r: real, p: nat, before: real)
    requires p > 0
    ensures Times(1.0 / p as real, Times(power, r)) + Times(-((p - 1) as real / p as real), Times(Times(b, b), before))
         == MomentStep(power, b, r, p, before)
  {
    var q := 1.0 / p as real;
    Quotient(power * r, p as real, q);
    Quotient((p - 1) as real, p as real, q);
    Quotient((p - 1) as real * b * b, p as real, q);
    assert (p - 1) as real * b * b * q * before == (p - 1) as real * q * (b * b * before);
  }

  lemma Quotient(x: real, n: real, q: real)
    requires n != 0.0 && q == 1.0 / n
    ensures x / n == x * q
  {
    assert x / n * n == x && q * n == 1.0;
    assert (x / n - x * q) * n == 0.0;
  }

  // ---------------------------------------------------------------- the derivative of an entry

  /** The algebra of one step: `w` is u^{p-2} / r. */
  lemma StepAlgebra(p: nat, u: real, b: real, r: real, i: real, power: real)
    requires p > 1 && Times(i, r) == 1.0 && Times(r, r) == Times(u, u) + Times(b, b)
    ensures Times(1.0 / p as real, Times(Times((p - 1) as real, power), r) + Times(Times(u, power), Times(u, i)))
            + Times(-((p - 1) as real / p as real), Times(Times(b, b), Times(power, i)))
         == Times(Times(u, Times(u, power)), i)
  {
    var n, m, q, w := p as real, (p - 1) as real, 1.0 / p as real, power * i;
    Quotient(m, n, q);
    RadiusTimes(power, i, r, u, b);
    assert m + 1.0 == n && q * n == 1.0;
    var x, y := w * (u * u), w * (b * b);
    Collect(q, m, x, y);
    assert power * r == x + y;
    assert m * power * r == m * (power * r);
    assert Times(u, power) * (u * i) == x;
    assert Times(b, b) * (power * i) == y;
    assert Times(Times(u, Times(u, power)), i) == x;
    Gather(q, m, power, r, x, y);
  }

  lemma Gather(q: real, m: real, power: real, r: real, x: real, y: real)
    requires power * r == x + y
    ensures Times(q, Times(Times(m, power), r) + x) + Times(-(m * q), y) == q * (m * (x + y) + x) - q * m * y
  {
    assert m * power * r == m * (power * r);
  }

  lemma Collect(q: real, m: real, x: real, y: real)
    requires q * (m + 1.0) == 1.0
    ensures q * (m * (x + y) + x) - q * m * y == x
  {
    calc {
      q * (m * (x + y) + x) - q * m * y;
      q * (m + 1.0) * x;
      x;
    }
  }

  lemma RadiusTimes(power: real, i: real, r: real, u: real, b: real)
    requires i * r == 1.0 && r * r == u * u + b * b
    ensures power * r == power * i * (u * u) + power * i * (b * b)
  {
    var v := i * r;
    calc {
      power * r;
      power * r * v;
      power * i * (r * r);
      power * i * (u * u) + power * i * (b * b);
    }
  }

  /** asinh(u/b) has the derivative 1/r. */
  lemma SeedRate(F: Functions, e: Env)
    requires MomentPoint(F, e)
    ensures Eval(F, e, Diff(MomentTerm(0), U)) == Recip(Root(F, e))
  {
    hide Lawful, Recip, Times;
    var one := map[U := Num(1.0)];
    var ratio, i := Mul(Var(U), Inv(Var(A))), Recip(e[A]);
    assert Eval(F, e, Var(U)) == e[U] && Eval(F, e, Num(1.0)) == 1.0;
    assert Eval(F, e, Inv(Var(A))) == i;
    assert Eval(F, e, ratio) == Times(e[U], i);
    hide Eval, Der;
    EvalDer(F, e, Asinh(ratio), one);
    EvalDer(F, e, ratio, one);
    EvalDer(F, e, Var(U), one);
    EvalDer(F, e, Inv(Var(A)), one);
    EvalDer(F, e, Var(A), one);
    TimesOne(i);
    TimesZero(e[U]);
    TimesZero(InvRate(Eval(F, e, Var(A))));
    var s := F.sqrt.At(1.0 + Times(Times(e[U], i), Times(e[U], i)));
    SquareNonnegative(Times(e[U], i));
    RootPositive(F, 1.0 + Times(Times(e[U], i), Times(e[U], i)));
    RecipTimes(e[A]);
    RecipTimes(s);
    RootLaws(F, e);
    ScaledRoot(e[U], e[A], i, s, Root(F, e));
    ReciprocalOf(Recip(s), s, i, e[A], Recip(Root(F, e)), Root(F, e));
  }

  /** b sqrt(1 + (u/b)^2) is sqrt(u^2 + b^2). */
  lemma ScaledRoot(u: real, b: real, i: real, s: real, r: real)
    requires b > 0.0 && Times(i, b) == 1.0 && s > 0.0 && r > 0.0
    requires Times(s, s) == 1.0 + Times(Times(u, i), Times(u, i)) && Times(r, r) == Times(u, u) + Times(b, b)
    ensures r == Times(b, s)
  {
    var v := i * b;
    assert b * s * (b * s) == r * r by {
      calc {
        b * s * (b * s);
        b * b * (s * s);
        b * b + u * u * (v * v);
      }
    }
    RootUnique(r, b * s);
  }

  lemma ReciprocalOf(si: real, s: real, i: real, b: real, ri: real, r: real)
    requires Times(si, s) == 1.0 && Times(i, b) == 1.0 && Times(ri, r) == 1.0 && r == Times(b, s)
    ensures Times(si, i) == ri
  {
    var v, w := si * s, i * b;
    assert si * i * r == v * w;
    FactorUnique(si * i, ri, r);
  }

  /** Every entry of the list is an antiderivative of its power over the root. */
  lemma {:induction false} MomentRate(F: Functions, e: Env, p: nat)
    requires MomentPoint(F, e)
    ensures Eval(F, e, Diff(MomentTerm(p), U)) == Times(RealPower(e[U], p), Recip(Root(F, e)))
  {
    EvalR(F, e);
    RootLaws(F, e);
    hide Lawful, Recip, Root, Times, RTerm, LeadTerm, TailTerm, MomentStep, Eval;
    if p == 0 {
      SeedRate(F, e);
      TimesOne(Recip(Root(F, e)));
    } else if p == 1 {
      TimesOne(e[U]);
    } else {
      MomentRate(F, e, p - 2);
      EvalMoment(F, e, p - 2);
      EvalLead(F, e, p);
      EvalTail(F, e, p, MomentTerm(p - 2));
      EvalDer(F, e, MomentTerm(p), map[U := Num(1.0)]);
      StepAlgebra(p, e[U], e[A], Root(F, e), Recip(Root(F, e)), RealPower(e[U], p - 2));
    }
  }

  /** As a function of u, entry p has the derivative u^p / sqrt(u^2 + b^2), for every p, u and b > 0. */
  lemma MomentsAreAntiderivatives(F: Functions, e: Env, p: nat)
    requires MomentPoint(F, e)
    ensures HasDeriv(Along(F, Line(e, U), MomentTerm(p)), e[U], Times(RealPower(e[U], p), Recip(Root(F, e))))
  {
    hide Lawful, HasDeriv, Recip, Times, Root;
    EvalMoment(F, e, p);
    MomentRate(F, e, p);
    DiffSound(F, e, U, MomentTerm(p));
  }

  // ---------------------------------------------------------------- the singular part of a shape

  /** c[0] M[0] + c[1] M[1] + ... */
  function Weighted(c: seq<real>, M: seq<real>): real
    requires |c| <= |M|
  {
    if c == [] then 0.0 else Weighted(c[..|c| - 1], M) + Times(c[|c| - 1], M[|c| - 1])
  }

  method SingularPart(coeffs: seq<real>, M1: seq<real>, M2: seq<real>) returns (sing: real)
    requires |coeffs| <= |M1| && |coeffs| <= |M2|
    ensures sing == Weighted(coeffs, M2) - Weighted(coeffs, M1)
  {
    hide Times;
    sing := 0.0;
    var p := 0;
    while p < |coeffs|
      invariant 0 <= p <= |coeffs|
      invariant sing == Weighted(coeffs[..p], M2) - Weighted(coeffs[..p], M1)
    {
      assert coeffs[..p + 1][..p] == coeffs[..p];
      TimesDistributes(M2[p], M1[p], coeffs[p]);
      sing := sing + Times(coeffs[p], M2[p] - M1[p]);
      p := p + 1;
    }
    assert coeffs[..p] == coeffs;
  }

  /** The Taylor polynomial c[0] + c[1] u + c[2] u^2 + ... */
  function PolynomialAt(c: seq<real>, u: real): real {
    if c == [] then 0.0 else PolynomialAt(c[..|c| - 1], u) + Times(c[|c| - 1], RealPower(u, |c| - 1))
  }

  function SeriesTerm(c: seq<real>): Term {
    if c == [] then Num(0.0) else Add(SeriesTerm(c[..|c| - 1]), Mul(Num(c[|c| - 1]), MomentTerm(|c| - 1)))
  }

  ghost predicate IsMomentList(F: Functions, e: Env, M: seq<real>)
    requires MomentPoint(F, e)
  {
    forall p :: 0 <= p < |M| ==> M[p] == Moment(e[U], e[A], F.asinh.At(Times(e[U], Recip(e[A]))), Root(F, e), p)
  }

  /** The weighted list is the value at u of one function, whose derivative is the polynomial over the root:
      the difference of two such values is the integral between them. */
  lemma {:induction false} SingularPartIntegrates(F: Functions, e: Env, c: seq<real>, M: seq<real>)
    requires MomentPoint(F, e) && |c| <= |M| && IsMomentList(F, e, M)
    ensures Eval(F, e, SeriesTerm(c)) == Weighted(c, M) && Defined(F, e, SeriesTerm(c))
    ensures HasDeriv(Along(F, Line(e, U), SeriesTerm(c)), e[U], Times(PolynomialAt(c, e[U]), Recip(Root(F, e))))
  {
    hide Lawful, HasDeriv, Times, Recip, Root, Moment, MomentTerm, Along;
    SeriesRate(F, e, c, M);
    hide SeriesTerm, Der;
    DiffSound(F, e, U, SeriesTerm(c));
  }

  lemma {:induction false} SeriesRate(F: Functions, e: Env, c: seq<real>, M: seq<real>)
    requires MomentPoint(F, e) && |c| <= |M| && IsMomentList(F, e, M)
    ensures Eval(F, e, SeriesTerm(c)) == Weighted(c, M) && Defined(F, e, SeriesTerm(c))
    ensures Eval(F, e, Diff(SeriesTerm(c), U)) == Times(PolynomialAt(c, e[U]), Recip(Root(F, e)))
  {
    hide Lawful, Times, Recip, Root, Moment, MomentTerm, RealPower;
    var one := map[U := Num(1.0)];
    if c == [] {
      EvalDer(F, e, Num(0.0), one);
      TimesZero(Recip(Root(F, e)));
      TimesSwap(0.0, Recip(Root(F, e)));
    } else {
      var n := |c| - 1;
      SeriesRate(F, e, c[..n], M);
      EvalMoment(F, e, n);
      MomentRate(F, e, n);
      var last := Mul(Num(c[n]), MomentTerm(n));
      assert Eval(F, e, last) == Times(c[n], M[n]) && Defined(F, e, last);
      assert SeriesTerm(c) == Add(SeriesTerm(c[..n]), last);
      assert Eval(F, e, SeriesTerm(c)) == Eval(F, e, SeriesTerm(c[..n])) + Eval(F, e, last);
      assert Eval(F, e, Num(c[n])) == c[n];
      hide Eval, Der, SeriesTerm;
      EvalDer(F, e, SeriesTerm(c), one);
      EvalDer(F, e, last, one);
      EvalDer(F, e, Num(c[n]), one);
      var x, i := RealPower(e[U], n), Recip(Root(F, e));
      TimesZero(Eval(F, e, MomentTerm(n)));
      TimesSwap(0.0, Eval(F, e, MomentTerm(n)));
      TimesAssociative(c[n], x, i);
      TimesDistributes(PolynomialAt(c[..n], e[U]), Times(c[n], x), i);
    }
  }

  ghost function MomentList(F: Functions, e: Env, n: nat): (M: seq<real>)
    requires MomentPoint(F, e)
    ensures |M| == n && IsMomentList(F, e, M)
  {
    if n == 0 then []
    else
      MomentList(F, e, n - 1)
      + [Moment(e[U], e[A], F.asinh.At(Times(e[U], Recip(e[A]))), Root(F, e), n - 1)]
  }

  /** At u, `g` changes at the rate of the Taylor polynomial over the root. */
  ghost predicate HasSingularRate(F: Functions, e: Env, c: seq<real>, g: Fn, u: real) {
    HasDeriv(g, u, Times(PolynomialAt(c, u), Recip(Root(F, e[U := u]))))
  }

  lemma SeriesSharesRate(F: Functions, e: Env, c: seq<real>, g: Fn, u: real)
    requires MomentPoint(F, e) && HasSingularRate(F, e, c, g, u)
    ensures SharesRate(Along(F, Line(e, U), SeriesTerm(c)), g, u)
  {
    hide Lawful, HasDeriv, Times, Recip, Root, Moment, MomentTerm, Along, SeriesTerm, IsMomentList;
    SingularPartIntegrates(F, e[U := u], c, MomentList(F, e[U := u], |c|));
    assert Line(e[U := u], U) == Line(e, U);
  }

  /** The difference of the weighted lists at two limits is the definite integral of the Taylor polynomial over the
      root: whatever function has that integrand for its derivative changes by it. */
  lemma SingularPartIsTheIntegral(F: Functions, e: Env, c: seq<real>, u1: real, u2: real, M1: seq<real>,
                                  M2: seq<real>, g: Fn)
    requires Complete() && MomentPoint(F, e) && |c| <= |M1| && |c| <= |M2|
    requires IsMomentList(F, e[U := u1], M1) && IsMomentList(F, e[U := u2], M2)
    requires forall u :: HasSingularRate(F, e, c, g, u)
    ensures Weighted(c, M2) - Weighted(c, M1) == g.At(u2) - g.At(u1)
  {
    hide Lawful, HasDeriv, HasSingularRate, Complete, SharesRate, Along, Line, SeriesTerm, Eval, IsMomentList;
    var f := Along(F, Line(e, U), SeriesTerm(c));
    forall u ensures SharesRate(f, g, u) { SeriesSharesRate(F, e, c, g, u); }
    SameDifferences(f, g, u1, u2);
    SeriesAt(F, e, c, u1, M1);
    SeriesAt(F, e, c, u2, M2);
  }

  lemma SeriesAt(F: Functions, e: Env, c: seq<real>, u: real, M: seq<real>)
    requires MomentPoint(F, e) && |c| <= |M| && IsMomentList(F, e[U := u], M)
    ensures Along(F, Line(e, U), SeriesTerm(c)).At(u) == Weighted(c, M)
  {
    hide Lawful, HasDeriv, Along, SeriesTerm, Eval, IsMomentList;
    SingularPartIntegrates(F, e[U := u], c, M);
    AlongAt(F, Line(e, U), SeriesTerm(c), u);
    LineAt(e, U, u);
  }
}
