/** The shipped arithmetic for the extended-kernel delta, step by step, against the operators and NEC Equation 89. */
module Transcription {
  import opened Calculus
  import opened Terms
  import opened Substitution
  import opened BesselPolynomials
  import opened ComplexTerms
  import opened DeltaKernel
  import opened DeltaOperators

  // It is compared with the operators it transcribes, and the delta kernel at rho = a with the factor form of NEC
  // Equation 89.

  function Real(x: real): Complex { Complex(x, 0.0) }

  /** The polynomials as the code spells them. */
  function A1(x: Complex): Complex { CAdd(Real(1.0), x) }

  function A2(x: Complex): Complex { CAdd(CAdd(Real(3.0), CScale(3.0, x)), CMul(x, x)) }

  function A3(x: Complex): Complex {
    var x2 := CMul(x, x);
    CAdd(CAdd(CAdd(Real(15.0), CScale(15.0, x)), CScale(6.0, x2)), CMul(x2, x))
  }

  function A4(x: Complex): Complex {
    var x2 := CMul(x, x);
    CAdd(CAdd(CAdd(CAdd(Real(105.0), CScale(105.0, x)), CScale(45.0, x2)), CScale(10.0, CMul(x2, x))), CMul(x2, x2))
  }

  ghost function Base(F: Functions, r: real, k: real): Complex {
    CScale(Recip(r), Cis(F, Times(k, r)))
  }

  function JkRAt(r: real, k: real): Complex { Complex(0.0, Times(k, r)) }

  ghost function G1(F: Functions, r: real, k: real): Complex {
    CScale(-0.5, CScale(Recip(Times(r, r)), CMul(Base(F, r, k), A1(JkRAt(r, k)))))
  }

  ghost function G2(F: Functions, r: real, k: real): Complex {
    var inv2 := Recip(Times(r, r));
    CScale(0.25, CScale(Times(inv2, inv2), CMul(Base(F, r, k), A2(JkRAt(r, k)))))
  }

  ghost function G3(F: Functions, r: real, k: real): Complex {
    var inv2 := Recip(Times(r, r));
    CScale(-0.125, CScale(Times(Times(inv2, inv2), inv2), CMul(Base(F, r, k), A3(JkRAt(r, k)))))
  }

  ghost function G4(F: Functions, r: real, k: real): Complex {
    var inv2 := Recip(Times(r, r));
    CScale(0.0625, CScale(Times(Times(Times(inv2, inv2), inv2), inv2), CMul(Base(F, r, k), A4(JkRAt(r, k)))))
  }

  /** The axial result, a^2 pulled to the end. */
  ghost function TranscribedZ(F: Functions, r: real, zeta: real, rho: real, a: real, k: real): Complex {
    var rho2 := Times(rho, rho);
    var g1, g2, g3, g4 := G1(F, r, k), G2(F, r, k), G3(F, r, k), G4(F, r, k);
    var tk := CScale(Times(k, k), CAdd(g1, CScale(rho2, g2)));
    var tc := CScale(2.0, CAdd(g2, CScale(rho2, g3)));
    var tz := CScale(Times(Times(4.0, zeta), zeta), CAdd(g3, CScale(rho2, g4)));
    CScale(Times(a, a), CAdd(CAdd(tk, tc), tz))
  }

  /** The mixed result. */
  ghost function TranscribedRho(F: Functions, r: real, zeta: real, rho: real, a: real, k: real): Complex {
    var rho2 := Times(rho, rho);
    var g3, g4 := G3(F, r, k), G4(F, r, k);
    var lr := CScale(zeta, CScale(rho, CAdd(CScale(8.0, g3), CScale(Times(4.0, rho2), g4))));
    CScale(Times(a, a), lr)
  }

  // ---------------------------------------------------------------- the polynomials are the recursion's

  lemma LiteralPolynomials(x: Complex)
    ensures A1(x) == PolyAt(ReverseBessel(1), x)
    ensures A2(x) == PolyAt(ReverseBessel(2), x)
    ensures A3(x) == PolyAt(ReverseBessel(3), x)
    ensures A4(x) == PolyAt(ReverseBessel(4), x)
  {
    Literals();
    hide CMul, ReverseBessel, PolyAt;
    Horner1(x);
    Horner2(x);
    Horner3(x);
    Horner4(x);
  }

  lemma PolyAtCons(c: int, t: Poly, x: Complex)
    ensures PolyAt([c] + t, x) == CAdd(Real(c as real), CMul(x, PolyAt(t, x)))
  {
    assert ([c] + t)[1..] == t;
  }

  lemma PolyAtConstant(c: int, x: Complex)
    ensures PolyAt([c], x) == Real(c as real)
  {
    assert PolyAt([], x) == ZERO;
    CMulZero(x);
  }

  lemma CMulReal(x: Complex, c: real)
    ensures CMul(x, Real(c)) == CScale(c, x)
  {
  }

  lemma Horner1(x: Complex)
    ensures PolyAt([1, 1], x) == A1(x)
  {
    hide PolyAt, CMul;
    assert [1, 1] == [1] + [1];
    PolyAtCons(1, [1], x);
    PolyAtConstant(1, x);
    CMulReal(x, 1.0);
    CScaleOne(x);
  }

  lemma Horner2(x: Complex)
    ensures PolyAt([3, 3, 1], x) == A2(x)
  {
    hide PolyAt, CMul;
    assert [3, 3, 1] == [3] + [3, 1] && [3, 1] == [3] + [1];
    PolyAtCons(3, [3, 1], x);
    PolyAtCons(3, [1], x);
    PolyAtConstant(1, x);
    CMulReal(x, 1.0);
    CScaleOne(x);
    CMulDistributes(x, Real(3.0), x);
    CMulReal(x, 3.0);
  }

  lemma Horner3(x: Complex)
    ensures PolyAt([15, 15, 6, 1], x) == A3(x)
  {
    hide PolyAt, CMul;
    assert [15, 15, 6, 1] == [15] + [15, 6, 1] && [15, 6, 1] == [15] + [6, 1] && [6, 1] == [6] + [1];
    PolyAtCons(15, [15, 6, 1], x);
    PolyAtCons(15, [6, 1], x);
    PolyAtCons(6, [1], x);
    PolyAtConstant(1, x);
    CMulReal(x, 1.0);
    CScaleOne(x);
    var p := CAdd(Real(6.0), x);
    CMulDistributes(x, Real(6.0), x);
    CMulReal(x, 6.0);
    CMulDistributes(x, Real(15.0), CMul(x, p));
    CMulReal(x, 15.0);
    CMulDistributes(x, CScale(6.0, x), CMul(x, x));
    CMulScale(6.0, x, x);
    CMulCommutative(x, CMul(x, x));
  }

  lemma Horner4(x: Complex)
    ensures PolyAt([105, 105, 45, 10, 1], x) == A4(x)
  {
    hide PolyAt, CMul;
    assert [105, 105, 45, 10, 1] == [105] + [105, 45, 10, 1] && [105, 45, 10, 1] == [105] + [45, 10, 1];
    assert [45, 10, 1] == [45] + [10, 1] && [10, 1] == [10] + [1];
    PolyAtCons(105, [105, 45, 10, 1], x);
    PolyAtCons(105, [45, 10, 1], x);
    PolyAtCons(45, [10, 1], x);
    PolyAtCons(10, [1], x);
    PolyAtConstant(1, x);
    CMulReal(x, 1.0);
    CScaleOne(x);
    var x2 := CMul(x, x);
    var p := CAdd(Real(10.0), x);
    CMulDistributes(x, Real(10.0), x);
    CMulReal(x, 10.0);
    var q := CAdd(Real(45.0), CMul(x, p));
    CMulDistributes(x, Real(45.0), CMul(x, p));
    CMulReal(x, 45.0);
    CMulDistributes(x, CScale(10.0, x), x2);
    CMulScale(10.0, x, x);
    CMulDistributes(x, Real(105.0), CMul(x, q));
    CMulReal(x, 105.0);
    CMulDistributes(x, CScale(45.0, x), CMul(x, CMul(x, p)));
    CMulScale(45.0, x, x);
    CMulDistributes(x, CScale(10.0, x2), CMul(x, x2));
    CMulScale(10.0, x, x2);
    CMulAssociative(x, x, x2);
    CMulCommutative(x, x2);
  }

  // ---------------------------------------------------------------- the steps are the derivatives

  lemma RecipSquare(r: real)
    requires r > 0.0
    ensures Recip(Times(r, r)) == Times(Recip(r), Recip(r))
  {
    hide Recip;
    TimesPositive(r, r);
    RecipTimes(r);
    RecipTimes(Times(r, r));
    var i, j := Recip(r), Recip(Times(r, r));
    assert j * (r * r) == 1.0 && i * r == 1.0;
    assert (i * i) * (r * r) == (i * r) * (i * r);
    FactorUnique(j, i * i, r * r);
  }

  /** Moving the scale out of the base and merging the powers. */
  lemma MergeScales(c: real, q: real, i: real, E: Complex, p: Complex)
    ensures CScale(c, CScale(q, CMul(CScale(i, E), p))) == CScale(Times(c, Times(q, i)), CMul(E, p))
  {
    hide CMul, Times;
    CMulScale(i, E, p);
    CScaleTwice(q, i, CMul(E, p));
    CScaleTwice(c, Times(q, i), CMul(E, p));
  }

  lemma Powers(i: real)
    ensures RealPower(i, 3) == Times(Times(i, i), i)
    ensures RealPower(i, 5) == Times(Times(Times(i, i), Times(i, i)), i)
    ensures RealPower(i, 7) == Times(Times(Times(Times(i, i), Times(i, i)), Times(i, i)), i)
    ensures RealPower(i, 9) == Times(Times(Times(Times(Times(i, i), Times(i, i)), Times(i, i)), Times(i, i)), i)
  {
    assert RealPower(i, 1) == i * 1.0;
    PowerTwo(i, 1);
    PowerTwo(i, 3);
    PowerTwo(i, 5);
    PowerTwo(i, 7);
  }

  lemma PowerTwo(i: real, n: nat)
    ensures RealPower(i, n + 2) == Times(Times(i, i), RealPower(i, n))
  {
    assert RealPower(i, n + 2) == Times(i, RealPower(i, n + 1));
  }

  lemma HalfPowers()
    ensures HalfPower(1) == -0.5 && HalfPower(2) == 0.25 && HalfPower(3) == -0.125 && HalfPower(4) == 0.0625
  {
  }

  lemma StepsAreDerivatives(F: Functions, r: real, k: real)
    requires r > 0.0
    ensures G1(F, r, k) == ClosedValue(F, k, r, 1)
    ensures G2(F, r, k) == ClosedValue(F, k, r, 2)
    ensures G3(F, r, k) == ClosedValue(F, k, r, 3)
    ensures G4(F, r, k) == ClosedValue(F, k, r, 4)
  {
    RecipSquare(r);
    LiteralPolynomials(JkRAt(r, k));
    Powers(Recip(r));
    HalfPowers();
    hide Times, Recip, CMul, CScale, A1, A2, A3, A4, PolyAt, ReverseBessel, Cis, RealPower, HalfPower;
    var i, E, x := Recip(r), Cis(F, Times(k, r)), JkRAt(r, k);
    var j := Times(i, i);
    MergeScales(-0.5, j, i, E, A1(x));
    MergeScales(0.25, Times(j, j), i, E, A2(x));
    MergeScales(-0.125, Times(Times(j, j), j), i, E, A3(x));
    MergeScales(0.0625, Times(Times(Times(j, j), j), j), i, E, A4(x));
  }

  // ---------------------------------------------------------------- the operators on the complex kernel

  lemma KernelTerms(F: Functions)
    requires Lawful(F)
    ensures KernelTerm(F, Kernel().re) && KernelTerm(F, Kernel().im)
  {
    hide Lawful, Defined;
    forall e: Env | U in e && e[U] > 0.0 ensures Defined(F, e, Kernel().re) && Defined(F, e, Kernel().im) {
      PhaseDefined(F, e);
    }
    KernelOnlyMoves(map[Zeta := Num(1.0)]);
    KernelOnlyMoves(map[Rho := Num(1.0)]);
  }

  lemma KernelOnlyMoves(rates: map<Sym, Term>)
    requires K !in rates
    ensures OnlyMoves(Kernel().re, U, rates) && OnlyMoves(Kernel().im, U, rates)
  {
    assert OnlyMoves(Root(), U, rates);
    assert OnlyMoves(Angle(), U, rates);
    assert OnlyMoves(Inv(Root()), U, rates);
    assert OnlyMoves(Sin(Angle()), U, rates) && OnlyMoves(Cos(Angle()), U, rates);
    assert OnlyMoves(Neg(Sin(Angle())), U, rates);
  }

  /** The n-th derivative of the kernel in the chart. */
  lemma ChartDerivative(F: Functions, e: Env, r: real, n: nat)
    requires Lawful(F) && ChartPoint(e) && r > 0.0 && Times(r, r) == Times(e[Rho], e[Rho]) + Times(e[Zeta], e[Zeta])
    ensures Complex(Eval(F, e, Gd(Kernel().re, n)), Eval(F, e, Gd(Kernel().im, n))) == ClosedValue(F, Val(e, K), r, n)
  {
    hide ClosedValue, Times, Nth, Kernel, Eval, Lawful, RootAt;
    EvalChartU(F, e);
    var e' := e[U := Eval(F, e, ChartU())];
    EvalSubst(F, e, Nth(Kernel().re, U, n), U, ChartU());
    EvalSubst(F, e, Nth(Kernel().im, U, n), U, ChartU());
    UDerivatives(F, e', n);
    RootPositive(F, e'[U]);
    RootUnique(r, F.sqrt.At(e'[U]));
  }

  /** The shipped steps compute the two operators on the complex delta kernel. */
  lemma TranscriptionCorrect(F: Functions, e: Env, r: real)
    requires Lawful(F) && ChartPoint(e) && r > 0.0 && Times(r, r) == Times(e[Rho], e[Rho]) + Times(e[Zeta], e[Zeta])
    ensures TranscribedZ(F, r, e[Zeta], e[Rho], Val(e, A), Val(e, K))
         == Complex(Eval(F, e, LhsZ(Kernel().re)), Eval(F, e, LhsZ(Kernel().im)))
    ensures TranscribedRho(F, r, e[Zeta], e[Rho], Val(e, A), Val(e, K))
         == Complex(Eval(F, e, LhsRho(Kernel().re)), Eval(F, e, LhsRho(Kernel().im)))
  {
    hide Times, Lawful, Kernel, Eval, LhsZ, LhsRho, KernelTerm, Gd, G1, G2, G3, G4, ClosedValue, TranscribedZ,
        TranscribedRho;
    KernelTerms(F);
    StepsAreDerivatives(F, r, Val(e, K));
    ChartDerivative(F, e, r, 1);
    ChartDerivative(F, e, r, 2);
    ChartDerivative(F, e, r, 3);
    ChartDerivative(F, e, r, 4);
    OperatorZ(F, e, Kernel().re);
    OperatorZ(F, e, Kernel().im);
    OperatorRho(F, e, Kernel().re);
    OperatorRho(F, e, Kernel().im);
    TranscribedParts(F, r, e[Zeta], e[Rho], Val(e, A), Val(e, K));
  }

  lemma TranscribedParts(F: Functions, r: real, zeta: real, rho: real, a: real, k: real)
    ensures var g1, g2, g3, g4 := G1(F, r, k), G2(F, r, k), G3(F, r, k), G4(F, r, k);
            TranscribedZ(F, r, zeta, rho, a, k)
            == Complex(BracketZ(a, k, rho, zeta, g1.re, g2.re, g3.re, g4.re),
                       BracketZ(a, k, rho, zeta, g1.im, g2.im, g3.im, g4.im))
    ensures var g3, g4 := G3(F, r, k), G4(F, r, k);
            TranscribedRho(F, r, zeta, rho, a, k)
            == Complex(BracketRho(a, rho, zeta, g3.re, g4.re), BracketRho(a, rho, zeta, g3.im, g4.im))
  {
    hide G1, G2, G3, G4;
    var g1, g2, g3, g4 := G1(F, r, k), G2(F, r, k), G3(F, r, k), G4(F, r, k);
    BracketZSpelling(a, k, rho, zeta, g1.re, g2.re, g3.re, g4.re);
    BracketZSpelling(a, k, rho, zeta, g1.im, g2.im, g3.im, g4.im);
    BracketRhoSpelling(a, rho, zeta, g3.re, g4.re);
    BracketRhoSpelling(a, rho, zeta, g3.im, g4.im);
    hide Times, BracketZ, BracketRho;
  }

  lemma BracketZSpelling(a: real, k: real, p: real, z: real, g1: real, g2: real, g3: real, g4: real)
    ensures Times(Times(a, a),
                  Times(Times(k, k), g1 + Times(Times(p, p), g2)) + Times(2.0, g2 + Times(Times(p, p), g3))
                + Times(Times(Times(4.0, z), z), g3 + Times(Times(p, p), g4)))
         == BracketZ(a, k, p, z, g1, g2, g3, g4)
  {
  }

  lemma BracketRhoSpelling(a: real, p: real, z: real, g3: real, g4: real)
    ensures Times(Times(a, a), Times(z, Times(p, Times(8.0, g3) + Times(Times(4.0, Times(p, p)), g4))))
         == BracketRho(a, p, z, g3, g4)
  {
  }

  /** The delta collapses exactly at a = 0. */
  lemma Collapse(F: Functions, r: real, zeta: real, rho: real, k: real)
    ensures TranscribedZ(F, r, zeta, rho, 0.0, k) == ZERO == TranscribedRho(F, r, zeta, rho, 0.0, k)
  {
    hide G1, G2, G3, G4, CAdd;
  }

  // ---------------------------------------------------------------- NEC Equation 89

  /** (a^4/(4R^4) C2 - a^2/(2R^2) C1) e^{-jkR}/R with C1 = 1 + jkR and C2 = 3 C1 - (kR)^2 */
  ghost function Eq89(F: Functions, a: real, k: real, r: real): Complex {
    var c1 := CAdd(Real(1.0), JkRAt(r, k));
    var c2 := CAdd(CScale(3.0, c1), Real(-Times(Times(k, r), Times(k, r))));
    var i := Recip(r);
    var a2 := Times(a, a);
    CMul(CAdd(CScale(Times(0.25, Times(Times(a2, a2), Times(Times(i, i), Times(i, i)))), c2),
              CScale(-Times(0.5, Times(a2, Times(i, i))), c1)),
         CScale(i, Cis(F, Times(k, r))))
  }

  /** The delta kernel at rho = a and u = R^2 is Equation 89's factor form. */
  lemma AgreesWithEq89(F: Functions, e: Env, r: real, a: real)
    requires Point(F, e) && r > 0.0 && Times(r, r) == e[U]
    ensures CAdd(CScale(Times(a, a), CEval(F, e, NthDiff(Kernel(), 1))),
                 CScale(Times(Times(a, a), Times(a, a)), CEval(F, e, NthDiff(Kernel(), 2))))
         == Eq89(F, a, Val(e, K), r)
  {
    hide Times, Recip, Lawful, NthDiff, Kernel, CEval, CMul, CAdd, CScale, ClosedValue, Cis, Eq89, A1, A2, RootAt;
    UDerivatives(F, e, 1);
    UDerivatives(F, e, 2);
    RootPositive(F, e[U]);
    RootUnique(r, RootOf(F, e));
    StepsAreDerivatives(F, r, Val(e, K));
    RecipSquare(r);
    Eq89Algebra(F, a, Val(e, K), r);
  }

  lemma Eq89Algebra(F: Functions, a: real, k: real, r: real)
    requires Recip(Times(r, r)) == Times(Recip(r), Recip(r))
    ensures CAdd(CScale(Times(a, a), G1(F, r, k)), CScale(Times(Times(a, a), Times(a, a)), G2(F, r, k)))
        == Eq89(F, a, k, r)
  {
    hide Recip, Cis;
    Eq89Parts(Times(a, a), Times(k, r), Recip(r), Cis(F, Times(k, r)));
  }

  lemma Eq89Parts(b: real, y: real, i: real, E: Complex)
    ensures var x, j := Complex(0.0, y), Times(i, i);
            CAdd(CScale(b, CScale(-0.5, CScale(j, CMul(CScale(i, E), A1(x))))),
                 CScale(Times(b, b), CScale(0.25, CScale(Times(j, j), CMul(CScale(i, E), A2(x))))))
            == CMul(CAdd(CScale(Times(0.25, Times(Times(b, b), Times(j, j))),
                CAdd(CScale(3.0, CAdd(Real(1.0), x)), Real(-Times(y, y)))),
                         CScale(-Times(0.5, Times(b, j)), CAdd(Real(1.0), x))),
                    CScale(i, E))
  {
    hide CMul, Times;
    var x, j := Complex(0.0, y), Times(i, i);
    var B := CScale(i, E);
    assert A2(x) == CAdd(CScale(3.0, CAdd(Real(1.0), x)), Real(-Times(y, y))) by { A2OfImaginary(y); }
    var p, q := A1(x), A2(x);
    MergeTwo(b, -0.5, j, CMul(B, p));
    MergeTwo(Times(b, b), 0.25, Times(j, j), CMul(B, q));
    CMulCommutative(B, CAdd(CScale(Times(0.25, Times(Times(b, b), Times(j, j))), q),
        CScale(-Times(0.5, Times(b, j)), p)));
    CMulDistributes(B, CScale(Times(0.25, Times(Times(b, b), Times(j, j))), q), CScale(-Times(0.5, Times(b, j)), p));
    CMulScale(Times(0.25, Times(Times(b, b), Times(j, j))), B, q);
    CMulScale(-Times(0.5, Times(b, j)), B, p);
    ScaleSpelling(b, j);
  }

  lemma A2OfImaginary(y: real)
    ensures A2(Complex(0.0, y)) == CAdd(CScale(3.0, CAdd(Real(1.0), Complex(0.0, y))), Real(-Times(y, y)))
  {
  }

  lemma MergeTwo(b: real, c: real, q: real, z: Complex)
    ensures CScale(b, CScale(c, CScale(q, z))) == CScale(Times(b, Times(c, q)), z)
  {
    hide Times;
    CScaleTwice(c, q, z);
    CScaleTwice(b, Times(c, q), z);
  }

  lemma ScaleSpelling(b: real, j: real)
    ensures Times(b, Times(-0.5, j)) == -Times(0.5, Times(b, j))
    ensures Times(Times(b, b), Times(0.25, Times(j, j))) == Times(0.25, Times(Times(b, b), Times(j, j)))
  {
  }
}
