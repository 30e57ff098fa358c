/** The reverse Bessel polynomials, as coefficient lists, lowest order first. */
module BesselPolynomials {
  type Poly = seq<int>

  function Coef(p: Poly, i: int): int {
    if 0 <= i < |p| then p[i] else 0
  }

  /** The formal derivative: the coefficient of order i + 1 times i + 1. */
  function Derivative(p: Poly): (d: Poly)
    ensures |d| == if p == [] then 0 else |p| - 1
  {
    if p == [] then [] else Weighted(1, p[1..])
  }

  function Weighted(k: nat, p: Poly): (d: Poly)
    ensures |d| == |p|
    decreases |p|
  {
    if p == [] then [] else [k * p[0]] + Weighted(k + 1, p[1..])
  }

  /** Multiplication by x. */
  function Shift(p: Poly): Poly {
    [0] + p
  }

  function Scale(c: int, p: Poly): (d: Poly)
    ensures |d| == |p|
  {
    if p == [] then [] else [c * p[0]] + Scale(c, p[1..])
  }

  function Plus(p: Poly, q: Poly): (d: Poly)
    ensures |d| == if |p| < |q| then |q| else |p|
  {
    if p == [] then q else if q == [] then p else [p[0] + q[0]] + Plus(p[1..], q[1..])
  }

  lemma {:induction false} CoefWeighted(k: nat, p: Poly, i: nat)
    ensures Coef(Weighted(k, p), i) == (k + i) * Coef(p, i)
    decreases |p|
  {
    if p != [] && i > 0 {
      CoefWeighted(k + 1, p[1..], i - 1);
      assert Coef(p, i) == Coef(p[1..], i - 1);
    }
  }

  lemma CoefDerivative(p: Poly, i: nat)
    ensures Coef(Derivative(p), i) == (i + 1) * Coef(p, i + 1)
  {
    if p != [] {
      CoefWeighted(1, p[1..], i);
      assert Coef(p, i + 1) == Coef(p[1..], i);
    }
  }

  lemma CoefShift(p: Poly, i: int)
    ensures Coef(Shift(p), i) == Coef(p, i - 1)
  {
  }

  lemma {:induction false} CoefScale(c: int, p: Poly, i: int)
    ensures Coef(Scale(c, p), i) == c * Coef(p, i)
  {
    if p != [] && i > 0 {
      CoefScale(c, p[1..], i - 1);
      assert Coef(p, i) == Coef(p[1..], i - 1);
    }
  }

  lemma {:induction false} CoefPlus(p: Poly, q: Poly, i: int)
    ensures Coef(Plus(p, q), i) == Coef(p, i) + Coef(q, i)
  {
    if p != [] && q != [] && i > 0 {
      CoefPlus(p[1..], q[1..], i - 1);
      assert Coef(p, i) == Coef(p[1..], i - 1) && Coef(q, i) == Coef(q[1..], i - 1);
    }
  }

  /** One turn of the loop: the polynomial of order m + 1 from the one of order m. */
  function Step(m: nat, p: Poly): Poly {
    Plus(Plus(Scale(2 * m + 1, p), Shift(p)), Scale(-1, Shift(Derivative(p))))
  }

  lemma CoefStep(m: nat, p: Poly, i: int)
    ensures Coef(Step(m, p), i) == (2 * m + 1 - i) * Coef(p, i) + Coef(p, i - 1)
  {
    hide Coef, Plus, Scale, Shift, Derivative;
    CoefPlus(Plus(Scale(2 * m + 1, p), Shift(p)), Scale(-1, Shift(Derivative(p))), i);
    CoefPlus(Scale(2 * m + 1, p), Shift(p), i);
    CoefScale(2 * m + 1, p, i);
    CoefShift(p, i);
    CoefScale(-1, Shift(Derivative(p)), i);
    assert Coef(Shift(Derivative(p)), i) == i * Coef(p, i) by { CoefXDerivative(p, i); }
    assert (2 * m + 1 - i) * Coef(p, i) == (2 * m + 1) * Coef(p, i) - i * Coef(p, i);
  }

  lemma CoefXDerivative(p: Poly, i: int)
    ensures Coef(Shift(Derivative(p)), i) == i * Coef(p, i)
  {
    CoefShift(Derivative(p), i);
    if i >= 1 { CoefDerivative(p, i - 1); }
  }

  function ReverseBessel(n: nat): Poly {
    if n == 0 then [1] else Step(n - 1, ReverseBessel(n - 1))
  }

  /** The script's loop. */
  method BesselPoly(n: nat) returns (A: Poly)
    ensures A == ReverseBessel(n)
  {
    A := [1];
    for m := 0 to n
      invariant A == ReverseBessel(m)
    {
      A := Plus(Plus(Scale(2 * m + 1, A), Shift(A)), Scale(-1, Shift(Derivative(A))));
    }
  }

  function A(n: nat, i: int): int { Coef(ReverseBessel(n), i) }

  /** 1 * 3 * 5 * ... * (2n - 1) */
  function OddFactorial(n: nat): nat {
    if n == 0 then 1 else (2 * n - 1) * OddFactorial(n - 1)
  }

  /** The loop's recursion on coefficients. */
  lemma StepLaw(n: nat, i: int)
    ensures A(n + 1, i) == (2 * n + 1 - i) * A(n, i) + A(n, i - 1)
  {
    CoefStep(n, ReverseBessel(n), i);
  }

  /** Degree n, leading coefficient 1, constant term (2n-1)!!. */
  lemma {:induction false} Shape(n: nat)
    ensures |ReverseBessel(n)| == n + 1
    ensures A(n, n) == 1 && A(n, 0) == OddFactorial(n)
  {
    hide Step, OddFactorial;
    if n == 0 {
      assert A(0, 0) == 1 == OddFactorial(0) by { ShapeZero(); }
    } else {
      hide A, ReverseBessel;
      Shape(n - 1);
      ShapeStep(n - 1);
    }
  }

  lemma ShapeZero()
    ensures A(0, 0) == 1 == OddFactorial(0)
  {
    CoefAt([1], 0);
  }

  lemma ShapeStep(m: nat)
    requires |ReverseBessel(m)| == m + 1 && A(m, m) == 1 && A(m, 0) == OddFactorial(m)
    ensures |ReverseBessel(m + 1)| == m + 2
    ensures A(m + 1, m + 1) == 1 && A(m + 1, 0) == OddFactorial(m + 1)
  {
    hide A, Plus, Scale, Shift, Derivative, Coef;
    assert |ReverseBessel(m + 1)| == m + 2 by { StepLength(m, ReverseBessel(m)); }
    StepLaw(m, m + 1);
    StepLaw(m, 0);
    Outside(m, m + 1);
    Outside(m, -1);
  }

  lemma StepLength(m: nat, p: Poly)
    requires p != []
    ensures |Step(m, p)| == |p| + 1
  {
  }

  lemma Outside(n: nat, i: int)
    requires |ReverseBessel(n)| == n + 1 && (i < 0 || n < i)
    ensures A(n, i) == 0
  {
  }

  /** Consecutive coefficients of one polynomial. */
  lemma {:induction false} Ratio(n: nat, i: int)
    ensures i * (2 * n + 1 - i) * A(n, i) == 2 * (n + 1 - i) * A(n, i - 1)
  {
    hide Step;
    if n == 0 {
      assert A(0, i) == (if i == 0 then 1 else 0);
      assert A(0, i - 1) == (if i == 1 then 1 else 0);
    } else {
      hide A, ReverseBessel;
      var m := n - 1;
      Ratio(m, i);
      Ratio(m, i - 1);
      StepLaw(m, i);
      StepLaw(m, i - 1);
      RatioStep(m, i, A(m, i), A(m, i - 1), A(m, i - 2));
    }
  }

  lemma RatioStep(m: int, i: int, p: int, q: int, r: int)
    requires i * (2 * m + 1 - i) * p == 2 * (m + 1 - i) * q
    requires (i - 1) * (2 * m + 2 - i) * q == 2 * (m + 2 - i) * r
    ensures i * (2 * m + 3 - i) * ((2 * m + 1 - i) * p + q) == 2 * (m + 2 - i) * ((2 * m + 2 - i) * q + r)
  {
    var c, u, w := 2 * m + 3 - i, (2 * m + 1 - i) * p, (2 * m + 2 - i) * q;
    assert i * u == 2 * (m + 1 - i) * q by { Reassociate(i, 2 * m + 1 - i, p); }
    assert (i - 1) * w == 2 * (m + 2 - i) * r by { Reassociate(i - 1, 2 * m + 2 - i, q); }
    assert i * c * (u + q) == c * w by { CollectLeft(i, c, u, q, 2 * (m + 1 - i)); }
    assert 2 * (m + 2 - i) * (w + r) == c * w by { CollectRight(2 * (m + 2 - i), w, r, i - 1); }
  }

  lemma Reassociate(a: int, b: int, c: int)
    ensures a * b * c == a * (b * c)
  {
  }

  lemma CollectLeft(i: int, c: int, u: int, q: int, k: int)
    requires i * u == k * q
    ensures i * c * (u + q) == c * ((k + i) * q)
  {
    assert i * c * (u + q) == c * (i * u + i * q);
  }

  lemma CollectRight(k: int, w: int, r: int, j: int)
    requires j * w == k * r
    ensures k * (w + r) == (k + j) * w
  {
  }

  /** A_{n+1}' = A_{n+1} - x A_n, coefficient by coefficient. */
  lemma DerivativeLaw(n: nat, i: int)
    ensures i * A(n + 1, i) == A(n + 1, i - 1) - A(n, i - 2)
  {
    hide A;
    Ratio(n, i);
    StepLaw(n, i);
    StepLaw(n, i - 1);
    DerivativeStep(n, i, A(n, i), A(n, i - 1));
  }

  lemma DerivativeStep(n: int, i: int, p: int, q: int)
    requires i * (2 * n + 1 - i) * p == 2 * (n + 1 - i) * q
    ensures i * ((2 * n + 1 - i) * p + q) == (2 * n + 2 - i) * q
  {
    assert i * ((2 * n + 1 - i) * p + q) == i * (2 * n + 1 - i) * p + i * q;
  }

  lemma RecurrenceCoef(n: nat, i: int)
    ensures A(n + 2, i) == (2 * n + 3) * A(n + 1, i) + A(n, i - 2)
  {
    hide A;
    DerivativeLaw(n, i);
    StepLaw(n + 1, i);
    var p := A(n + 1, i);
    assert (2 * n + 3 - i) * p == (2 * n + 3) * p - i * p;
  }

  /** The derivative-free recurrence A_{n+2} = (2n+3) A_{n+1} + x^2 A_n. */
  lemma Recurrence(n: nat)
    ensures ReverseBessel(n + 2) == Plus(Scale(2 * n + 3, ReverseBessel(n + 1)), Shift(Shift(ReverseBessel(n))))
  {
    hide ReverseBessel, Plus, Scale, Coef;
    var lhs := ReverseBessel(n + 2);
    var b, c := ReverseBessel(n + 1), ReverseBessel(n);
    var rhs := Plus(Scale(2 * n + 3, b), Shift(Shift(c)));
    Shape(n);
    Shape(n + 1);
    Shape(n + 2);
    forall i | 0 <= i < |lhs| ensures lhs[i] == rhs[i] {
      RecurrenceCoef(n, i);
      CoefPlus(Scale(2 * n + 3, b), Shift(Shift(c)), i);
      CoefScale(2 * n + 3, b, i);
      CoefShift(Shift(c), i);
      CoefShift(c, i - 1);
      CoefAt(lhs, i);
      CoefAt(rhs, i);
    }
  }

  lemma CoefAt(p: Poly, i: nat)
    requires i < |p|
    ensures Coef(p, i) == p[i]
  {
  }

  /** The literals the numpy transcription spells out. */
  lemma Literals()
    ensures ReverseBessel(1) == [1, 1]
    ensures ReverseBessel(2) == [3, 3, 1]
    ensures ReverseBessel(3) == [15, 15, 6, 1]
    ensures ReverseBessel(4) == [105, 105, 45, 10, 1]
  {
    LiteralOne();
    LiteralTwo();
    LiteralThree();
    LiteralFour();
  }

  lemma LiteralOne()
    ensures ReverseBessel(1) == [1, 1]
  {
    Shape(1);
    forall i | 0 <= i < 2 ensures ReverseBessel(1)[i] == 1 { StepLaw(0, i); }
  }

  lemma LiteralTwo()
    ensures ReverseBessel(2) == [3, 3, 1]
  {
    LiteralOne();
    assert ReverseBessel(0) == [1];
    hide ReverseBessel;
    Shape(2);
    forall i | 0 <= i < 3 ensures ReverseBessel(2)[i] == [3, 3, 1][i] { RecurrenceCoef(0, i); }
  }

  lemma LiteralThree()
    ensures ReverseBessel(3) == [15, 15, 6, 1]
  {
    hide ReverseBessel;
    LiteralOne();
    LiteralTwo();
    Shape(3);
    forall i | 0 <= i < 4 ensures ReverseBessel(3)[i] == [15, 15, 6, 1][i] { RecurrenceCoef(1, i); }
  }

  lemma LiteralFour()
    ensures ReverseBessel(4) == [105, 105, 45, 10, 1]
  {
    hide ReverseBessel;
    LiteralTwo();
    LiteralThree();
    Shape(4);
    forall i | 0 <= i < 5 ensures ReverseBessel(4)[i] == [105, 105, 45, 10, 1][i] { RecurrenceCoef(2, i); }
  }
}
