/** What a derivative determines, on the complete real line. */
module MeanValue {
  import opened Calculus

  // Completeness is the one law of the real numbers that the verifier does not know; it is a named hypothesis.

  ghost predicate IsBound(s: iset<real>, b: real) {
    forall x :: x in s ==> x <= b
  }

  ghost predicate IsSupremum(s: iset<real>, b: real) {
    IsBound(s, b) && forall c :: IsBound(s, c) ==> b <= c
  }

  ghost predicate HasBound(s: iset<real>) { exists b :: IsBound(s, b) }

  /** Every non-empty bounded set of reals has a least upper bound. */
  ghost predicate Complete() {
    forall s: iset<real> | s != iset{} && HasBound(s) :: exists b :: IsSupremum(s, b)
  }

  lemma Supremum(s: iset<real>, x: real, b: real) returns (top: real)
    requires Complete() && x in s && IsBound(s, b)
    ensures IsSupremum(s, top) && x <= top <= b
  {
    assert HasBound(s);
    top :| IsSupremum(s, top);
  }

  /** Members of a set come arbitrarily close to its supremum. */
  lemma NearSupremum(s: iset<real>, top: real, gap: real) returns (x: real)
    requires IsSupremum(s, top) && gap > 0.0
    ensures x in s && top - gap < x <= top
  {
    assert !IsBound(s, top - gap);
    x :| x in s && x > top - gap;
  }

  /** From `a` to `y` the function moves by at most `eps` times the distance. */
  ghost predicate Slow(f: Fn, eps: real, a: real, y: real) {
    Abs(f.At(y) - f.At(a)) <= Times(eps, y - a)
  }

  ghost predicate SlowUpTo(f: Fn, eps: real, a: real, x: real) {
    forall y :: a <= y <= x ==> Slow(f, eps, a, y)
  }

  /** A zero derivative makes the function slow near the point, on both sides. */
  lemma SlowNear(f: Fn, eps: real, x: real) returns (delta: real)
    requires HasDeriv(f, x, 0.0) && eps > 0.0
    ensures delta > 0.0
    ensures forall y :: Abs(y - x) < delta ==> Abs(f.At(y) - f.At(x)) <= Times(eps, Abs(y - x))
  {
    hide HasDeriv, Times;
    var s := SlopeOf(f, x, 0.0);
    delta := Delta(s, x, eps);
    forall y | Abs(y - x) < delta ensures Abs(f.At(y) - f.At(x)) <= Times(eps, Abs(y - x)) {
      assert Factors(f, x, s, y);
      AbsTimes(s.At(y), y - x);
      TimesMono(Abs(s.At(y)), eps, Abs(y - x));
    }
  }

  lemma SlowThen(f: Fn, eps: real, a: real, x: real, y: real)
    requires Slow(f, eps, a, x) && x <= y && Abs(f.At(y) - f.At(x)) <= Times(eps, y - x)
    ensures Slow(f, eps, a, y)
  {
  }

  /** A function whose derivative is zero everywhere is slow all the way. */
  lemma SlowEverywhere(f: Fn, eps: real, a: real, b: real)
    requires Complete() && eps > 0.0 && a <= b && forall x :: HasDeriv(f, x, 0.0)
    ensures Slow(f, eps, a, b)
  {
    hide HasDeriv, Complete, Slow, Times;
    var s := iset x | a <= x <= b && SlowUpTo(f, eps, a, x);
    StillSlow(f, eps, a);
    assert a in s && IsBound(s, b);
    var top := Supremum(s, a, b);
    var delta := SlowNear(f, eps, top);
    var near := NearSupremum(s, top, delta);
    assert Abs(near - top) == top - near < delta;
    assert Slow(f, eps, a, near);
    SlowThen(f, eps, a, near, top);
    var past := Min(top + delta / 2.0, b);
    forall y | a <= y <= past ensures Slow(f, eps, a, y) {
      if y < top {
        var x := NearSupremum(s, top, top - y);
      } else {
        SlowThen(f, eps, a, top, y);
      }
    }
    assert past in s && past == b;
  }

  lemma StillSlow(f: Fn, eps: real, a: real)
    ensures SlowUpTo(f, eps, a, a)
  {
  }

  /** A function whose derivative is zero everywhere is constant. */
  lemma ZeroRate(f: Fn, a: real, b: real)
    requires Complete() && a <= b && forall x :: HasDeriv(f, x, 0.0)
    ensures f.At(a) == f.At(b)
  {
    hide HasDeriv, Complete, Times;
    var d := Abs(f.At(b) - f.At(a));
    if d > 0.0 {
      var eps := TooSlow(d, b - a);
      SlowEverywhere(f, eps, a, b);
    }
  }

  lemma TooSlow(d: real, w: real) returns (eps: real)
    requires d > 0.0 && w >= 0.0
    ensures eps > 0.0 && Times(eps, w) < d
  {
    RecipTimes(w + 1.0);
    hide Recip;
    var r := Recip(w + 1.0);
    assert r * (w + 1.0) == 1.0;
    assert r > 0.0;
    assert r * w < 1.0;
    eps := d / 2.0 * r;
    assert eps * w == d / 2.0 * (r * w);
  }

  /** Two functions with a common derivative at a point. */
  ghost predicate SharesRate(f: Fn, g: Fn, x: real) {
    exists d :: HasDeriv(f, x, d) && HasDeriv(g, x, d)
  }

  /** Functions with the same derivative everywhere have the same differences: an antiderivative determines the
      definite integral. */
  lemma SameDifferences(f: Fn, g: Fn, a: real, b: real)
    requires Complete() && forall x :: SharesRate(f, g, x)
    ensures f.At(b) - f.At(a) == g.At(b) - g.At(a)
  {
    hide HasDeriv, Complete, Times;
    var h := Sum(f, Product(Constant(-1.0), g));
    forall x ensures HasDeriv(h, x, 0.0) { DifferenceRate(f, g, x); }
    if a <= b { ZeroRate(h, a, b); } else { ZeroRate(h, b, a); }
    DifferenceAt(f, g, a);
    DifferenceAt(f, g, b);
  }

  lemma DifferenceAt(f: Fn, g: Fn, y: real)
    ensures Sum(f, Product(Constant(-1.0), g)).At(y) == f.At(y) - g.At(y)
  {
    assert Product(Constant(-1.0), g).At(y) == -g.At(y);
  }

  lemma DifferenceRate(f: Fn, g: Fn, x: real)
    requires SharesRate(f, g, x)
    ensures HasDeriv(Sum(f, Product(Constant(-1.0), g)), x, 0.0)
  {
    hide HasDeriv;
    var d :| HasDeriv(f, x, d) && HasDeriv(g, x, d);
    DerivConstant(-1.0, x);
    DerivProduct(Constant(-1.0), g, x, 0.0, d);
    DerivSum(f, Product(Constant(-1.0), g), x, d, Times(0.0, g.At(x)) + Times(Constant(-1.0).At(x), d));
    assert Constant(-1.0).At(x) == -1.0;
  }
}
