/** The clipped four-point Lagrange stencil on a uniform lattice, along one axis and as a tensor product. */
module Stencil {
  import opened Calculus

  // ---------------------------------------------------------------- four-point weights

  /** The weight at coordinate t of the k-th of the nodes 0, 1, 2, 3. */
  function Weight(k: nat, t: real): real
    requires k < 4
  {
    if k == 0 then (t - 1.0) * (t - 2.0) * (t - 3.0) / -6.0
    else if k == 1 then t * (t - 2.0) * (t - 3.0) / 2.0
    else if k == 2 then t * (t - 1.0) * (t - 3.0) / -2.0
    else t * (t - 1.0) * (t - 2.0) / 6.0
  }

  /** A cubic polynomial by its coefficients. */
  datatype Cubic = Cubic(a0: real, a1: real, a2: real, a3: real) {
    function At(x: real): real {
      a0 + Times(a1, x) + Times(a2, Times(x, x)) + Times(a3, Times(x, Times(x, x)))
    }

    /** This cubic of s + x. */
    function Shift(s: real): Cubic {
      Cubic(a0 + Times(a1, s) + Times(a2, Times(s, s)) + Times(a3, Times(s, Times(s, s))),
            a1 + 2.0 * Times(a2, s) + 3.0 * Times(a3, Times(s, s)),
            a2 + 3.0 * Times(a3, s),
            a3)
    }

    /** This cubic of h x. */
    function Stretch(h: real): Cubic {
      Cubic(a0, Times(a1, h), Times(a2, Times(h, h)), Times(a3, Times(h, Times(h, h))))
    }
  }

  lemma ShiftAt(p: Cubic, s: real, x: real)
    ensures p.Shift(s).At(x) == p.At(s + x)
  {
    ShiftLinear(p.a1, s, x);
    ShiftSquare(p.a2, s, x);
    ShiftCube(p.a3, s, x);
    hide Times;
    TimesDistributes(p.a1 + 2.0 * Times(p.a2, s), 3.0 * Times(p.a3, Times(s, s)), x);
    TimesDistributes(p.a1, 2.0 * Times(p.a2, s), x);
    TimesDistributes(p.a2, 3.0 * Times(p.a3, s), Times(x, x));
  }

  lemma ShiftLinear(a: real, s: real, x: real)
    ensures Times(a, s + x) == Times(a, s) + Times(a, x)
  {
  }

  lemma ShiftSquare(a: real, s: real, x: real)
    ensures Times(a, Times(s + x, s + x)) == Times(a, Times(s, s)) + Times(2.0 * Times(a, s), x) + Times(a, Times(x, x))
  {
    assert (s + x) * (s + x) == s * s + 2.0 * (s * x) + x * x;
    assert a * (s * s + 2.0 * (s * x) + x * x) == a * (s * s) + 2.0 * (a * (s * x)) + a * (x * x);
    assert 2.0 * (a * s) * x == 2.0 * (a * (s * x));
  }

  lemma ShiftCube(a: real, s: real, x: real)
    ensures Times(a, Times(s + x, Times(s + x, s + x)))
         == Times(a, Times(s, Times(s, s))) + Times(3.0 * Times(a, Times(s, s)), x)
            + Times(3.0 * Times(a, s), Times(x, x)) + Times(a, Times(x, Times(x, x)))
  {
    hide Times;
    var s3, s2x, sx2, x3 := Times(s, Times(s, s)), Times(Times(s, s), x), Times(s, Times(x, x)), Times(x, Times(x, x));
    CubeOfSum(s, x);
    CubeTerms(a, s3, s2x, sx2, x3);
    TripleTimes(a, Times(s, s), x);
    TripleTimes(a, s, Times(x, x));
  }

  lemma CubeOfSum(s: real, x: real)
    ensures Times(s + x, Times(s + x, s + x))
         == Times(s, Times(s, s)) + 3.0 * Times(Times(s, s), x) + 3.0 * Times(s, Times(x, x)) + Times(x, Times(x, x))
  {
  }

  lemma CubeTerms(a: real, s3: real, s2x: real, sx2: real, x3: real)
    ensures Times(a, s3 + 3.0 * s2x + 3.0 * sx2 + x3) == Times(a, s3) + 3.0 * Times(a, s2x) + 3.0 * Times(a, sx2)
        + Times(a, x3)
  {
  }

  lemma TripleTimes(a: real, u: real, v: real)
    ensures Times(3.0 * Times(a, u), v) == 3.0 * Times(a, Times(u, v))
  {
  }

  lemma StretchAt(p: Cubic, h: real, x: real)
    ensures p.Stretch(h).At(x) == p.At(Times(h, x))
  {
    TimesAssociative(p.a1, h, x);
    StretchSquare(p.a2, h, x);
    StretchCube(p.a3, h, x);
  }

  lemma StretchSquare(a: real, h: real, x: real)
    ensures Times(Times(a, Times(h, h)), Times(x, x)) == Times(a, Times(Times(h, x), Times(h, x)))
  {
    assert (h * h) * (x * x) == (h * x) * (h * x);
  }

  lemma StretchCube(a: real, h: real, x: real)
    ensures Times(Times(a, Times(h, Times(h, h))), Times(x, Times(x, x)))
         == Times(a, Times(Times(h, x), Times(Times(h, x), Times(h, x))))
  {
    assert (h * (h * h)) * (x * (x * x)) == (h * x) * ((h * x) * (h * x));
  }

  /** The weights reproduce the powers 1, t, t^2, t^3. */
  lemma WeightMoments(t: real)
    ensures Weight(0, t) + Weight(1, t) + Weight(2, t) + Weight(3, t) == 1.0
    ensures Weight(1, t) + 2.0 * Weight(2, t) + 3.0 * Weight(3, t) == t
    ensures Weight(1, t) + 4.0 * Weight(2, t) + 9.0 * Weight(3, t) == Times(t, t)
    ensures Weight(1, t) + 8.0 * Weight(2, t) + 27.0 * Weight(3, t) == Times(t, Times(t, t))
  {
    var t2, t3 := t * t, t * (t * t);
    assert Weight(0, t) == (t3 - 6.0 * t2 + 11.0 * t - 6.0) / -6.0;
    assert Weight(1, t) == (t3 - 5.0 * t2 + 6.0 * t) / 2.0;
    assert Weight(2, t) == (t3 - 4.0 * t2 + 3.0 * t) / -2.0;
    assert Weight(3, t) == (t3 - 3.0 * t2 + 2.0 * t) / 6.0;
  }

  /** The four-point sum of values v0, ..., v3 at coordinate t. */
  function FourPoint(v0: real, v1: real, v2: real, v3: real, t: real): real {
    Times(v0, Weight(0, t)) + Times(v1, Weight(1, t)) + Times(v2, Weight(2, t)) + Times(v3, Weight(3, t))
  }

  lemma CubicAtNodes(p: Cubic)
    ensures p.At(0.0) == p.a0
    ensures p.At(1.0) == p.a0 + p.a1 + p.a2 + p.a3
    ensures p.At(2.0) == p.a0 + 2.0 * p.a1 + 4.0 * p.a2 + 8.0 * p.a3
    ensures p.At(3.0) == p.a0 + 3.0 * p.a1 + 9.0 * p.a2 + 27.0 * p.a3
  {
  }

  lemma CubicAt(p: Cubic, t: real)
    ensures p.At(t) == p.a0 + Times(p.a1, t) + Times(p.a2, Times(t, t)) + Times(p.a3, Times(t, Times(t, t)))
  {
  }

  /** On the nodes 0, 1, 2, 3 the weights reproduce every cubic, at every t. */
  lemma FourPointExact(p: Cubic, t: real)
    ensures FourPoint(p.At(0.0), p.At(1.0), p.At(2.0), p.At(3.0), t) == p.At(t)
  {
    CubicAtNodes(p);
    WeightMoments(t);
    CubicAt(p, t);
    TimesOne(p.a0);
    hide Weight, Times, Cubic.At;
    var w0, w1, w2, w3 := Weight(0, t), Weight(1, t), Weight(2, t), Weight(3, t);
    Spread(p, w0, w1, w2, w3);
  }

  lemma Spread(p: Cubic, w0: real, w1: real, w2: real, w3: real)
    ensures Times(p.a0, w0) + Times(p.a0 + p.a1 + p.a2 + p.a3, w1)
            + Times(p.a0 + 2.0 * p.a1 + 4.0 * p.a2 + 8.0 * p.a3, w2)
            + Times(p.a0 + 3.0 * p.a1 + 9.0 * p.a2 + 27.0 * p.a3, w3)
         == Times(p.a0, w0 + w1 + w2 + w3) + Times(p.a1, w1 + 2.0 * w2 + 3.0 * w3)
            + Times(p.a2, w1 + 4.0 * w2 + 9.0 * w3) + Times(p.a3, w1 + 8.0 * w2 + 27.0 * w3)
  {
  }

  // ---------------------------------------------------------------- the clipped stencil

  function Clip(x: int, lo: int, hi: int): int {
    var raised := if x < lo then lo else x;
    if raised > hi then hi else raised
  }

  /** The lattice coordinate of a query. */
  function Coordinate(nodes: seq<real>, q: real): real
    requires |nodes| >= 2 && nodes[1] != nodes[0]
  {
    Over(q - nodes[0], nodes[1] - nodes[0])
  }

  /** The first node of the stencil. */
  function First(n: nat, f: real): int { Clip(f.Floor - 1, 0, n - 4) }

  /** The stencil lies inside the lattice exactly when that has at least four nodes. */
  lemma StencilInBounds(n: nat, f: real)
    ensures 0 <= First(n, f) && First(n, f) + 3 < n <==> n >= 4
  {
  }

  /** Away from the edges the query lies between the second and the third node; near an edge the stencil stops. */
  lemma StencilPlacement(n: nat, f: real)
    requires n >= 4
    ensures 1.0 <= f < (n - 2) as real ==> 1.0 <= f - First(n, f) as real < 2.0
    ensures f < 1.0 ==> First(n, f) == 0
    ensures f >= (n - 2) as real ==> First(n, f) == n - 4
  {
  }

  function Interp(nodes: seq<real>, vals: seq<real>, q: real): real
    requires |nodes| == |vals| >= 4 && nodes[1] != nodes[0]
  {
    var f := Coordinate(nodes, q);
    var j := First(|nodes|, f);
    FourPoint(vals[j], vals[j + 1], vals[j + 2], vals[j + 3], f - j as real)
  }

  ghost predicate Uniform(nodes: seq<real>, origin: real, h: real) {
    |nodes| >= 4 && h != 0.0 && forall i :: 0 <= i < |nodes| ==> nodes[i] == origin + Times(h, i as real)
  }

  lemma UniformCoordinate(nodes: seq<real>, origin: real, h: real, q: real)
    requires Uniform(nodes, origin, h)
    ensures nodes[1] != nodes[0] && q == origin + Times(h, Coordinate(nodes, q))
  {
    assert nodes[0] == origin + Times(h, 0.0) && nodes[1] == origin + Times(h, 1.0);
    TimesZero(h);
    TimesOne(h);
    hide Times, Over;
    OverTimes(q - origin, h);
    TimesSwap(Over(q - origin, h), h);
  }

  /** The cubic as a function of the distance from node j, in node spacings. */
  function Local(p: Cubic, origin: real, h: real, j: real): Cubic {
    p.Shift(origin).Stretch(h).Shift(j)
  }

  lemma LocalAt(p: Cubic, origin: real, h: real, j: real, t: real)
    ensures Local(p, origin, h, j).At(t) == p.At(origin + Times(h, j + t))
  {
    ShiftAt(p.Shift(origin).Stretch(h), j, t);
    StretchAt(p.Shift(origin), h, j + t);
    ShiftAt(p, origin, Times(h, j + t));
  }

  /** Interpolation reproduces every cubic on every lattice of at least four nodes, at every query: between nodes,
      where clipping moves the stencil off centre, and beyond the ends. */
  lemma InterpExact(nodes: seq<real>, vals: seq<real>, origin: real, h: real, p: Cubic, q: real)
    requires Uniform(nodes, origin, h) && |vals| == |nodes|
    requires forall i :: 0 <= i < |vals| ==> vals[i] == p.At(nodes[i])
    ensures nodes[1] != nodes[0] && Interp(nodes, vals, q) == p.At(q)
  {
    UniformCoordinate(nodes, origin, h, q);
    hide Times, Over, FourPoint, Cubic.At, Cubic.Shift, Cubic.Stretch, Local;
    var f := Coordinate(nodes, q);
    var j := First(|nodes|, f);
    StencilInBounds(|nodes|, f);
    hide First;
    NodeValue(nodes, vals, origin, h, p, j, 0);
    NodeValue(nodes, vals, origin, h, p, j, 1);
    NodeValue(nodes, vals, origin, h, p, j, 2);
    NodeValue(nodes, vals, origin, h, p, j, 3);
    var c := Local(p, origin, h, j as real);
    FourPointExact(c, f - j as real);
    LocalAt(p, origin, h, j as real, f - j as real);
    assert j as real + (f - j as real) == f;
  }

  lemma NodeValue(nodes: seq<real>, vals: seq<real>, origin: real, h: real, p: Cubic, j: int, k: nat)
    requires Uniform(nodes, origin, h) && |vals| == |nodes| && 0 <= j && j + k < |vals|
    requires forall i :: 0 <= i < |vals| ==> vals[i] == p.At(nodes[i])
    ensures vals[j + k] == Local(p, origin, h, j as real).At(k as real)
  {
    hide Times, Cubic.At, Local;
    LocalAt(p, origin, h, j as real, k as real);
    assert (j + k) as real == j as real + k as real;
  }

  lemma WeightsAtNodes(k: nat, i: nat)
    requires k < 4 && i < 4
    ensures Weight(k, i as real) == if k == i then 1.0 else 0.0
  {
  }

  /** Whatever the data, a query at a node returns the value stored there. */
  lemma InterpAtNode(nodes: seq<real>, vals: seq<real>, origin: real, h: real, i: nat)
    requires Uniform(nodes, origin, h) && |vals| == |nodes| && i < |nodes|
    ensures nodes[1] != nodes[0] && Interp(nodes, vals, nodes[i]) == vals[i]
  {
    UniformCoordinate(nodes, origin, h, nodes[i]);
    var f := Coordinate(nodes, nodes[i]);
    hide Times, Over, Weight, Coordinate, FourPoint;
    assert Times(h, f) == Times(h, i as real);
    TimesSwap(h, f);
    TimesSwap(h, i as real);
    FactorUnique(f, i as real, h);
    var j := First(|nodes|, f);
    var k := i - j;
    assert 0 <= k < 4 && f - j as real == k as real;
    hide First, Uniform;
    FourPointAtNode(vals[j], vals[j + 1], vals[j + 2], vals[j + 3], k);
  }

  lemma FourPointAtNode(v0: real, v1: real, v2: real, v3: real, k: nat)
    requires k < 4
    ensures FourPoint(v0, v1, v2, v3, k as real)
         == if k == 0 then v0 else if k == 1 then v1 else if k == 2 then v2 else v3
  {
    hide Times, Weight;
    WeightsAtNodes(0, k);
    WeightsAtNodes(1, k);
    WeightsAtNodes(2, k);
    WeightsAtNodes(3, k);
    Pick(v0, v1, v2, v3);
  }

  lemma Pick(v0: real, v1: real, v2: real, v3: real)
    ensures Times(v0, 1.0) == v0 && Times(v1, 1.0) == v1 && Times(v2, 1.0) == v2 && Times(v3, 1.0) == v3
    ensures Times(v0, 0.0) == 0.0 && Times(v1, 0.0) == 0.0 && Times(v2, 0.0) == 0.0 && Times(v3, 0.0) == 0.0
  {
  }

  // ---------------------------------------------------------------- two axes

  /** One row of the tensor product: the four values times their row weight and their column weights. */
  function RowTerm(row: seq<real>, j: nat, wr: real, t: real): real
    requires j + 3 < |row|
  {
    Times(Times(row[j], wr), Weight(0, t)) + Times(Times(row[j + 1], wr), Weight(1, t))
    + Times(Times(row[j + 2], wr), Weight(2, t)) + Times(Times(row[j + 3], wr), Weight(3, t))
  }

  predicate IsTable(vals: seq<seq<real>>, rows: nat, cols: nat) {
    |vals| == rows && forall i :: 0 <= i < rows ==> |vals[i]| == cols
  }

  function Bicubic(rNodes: seq<real>, thNodes: seq<real>, vals: seq<seq<real>>, rq: real, tq: real): real
    requires |rNodes| >= 4 && |thNodes| >= 4 && rNodes[1] != rNodes[0] && thNodes[1] != thNodes[0]
    requires IsTable(vals, |rNodes|, |thNodes|)
  {
    var fr, ft := Coordinate(rNodes, rq), Coordinate(thNodes, tq);
    var i, j := First(|rNodes|, fr), First(|thNodes|, ft);
    var s, t := fr - i as real, ft - j as real;
    RowTerm(vals[i], j, Weight(0, s), t) + RowTerm(vals[i + 1], j, Weight(1, s), t)
    + RowTerm(vals[i + 2], j, Weight(2, s), t) + RowTerm(vals[i + 3], j, Weight(3, s), t)
  }

  lemma RowFactors(row: seq<real>, j: nat, wr: real, t: real)
    requires j + 3 < |row|
    ensures RowTerm(row, j, wr, t) == Times(FourPoint(row[j], row[j + 1], row[j + 2], row[j + 3], t), wr)
  {
    hide Weight;
    Factor4(row[j], row[j + 1], row[j + 2], row[j + 3], wr, Weight(0, t), Weight(1, t), Weight(2, t), Weight(3, t));
  }

  lemma Factor4(v0: real, v1: real, v2: real, v3: real, wr: real, w0: real, w1: real, w2: real, w3: real)
    ensures Times(Times(v0, wr), w0) + Times(Times(v1, wr), w1) + Times(Times(v2, wr), w2) + Times(Times(v3, wr), w3)
         == Times(Times(v0, w0) + Times(v1, w1) + Times(v2, w2) + Times(v3, w3), wr)
  {
    var a, b, c, d := v0 * w0, v1 * w1, v2 * w2, v3 * w3;
    assert v0 * wr * w0 == a * wr && v1 * wr * w1 == b * wr && v2 * wr * w2 == c * wr && v3 * wr * w3 == d * wr;
    assert (a + b + c + d) * wr == a * wr + b * wr + c * wr + d * wr;
  }

  /** A polynomial of degree at most 3 in each of r and theta: cubics in theta as coefficients of 1, r, r^2, r^3. */
  datatype Poly2 = Poly2(c0: Cubic, c1: Cubic, c2: Cubic, c3: Cubic) {
    function InR(t: real): Cubic { Cubic(c0.At(t), c1.At(t), c2.At(t), c3.At(t)) }

    function InTheta(r: real): Cubic {
      Cubic(Cubic(c0.a0, c1.a0, c2.a0, c3.a0).At(r), Cubic(c0.a1, c1.a1, c2.a1, c3.a1).At(r),
            Cubic(c0.a2, c1.a2, c2.a2, c3.a2).At(r), Cubic(c0.a3, c1.a3, c2.a3, c3.a3).At(r))
    }

    function At(r: real, t: real): real { InR(t).At(r) }
  }

  /** Rows and columns may be summed in either order. */
  lemma EitherAxis(p: Poly2, r: real, t: real)
    ensures p.At(r, t) == p.InTheta(r).At(t)
  {
    Exchange(p.c0, p.c1, p.c2, p.c3, r, Times(r, r), Times(r, Times(r, r)), t, Times(t, t), Times(t, Times(t, t)));
  }

  lemma Exchange(c0: Cubic, c1: Cubic, c2: Cubic, c3: Cubic, r1: real, r2: real, r3: real, t1: real, t2: real, t3: real)
    ensures ThreeTimes(Row(c0, t1, t2, t3), Row(c1, t1, t2, t3), Row(c2, t1, t2, t3), Row(c3, t1, t2, t3), r1, r2, r3)
         == ThreeTimes(ThreeTimes(c0.a0, c1.a0, c2.a0, c3.a0, r1, r2, r3),
             ThreeTimes(c0.a1, c1.a1, c2.a1, c3.a1, r1, r2, r3),
                       ThreeTimes(c0.a2, c1.a2, c2.a2, c3.a2, r1, r2, r3),
                           ThreeTimes(c0.a3, c1.a3, c2.a3, c3.a3, r1, r2, r3),
                       t1, t2, t3)
  {
    hide Times;
    ExchangeOne(c1, t1, t2, t3, r1);
    ExchangeOne(c2, t1, t2, t3, r2);
    ExchangeOne(c3, t1, t2, t3, r3);
    Distribute4(c0.a1, Times(c1.a1, r1), Times(c2.a1, r2), Times(c3.a1, r3), t1);
    Distribute4(c0.a2, Times(c1.a2, r1), Times(c2.a2, r2), Times(c3.a2, r3), t2);
    Distribute4(c0.a3, Times(c1.a3, r1), Times(c2.a3, r2), Times(c3.a3, r3), t3);
  }

  function ThreeTimes(b0: real, b1: real, b2: real, b3: real, x1: real, x2: real, x3: real): real {
    b0 + Times(b1, x1) + Times(b2, x2) + Times(b3, x3)
  }

  function Row(c: Cubic, t1: real, t2: real, t3: real): real {
    ThreeTimes(c.a0, c.a1, c.a2, c.a3, t1, t2, t3)
  }

  lemma ExchangeOne(c: Cubic, t1: real, t2: real, t3: real, r: real)
    ensures Times(Row(c, t1, t2, t3), r)
         == Times(c.a0, r) + Times(Times(c.a1, r), t1) + Times(Times(c.a2, r), t2) + Times(Times(c.a3, r), t3)
  {
    hide Times;
    TimesDistributes(c.a0 + Times(c.a1, t1) + Times(c.a2, t2), Times(c.a3, t3), r);
    TimesDistributes(c.a0 + Times(c.a1, t1), Times(c.a2, t2), r);
    TimesDistributes(c.a0, Times(c.a1, t1), r);
    SwapLast(c.a1, t1, r);
    SwapLast(c.a2, t2, r);
    SwapLast(c.a3, t3, r);
  }

  lemma SwapLast(a: real, t: real, r: real)
    ensures Times(Times(a, t), r) == Times(Times(a, r), t)
  {
  }

  lemma Distribute4(a: real, b: real, c: real, d: real, t: real)
    ensures Times(a + b + c + d, t) == Times(a, t) + Times(b, t) + Times(c, t) + Times(d, t)
  {
  }

  /** The tensor product interpolates every row in theta, and the results in r. */
  lemma BicubicByRows(rNodes: seq<real>, thNodes: seq<real>, vals: seq<seq<real>>, rq: real, tq: real)
    requires |rNodes| >= 4 && |thNodes| >= 4 && rNodes[1] != rNodes[0] && thNodes[1] != thNodes[0]
    requires IsTable(vals, |rNodes|, |thNodes|)
    ensures Bicubic(rNodes, thNodes, vals, rq, tq) == Interp(rNodes, Column(rNodes, vals, thNodes, tq), rq)
  {
    hide Times, Over;
    var fr, ft := Coordinate(rNodes, rq), Coordinate(thNodes, tq);
    var i, j := First(|rNodes|, fr), First(|thNodes|, ft);
    StencilInBounds(|rNodes|, fr);
    StencilInBounds(|thNodes|, ft);
    var column := Column(rNodes, vals, thNodes, tq);
    var s, t := fr - i as real, ft - j as real;
    hide First, Weight, FourPoint, RowTerm;
    RowFactors(vals[i], j, Weight(0, s), t);
    RowFactors(vals[i + 1], j, Weight(1, s), t);
    RowFactors(vals[i + 2], j, Weight(2, s), t);
    RowFactors(vals[i + 3], j, Weight(3, s), t);
    FourPointIs(column[i], column[i + 1], column[i + 2], column[i + 3], s);
  }

  /** The tensor product reproduces every polynomial of degree at most 3 in each variable, at every query. */
  lemma BicubicExact(rNodes: seq<real>, thNodes: seq<real>, vals: seq<seq<real>>, r0: real, hr: real, t0: real,
                     ht: real, p: Poly2, rq: real, tq: real)
    requires Uniform(rNodes, r0, hr) && Uniform(thNodes, t0, ht) && IsTable(vals, |rNodes|, |thNodes|)
    requires forall i, j :: 0 <= i < |rNodes| && 0 <= j < |thNodes| ==> vals[i][j] == p.At(rNodes[i], thNodes[j])
    ensures rNodes[1] != rNodes[0] && thNodes[1] != thNodes[0]
    ensures Bicubic(rNodes, thNodes, vals, rq, tq) == p.At(rq, tq)
  {
    UniformCoordinate(rNodes, r0, hr, rq);
    UniformCoordinate(thNodes, t0, ht, tq);
    BicubicByRows(rNodes, thNodes, vals, rq, tq);
    hide Times, Over, Uniform, Cubic.At, Poly2.InR, Poly2.InTheta, Bicubic, Interp, Coordinate;
    var column := Column(rNodes, vals, thNodes, tq);
    forall k | 0 <= k < |rNodes| ensures column[k] == p.InR(tq).At(rNodes[k]) {
      forall m | 0 <= m < |thNodes| ensures vals[k][m] == p.InTheta(rNodes[k]).At(thNodes[m]) {
        EitherAxis(p, rNodes[k], thNodes[m]);
      }
      InterpExact(thNodes, vals[k], t0, ht, p.InTheta(rNodes[k]), tq);
      EitherAxis(p, rNodes[k], tq);
    }
    InterpExact(rNodes, column, r0, hr, p.InR(tq), rq);
  }

  /** Whatever the data, a query at a lattice point returns the value stored there. */
  lemma BicubicAtNode(rNodes: seq<real>, thNodes: seq<real>, vals: seq<seq<real>>, r0: real, hr: real, t0: real,
                      ht: real, i: nat, j: nat)
    requires Uniform(rNodes, r0, hr) && Uniform(thNodes, t0, ht) && IsTable(vals, |rNodes|, |thNodes|)
    requires i < |rNodes| && j < |thNodes|
    ensures rNodes[1] != rNodes[0] && thNodes[1] != thNodes[0]
    ensures Bicubic(rNodes, thNodes, vals, rNodes[i], thNodes[j]) == vals[i][j]
  {
    UniformCoordinate(rNodes, r0, hr, rNodes[i]);
    UniformCoordinate(thNodes, t0, ht, thNodes[j]);
    BicubicByRows(rNodes, thNodes, vals, rNodes[i], thNodes[j]);
    hide Uniform, Bicubic, Interp, Coordinate;
    InterpAtNode(thNodes, vals[i], t0, ht, j);
    InterpAtNode(rNodes, Column(rNodes, vals, thNodes, thNodes[j]), r0, hr, i);
  }

  /** Node k is one of the four around coordinate f, or of the four at the edge f lies near or beyond. */
  predicate InBlock(n: nat, f: real, k: nat) {
    k < n && if f < 1.0 then k < 4 else if f >= (n - 2) as real then k >= n - 4 else f.Floor - 1 <= k <= f.Floor + 2
  }

  /** Data that agree on the block around the query give the same value there. */
  lemma InterpLocal(nodes: seq<real>, vals: seq<real>, other: seq<real>, q: real)
    requires |nodes| == |vals| == |other| >= 4 && nodes[1] != nodes[0]
    requires forall k: nat | InBlock(|nodes|, Coordinate(nodes, q), k) :: vals[k] == other[k]
    ensures Interp(nodes, vals, q) == Interp(nodes, other, q)
  {
    var f := Coordinate(nodes, q);
    var j := First(|nodes|, f);
    BlockIsStencil(|nodes|, f);
    hide FourPoint, Coordinate, First, InBlock;
    assert InBlock(|nodes|, f, j) && InBlock(|nodes|, f, j + 1);
    assert InBlock(|nodes|, f, j + 2) && InBlock(|nodes|, f, j + 3);
    assert vals[j] == other[j] && vals[j + 1] == other[j + 1];
    assert vals[j + 2] == other[j + 2] && vals[j + 3] == other[j + 3];
  }

  lemma BlockIsStencil(n: nat, f: real)
    requires n >= 4
    ensures 0 <= First(n, f) && First(n, f) + 3 < n
    ensures forall k: nat :: InBlock(n, f, k) <==> First(n, f) <= k < First(n, f) + 4
  {
  }

  /** Only the 4 x 4 block around the query is read. */
  lemma BicubicLocal(rNodes: seq<real>, thNodes: seq<real>, vals: seq<seq<real>>, other: seq<seq<real>>,
                     rq: real, tq: real)
    requires |rNodes| >= 4 && |thNodes| >= 4 && rNodes[1] != rNodes[0] && thNodes[1] != thNodes[0]
    requires IsTable(vals, |rNodes|, |thNodes|) && IsTable(other, |rNodes|, |thNodes|)
    requires forall i: nat, j: nat |
      InBlock(|rNodes|, Coordinate(rNodes, rq), i) && InBlock(|thNodes|, Coordinate(thNodes, tq), j) ::
      vals[i][j] == other[i][j]
    ensures Bicubic(rNodes, thNodes, vals, rq, tq) == Bicubic(rNodes, thNodes, other, rq, tq)
  {
    BicubicByRows(rNodes, thNodes, vals, rq, tq);
    BicubicByRows(rNodes, thNodes, other, rq, tq);
    hide Bicubic, Interp, Coordinate, InBlock;
    var a, b := Column(rNodes, vals, thNodes, tq), Column(rNodes, other, thNodes, tq);
    forall i: nat | InBlock(|rNodes|, Coordinate(rNodes, rq), i) ensures i < |rNodes| && a[i] == b[i] {
      BlockBound(|rNodes|, Coordinate(rNodes, rq), i);
      InterpLocal(thNodes, vals[i], other[i], tq);
    }
    InterpLocal(rNodes, a, b, rq);
  }

  lemma BlockBound(n: nat, f: real, k: nat)
    requires InBlock(n, f, k)
    ensures k < n
  {
  }

  lemma FourPointIs(v0: real, v1: real, v2: real, v3: real, t: real)
    ensures FourPoint(v0, v1, v2, v3, t)
         == Times(v0, Weight(0, t)) + Times(v1, Weight(1, t)) + Times(v2, Weight(2, t)) + Times(v3, Weight(3, t))
  {
  }

  /** Every row interpolated at one angle. */
  function Column(rNodes: seq<real>, vals: seq<seq<real>>, thNodes: seq<real>, tq: real): (c: seq<real>)
    requires |vals| == |rNodes| && |thNodes| >= 4 && thNodes[1] != thNodes[0]
    requires IsTable(vals, |rNodes|, |thNodes|)
    ensures |c| == |rNodes| && forall i :: 0 <= i < |c| ==> c[i] == Interp(thNodes, vals[i], tq)
  {
    ColumnUpTo(vals, thNodes, tq, |vals|)
  }

  function ColumnUpTo(vals: seq<seq<real>>, thNodes: seq<real>, tq: real, n: nat): (c: seq<real>)
    requires n <= |vals| && |thNodes| >= 4 && thNodes[1] != thNodes[0]
    requires forall i :: 0 <= i < |vals| ==> |vals[i]| == |thNodes|
    ensures |c| == n && forall i :: 0 <= i < n ==> c[i] == Interp(thNodes, vals[i], tq)
  {
    if n == 0 then [] else ColumnUpTo(vals, thNodes, tq, n - 1) + [Interp(thNodes, vals[n - 1], tq)]
  }
}
