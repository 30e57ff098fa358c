/** Triangular basis functions on clamped uniform knots: their sum, their ends, and their quadrature mass matrix. */
module Tents {
  import opened Calculus

  /** The i-th of the segment endpoints 0, h, 2h, ... */
  function Node(h: real, i: nat): real { Times(i as real, h) }

  lemma NodeStep(h: real, i: nat)
    ensures Node(h, i + 1) == Node(h, i) + h && Node(h, 0) == 0.0
  {
    assert (i + 1) as real == i as real + 1.0;
  }

  lemma {:induction false} NodeOrder(h: real, i: nat, j: nat)
    requires h > 0.0 && i < j
    ensures Node(h, i) + h <= Node(h, j)
  {
    NodeStep(h, j - 1);
    hide Node;
    if i < j - 1 { NodeOrder(h, i, j - 1); }
  }

  function Endpoints(h: real, n: nat): (e: seq<real>)
    ensures |e| == n + 1 && forall i :: 0 <= i <= n ==> e[i] == Node(h, i)
  {
    (if n == 0 then [] else Endpoints(h, n - 1)) + [Node(h, n)]
  }

  /** The clamped knots of degree 1: the first and the last endpoint twice. */
  function ClampedKnots(h: real, n: nat): (knots: seq<real>)
    ensures |knots| == n + 3
    ensures knots[0] == Node(h, 0) && knots[n + 2] == Node(h, n)
    ensures forall i :: 0 <= i <= n ==> knots[i + 1] == Node(h, i)
  {
    [Node(h, 0)] + Endpoints(h, n) + [Node(h, n)]
  }

  /** The j-th B-spline of degree 1: up from knot j to knot j + 1, down to knot j + 2, zero elsewhere. */
  function Tent(knots: seq<real>, j: nat, z: real): real
    requires j + 2 < |knots|
  {
    if knots[j] < z <= knots[j + 1] then Over(z - knots[j], knots[j + 1] - knots[j])
    else if knots[j + 1] <= z < knots[j + 2] then Over(knots[j + 2] - z, knots[j + 2] - knots[j + 1])
    else 0.0
  }

  ghost predicate InSegment(h: real, s: nat, z: real) {
    h > 0.0 && Node(h, s) <= z <= Node(h, s + 1)
  }

  /** On a segment only the tents of its two ends are not zero. */
  lemma TentOnSegment(h: real, n: nat, s: nat, j: nat, z: real)
    requires s < n && j <= n && InSegment(h, s, z)
    ensures Times(Tent(ClampedKnots(h, n), j, z), h)
         == if j == s then Node(h, s + 1) - z else if j == s + 1 then z - Node(h, s) else 0.0
  {
    hide Node, Times, Over, ClampedKnots;
    var knots := ClampedKnots(h, n);
    TimesZero(h);
    TimesSwap(0.0, h);
    NodeStep(h, s);
    if j < s {
      NodeStep(h, j);
      NodeOrder(h, j, s);
    } else if j == s {
      FallingSide(h, n, s, z);
    } else if j == s + 1 {
      RisingSide(h, n, s, z);
    } else {
      NodeStep(h, j - 1);
      NodeOrder(h, s + 1, j);
    }
  }

  lemma FallingSide(h: real, n: nat, s: nat, z: real)
    requires s < n && InSegment(h, s, z)
    ensures Times(Tent(ClampedKnots(h, n), s, z), h) == Node(h, s + 1) - z
  {
    hide Node, Times, Over, ClampedKnots;
    NodeStep(h, s);
    if s > 0 { NodeStep(h, s - 1); }
    OverTimes(Node(h, s + 1) - z, h);
    OverTimes(h, h);
    TimesZero(h);
    TimesSwap(0.0, h);
    var knots := ClampedKnots(h, n);
    assert knots[s + 1] == Node(h, s) && knots[s + 2] == Node(h, s + 1);
    assert knots[s] == if s == 0 then Node(h, 0) else Node(h, s - 1);
  }

  lemma RisingSide(h: real, n: nat, s: nat, z: real)
    requires s < n && InSegment(h, s, z)
    ensures Times(Tent(ClampedKnots(h, n), s + 1, z), h) == z - Node(h, s)
  {
    hide Node, Times, Over, ClampedKnots;
    NodeStep(h, s);
    if s + 1 < n { NodeStep(h, s + 1); }
    OverTimes(z - Node(h, s), h);
    OverTimes(h, h);
    TimesZero(h);
    TimesSwap(0.0, h);
    var knots := ClampedKnots(h, n);
    assert knots[s + 1] == Node(h, s) && knots[s + 2] == Node(h, s + 1);
    assert knots[s + 3] == if s + 1 == n then Node(h, n) else Node(h, s + 2);
  }

  /** Every point of the wire lies in a segment. */
  lemma {:induction false} SegmentOf(h: real, n: nat, z: real) returns (s: nat)
    requires h > 0.0 && n > 0 && 0.0 <= z <= Node(h, n)
    ensures s < n && InSegment(h, s, z)
  {
    NodeStep(h, n - 1);
    NodeStep(h, 0);
    hide Node;
    if Node(h, n - 1) <= z {
      s := n - 1;
    } else {
      s := SegmentOf(h, n - 1, z);
    }
  }

  /** The sum of the first k tents. */
  function TentSum(knots: seq<real>, k: nat, z: real): real
    requires k + 2 <= |knots|
  {
    if k == 0 then 0.0 else TentSum(knots, k - 1, z) + Tent(knots, k - 1, z)
  }

  lemma {:induction false} TentSumOnSegment(h: real, n: nat, s: nat, k: nat, z: real)
    requires s < n && k <= n + 1 && InSegment(h, s, z)
    ensures Times(TentSum(ClampedKnots(h, n), k, z), h)
         == if k <= s then 0.0 else if k == s + 1 then Node(h, s + 1) - z else h
  {
    hide Node, Times, Tent;
    TimesZero(h);
    TimesSwap(0.0, h);
    if k > 0 {
      TentSumOnSegment(h, n, s, k - 1, z);
      TentOnSegment(h, n, s, k - 1, z);
      TimesDistributes(TentSum(ClampedKnots(h, n), k - 1, z), Tent(ClampedKnots(h, n), k - 1, z), h);
      NodeStep(h, s);
    }
  }

  /** All tents together are 1 on the whole wire. */
  lemma PartitionOfUnity(h: real, n: nat, z: real)
    requires h > 0.0 && n > 0 && 0.0 <= z <= Node(h, n)
    ensures TentSum(ClampedKnots(h, n), n + 1, z) == 1.0
  {
    hide Node, Times, TentSum;
    var s := SegmentOf(h, n, z);
    TentSumOnSegment(h, n, s, n + 1, z);
    TimesOne(h);
    FactorUnique(TentSum(ClampedKnots(h, n), n + 1, z), 1.0, h);
  }

  /** The interior tents vanish at both ends, and they are the only ones that do. */
  lemma OnlyInteriorTentsVanish(h: real, n: nat, j: nat)
    requires h > 0.0 && n > 0 && j <= n
    ensures Tent(ClampedKnots(h, n), j, 0.0) == 0.0 && Tent(ClampedKnots(h, n), j, Node(h, n)) == 0.0 <==> 0 < j < n
  {
    hide Node, Times, Tent;
    NodeStep(h, 0);
    NodeStep(h, n - 1);
    TentOnSegment(h, n, 0, j, 0.0);
    TentOnSegment(h, n, n - 1, j, Node(h, n));
    TimesZero(h);
    TimesSwap(0.0, h);
    if 0 < j < n {
      FactorUnique(Tent(ClampedKnots(h, n), j, 0.0), 0.0, h);
      FactorUnique(Tent(ClampedKnots(h, n), j, Node(h, n)), 0.0, h);
    }
  }

  // ---------------------------------------------------------------- a rule on every segment

  datatype Rule = Rule(nodes: seq<real>, weights: seq<real>)

  function MapNodes(l: real, r: real, xi: seq<real>): (z: seq<real>)
    ensures |z| == |xi| && forall q :: 0 <= q < |xi| ==> z[q] == 0.5 * (r + l) + Times(0.5 * (r - l), xi[q])
  {
    if xi == [] then [] else MapNodes(l, r, xi[..|xi| - 1]) + [0.5 * (r + l) + Times(0.5 * (r - l), xi[|xi| - 1])]
  }

  function MapWeights(l: real, r: real, w: seq<real>): (v: seq<real>)
    ensures |v| == |w| && forall q :: 0 <= q < |w| ==> v[q] == Times(0.5 * (r - l), w[q])
  {
    if w == [] then [] else MapWeights(l, r, w[..|w| - 1]) + [Times(0.5 * (r - l), w[|w| - 1])]
  }

  /** The rule mapped onto every segment between consecutive endpoints, one flat list. */
  function PerSegment(endpoints: seq<real>, rule: Rule): (m: Rule)
    requires endpoints != [] && |rule.nodes| == |rule.weights|
    ensures |m.nodes| == |m.weights|
  {
    if |endpoints| == 1 then Rule([], [])
    else
      var n := |endpoints| - 1;
      var before := PerSegment(endpoints[..n], rule);
      Rule(before.nodes + MapNodes(endpoints[n - 1], endpoints[n], rule.nodes),
           before.weights + MapWeights(endpoints[n - 1], endpoints[n], rule.weights))
  }

  /** Where everything stands: entry s n + i is node i of the rule of n nodes, carried onto segment s, with its weight
      scaled to half the segment's length. */
  lemma EntryOfSegment(endpoints: seq<real>, rule: Rule, s: nat, i: nat)
    requires |rule.nodes| == |rule.weights| && s + 1 < |endpoints| && i < |rule.nodes|
    ensures |PerSegment(endpoints, rule).nodes| == (|endpoints| - 1) * |rule.nodes|
    ensures IsEntry(endpoints, rule, s, i, s * |rule.nodes| + i)
  {
    hide *;
    SegmentCount(endpoints, rule);
    SegmentCount(endpoints[..s + 1], rule);
    assert |endpoints[..s + 1]| - 1 == s;
    EntryFrom(endpoints, rule, s, i);
  }

  predicate IsEntry(endpoints: seq<real>, rule: Rule, s: nat, i: nat, place: int)
    requires |rule.nodes| == |rule.weights| && s + 1 < |endpoints| && i < |rule.nodes|
  {
    var m, l, r := PerSegment(endpoints, rule), endpoints[s], endpoints[s + 1];
    && 0 <= place < |m.nodes|
    && m.nodes[place] == 0.5 * (r + l) + Times(0.5 * (r - l), rule.nodes[i])
    && m.weights[place] == Times(0.5 * (r - l), rule.weights[i])
  }

  lemma {:induction false} EntryFrom(endpoints: seq<real>, rule: Rule, s: nat, i: nat)
    requires |rule.nodes| == |rule.weights| && s + 1 < |endpoints| && i < |rule.nodes|
    ensures IsEntry(endpoints, rule, s, i, |PerSegment(endpoints[..s + 1], rule).nodes| + i)
  {
    hide Times, PerSegment, IsEntry;
    var last := |endpoints| - 1;
    if s + 1 < last {
      EntryFrom(endpoints[..last], rule, s, i);
      assert endpoints[..last][..s + 1] == endpoints[..s + 1];
      EntryStays(endpoints, rule, s, i, |PerSegment(endpoints[..s + 1], rule).nodes| + i);
    } else {
      NewEntry(endpoints, rule, i);
    }
  }

  lemma OneMore(endpoints: seq<real>, rule: Rule)
    requires |endpoints| > 1 && |rule.nodes| == |rule.weights|
    ensures var n := |endpoints| - 1;
            var before, m := PerSegment(endpoints[..n], rule), PerSegment(endpoints, rule);
            && m.nodes == before.nodes + MapNodes(endpoints[n - 1], endpoints[n], rule.nodes)
            && m.weights == before.weights + MapWeights(endpoints[n - 1], endpoints[n], rule.weights)
  {
    hide MapNodes, MapWeights;
  }

  lemma EntryStays(endpoints: seq<real>, rule: Rule, s: nat, i: nat, place: int)
    requires |rule.nodes| == |rule.weights| && s + 1 < |endpoints| - 1 && i < |rule.nodes|
    requires IsEntry(endpoints[..|endpoints| - 1], rule, s, i, place)
    ensures IsEntry(endpoints, rule, s, i, place)
  {
    hide Times, PerSegment, MapNodes, MapWeights;
    OneMore(endpoints, rule);
  }

  lemma NewEntry(endpoints: seq<real>, rule: Rule, i: nat)
    requires |rule.nodes| == |rule.weights| && |endpoints| > 1 && i < |rule.nodes|
    ensures var s := |endpoints| - 2;
            IsEntry(endpoints, rule, s, i, |PerSegment(endpoints[..s + 1], rule).nodes| + i)
  {
    hide Times, PerSegment, MapNodes, MapWeights;
    var n := |endpoints| - 1;
    OneMore(endpoints, rule);
    LastSegmentEntry(PerSegment(endpoints[..n], rule), endpoints[n - 1], endpoints[n], rule, i);
  }

  lemma LastSegmentEntry(before: Rule, l: real, r: real, rule: Rule, i: nat)
    requires |rule.nodes| == |rule.weights| && |before.nodes| == |before.weights| && i < |rule.nodes|
    ensures (before.nodes + MapNodes(l, r, rule.nodes))[|before.nodes| + i]
         == 0.5 * (r + l) + Times(0.5 * (r - l), rule.nodes[i])
    ensures (before.weights + MapWeights(l, r, rule.weights))[|before.nodes| + i]
         == Times(0.5 * (r - l), rule.weights[i])
  {
    hide Times;
  }

  lemma {:induction false} SegmentCount(endpoints: seq<real>, rule: Rule)
    requires endpoints != [] && |rule.nodes| == |rule.weights|
    ensures |PerSegment(endpoints, rule).nodes| == (|endpoints| - 1) * |rule.nodes|
  {
    if |endpoints| > 1 {
      SegmentCount(endpoints[..|endpoints| - 1], rule);
      OneMoreSegment(|endpoints| - 1, |rule.nodes|);
    }
  }

  lemma OneMoreSegment(s: int, n: int)
    ensures (s - 1) * n + n == s * n
  {
  }

  function Total(w: seq<real>): real {
    if w == [] then 0.0 else Total(w[..|w| - 1]) + w[|w| - 1]
  }

  lemma {:induction false} TotalAppend(a: seq<real>, b: seq<real>)
    ensures Total(a + b) == Total(a) + Total(b)
  {
    if b == [] {
      assert a + b == a;
    } else {
      var n := |b| - 1;
      assert (a + b)[..|a + b| - 1] == a + b[..n];
      TotalAppend(a, b[..n]);
    }
  }

  lemma {:induction false} TotalMapped(l: real, r: real, w: seq<real>)
    ensures Total(MapWeights(l, r, w)) == Times(0.5 * (r - l), Total(w))
  {
    hide Times;
    if w == [] {
      TimesZero(0.5 * (r - l));
    } else {
      var n := |w| - 1;
      assert MapWeights(l, r, w)[..n] == MapWeights(l, r, w[..n]);
      TotalMapped(l, r, w[..n]);
      TimesDistributes(Total(w[..n]), w[n], 0.5 * (r - l));
    }
  }

  /** The mapped weights of a rule of total weight 2 sum to the whole length, for any segments. */
  lemma {:induction false} WeightsSumToLength(endpoints: seq<real>, rule: Rule)
    requires endpoints != [] && |rule.nodes| == |rule.weights| && Total(rule.weights) == 2.0
    ensures Total(PerSegment(endpoints, rule).weights) == endpoints[|endpoints| - 1] - endpoints[0]
  {
    if |endpoints| > 1 {
      var n := |endpoints| - 1;
      WeightsSumToLength(endpoints[..n], rule);
      var before := PerSegment(endpoints[..n], rule);
      var l, r := endpoints[n - 1], endpoints[n];
      TotalAppend(before.weights, MapWeights(l, r, rule.weights));
      TotalMapped(l, r, rule.weights);
      assert Times(0.5 * (r - l), 2.0) == r - l;
    }
  }

  // ---------------------------------------------------------------- the mass matrix

  /** The sum of w xi. */
  function FirstMoment(w: seq<real>, xi: seq<real>): real
    requires |w| == |xi|
  {
    if w == [] then 0.0
    else FirstMoment(w[..|w| - 1], xi[..|w| - 1]) + Times(w[|w| - 1], xi[|w| - 1])
  }

  /** The sum of w xi^2. */
  function SecondMoment(w: seq<real>, xi: seq<real>): real
    requires |w| == |xi|
  {
    if w == [] then 0.0
    else SecondMoment(w[..|w| - 1], xi[..|w| - 1]) + Times(w[|w| - 1], Times(xi[|w| - 1], xi[|w| - 1]))
  }

  /** A rule on [-1, 1] that integrates 1, xi and xi^2 exactly. */
  ghost predicate ExactToDegree2(rule: Rule) {
    && |rule.nodes| == |rule.weights|
    && InUnit(rule.nodes)
    && Total(rule.weights) == 2.0
    && FirstMoment(rule.weights, rule.nodes) == 0.0
    && SecondMoment(rule.weights, rule.nodes) == 2.0 / 3.0
  }

  ghost predicate InUnit(xi: seq<real>) {
    forall q :: 0 <= q < |xi| ==> -1.0 <= xi[q] <= 1.0
  }

  /** The quadrature of the product of two tents. */
  function MassEntry(knots: seq<real>, a: nat, b: nat, m: Rule): real
    requires a + 2 < |knots| && b + 2 < |knots| && |m.nodes| == |m.weights|
    decreases |m.nodes|
  {
    if m.nodes == [] then 0.0
    else
      var n := |m.nodes| - 1;
      MassEntry(knots, a, b, Rule(m.nodes[..n], m.weights[..n]))
      + Times(m.weights[n], Times(Tent(knots, a, m.nodes[n]), Tent(knots, b, m.nodes[n])))
  }

  lemma {:induction false} MassAppend(knots: seq<real>, a: nat, b: nat, z: seq<real>, w: seq<real>, y: seq<real>,
      v: seq<real>)
    requires a + 2 < |knots| && b + 2 < |knots| && |z| == |w| && |y| == |v|
    ensures MassEntry(knots, a, b, Rule(z + y, w + v)) == MassEntry(knots, a, b, Rule(z, w))
        + MassEntry(knots, a, b, Rule(y, v))
    decreases |y|
  {
    hide Times, Tent;
    if y == [] {
      assert z + y == z && w + v == w;
    } else {
      var n := |y| - 1;
      assert (z + y)[..|z + y| - 1] == z + y[..n] && (w + v)[..|z + y| - 1] == w + v[..n];
      MassAppend(knots, a, b, z, w, y[..n], v[..n]);
    }
  }

  /** The tent of an end of segment s, seen from inside: (1 - xi)/2 at the left end, (1 + xi)/2 at the right. */
  function Side(s: nat, j: nat): real {
    if j == s then -1.0 else 1.0
  }

  function EndValue(e: real, xi: real): real { 0.5 * (1.0 + e * xi) }

  predicate IsEnd(s: nat, j: nat) { j == s || j == s + 1 }

  lemma TentAtNode(h: real, n: nat, s: nat, j: nat, xi: real)
    requires h > 0.0 && s < n && j <= n && -1.0 <= xi <= 1.0
    ensures var z := 0.5 * (Node(h, s + 1) + Node(h, s)) + Times(0.5 * (Node(h, s + 1) - Node(h, s)), xi);
            Tent(ClampedKnots(h, n), j, z) == if IsEnd(s, j) then EndValue(Side(s, j), xi) else 0.0
  {
    var z := 0.5 * (Node(h, s + 1) + Node(h, s)) + Times(0.5 * (Node(h, s + 1) - Node(h, s)), xi);
    NodeStep(h, s);
    MidPoint(h, xi);
    hide Node, Tent, Times;
    TentOnSegment(h, n, s, j, z);
    TimesZero(h);
    TimesSwap(0.0, h);
    var t := Tent(ClampedKnots(h, n), j, z);
    FactorUnique(t, if j == s then 0.5 * (1.0 - xi) else if j == s + 1 then 0.5 * (1.0 + xi) else 0.0, h);
  }

  lemma MidPoint(h: real, xi: real)
    requires h > 0.0 && -1.0 <= xi <= 1.0
    ensures -0.5 * h <= Times(0.5 * h, xi) <= 0.5 * h
    ensures Times(0.5 * (1.0 + xi), h) == 0.5 * h + Times(0.5 * h, xi)
    ensures Times(0.5 * (1.0 - xi), h) == 0.5 * h - Times(0.5 * h, xi)
  {
    TimesMono(-1.0, xi, 0.5 * h);
    TimesMono(xi, 1.0, 0.5 * h);
  }

  function EndOrZero(s: nat, j: nat, xi: real): real {
    if IsEnd(s, j) then EndValue(Side(s, j), xi) else 0.0
  }

  /** One more point of the rule on one segment. */
  lemma SegmentStep(h: real, n: nat, s: nat, a: nat, b: nat, w: seq<real>, xi: seq<real>)
    requires h > 0.0 && s < n && a <= n && b <= n && |w| == |xi| > 0 && InUnit(xi)
    ensures var l, r, k := Node(h, s), Node(h, s + 1), |w| - 1;
            MassEntry(ClampedKnots(h, n), a, b, Rule(MapNodes(l, r, xi), MapWeights(l, r, w)))
            == MassEntry(ClampedKnots(h, n), a, b, Rule(MapNodes(l, r, xi[..k]), MapWeights(l, r, w[..k])))
               + Times(Times(0.5 * h, w[k]), Times(EndOrZero(s, a, xi[k]), EndOrZero(s, b, xi[k])))
  {
    hide Node, Tent, Times, ClampedKnots, EndOrZero;
    var l, r, k := Node(h, s), Node(h, s + 1), |w| - 1;
    var m, knots := Rule(MapNodes(l, r, xi), MapWeights(l, r, w)), ClampedKnots(h, n);
    assert m.nodes[..k] == MapNodes(l, r, xi[..k]) && m.weights[..k] == MapWeights(l, r, w[..k]);
    assert MassEntry(knots, a, b, m) == MassEntry(knots, a, b, Rule(m.nodes[..k], m.weights[..k]))
                                        + Times(m.weights[k], Times(Tent(knots, a, m.nodes[k]),
                                            Tent(knots, b, m.nodes[k])));
    hide MassEntry;
    NodeStep(h, s);
    assert m.weights[k] == Times(0.5 * h, w[k]);
    TentAtMapped(h, n, s, a, xi, k);
    TentAtMapped(h, n, s, b, xi, k);
  }

  lemma TentAtMapped(h: real, n: nat, s: nat, j: nat, xi: seq<real>, k: nat)
    requires h > 0.0 && s < n && j <= n && k < |xi| && InUnit(xi)
    ensures Tent(ClampedKnots(h, n), j, MapNodes(Node(h, s), Node(h, s + 1), xi)[k]) == EndOrZero(s, j, xi[k])
  {
    hide Node, Tent, Times, ClampedKnots, EndValue, Side;
    TentAtNode(h, n, s, j, xi[k]);
  }

  /** What one segment adds to the entry for two of its ends. */
  lemma {:induction false} SegmentMass(h: real, n: nat, s: nat, a: nat, b: nat, w: seq<real>, xi: seq<real>)
    requires h > 0.0 && s < n && a <= n && b <= n && |w| == |xi| && InUnit(xi)
    ensures var l, r := Node(h, s), Node(h, s + 1);
            MassEntry(ClampedKnots(h, n), a, b, Rule(MapNodes(l, r, xi), MapWeights(l, r, w)))
            == if IsEnd(s, a) && IsEnd(s, b)
               then Combined(h, Side(s, a), Side(s, b), Total(w), FirstMoment(w, xi), SecondMoment(w, xi)) else 0.0
  {
    hide Node, Tent, Times, Combined, EndValue, Side, ClampedKnots;
    if w == [] {
      NothingCombined(h, Side(s, a), Side(s, b));
    } else {
      var k := |w| - 1;
      assert InUnit(xi[..k]);
      SegmentMass(h, n, s, a, b, w[..k], xi[..k]);
      SegmentStep(h, n, s, a, b, w, xi);
      hide MassEntry, MapNodes, MapWeights;
      SideValues(s, a);
      SideValues(s, b);
      if IsEnd(s, a) && IsEnd(s, b) {
        PointMass(h, w[k], xi[k], Side(s, a), Side(s, b), Total(w[..k]), FirstMoment(w[..k], xi[..k]),
            SecondMoment(w[..k], xi[..k]));
      } else {
        AbsentTent(Times(0.5 * h, w[k]), EndOrZero(s, a, xi[k]), EndOrZero(s, b, xi[k]));
      }
    }
  }

  lemma SideValues(s: nat, j: nat)
    ensures Side(s, j) == -1.0 || Side(s, j) == 1.0
  {
  }

  /** h/8 (s0 + (ea + eb) s1 + ea eb s2) */
  function Combined(h: real, ea: real, eb: real, s0: real, s1: real, s2: real): real {
    h * (s0 + (ea + eb) * s1 + ea * eb * s2) / 8.0
  }

  lemma NothingCombined(h: real, ea: real, eb: real)
    ensures Combined(h, ea, eb, 0.0, 0.0, 0.0) == 0.0
  {
  }

  lemma AbsentTent(v: real, x: real, y: real)
    ensures Times(v, Times(0.0, y)) == 0.0 && Times(v, Times(x, 0.0)) == 0.0
  {
  }

  lemma PointMass(h: real, w: real, xi: real, ea: real, eb: real, s0: real, s1: real, s2: real)
    requires (ea == -1.0 || ea == 1.0) && (eb == -1.0 || eb == 1.0)
    ensures Combined(h, ea, eb, s0, s1, s2) + Times(Times(0.5 * h, w), Times(EndValue(ea, xi), EndValue(eb, xi)))
         == Combined(h, ea, eb, s0 + w, s1 + Times(w, xi), s2 + Times(w, Times(xi, xi)))
  {
    var p, q := Times(w, xi), Times(w, Times(xi, xi));
    PointProduct(w, xi, ea, eb);
    Factored(h, s0 + (ea + eb) * s1 + ea * eb * s2, w + (ea + eb) * p + ea * eb * q, w,
        Times(EndValue(ea, xi), EndValue(eb, xi)));
  }

  lemma PointProduct(w: real, xi: real, ea: real, eb: real)
    requires (ea == -1.0 || ea == 1.0) && (eb == -1.0 || eb == 1.0)
    ensures 4.0 * Times(w, Times(EndValue(ea, xi), EndValue(eb, xi)))
         == w + (ea + eb) * Times(w, xi) + ea * eb * Times(w, Times(xi, xi))
  {
    if ea == 1.0 {
      if eb == 1.0 { assert 4.0 * (w * (0.5 * (1.0 + xi) * (0.5 * (1.0 + xi)))) == w + 2.0 * (w * xi) + w * (xi * xi); }
    }
  }

  lemma Factored(h: real, x: real, d: real, w: real, t: real)
    requires 4.0 * Times(w, t) == d
    ensures h * x / 8.0 + Times(Times(0.5 * h, w), t) == h * (x + d) / 8.0
  {
    assert 0.5 * h * w * t == 0.5 * h * (w * t);
  }

  /** The entry from the first k segments. */
  function EntryUpTo(h: real, a: nat, b: nat, k: nat): real {
    if a == b then (if 0 < a <= k then h / 3.0 else 0.0) + (if a < k then h / 3.0 else 0.0)
    else if a == b + 1 then (if b < k then h / 6.0 else 0.0)
    else if b == a + 1 then (if a < k then h / 6.0 else 0.0)
    else 0.0
  }

  lemma {:induction false} MassUpTo(h: real, n: nat, k: nat, a: nat, b: nat, rule: Rule)
    requires h > 0.0 && k <= n && a <= n && b <= n && ExactToDegree2(rule)
    ensures MassEntry(ClampedKnots(h, n), a, b, PerSegment(Endpoints(h, k), rule)) == EntryUpTo(h, a, b, k)
  {
    hide Node, Tent, Times, Combined, EntryUpTo, MassEntry, ClampedKnots;
    if k == 0 {
      NoSegments(h, n, a, b, rule);
    } else {
      var s := k - 1;
      MassUpTo(h, n, s, a, b, rule);
      assert Endpoints(h, k)[..k] == Endpoints(h, s);
      var before, l, r := PerSegment(Endpoints(h, s), rule), Node(h, s), Node(h, k);
      assert PerSegment(Endpoints(h, k), rule)
          == Rule(before.nodes + MapNodes(l, r, rule.nodes), before.weights + MapWeights(l, r, rule.weights));
      hide Endpoints, PerSegment, MapNodes, MapWeights;
      MassAppend(ClampedKnots(h, n), a, b, before.nodes, before.weights, MapNodes(l, r, rule.nodes),
          MapWeights(l, r, rule.weights));
      SegmentMass(h, n, s, a, b, rule.weights, rule.nodes);
      EntryStep(h, a, b, s);
    }
  }

  lemma NoSegments(h: real, n: nat, a: nat, b: nat, rule: Rule)
    requires a <= n && b <= n && |rule.nodes| == |rule.weights|
    ensures MassEntry(ClampedKnots(h, n), a, b, PerSegment(Endpoints(h, 0), rule)) == EntryUpTo(h, a, b, 0)
  {
    hide Node;
    assert |Endpoints(h, 0)| == 1;
  }

  lemma EntryStep(h: real, a: nat, b: nat, s: nat)
    ensures EntryUpTo(h, a, b, s + 1)
         == EntryUpTo(h, a, b, s)
            + if IsEnd(s, a) && IsEnd(s, b) then Combined(h, Side(s, a), Side(s, b), 2.0, 0.0, 2.0 / 3.0) else 0.0
  {
    ExactValues(h);
    hide Combined;
  }

  lemma ExactValues(h: real)
    ensures Combined(h, -1.0, -1.0, 2.0, 0.0, 2.0 / 3.0) == h / 3.0 == Combined(h, 1.0, 1.0, 2.0, 0.0, 2.0 / 3.0)
    ensures Combined(h, -1.0, 1.0, 2.0, 0.0, 2.0 / 3.0) == h / 6.0 == Combined(h, 1.0, -1.0, 2.0, 0.0, 2.0 / 3.0)
  {
  }

  /** The quadrature mass matrix is exact: 2h/3 on the diagonal, h/6 beside it, 0 elsewhere (h/3 at the two
      boundary tents), for every number of segments and every rule exact to degree 2. */
  lemma MassMatrix(h: real, n: nat, a: nat, b: nat, rule: Rule)
    requires h > 0.0 && a <= n && b <= n && n > 0 && ExactToDegree2(rule)
    ensures MassEntry(ClampedKnots(h, n), a, b, PerSegment(Endpoints(h, n), rule))
         == if a == b then (if 0 < a < n then 2.0 * h / 3.0 else h / 3.0)
            else if a == b + 1 || b == a + 1 then h / 6.0
            else 0.0
  {
    MassUpTo(h, n, n, a, b, rule);
    hide MassEntry, PerSegment, ClampedKnots, Endpoints, ExactToDegree2;
  }
}
