/** The frozen Gauss-Legendre tables: halved, packed with offsets, printed as a header, read back and mirrored. */
module LegTable {
  import opened Calculus
  import opened Results
  import opened Terms
  import opened TokenText

  /** A stored half: its nodes and weights, space-separated. */
  datatype Half = Half(xs: string, ws: string)

  datatype Tables = Tables(offsets: seq<nat>, nodes: seq<string>, weights: seq<string>)

  // ---------------------------------------------------------------- packing

  /** The table holds the orders 1..nMax and nothing else. */
  predicate Complete(nMax: nat, halves: map<int, Half>) {
    (forall n <- halves :: 1 <= n <= nMax) && forall n :: 1 <= n <= nMax ==> n in halves
  }

  function HalfSize(n: nat): nat { (n + 1) / 2 }

  predicate RightSize(half: Half, n: nat) {
    |Tokens(half.xs, false)| == |Tokens(half.ws, false)| == HalfSize(n)
  }

  /** floor((n + 1)^2 / 4) */
  function Offset(n: nat): nat { (n + 1) * (n + 1) / 4 }

  lemma OffsetStep(n: nat)
    ensures Offset(0) == 0 && Offset(n + 1) == Offset(n) + HalfSize(n + 1)
  {
    var m := n / 2;
    if n % 2 == 0 {
      assert n == 2 * m;
      assert (n + 1) * (n + 1) == 4 * (m * m + m) + 1;
      assert (n + 2) * (n + 2) == 4 * (m * m + 2 * m + 1);
    } else {
      assert n == 2 * m + 1;
      assert (n + 1) * (n + 1) == 4 * (m * m + 2 * m + 1);
      assert (n + 2) * (n + 2) == 4 * (m * m + 3 * m + 2) + 1;
    }
  }

  /** Rule k's half lies between consecutive offsets, unchanged. */
  predicate Holds(t: Tables, halves: map<int, Half>, k: nat)
    requires 1 <= k < |t.offsets| && k in halves
  {
    && t.offsets[k - 1] <= t.offsets[k] <= |t.nodes| && t.offsets[k] <= |t.weights|
    && t.nodes[t.offsets[k - 1]..t.offsets[k]] == Tokens(halves[k].xs, false)
    && t.weights[t.offsets[k - 1]..t.offsets[k]] == Tokens(halves[k].ws, false)
  }

  predicate Packed(t: Tables, halves: map<int, Half>, n: nat)
    requires forall k :: 1 <= k <= n ==> k in halves
  {
    && |t.offsets| == n + 1
    && (forall k :: 0 <= k <= n ==> t.offsets[k] == Offset(k))
    && |t.nodes| == |t.weights| == Offset(n)
    && (forall k :: 1 <= k <= n ==> Holds(t, halves, k))
  }

  /** Another rule at the end leaves the earlier ones where they were. */
  lemma PackedStep(t: Tables, halves: map<int, Half>, n: nat, xs: seq<string>, ws: seq<string>)
    requires forall k :: 1 <= k <= n + 1 ==> k in halves
    requires Packed(t, halves, n) && |xs| == |ws| == HalfSize(n + 1)
    requires xs == Tokens(halves[n + 1].xs, false) && ws == Tokens(halves[n + 1].ws, false)
    ensures Packed(Tables(t.offsets + [|t.nodes + xs|], t.nodes + xs, t.weights + ws), halves, n + 1)
  {
    var t' := Tables(t.offsets + [|t.nodes + xs|], t.nodes + xs, t.weights + ws);
    OffsetStep(n);
    hide Offset, HalfSize, Tokens;
    forall k | 1 <= k <= n + 1 ensures Holds(t', halves, k) {
      if k <= n {
        assert Holds(t, halves, k);
        assert t'.offsets[k - 1] == t.offsets[k - 1] && t'.offsets[k] == t.offsets[k];
        assert t'.nodes[t.offsets[k - 1]..t.offsets[k]] == t.nodes[t.offsets[k - 1]..t.offsets[k]];
        assert t'.weights[t.offsets[k - 1]..t.offsets[k]] == t.weights[t.offsets[k - 1]..t.offsets[k]];
      } else {
        assert t'.nodes[Offset(n)..Offset(n + 1)] == xs && t'.weights[Offset(n)..Offset(n + 1)] == ws;
      }
    }
  }

  method Pack(nMax: nat, halves: map<int, Half>) returns (r: Result<Tables, string>)
    ensures r.Ok? <==> Complete(nMax, halves) && forall k :: 1 <= k <= nMax ==> RightSize(halves[k], k)
    ensures r.Ok? ==> Complete(nMax, halves) && Packed(r.value, halves, nMax)
  {
    hide Tokens, Packed;
    if !Complete(nMax, halves) { return Err("the table is not 1..N_MAX"); }
    OffsetStep(0);
    var t := Tables([0], [], []);
    assert Packed(t, halves, 0) by { EmptyPacked(halves); }
    var n := 1;
    while n < nMax + 1
      invariant 1 <= n <= nMax + 1
      invariant Packed(t, halves, n - 1)
      invariant forall k :: 1 <= k < n ==> RightSize(halves[k], k)
    {
      var xs, ws := Tokens(halves[n].xs, false), Tokens(halves[n].ws, false);
      if !(|xs| == |ws| == HalfSize(n)) { return Err("half has the wrong size"); }
      PackedStep(t, halves, n - 1, xs, ws);
      t := Tables(t.offsets + [|t.nodes + xs|], t.nodes + xs, t.weights + ws);
      n := n + 1;
    }
    r := Ok(t);
  }

  lemma EmptyPacked(halves: map<int, Half>)
    ensures Packed(Tables([0], [], []), halves, 0)
  {
  }

  /** Rule k's part of an array, from offsets as printed. */
  function Slice(values: seq<string>, offsets: seq<string>, k: nat): Option<seq<string>> {
    if 1 <= k < |offsets| then
      var lo, hi := Number(offsets[k - 1]), Number(offsets[k]);
      if lo.Some? && hi.Some? && lo.value <= hi.value <= |values| then Some(values[lo.value..hi.value]) else None
    else None
  }

  /** From the table's strings to the printed header and back: reading the three printed arrays as initialisers and
      slicing the nodes and the weights at the printed offsets gives each rule's own tokens. */
  lemma HeaderHoldsTheTable(t: Tables, halves: map<int, Half>, n: nat, k: nat, wide: nat, narrow: nat,
                            xs: seq<string>, ws: seq<string>)
    requires (forall j :: 1 <= j <= n ==> j in halves) && Packed(t, halves, n) && 1 <= k <= n
    requires wide > 0 && narrow > 0 && AllTokens(t.nodes, true) && AllTokens(t.weights, true)
    requires AllTokens(xs, false) && AllTokens(ws, false) && halves[k] == Half(Join(xs, " "), Join(ws, " "))
    ensures var offsets := Items(Rows(Decimals(t.offsets), wide));
            var nodes, weights := Items(Rows(t.nodes, narrow)), Items(Rows(t.weights, narrow));
            && |offsets| == n + 1
            && Slice(nodes, offsets, k) == Some(xs)
            && Slice(weights, offsets, k) == Some(ws)
  {
    ReadItems(t.nodes, narrow);
    ReadItems(t.weights, narrow);
    WordsRoundTrip(xs);
    WordsRoundTrip(ws);
    NumbersRoundTrip(t.offsets, wide);
    hide Tokens, Items, Rows, Offset, Number, Decimals, Join;
    assert Holds(t, halves, k);
  }

  // ---------------------------------------------------------------- halving and mirroring

  function Reverse<T>(s: seq<T>): (r: seq<T>)
    ensures |r| == |s| && forall i :: 0 <= i < |s| ==> r[i] == s[|s| - 1 - i]
  {
    if s == [] then [] else Reverse(s[1..]) + [s[0]]
  }

  function Negate(s: seq<real>): (r: seq<real>)
    ensures |r| == |s| && forall i :: 0 <= i < |s| ==> r[i] == -s[i]
  {
    if s == [] then [] else [-s[0]] + Negate(s[1..])
  }

  datatype Rule = Rule(x: seq<real>, w: seq<real>)

  /** The middle of a rule and everything above it. */
  function UpperHalf(rule: Rule): Rule
    requires |rule.x| == |rule.w|
  {
    Rule(rule.x[|rule.x| / 2..], rule.w[|rule.w| / 2..])
  }

  /** The rule of order n whose upper half is given. */
  function FromHalf(n: nat, half: Rule): Rule
    requires |half.x| == |half.w| == HalfSize(n)
  {
    Rule(Negate(Reverse(half.x))[..n / 2] + half.x, Reverse(half.w)[..n / 2] + half.w)
  }

  /** Nodes antisymmetric and weights symmetric about the middle; the middle entry of an odd rule is free. */
  predicate Mirrored(rule: Rule)
    requires |rule.x| == |rule.w|
  {
    forall i :: 0 <= i < |rule.x| / 2 ==>
      rule.x[i] == -rule.x[|rule.x| - 1 - i] && rule.w[i] == rule.w[|rule.w| - 1 - i]
  }

  /** The size of the upper half is what the packing expects. */
  lemma UpperHalfSize(rule: Rule)
    requires |rule.x| == |rule.w|
    ensures |UpperHalf(rule).x| == |UpperHalf(rule).w| == HalfSize(|rule.x|)
  {
  }

  /** Mirroring the upper half gives the rule back exactly when the rule is mirrored. */
  lemma MirrorRestores(rule: Rule)
    requires |rule.x| == |rule.w|
    ensures |UpperHalf(rule).x| == |UpperHalf(rule).w| == HalfSize(|rule.x|)
    ensures FromHalf(|rule.x|, UpperHalf(rule)) == rule <==> Mirrored(rule)
  {
    var n := |rule.x|;
    UpperHalfSize(rule);
    hide UpperHalf, FromHalf, IsMirrorEntry;
    FromHalfSize(n, UpperHalf(rule));
    forall i | 0 <= i < n ensures IsMirrorEntry(rule, FromHalf(n, UpperHalf(rule)), i) {
      MirrorEntryOf(rule, i);
    }
    EntriesDecide(rule, FromHalf(n, UpperHalf(rule)));
  }

  lemma FromHalfSize(n: nat, half: Rule)
    requires |half.x| == |half.w| == HalfSize(n)
    ensures |FromHalf(n, half).x| == |FromHalf(n, half).w| == n
  {
  }

  lemma MirrorEntryOf(rule: Rule, i: nat)
    requires |rule.x| == |rule.w| && i < |rule.x|
    ensures |UpperHalf(rule).x| == |UpperHalf(rule).w| == HalfSize(|rule.x|)
    ensures var full := FromHalf(|rule.x|, UpperHalf(rule));
            |rule.x| == |full.x| == |full.w| && IsMirrorEntry(rule, full, i)
  {
    MirrorAt(|rule.x|, UpperHalf(rule), i);
    hide FromHalf;
  }

  predicate IsMirrorEntry(rule: Rule, full: Rule, i: nat)
    requires |rule.x| == |rule.w| == |full.x| == |full.w| && i < |rule.x|
  {
    var n := |rule.x|;
    && full.x[i] == (if i < n / 2 then -rule.x[n - 1 - i] else rule.x[i])
    && full.w[i] == (if i < n / 2 then rule.w[n - 1 - i] else rule.w[i])
  }

  lemma EntriesDecide(rule: Rule, full: Rule)
    requires |rule.x| == |rule.w| == |full.x| == |full.w|
    requires forall i :: 0 <= i < |rule.x| ==> IsMirrorEntry(rule, full, i)
    ensures full == rule <==> Mirrored(rule)
  {
    var n := |rule.x|;
    if Mirrored(rule) {
      forall i | 0 <= i < n ensures full.x[i] == rule.x[i] && full.w[i] == rule.w[i] {
        assert IsMirrorEntry(rule, full, i);
      }
      assert full.x == rule.x && full.w == rule.w;
    } else {
      var i :| 0 <= i < n / 2 && !(rule.x[i] == -rule.x[n - 1 - i] && rule.w[i] == rule.w[n - 1 - i]);
      assert IsMirrorEntry(rule, full, i);
    }
  }

  /** The entries of a mirrored rule. */
  lemma MirrorAt(n: nat, half: Rule, i: nat)
    requires |half.x| == |half.w| == HalfSize(n) && i < n
    ensures |FromHalf(n, half).x| == |FromHalf(n, half).w| == n
    ensures FromHalf(n, half).x[i] == if i < n / 2 then -half.x[|half.x| - 1 - i] else half.x[i - n / 2]
    ensures FromHalf(n, half).w[i] == if i < n / 2 then half.w[|half.w| - 1 - i] else half.w[i - n / 2]
  {
    hide Reverse, Negate;
  }

  /** The other way round: halving what was mirrored gives the half back. */
  lemma HalfOfMirror(n: nat, half: Rule)
    requires |half.x| == |half.w| == HalfSize(n)
    ensures |FromHalf(n, half).x| == |FromHalf(n, half).w| == n
    ensures UpperHalf(FromHalf(n, half)) == half && Mirrored(FromHalf(n, half))
  {
    HalfOfMirrored(n, half);
    hide UpperHalf;
    var full := FromHalf(n, half);
    forall i | 0 <= i < n / 2 ensures full.x[i] == -full.x[n - 1 - i] && full.w[i] == full.w[n - 1 - i] {
      OppositeEntries(n, half, i);
    }
  }

  lemma HalfOfMirrored(n: nat, half: Rule)
    requires |half.x| == |half.w| == HalfSize(n)
    ensures |FromHalf(n, half).x| == |FromHalf(n, half).w| == n && UpperHalf(FromHalf(n, half)) == half
  {
    hide Reverse, Negate;
    var full := FromHalf(n, half);
    assert full.x[n / 2..] == half.x;
    assert full.w[n / 2..] == half.w;
  }

  lemma OppositeEntries(n: nat, half: Rule, i: nat)
    requires |half.x| == |half.w| == HalfSize(n) && i < n / 2
    ensures |FromHalf(n, half).x| == |FromHalf(n, half).w| == n
    ensures FromHalf(n, half).x[i] == -FromHalf(n, half).x[n - 1 - i]
    ensures FromHalf(n, half).w[i] == FromHalf(n, half).w[n - 1 - i]
  {
    MirrorAt(n, half, i);
    MirrorAt(n, half, n - 1 - i);
    hide FromHalf;
  }

  // ---------------------------------------------------------------- odd powers

  /** The sum of w x^p. */
  function PowerSum(x: seq<real>, w: seq<real>, p: nat): real
    requires |x| == |w|
  {
    if x == [] then 0.0 else Times(w[0], RealPower(x[0], p)) + PowerSum(x[1..], w[1..], p)
  }

  lemma {:induction false} PowerSumAppend(x: seq<real>, w: seq<real>, y: seq<real>, v: seq<real>, p: nat)
    requires |x| == |w| && |y| == |v|
    ensures PowerSum(x + y, w + v, p) == PowerSum(x, w, p) + PowerSum(y, v, p)
  {
    hide Times, RealPower;
    if x == [] {
      assert x + y == y && w + v == v;
    } else {
      assert (x + y)[1..] == x[1..] + y && (w + v)[1..] == w[1..] + v;
      PowerSumAppend(x[1..], w[1..], y, v, p);
    }
  }

  lemma {:induction false} OddPower(x: real, p: nat)
    requires p % 2 == 1
    ensures RealPower(-x, p) == -RealPower(x, p)
  {
    hide Times;
    EvenPower(x, p - 1);
    TwoSigns(x, RealPower(x, p - 1));
  }

  lemma {:induction false} EvenPower(x: real, p: nat)
    requires p % 2 == 0
    ensures RealPower(-x, p) == RealPower(x, p)
  {
    hide Times;
    if p > 0 {
      EvenPower(x, p - 2);
      var q := RealPower(x, p - 2);
      assert RealPower(x, p - 1) == Times(x, q) && RealPower(-x, p - 1) == Times(-x, q);
      TwoSigns(x, q);
    }
  }

  lemma TwoSigns(x: real, q: real)
    ensures Times(-x, Times(-x, q)) == Times(x, Times(x, q)) && Times(-x, q) == -Times(x, q)
  {
  }

  lemma {:induction false} PowerSumOfMirror(x: seq<real>, w: seq<real>, p: nat)
    requires |x| == |w| && p % 2 == 1
    ensures PowerSum(Negate(Reverse(x)), Reverse(w), p) == -PowerSum(x, w, p)
  {
    hide Times, RealPower, Reverse, Negate;
    if x == [] {
      assert Negate(Reverse(x)) == [] && Reverse(w) == [];
    } else {
      var y, v := Negate(Reverse(x[1..])), Reverse(w[1..]);
      PowerSumOfMirror(x[1..], w[1..], p);
      assert Negate(Reverse(x)) == y + [-x[0]] && Reverse(w) == v + [w[0]];
      PowerSumAppend(y, v, [-x[0]], [w[0]], p);
      OneTerm(-x[0], w[0], p);
      OddPower(x[0], p);
      NegatedTerm(w[0], RealPower(x[0], p));
    }
  }

  lemma OneTerm(x: real, w: real, p: nat)
    ensures PowerSum([x], [w], p) == Times(w, RealPower(x, p))
  {
    hide Times, RealPower;
    assert [x][1..] == [] && [w][1..] == [];
    assert PowerSum([], [], p) == 0.0;
  }

  lemma NegatedTerm(w: real, q: real)
    ensures Times(w, -q) == -Times(w, q)
  {
  }

  /** A mirrored rule integrates every odd power to what its middle node alone contributes: nothing at all when
      the order is even or the middle node is 0. */
  lemma OddPowersCancel(n: nat, half: Rule, p: nat)
    requires |half.x| == |half.w| == HalfSize(n) && p % 2 == 1
    ensures |FromHalf(n, half).x| == |FromHalf(n, half).w|
    ensures PowerSum(FromHalf(n, half).x, FromHalf(n, half).w, p)
         == if n % 2 == 1 then Times(half.w[0], RealPower(half.x[0], p)) else 0.0
    ensures n % 2 == 1 && half.x[0] == 0.0 ==> PowerSum(FromHalf(n, half).x, FromHalf(n, half).w, p) == 0.0
  {
    hide Times, RealPower;
    var odd := n % 2;
    var y, v := half.x[odd..], half.w[odd..];
    LowerPart(n, half);
    hide Reverse, Negate;
    PowerSumAppend(Negate(Reverse(y)), Reverse(v), half.x, half.w, p);
    PowerSumOfMirror(y, v, p);
    if odd == 1 {
      assert PowerSum(half.x, half.w, p) == Times(half.w[0], RealPower(half.x[0], p)) + PowerSum(y, v, p);
      if half.x[0] == 0.0 {
        PowerOfZero(p);
        TimesZero(half.w[0]);
      }
    }
  }

  /** What is mirrored is the half without the middle entry of an odd rule. */
  lemma LowerPart(n: nat, half: Rule)
    requires |half.x| == |half.w| == HalfSize(n)
    ensures Negate(Reverse(half.x))[..n / 2] == Negate(Reverse(half.x[n % 2..]))
    ensures Reverse(half.w)[..n / 2] == Reverse(half.w[n % 2..])
  {
    hide Reverse, Negate;
  }

  lemma PowerOfZero(p: nat)
    requires p > 0
    ensures RealPower(0.0, p) == 0.0
  {
  }
}
