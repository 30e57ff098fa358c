/** Arrays of any number of axes, flat in row-major order, their common shape, and the entries each place reads. */
module Broadcast {
  import opened Results

  /** The number of entries of a shape. */
  function Size(shape: seq<nat>): nat {
    if shape == [] then 1 else Size(shape[..|shape| - 1]) * shape[|shape| - 1]
  }

  datatype NdArray<T> = NdArray(shape: seq<nat>, data: seq<T>) {
    predicate Valid() { |data| == Size(shape) }
  }

  /** The common length of an axis: equal lengths, or one of length one. */
  function Axis(a: nat, b: nat): Option<nat> {
    if a == b || b == 1 then Some(a) else if a == 1 then Some(b) else None
  }

  /** The common shape, axes aligned at the last. */
  function Common(a: seq<nat>, b: seq<nat>): Option<seq<nat>> {
    if a == [] then Some(b)
    else if b == [] then Some(a)
    else
      var before, last := Common(a[..|a| - 1], b[..|b| - 1]), Axis(a[|a| - 1], b[|b| - 1]);
      if before.Some? && last.Some? then Some(before.value + [last.value]) else None
  }

  /** `shape` stretches to `out`: each aligned axis is equal or of length one, further axes lead. */
  predicate Stretches(shape: seq<nat>, out: seq<nat>) {
    |shape| <= |out|
    && forall k :: 0 <= k < |shape| ==>
         var o := out[|out| - |shape| + k];
         shape[k] == o || shape[k] == 1
  }

  /** The common shape stretches both, and there is one exactly when the aligned axes agree. */
  lemma {:induction false} CommonStretches(a: seq<nat>, b: seq<nat>)
    ensures Common(a, b).Some? ==> Stretches(a, Common(a, b).value) && Stretches(b, Common(a, b).value)
    ensures Common(a, b).Some? <==> Compatible(a, b)
  {
    if a != [] && b != [] {
      var a', b', n, m := a[..|a| - 1], b[..|b| - 1], |a| - 1, |b| - 1;
      CommonStretches(a', b');
      CompatibleStep(a, b);
      if Common(a, b).Some? {
        var before, last := Common(a', b').value, Axis(a[n], b[m]).value;
        StretchStep(a', before, a[n], last);
        StretchStep(b', before, b[m], last);
        assert a == a' + [a[n]] && b == b' + [b[m]];
      }
    }
  }

  predicate Compatible(a: seq<nat>, b: seq<nat>) {
    forall k :: 1 <= k <= |a| && k <= |b| ==> AxisAgrees(a, b, k)
  }

  /** The k-th axes from the end are equally long, or one of them has length one. */
  predicate AxisAgrees(a: seq<nat>, b: seq<nat>, k: nat)
    requires 1 <= k <= |a| && k <= |b|
  {
    a[|a| - k] == b[|b| - k] || a[|a| - k] == 1 || b[|b| - k] == 1
  }

  /** The k-th axis from the end of the common shape: the only one there is, or the one not of length one. */
  predicate CommonAxis(a: seq<nat>, b: seq<nat>, out: seq<nat>, k: nat)
    requires 1 <= k <= |out| && (k <= |a| || k <= |b|)
  {
    out[|out| - k] ==
      if k > |a| then b[|b| - k] else if k > |b| || b[|b| - k] == 1 then a[|a| - k] else b[|b| - k]
  }

  /** What the common shape is, axis by axis from the end. */
  lemma {:induction false} CommonAxes(a: seq<nat>, b: seq<nat>)
    requires Common(a, b).Some?
    ensures var out := Common(a, b).value;
            |out| == (if |a| > |b| then |a| else |b|) && forall k :: 1 <= k <= |out| ==> CommonAxis(a, b, out, k)
  {
    var out := Common(a, b).value;
    if a != [] && b != [] {
      var a', b' := a[..|a| - 1], b[..|b| - 1];
      CommonAxes(a', b');
      var out' := Common(a', b').value;
      forall k | 1 <= k <= |out| ensures CommonAxis(a, b, out, k) {
        if k > 1 {
          assert CommonAxis(a', b', out', k - 1);
        }
      }
    }
  }

  lemma CompatibleStep(a: seq<nat>, b: seq<nat>)
    requires a != [] && b != []
    ensures Compatible(a, b)
       <==> Compatible(a[..|a| - 1], b[..|b| - 1]) && Axis(a[|a| - 1], b[|b| - 1]).Some?
  {
    var a', b' := a[..|a| - 1], b[..|b| - 1];
    if Compatible(a, b) {
      forall k | 1 <= k <= |a'| && k <= |b'| ensures AxisAgrees(a', b', k) {
        assert AxisAgrees(a, b, k + 1);
      }
      assert AxisAgrees(a, b, 1);
    }
    if Compatible(a', b') && Axis(a[|a| - 1], b[|b| - 1]).Some? {
      forall k | 1 <= k <= |a| && k <= |b| ensures AxisAgrees(a, b, k) {
        if k > 1 { assert AxisAgrees(a', b', k - 1); }
      }
    }
  }

  lemma StretchStep(shape: seq<nat>, out: seq<nat>, s: nat, o: nat)
    requires Stretches(shape, out) && (s == o || s == 1)
    ensures Stretches(shape + [s], out + [o])
  {
    forall k | 0 <= k < |shape| + 1
      ensures var t := (out + [o])[|out| - |shape| + k]; (shape + [s])[k] == t || (shape + [s])[k] == 1
    {
      if k < |shape| { assert out[|out| - |shape| + k] == (out + [o])[|out| - |shape| + k]; }
    }
  }

  // ---------------------------------------------------------------- flat places, row after row

  /** The row of a flat place, its column, and back. */
  function RowOf(i: nat, d: nat): nat
    requires d > 0
  {
    i / d
  }

  function ColumnOf(i: nat, d: nat): nat
    requires d > 0
  {
    i % d
  }

  function Place(row: nat, d: nat, column: nat): nat { row * d + column }

  lemma PlaceOfRow(i: nat, d: nat)
    requires d > 0
    ensures Place(RowOf(i, d), d, ColumnOf(i, d)) == i && ColumnOf(i, d) < d
  {
  }

  lemma RowOfPlace(row: nat, d: nat, column: nat)
    requires column < d
    ensures RowOf(Place(row, d, column), d) == row && ColumnOf(Place(row, d, column), d) == column
  {
    var i := Place(row, d, column);
    PlaceOfRow(i, d);
    QuotientUnique(d, row, column, RowOf(i, d), ColumnOf(i, d));
  }

  lemma QuotientUnique(d: nat, q: nat, r: nat, p: nat, s: nat)
    requires Place(q, d, r) == Place(p, d, s) && r < d && s < d
    ensures q == p && r == s
  {
    if q < p { ProductMono(q + 1, p, d); }
    if p < q { ProductMono(p + 1, q, d); }
  }

  lemma ProductMono(p: nat, q: nat, d: nat)
    requires p <= q
    ensures p * d <= q * d
  {
  }

  lemma PlaceBound(row: nat, rows: nat, d: nat, column: nat)
    requires row < rows && column < d
    ensures Place(row, d, column) < rows * d
  {
    ProductMono(row + 1, rows, d);
  }

  /** Every place of a shape has a row and a column on its last axis. */
  lemma LastAxis(out: seq<nat>, i: nat)
    requires out != [] && i < Size(out)
    ensures out[|out| - 1] > 0
    ensures RowOf(i, out[|out| - 1]) < Size(out[..|out| - 1]) && ColumnOf(i, out[|out| - 1]) < out[|out| - 1]
  {
    var p, d := Size(out[..|out| - 1]), out[|out| - 1];
    assert d > 0;
    QuotientBound(p, d, i);
  }

  lemma QuotientBound(p: nat, d: nat, i: nat)
    requires d > 0 && i < p * d
    ensures RowOf(i, d) < p
  {
    if p <= i / d { ProductMono(p, i / d, d); }
  }

  /** The entry of an operand that the i-th entry of the stretched array reads: on an axis of length one always the
      only one. */
  function Source(shape: seq<nat>, out: seq<nat>, i: nat): nat
    requires Stretches(shape, out) && i < Size(out)
  {
    if shape == [] then 0
    else
      var n, m := |shape| - 1, |out| - 1;
      LastAxis(out, i);
      StretchesBefore(shape, out);
      Place(Source(shape[..n], out[..m], RowOf(i, out[m])), shape[n],
            if shape[n] == 1 then 0 else ColumnOf(i, out[m]))
  }

  lemma StretchesBefore(shape: seq<nat>, out: seq<nat>)
    requires Stretches(shape, out) && shape != []
    ensures Stretches(shape[..|shape| - 1], out[..|out| - 1])
    ensures shape[|shape| - 1] == out[|out| - 1] || shape[|shape| - 1] == 1
  {
    var s, o := shape[..|shape| - 1], out[..|out| - 1];
    forall k | 0 <= k < |s| ensures var t := o[|o| - |s| + k]; s[k] == t || s[k] == 1 {
      assert out[|out| - |shape| + k] == o[|o| - |s| + k];
    }
    assert out[|out| - |shape| + (|shape| - 1)] == out[|out| - 1];
  }

  /** The entry read exists. */
  lemma {:induction false} SourceInBounds(shape: seq<nat>, out: seq<nat>, i: nat)
    requires Stretches(shape, out) && i < Size(out)
    ensures Source(shape, out, i) < Size(shape)
  {
    hide RowOf, ColumnOf, Place;
    if shape != [] {
      var n, m := |shape| - 1, |out| - 1;
      StretchesBefore(shape, out);
      LastAxis(out, i);
      SourceInBounds(shape[..n], out[..m], RowOf(i, out[m]));
      PlaceBound(Source(shape[..n], out[..m], RowOf(i, out[m])), Size(shape[..n]), shape[n],
                 if shape[n] == 1 then 0 else ColumnOf(i, out[m]));
    }
  }

  /** An array that needs no stretching is read in place. */
  lemma {:induction false} SourceOfSame(shape: seq<nat>, i: nat)
    requires i < Size(shape)
    ensures Stretches(shape, shape) && Source(shape, shape, i) == i
  {
    hide RowOf, ColumnOf, Place;
    assert Stretches(shape, shape);
    if shape != [] {
      var n := |shape| - 1;
      LastAxis(shape, i);
      SourceOfSame(shape[..n], RowOf(i, shape[n]));
      PlaceOfRow(i, shape[n]);
    }
  }

  /** The entry of an operand at the i-th place of the common shape. */
  function At<T>(a: NdArray<T>, out: seq<nat>, i: nat): T
    requires a.Valid() && Stretches(a.shape, out) && i < Size(out)
  {
    SourceInBounds(a.shape, out, i);
    a.data[Source(a.shape, out, i)]
  }

  // ---------------------------------------------------------------- places by their indices

  predicate InShape(shape: seq<nat>, index: seq<nat>) {
    |index| == |shape| && forall k :: 0 <= k < |shape| ==> index[k] < shape[k]
  }

  /** The index of a flat place: the last axis runs fastest. */
  function Index(shape: seq<nat>, i: nat): (index: seq<nat>)
    requires i < Size(shape)
    ensures InShape(shape, index)
  {
    if shape == [] then []
    else
      var n := |shape| - 1;
      LastAxis(shape, i);
      Index(shape[..n], RowOf(i, shape[n])) + [ColumnOf(i, shape[n])]
  }

  lemma IndexStep(shape: seq<nat>, i: nat)
    requires shape != [] && i < Size(shape) && shape[|shape| - 1] > 0
    requires RowOf(i, shape[|shape| - 1]) < Size(shape[..|shape| - 1])
    ensures Index(shape, i)
         == Index(shape[..|shape| - 1], RowOf(i, shape[|shape| - 1])) + [ColumnOf(i, shape[|shape| - 1])]
  {
    hide RowOf, ColumnOf;
  }

  /** An array of two axes is stored row after row. */
  lemma TwoAxes(m: nat, n: nat, i: nat)
    requires i < Size([m, n])
    ensures n > 0 && Index([m, n], i) == [i / n, i % n]
  {
    var shape := [m, n];
    LastAxis(shape, i);
    assert shape[..1] == [m];
    IndexStep(shape, i);
    OneAxis(m, i / n);
  }

  lemma OneAxis(m: nat, i: nat)
    requires i < Size([m])
    ensures Index([m], i) == [i]
  {
    LastAxis([m], i);
    assert [m][..0] == [] && Size([]) == 1;
    IndexStep([m], i);
    assert i / m == 0;
    assert i % m == i;
  }

  /** Different places have different indices. */
  lemma {:induction false} IndexUnique(shape: seq<nat>, i: nat, j: nat)
    requires i < Size(shape) && j < Size(shape) && Index(shape, i) == Index(shape, j)
    ensures i == j
  {
    if shape == [] {
      assert Size(shape) == 1;
    } else {
      var n, d := |shape| - 1, shape[|shape| - 1];
      LastAxis(shape, i);
      LastAxis(shape, j);
      IndexStep(shape, i);
      IndexStep(shape, j);
      PlaceOfRow(i, d);
      PlaceOfRow(j, d);
      hide RowOf, ColumnOf, Place, Index, Size;
      SameEnds(Index(shape[..n], RowOf(i, d)), ColumnOf(i, d), Index(shape[..n], RowOf(j, d)), ColumnOf(j, d));
      IndexUnique(shape[..n], RowOf(i, d), RowOf(j, d));
    }
  }

  lemma SameEnds(p: seq<nat>, r: nat, q: seq<nat>, s: nat)
    requires p + [r] == q + [s] && |p| == |q|
    ensures p == q && r == s
  {
    assert (p + [r])[|p|] == (q + [s])[|q|];
    assert (p + [r])[..|p|] == p && (q + [s])[..|q|] == q;
  }

  /** Place `a` of an operand lies under place `i` of the stretched array: the same index on every aligned axis, or 0
      where the operand's axis has length one. */
  predicate LiesUnder(shape: seq<nat>, out: seq<nat>, i: nat, a: nat)
    requires |shape| <= |out| && i < Size(out)
  {
    && a < Size(shape)
    && forall k :: 0 <= k < |shape| ==>
         Index(shape, a)[k] == if shape[k] == 1 then 0 else Index(out, i)[|out| - |shape| + k]
  }

  lemma {:induction false} SourceLiesUnder(shape: seq<nat>, out: seq<nat>, i: nat)
    requires Stretches(shape, out) && i < Size(out)
    ensures LiesUnder(shape, out, i, Source(shape, out, i))
  {
    hide RowOf, ColumnOf, Place;
    SourceInBounds(shape, out, i);
    if shape != [] {
      var n, m := |shape| - 1, |out| - 1;
      StretchesBefore(shape, out);
      LastAxis(out, i);
      SourceLiesUnder(shape[..n], out[..m], RowOf(i, out[m]));
      var q := Source(shape[..n], out[..m], RowOf(i, out[m]));
      var r := if shape[n] == 1 then 0 else ColumnOf(i, out[m]);
      assert Source(shape, out, i) == Place(q, shape[n], r);
      hide Index, Size, Source;
      UnderStep(shape, out, i, q, r);
    }
  }

  lemma IndexOfPlace(shape: seq<nat>, q: nat, r: nat)
    requires shape != [] && q < Size(shape[..|shape| - 1]) && r < shape[|shape| - 1]
    ensures Place(q, shape[|shape| - 1], r) < Size(shape)
    ensures Index(shape, Place(q, shape[|shape| - 1], r)) == Index(shape[..|shape| - 1], q) + [r]
  {
    PlaceBound(q, Size(shape[..|shape| - 1]), shape[|shape| - 1], r);
    RowOfPlace(q, shape[|shape| - 1], r);
    IndexStep(shape, Place(q, shape[|shape| - 1], r));
  }

  lemma UnderStep(shape: seq<nat>, out: seq<nat>, i: nat, q: nat, r: nat)
    requires 1 <= |shape| <= |out| && i < Size(out) && out[|out| - 1] > 0
    requires RowOf(i, out[|out| - 1]) < Size(out[..|out| - 1])
    requires LiesUnder(shape[..|shape| - 1], out[..|out| - 1], RowOf(i, out[|out| - 1]), q)
    requires r == if shape[|shape| - 1] == 1 then 0 else ColumnOf(i, out[|out| - 1])
    requires r < shape[|shape| - 1]
    ensures LiesUnder(shape, out, i, Place(q, shape[|shape| - 1], r))
  {
    hide Index, Size, RowOf, ColumnOf, Place, InShape;
    var n, m := |shape| - 1, |out| - 1;
    IndexStep(out, i);
    IndexOfPlace(shape, q, r);
    var under, over := Index(shape[..n], q), Index(out[..m], RowOf(i, out[m]));
    IndexLength(shape[..n], q);
    IndexLength(out[..m], RowOf(i, out[m]));
    assert forall k :: 0 <= k < n ==> under[k] == if shape[k] == 1 then 0 else over[|over| - n + k];
    OneMoreAxis(under, over, shape, r, ColumnOf(i, out[m]));
  }

  lemma IndexLength(shape: seq<nat>, i: nat)
    requires i < Size(shape)
    ensures |Index(shape, i)| == |shape|
  {
    hide Index, Size;
  }

  /** An index below another one stays below it with one more axis on both. */
  lemma OneMoreAxis(a: seq<nat>, o: seq<nat>, shape: seq<nat>, r: nat, c: nat)
    requires |shape| == |a| + 1 && |a| <= |o|
    requires forall k :: 0 <= k < |a| ==> a[k] == if shape[k] == 1 then 0 else o[|o| - |a| + k]
    requires r == if shape[|a|] == 1 then 0 else c
    ensures forall k :: 0 <= k < |shape| ==>
      (a + [r])[k] == if shape[k] == 1 then 0 else (o + [c])[|o| - |a| + k]
  {
  }

  /** Exactly one place of an operand lies under each place of the stretched array: the one that is read. */
  lemma UnderIsSource(shape: seq<nat>, out: seq<nat>, i: nat, a: nat)
    requires Stretches(shape, out) && i < Size(out)
    ensures LiesUnder(shape, out, i, a) <==> a == Source(shape, out, i)
  {
    SourceLiesUnder(shape, out, i);
    hide Index, Size, Source;
    if LiesUnder(shape, out, i, a) {
      SameIndex(shape, out, i, a, Source(shape, out, i));
      IndexUnique(shape, a, Source(shape, out, i));
    }
  }

  lemma SameIndex(shape: seq<nat>, out: seq<nat>, i: nat, a: nat, b: nat)
    requires |shape| <= |out| && i < Size(out) && LiesUnder(shape, out, i, a) && LiesUnder(shape, out, i, b)
    ensures Index(shape, a) == Index(shape, b)
  {
    hide Index, Size;
    assert forall k :: 0 <= k < |shape| ==> Index(shape, a)[k] == Index(shape, b)[k];
  }
}
