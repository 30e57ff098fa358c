/** A memoised grid query that must not be told apart from direct evaluation. */
module DirectGrid {
  import opened Broadcast
  import opened Results

  datatype Key = Key(r1: real, theta: real)

  predicate Before(a: Key, b: Key) {
    a.r1 < b.r1 || (a.r1 == b.r1 && a.theta < b.theta)
  }

  function Clip(x: real, lo: real, hi: real): real {
    var raised := if x < lo then lo else x;
    if raised > hi then hi else raised
  }

  /** The operands are arrays with a common shape. */
  predicate Asks(r1: NdArray<real>, theta: NdArray<real>, shape: seq<nat>) {
    r1.Valid() && theta.Valid() && Common(r1.shape, theta.shape) == Some(shape)
  }

  /** The query at the i-th place of the common shape, its angle clipped. */
  function Query(r1: NdArray<real>, theta: NdArray<real>, halfPi: real, shape: seq<nat>, i: nat): Key
    requires Asks(r1, theta, shape) && i < Size(shape)
  {
    CommonStretches(r1.shape, theta.shape);
    Key(At(r1, shape, i), Clip(At(theta, shape, i), 0.0, halfPi))
  }

  function Queries(r1: NdArray<real>, theta: NdArray<real>, halfPi: real, shape: seq<nat>, n: nat): (keys: seq<Key>)
    requires Asks(r1, theta, shape) && n <= Size(shape)
    ensures |keys| == n && forall i :: 0 <= i < n ==> keys[i] == Query(r1, theta, halfPi, shape, i)
  {
    if n == 0 then []
    else Queries(r1, theta, halfPi, shape, n - 1) + [Query(r1, theta, halfPi, shape, n - 1)]
  }

  predicate IsClipped(clipped: NdArray<real>, theta: NdArray<real>, halfPi: real) {
    && clipped.shape == theta.shape && |clipped.data| == |theta.data|
    && forall i :: 0 <= i < |theta.data| ==> clipped.data[i] == Clip(theta.data[i], 0.0, halfPi)
  }

  lemma ClippedQuery(r1: NdArray<real>, theta: NdArray<real>, clipped: NdArray<real>, halfPi: real, shape: seq<nat>,
                     i: nat)
    requires 0.0 <= halfPi && Asks(r1, theta, shape) && IsClipped(clipped, theta, halfPi) && i < Size(shape)
    ensures Asks(r1, clipped, shape) && Query(r1, clipped, halfPi, shape, i) == Query(r1, theta, halfPi, shape, i)
  {
    hide Common, Source, Stretches;
    CommonStretches(r1.shape, theta.shape);
    SourceInBounds(theta.shape, shape, i);
    ClipLaws(At(theta, shape, i), 0.0, halfPi);
  }

  lemma {:induction false} ClippedQueries(r1: NdArray<real>, theta: NdArray<real>, clipped: NdArray<real>,
                                          halfPi: real, shape: seq<nat>, n: nat)
    requires 0.0 <= halfPi && Asks(r1, theta, shape) && IsClipped(clipped, theta, halfPi) && n <= Size(shape)
    ensures Asks(r1, clipped, shape)
    ensures Queries(r1, clipped, halfPi, shape, n) == Queries(r1, theta, halfPi, shape, n)
  {
    hide Common, Query;
    if n > 0 {
      ClippedQuery(r1, theta, clipped, halfPi, shape, n - 1);
      ClippedQueries(r1, theta, clipped, halfPi, shape, n - 1);
    }
  }

  /** What a call asks for at the i-th place, in the entries of its operands: for the places of the two operands that
      lie under it, direct evaluation at that radius and at that angle brought into [0, pi/2]. */
  ghost predicate AsksDirect<V>(r1: NdArray<real>, theta: NdArray<real>, halfPi: real, shape: seq<nat>, i: nat,
                                direct: Key -> seq<V>, values: seq<V>)
    requires r1.Valid() && theta.Valid() && |r1.shape| <= |shape| && |theta.shape| <= |shape| && i < Size(shape)
  {
    forall a: nat, b: nat | LiesUnder(r1.shape, shape, i, a) && LiesUnder(theta.shape, shape, i, b) ::
      values == direct(Key(r1.data[a],
        if theta.data[b] < 0.0 then 0.0 else if theta.data[b] > halfPi then halfPi else theta.data[b]))
  }

  lemma QueryAsksDirect<V>(r1: NdArray<real>, theta: NdArray<real>, halfPi: real, shape: seq<nat>, i: nat,
                           direct: Key -> seq<V>)
    requires 0.0 <= halfPi && Asks(r1, theta, shape) && i < Size(shape)
    ensures |r1.shape| <= |shape| && |theta.shape| <= |shape|
    ensures AsksDirect(r1, theta, halfPi, shape, i, direct, direct(Query(r1, theta, halfPi, shape, i)))
  {
    CommonStretches(r1.shape, theta.shape);
    hide Common, Index, Size, Source;
    forall a: nat, b: nat | LiesUnder(r1.shape, shape, i, a) && LiesUnder(theta.shape, shape, i, b)
      ensures Query(r1, theta, halfPi, shape, i) == Key(r1.data[a],
        if theta.data[b] < 0.0 then 0.0 else if theta.data[b] > halfPi then halfPi else theta.data[b])
    {
      UnderIsSource(r1.shape, shape, i, a);
      UnderIsSource(theta.shape, shape, i, b);
    }
  }

  /** For operands of one shape: at every place its own radius and its own angle. */
  lemma SameShapeQueries(r1: NdArray<real>, theta: NdArray<real>, halfPi: real, shape: seq<nat>)
    requires 0.0 <= halfPi && Asks(r1, theta, shape) && r1.shape == theta.shape
    ensures shape == r1.shape
    ensures forall i :: 0 <= i < Size(shape) ==> Query(r1, theta, halfPi, shape, i) == Key(r1.data[i],
      if theta.data[i] < 0.0 then 0.0 else if theta.data[i] > halfPi then halfPi else theta.data[i])
  {
    SelfCommon(r1.shape);
    hide Common, Index, Size, Source;
    forall i: nat | i < Size(shape)
      ensures Query(r1, theta, halfPi, shape, i) == Key(r1.data[i],
        if theta.data[i] < 0.0 then 0.0 else if theta.data[i] > halfPi then halfPi else theta.data[i])
    {
      SourceOfSame(shape, i);
    }
  }

  lemma {:induction false} SelfCommon(shape: seq<nat>)
    ensures Common(shape, shape) == Some(shape)
  {
    if shape != [] {
      var before, last := shape[..|shape| - 1], shape[|shape| - 1];
      SelfCommon(before);
      assert before + [last] == shape && Axis(last, last) == Some(last);
    }
  }

  /** The values of every surface at one place. */
  function ValuesAt<V>(answers: seq<NdArray<V>>, i: nat): (values: seq<V>)
    requires forall s :: 0 <= s < |answers| ==> i < |answers[s].data|
    ensures |values| == |answers| && forall s :: 0 <= s < |answers| ==> values[s] == answers[s].data[i]
  {
    if answers == [] then []
    else ValuesAt(answers[..|answers| - 1], i) + [answers[|answers| - 1].data[i]]
  }

  /** The answers to a call: an array for each surface, all of the common shape, and at each place the values asked
      for there.  For operands of one shape these are, place by place, the values at their own entries. */
  ghost predicate AnswersTo<V>(r1: NdArray<real>, theta: NdArray<real>, halfPi: real, surfaces: nat,
                               direct: Key -> seq<V>, answers: seq<NdArray<V>>)
    requires r1.Valid() && theta.Valid()
  {
    && Common(r1.shape, theta.shape).Some?
    && var shape := Common(r1.shape, theta.shape).value;
    && |answers| == surfaces
    && (forall s :: 0 <= s < |answers| ==> answers[s].shape == shape && |answers[s].data| == Size(shape))
    && |r1.shape| <= |shape| && |theta.shape| <= |shape|
    && (forall i: nat | i < Size(shape) :: AsksDirect(r1, theta, halfPi, shape, i, direct, ValuesAt(answers, i)))
    && (r1.shape == theta.shape ==> forall i: nat | i < |r1.data| && i < Size(shape) ::
          ValuesAt(answers, i) == direct(Key(r1.data[i],
            if theta.data[i] < 0.0 then 0.0 else if theta.data[i] > halfPi then halfPi else theta.data[i])))
  }

  /** The keys a call adds to those asked before: one for every place, in order. */
  ghost predicate Asked(before: seq<Key>, after: seq<Key>, r1: NdArray<real>, theta: NdArray<real>, halfPi: real)
    requires r1.Valid() && theta.Valid()
  {
    && Common(r1.shape, theta.shape).Some?
    && var shape := Common(r1.shape, theta.shape).value;
    after == before + Queries(r1, theta, halfPi, shape, Size(shape))
  }

  lemma QueriesAnswer<V>(r1: NdArray<real>, theta: NdArray<real>, halfPi: real, shape: seq<nat>, surfaces: nat,
                         direct: Key -> seq<V>, answers: seq<NdArray<V>>)
    requires 0.0 <= halfPi && Asks(r1, theta, shape) && |answers| == surfaces && forall k :: |direct(k)| == surfaces
    requires forall s :: 0 <= s < |answers| ==> answers[s].shape == shape && |answers[s].data| == Size(shape)
    requires forall s, i :: 0 <= s < |answers| && 0 <= i < Size(shape) ==>
      answers[s].data[i] == direct(Queries(r1, theta, halfPi, shape, Size(shape))[i])[s]
    ensures AnswersTo(r1, theta, halfPi, surfaces, direct, answers)
  {
    CommonStretches(r1.shape, theta.shape);
    hide Common, Query, Queries, AsksDirect, Size;
    forall i: nat | i < Size(shape)
      ensures ValuesAt(answers, i) == direct(Query(r1, theta, halfPi, shape, i))
      ensures AsksDirect(r1, theta, halfPi, shape, i, direct, ValuesAt(answers, i))
    {
      var key := Queries(r1, theta, halfPi, shape, Size(shape))[i];
      assert key == Query(r1, theta, halfPi, shape, i) && |direct(key)| == surfaces;
      assert forall s :: 0 <= s < surfaces ==> ValuesAt(answers, i)[s] == direct(key)[s];
      assert ValuesAt(answers, i) == direct(key);
      QueryAsksDirect(r1, theta, halfPi, shape, i, direct);
    }
    if r1.shape == theta.shape { SameShapeQueries(r1, theta, halfPi, shape); }
  }

  // ---------------------------------------------------------------- the sorted set of missing keys

  predicate Ascending(keys: seq<Key>) {
    forall i, j :: 0 <= i < j < |keys| ==> Before(keys[i], keys[j])
  }

  /** Insertion into an ascending sequence, without repetition. */
  function Insert(keys: seq<Key>, k: Key): seq<Key> {
    if keys == [] || Before(keys[|keys| - 1], k) then keys + [k]
    else if keys[|keys| - 1] == k then keys
    else Insert(keys[..|keys| - 1], k) + [keys[|keys| - 1]]
  }

  lemma {:induction false} InsertLaws(keys: seq<Key>, k: Key)
    requires Ascending(keys)
    ensures Ascending(Insert(keys, k))
    ensures forall x :: x in Insert(keys, k) <==> x in keys || x == k
  {
    if keys != [] && !Before(keys[|keys| - 1], k) && keys[|keys| - 1] != k {
      var before, last := keys[..|keys| - 1], keys[|keys| - 1];
      assert keys == before + [last];
      InsertLaws(before, k);
      var inserted := Insert(before, k);
      forall i | 0 <= i < |inserted| ensures Before(inserted[i], last) {
        assert inserted[i] in inserted;
      }
    }
  }

  /** The keys not in the cache, each once, ascending. */
  function Fresh<V>(keys: seq<Key>, cache: map<Key, V>): seq<Key> {
    if keys == [] then []
    else
      var before, k := Fresh(keys[..|keys| - 1], cache), keys[|keys| - 1];
      if k in cache then before else Insert(before, k)
  }

  lemma {:induction false} FreshLaws<V>(keys: seq<Key>, cache: map<Key, V>)
    ensures Ascending(Fresh(keys, cache))
    ensures forall x :: x in Fresh(keys, cache) <==> x in keys && x !in cache
  {
    if keys != [] {
      var before, k := keys[..|keys| - 1], keys[|keys| - 1];
      assert keys == before + [k];
      FreshLaws(before, cache);
      InsertLaws(Fresh(before, cache), k);
    }
  }

  lemma {:induction false} NothingFresh<V>(keys: seq<Key>, cache: map<Key, V>)
    requires forall k <- keys :: k in cache
    ensures Fresh(keys, cache) == []
  {
    if keys != [] {
      assert keys[|keys| - 1] in keys;
      NothingFresh(keys[..|keys| - 1], cache);
    }
  }

  /** An ascending sequence has as many places as keys. */
  lemma {:induction false} AscendingCounts(keys: seq<Key>)
    requires Ascending(keys)
    ensures |set k | k in keys| == |keys|
  {
    var all := set k | k in keys;
    if keys != [] {
      var before, last := keys[..|keys| - 1], keys[|keys| - 1];
      assert keys == before + [last];
      AscendingCounts(before);
      assert last !in before;
      assert all == (set k | k in before) + {last};
    }
  }

  // ---------------------------------------------------------------- the grid

  class Grid<V(0)> {
    const surfaces: nat
    const direct: Key -> seq<V>
    const halfPi: real
    var cache: map<Key, seq<V>>
    var calls: nat
    var misses: nat
    ghost var asked: seq<Key>

    /** Every entry is right, and the counters count queries and distinct keys. */
    ghost predicate Valid()
      reads this
    {
      && 0.0 < halfPi
      && (forall k :: |direct(k)| == surfaces)
      && (forall k <- cache :: cache[k] == direct(k))
      && (forall k :: k in cache <==> k in asked)
      && calls == |asked|
      && misses == |cache|
    }

    constructor (surfaces: nat, direct: Key -> seq<V>, halfPi: real)
      requires 0.0 < halfPi && forall k :: |direct(k)| == surfaces
      ensures Valid() && asked == [] && cache == map[]
      ensures this.surfaces == surfaces && this.direct == direct && this.halfPi == halfPi
    {
      this.surfaces := surfaces;
      this.direct := direct;
      this.halfPi := halfPi;
      cache := map[];
      calls, misses := 0, 0;
      asked := [];
    }

    /** One array for each surface, all of the common shape, each entry the direct value of that surface at the
        radius and clipped angle broadcast to its place. */
    method Eval(r1: NdArray<real>, theta: NdArray<real>) returns (r: Result<seq<NdArray<V>>, string>)
      requires Valid() && r1.Valid() && theta.Valid()
      modifies this
      ensures Valid()
      ensures r.Ok? <==> Compatible(r1.shape, theta.shape)
      ensures r.Err? ==> asked == old(asked) && cache == old(cache)
      ensures r.Ok? ==> Asked(old(asked), asked, r1, theta, halfPi)
      ensures r.Ok? ==> AnswersTo(r1, theta, halfPi, surfaces, direct, r.value)
      ensures forall k <- old(cache) :: k in cache && cache[k] == old(cache)[k]
    {
      hide Query, Queries, AnswersTo, Insert, Fresh, Before, Size, Common, Compatible;
      CommonStretches(r1.shape, theta.shape);
      if Common(r1.shape, theta.shape).None? { return Err("shape mismatch"); }
      var shape := Common(r1.shape, theta.shape).value;
      var keys := Queries(r1, theta, halfPi, shape, Size(shape));
      calls := calls + |keys|;
      var missing := Fresh(keys, cache);
      FreshLaws(keys, cache);
      Store(missing);
      asked := asked + keys;
      var out := Columns(keys);
      r := Ok(Surfaces(out, shape));
      QueriesAnswer(r1, theta, halfPi, shape, surfaces, direct, r.value);
    }

    /** The cached surface values, one column a query. */
    method Columns(keys: seq<Key>) returns (out: array2<V>)
      requires Valid() && forall k <- keys :: k in asked
      ensures fresh(out) && out.Length0 == surfaces && out.Length1 == |keys|
      ensures forall s, i :: 0 <= s < surfaces && 0 <= i < |keys| ==> out[s, i] == direct(keys[i])[s]
    {
      out := new V[surfaces, |keys|];
      var i := 0;
      while i < |keys|
        invariant 0 <= i <= |keys|
        invariant forall s, j :: 0 <= s < surfaces && 0 <= j < i ==> out[s, j] == direct(keys[j])[s]
      {
        var column := cache[keys[i]];
        forall s | 0 <= s < surfaces { out[s, i] := column[s]; }
        i := i + 1;
      }
    }

    /** One batch of direct evaluations, entered in order. */
    method Store(missing: seq<Key>)
      requires Ascending(missing)
      requires forall k <- missing :: k !in cache
      requires misses == |cache|
      requires forall k <- cache :: cache[k] == direct(k)
      modifies this`cache, this`misses
      ensures forall k :: k in cache <==> k in old(cache) || k in missing
      ensures forall k <- cache :: cache[k] == direct(k)
      ensures forall k <- old(cache) :: cache[k] == old(cache)[k]
      ensures misses == |cache|
    {
      hide Before;
      misses := misses + |missing|;
      var i := 0;
      while i < |missing|
        invariant 0 <= i <= |missing|
        invariant forall k :: k in cache <==> k in old(cache) || k in missing[..i]
        invariant forall k <- cache :: cache[k] == direct(k)
        invariant forall k <- old(cache) :: cache[k] == old(cache)[k]
        invariant |cache| == |old(cache)| + i && misses == old(misses) + |missing|
      {
        assert missing[i] !in missing[..i] by { AscendingDistinct(missing, i); }
        assert missing[i] !in cache;
        cache := cache[missing[i] := direct(missing[i])];
        i := i + 1;
      }
      assert missing[..i] == missing;
    }

    /** The misses are the distinct keys ever asked, the calls all the queries. */
    lemma CountersAreExact()
      requires Valid()
      ensures calls == |asked| && misses == |set k | k in asked|
    {
      assert cache.Keys == set k | k in asked;
    }

    /** Asking again with the angles already clipped asks the same keys, and evaluates nothing. */
    lemma ClippedAgain(r1: NdArray<real>, theta: NdArray<real>, clipped: NdArray<real>, shape: seq<nat>)
      requires Valid() && Asks(r1, theta, shape)
      requires IsClipped(clipped, theta, halfPi)
      requires forall k <- Queries(r1, theta, halfPi, shape, Size(shape)) :: k in asked
      ensures Asks(r1, clipped, shape)
      ensures Queries(r1, clipped, halfPi, shape, Size(shape)) == Queries(r1, theta, halfPi, shape, Size(shape))
      ensures Fresh(Queries(r1, clipped, halfPi, shape, Size(shape)), cache) == []
    {
      hide Common, Query, Queries, Fresh, IsClipped, Size;
      var keys := Queries(r1, theta, halfPi, shape, Size(shape));
      ClippedQueries(r1, theta, clipped, halfPi, shape, Size(shape));
      NothingFresh(keys, cache);
    }
  }

  /** The rows of a table, each of the given shape. */
  function Surfaces<V>(m: array2<V>, shape: seq<nat>): (rows: seq<NdArray<V>>)
    requires m.Length1 == Size(shape)
    reads m
    ensures |rows| == m.Length0
    ensures forall s :: 0 <= s < m.Length0 ==> rows[s].shape == shape && |rows[s].data| == Size(shape)
    ensures forall s, i :: 0 <= s < m.Length0 && 0 <= i < Size(shape) ==> rows[s].data[i] == m[s, i]
  {
    seq(m.Length0, s requires 0 <= s < m.Length0 reads m =>
      NdArray(shape, seq(m.Length1, i requires 0 <= i < m.Length1 reads m => m[s, i])))
  }

  lemma AscendingDistinct(keys: seq<Key>, i: nat)
    requires Ascending(keys) && i < |keys|
    ensures keys[i] !in keys[..i]
  {
  }

  /** Clipping stays inside and leaves angles inside alone; clipping again changes nothing. */
  lemma ClipLaws(x: real, lo: real, hi: real)
    requires lo <= hi
    ensures lo <= Clip(x, lo, hi) <= hi
    ensures Clip(Clip(x, lo, hi), lo, hi) == Clip(x, lo, hi)
    ensures Clip(x, lo, hi) == x <==> lo <= x <= hi
    ensures (x <= lo ==> Clip(x, lo, hi) == lo) && (x >= hi ==> Clip(x, lo, hi) == hi)
  {
  }

  /** Two angles ask for the same entry exactly when they are equal or lie at or beyond the same bound. */
  lemma SharedEntry(r: real, x: real, y: real, halfPi: real)
    requires 0.0 < halfPi
    ensures Key(r, Clip(x, 0.0, halfPi)) == Key(r, Clip(y, 0.0, halfPi))
       <==> x == y || (x <= 0.0 && y <= 0.0) || (x >= halfPi && y >= halfPi)
  {
  }
}
