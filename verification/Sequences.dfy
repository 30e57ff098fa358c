/** Increasing sequences of numbers. */
module Sequences {
  predicate Increasing(s: seq<nat>) {
    forall i :: 0 < i < |s| ==> s[i - 1] < s[i]
  }

  /** An increasing sequence that starts no lower than `base` is at least `base + i` at place i. */
  lemma {:induction false} RunsAhead(s: seq<nat>, base: nat, i: nat)
    requires Increasing(s) && i < |s| && s[0] >= base
    ensures s[i] >= base + i
  {
    if i > 0 { RunsAhead(s, base, i - 1); }
  }

  /** If it has not run ahead at i, it has not run ahead before i. */
  lemma {:induction false} StillTight(s: seq<nat>, i: nat, k: nat)
    requires Increasing(s) && k <= i < |s| && s[i] == i
    ensures s[k] == k
    decreases i - k
  {
    RunsAhead(s, 0, k);
    if k < i {
      StillTight(s, i, k + 1);
      assert s[k] < s[k + 1];
    }
  }
}
