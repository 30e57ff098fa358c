/** Preparing the corpus of a portal capture and collecting its parallel runs.

    A deck is brought into the portal's dialect line by line and becomes, with its NX line, one unit of the resident
    protocol.  The runs complete in any order; their results are entered by name and listed in corpus order. */
module Portal {
  import opened Cards
  import opened DeckUnits

  const PORTAL_CARDS: seq<string> := [
    "CM", "CE", "EK", "GW", "GM", "GS", "GE", "GN", "GD", "LD", "IS", "EX", "NT", "TL", "FR", "RP", "NE", "NH",
    "PT", "MP", "XQ"]

  // ---------------------------------------------------------------- the portal dialect

  predicate IsPortalLine(line: string) { line != "" && CardOf(line) in PORTAL_CARDS }

  /** The lines kept: stripped on the right, blank and foreign ones dropped. */
  function Kept(lines: seq<string>): seq<string> {
    if lines == [] then []
    else
      var before, line := Kept(lines[..|lines| - 1]), DropTrailing(lines[|lines| - 1]);
      if IsPortalLine(line) then before + [line] else before
  }

  predicate HasXQ(lines: seq<string>) {
    exists i :: 0 <= i < |lines| && CardOf(lines[i]) == "XQ"
  }

  function WithXQ(lines: seq<string>): seq<string> {
    if HasXQ(lines) then lines else lines + ["XQ"]
  }

  method ToPortal(deck: string) returns (out: string)
    ensures out == Terminated(WithXQ(Kept(SplitLines(deck))))
    ensures IsPortalText(deck, out)
  {
    WrittenLines(deck);
    hide IsPortalText, SplitLines, CardOf, DropTrailing, Terminated, IsPortalLine;
    var source := SplitLines(deck);
    var lines: seq<string> := [];
    var i := 0;
    while i < |source|
      invariant 0 <= i <= |source| && lines == Kept(source[..i])
    {
      assert source[..i + 1][..i] == source[..i];
      var line := DropTrailing(source[i]);
      if IsPortalLine(line) { lines := lines + [line]; }
      i := i + 1;
    }
    assert source[..i] == source;
    if !HasXQ(lines) { lines := lines + ["XQ"]; }
    JoinTerminated(lines);
    out := Join(lines) + "\n";
  }

  /** A line of the dialect: one line, nothing to strip, a portal card. */
  predicate Settled(line: string) {
    OneLine(line) && DropTrailing(line) == line && IsPortalLine(line)
  }

  predicate AllSettled(lines: seq<string>) {
    forall i :: 0 <= i < |lines| ==> Settled(lines[i])
  }

  lemma {:induction false} DropTrailingTwice(s: string)
    ensures DropTrailing(DropTrailing(s)) == DropTrailing(s)
    ensures DropTrailing(s) <= s
  {
    hide IsSpace;
    if s != "" { DropTrailingTwice(s[..|s| - 1]); }
  }

  lemma {:induction false} KeptAreSettled(lines: seq<string>)
    requires AllOneLine(lines)
    ensures AllSettled(Kept(lines))
  {
    hide IsBreak, CardOf, DropTrailing;
    if lines != [] {
      var line := lines[|lines| - 1];
      KeptAreSettled(lines[..|lines| - 1]);
      DropTrailingTwice(line);
      assert OneLine(line);
      assert forall i :: 0 <= i < |DropTrailing(line)| ==> DropTrailing(line)[i] == line[i];
    }
  }

  lemma {:induction false} SettledAreKept(lines: seq<string>)
    requires AllSettled(lines)
    ensures Kept(lines) == lines
  {
    hide OneLine, CardOf, DropTrailing, IsPortalLine;
    if lines != [] {
      var n := |lines| - 1;
      SettledAreKept(lines[..n]);
      assert lines[..n] + [lines[n]] == lines;
    }
  }

  lemma ExecuteCard()
    ensures CardOf("XQ") == "XQ" && CardOf("NX") == "NX" && Settled("XQ") && OneLine("NX")
  {
    assert "XQ"[1..] == "Q" && "Q"[1..] == "" && "NX"[1..] == "X" && "X"[1..] == "";
    assert Word("Q") == "Q" && Word("XQ") == "XQ" && Word("X") == "X" && Word("NX") == "NX";
    assert FirstWord("XQ") == "XQ" && FirstWord("NX") == "NX";
    assert Upper("Q") == "Q" && Upper("XQ") == "XQ" && Upper("X") == "X" && Upper("NX") == "NX";
  }

  lemma PortalLines(deck: string)
    ensures var lines := WithXQ(Kept(SplitLines(deck)));
            AllSettled(lines) && HasXQ(lines) && AllOneLine(lines) && NoNX(lines)
  {
    SplitLinesAreLines(deck);
    ExecuteCard();
    KeptAreSettled(SplitLines(deck));
    hide SplitLines, Kept, Settled, CardOf;
    WithXQSettled(Kept(SplitLines(deck)));
    hide WithXQ;
    SettledLines(WithXQ(Kept(SplitLines(deck))));
  }

  lemma WithXQSettled(lines: seq<string>)
    requires AllSettled(lines)
    ensures AllSettled(WithXQ(lines)) && HasXQ(WithXQ(lines))
  {
    ExecuteCard();
    hide Settled, CardOf;
    if !HasXQ(lines) { assert CardOf((lines + ["XQ"])[|lines|]) == "XQ"; }
  }

  lemma SettledLines(lines: seq<string>)
    requires AllSettled(lines)
    ensures AllOneLine(lines) && NoNX(lines)
  {
    hide OneLine, IsNX, Settled;
    forall i | 0 <= i < |lines| ensures OneLine(lines[i]) && !IsNX(lines[i]) {
      SettledLine(lines[i]);
    }
  }

  lemma SettledLine(line: string)
    requires Settled(line)
    ensures OneLine(line) && !IsNX(line)
  {
    hide CardOf, OneLine, DropTrailing;
    NXIsForeign(CardOf(line));
  }

  lemma NXIsForeign(card: string)
    ensures card in PORTAL_CARDS ==> card != "NX"
  {
  }

  /** Converting a converted deck changes nothing. */
  lemma PortalIsIdempotent(deck: string)
    ensures var out := Terminated(WithXQ(Kept(SplitLines(deck))));
            Terminated(WithXQ(Kept(SplitLines(out)))) == out
  {
    PortalLines(deck);
    hide SplitLines, Kept, HasXQ, Settled, OneLine, NoNX, Terminated;
    var lines := WithXQ(Kept(SplitLines(deck)));
    SplitTerminated(lines);
    SettledAreKept(lines);
  }

  /** Where the kept lines stood. */
  function Places(lines: seq<string>): (places: seq<nat>)
    ensures |places| == |Kept(lines)| && forall i :: 0 <= i < |places| ==> places[i] < |lines|
  {
    if lines == [] then []
    else
      var n := |lines| - 1;
      var before := Places(lines[..n]);
      if IsPortalLine(DropTrailing(lines[n])) then before + [n] else before
  }

  lemma PlacesStep(lines: seq<string>)
    requires lines != []
    ensures var n := |lines| - 1;
            var line := DropTrailing(lines[n]);
            && Kept(lines) == (if IsPortalLine(line) then Kept(lines[..n]) + [line] else Kept(lines[..n]))
            && Places(lines) == (if IsPortalLine(line) then Places(lines[..n]) + [n] else Places(lines[..n]))
  {
    hide DropTrailing, IsPortalLine;
  }

  lemma {:induction false} PlacesAscend(lines: seq<string>)
    ensures forall i, j :: 0 <= i < j < |Places(lines)| ==> Places(lines)[i] < Places(lines)[j]
  {
    hide DropTrailing, IsPortalLine, Kept, Places;
    if lines == [] {
      NoPlaces();
    } else {
      PlacesAscend(lines[..|lines| - 1]);
      PlacesStep(lines);
    }
  }

  lemma NoPlaces()
    ensures Places([]) == []
  {
  }

  lemma {:induction false} PlaceOfPortalLine(lines: seq<string>, k: nat)
    requires k < |lines|
    ensures k in Places(lines) <==> IsPortalLine(DropTrailing(lines[k]))
  {
    hide DropTrailing, IsPortalLine, Kept, Places;
    var n := |lines| - 1;
    PlacesStep(lines);
    if k < n {
      PlaceOfPortalLine(lines[..n], k);
      assert lines[..n][k] == lines[k];
    } else {
      assert n !in Places(lines[..n]);
    }
  }

  lemma {:induction false} KeptAtPlace(lines: seq<string>, i: nat)
    requires i < |Places(lines)|
    ensures Kept(lines)[i] == DropTrailing(lines[Places(lines)[i]])
  {
    hide DropTrailing, IsPortalLine, Kept, Places;
    if lines == [] {
      NoPlaces();
    } else {
      var n := |lines| - 1;
      PlacesStep(lines);
      if i < |Places(lines[..n])| {
        KeptAtPlace(lines[..n], i);
        assert lines[..n][Places(lines[..n])[i]] == lines[Places(lines[..n])[i]];
      }
    }
  }

  /** The kept lines are the portal lines of the deck, each once and in their order. */
  lemma KeptInOrder(lines: seq<string>)
    ensures forall i :: 0 <= i < |Places(lines)| ==> Kept(lines)[i] == DropTrailing(lines[Places(lines)[i]])
    ensures forall i, j :: 0 <= i < j < |Places(lines)| ==> Places(lines)[i] < Places(lines)[j]
    ensures forall k :: 0 <= k < |lines| ==> (k in Places(lines) <==> IsPortalLine(DropTrailing(lines[k])))
  {
    hide DropTrailing, IsPortalLine, Kept, Places;
    PlacesAscend(lines);
    forall i | 0 <= i < |Places(lines)| ensures Kept(lines)[i] == DropTrailing(lines[Places(lines)[i]]) {
      KeptAtPlace(lines, i);
    }
    forall k | 0 <= k < |lines| ensures k in Places(lines) <==> IsPortalLine(DropTrailing(lines[k])) {
      PlaceOfPortalLine(lines, k);
    }
  }

  /** The lines of the text written are the portal lines of the deck, stripped on the right, each once and in order,
      followed by an XQ line exactly when none of them is an XQ card. */
  ghost predicate IsPortalText(deck: string, out: string) {
    var lines, written, places := SplitLines(deck), SplitLines(out), Places(SplitLines(deck));
    && (forall i, j :: 0 <= i < j < |places| ==> places[i] < places[j])
    && (forall k :: 0 <= k < |lines| ==> (k in places <==> IsPortalLine(DropTrailing(lines[k]))))
    && (forall i :: 0 <= i < |places| ==>
          i < |written| && places[i] < |lines| && written[i] == DropTrailing(lines[places[i]]))
    && if exists i :: 0 <= i < |places| && CardOf(DropTrailing(lines[places[i]])) == "XQ" then |written| == |places|
       else |written| == |places| + 1 && written[|places|] == "XQ"
  }

  lemma WrittenLines(deck: string)
    ensures IsPortalText(deck, Terminated(WithXQ(Kept(SplitLines(deck)))))
  {
    PortalLines(deck);
    KeptInOrder(SplitLines(deck));
    hide SplitLines, Terminated, Kept, Places, CardOf, DropTrailing, IsPortalLine, AllSettled, NoNX;
    var lines := SplitLines(deck);
    SplitTerminated(WithXQ(Kept(lines)));
    assert HasXQ(Kept(lines))
      <==> exists i :: 0 <= i < |Places(lines)| && CardOf(DropTrailing(lines[Places(lines)[i]])) == "XQ";
  }

  /** With its NX card a converted deck is exactly one unit of the resident protocol. */
  lemma CorpusDeckIsOneUnit(deck: string)
    ensures var lines := WithXQ(Kept(SplitLines(deck)));
            var text := Terminated(lines) + "NX\n";
            Units(SplitLines(text)) == [lines + ["NX"]] && Rest(SplitLines(text)) == []
  {
    PortalLines(deck);
    ExecuteCard();
    assert IsNX("NX");
    hide IsNX, OneLine, SplitLines, Kept, HasXQ, Settled, WithXQ, NoNX, AllOneLine, Terminated, Units, Rest, CardOf;
    assert "NX" + "\n" == "NX\n";
    OneUnit(WithXQ(Kept(SplitLines(deck))), "NX");
  }

  lemma OneUnit(lines: seq<string>, last: string)
    requires NoNX(lines) && AllOneLine(lines) && OneLine(last) && IsNX(last)
    ensures var text := Terminated(lines) + (last + "\n");
            Units(SplitLines(text)) == [lines + [last]] && Rest(SplitLines(text)) == []
  {
    hide IsNX, OneLine, SplitLines;
    TerminatedAppend(lines, [last]);
    TerminatedOne(last, []);
    SplitTerminated(lines + [last]);
    assert Units([]) == [] && Rest([]) == [];
    hide Terminated, Units, Rest;
    UnitsOfUnit([], lines);
    assert [] + lines == lines;
    NextLine(lines, last);
  }

  // ---------------------------------------------------------------- parallel runs, one manifest

  predicate InRange(order: seq<nat>, n: nat) {
    forall i :: 0 <= i < |order| ==> order[i] < n
  }

  /** An order in which the jobs 0, ..., n - 1 complete. */
  predicate IsOrder(order: seq<nat>, n: nat) {
    |order| == n && InRange(order, n) && forall k :: 0 <= k < n ==> k in order
  }

  /** The results by name, entered as the jobs complete. */
  function Collected<T>(names: seq<string>, outcomes: seq<T>, order: seq<nat>): map<string, T>
    requires |names| == |outcomes| && InRange(order, |names|)
  {
    if order == [] then map[]
    else
      var last := order[|order| - 1];
      Collected(names, outcomes, order[..|order| - 1])[names[last] := outcomes[last]]
  }

  /** The entries of the manifest, in corpus order. */
  method Capture<T>(names: seq<string>, outcomes: seq<T>, order: seq<nat>) returns (entries: seq<(string, T)>)
    requires |names| == |outcomes| && IsOrder(order, |names|)
    ensures |entries| == |names|
    ensures Consistent(names, outcomes) ==> forall i :: 0 <= i < |names| ==> entries[i] == (names[i], outcomes[i])
    ensures forall i :: 0 <= i < |names| ==>
      names[i] in Collected(names, outcomes, order) && entries[i]
          == (names[i], Collected(names, outcomes, order)[names[i]])
  {
    var results: map<string, T> := map[];
    var i := 0;
    while i < |order|
      invariant 0 <= i <= |order|
      invariant InRange(order[..i], |names|)
      invariant results == Collected(names, outcomes, order[..i])
    {
      assert order[..i + 1][..i] == order[..i];
      results := results[names[order[i]] := outcomes[order[i]]];
      i := i + 1;
    }
    assert order[..i] == order;
    entries := [];
    i := 0;
    while i < |names|
      invariant 0 <= i == |entries| <= |names|
      invariant forall j :: 0 <= j < i ==> names[j] in results && entries[j] == (names[j], results[names[j]])
      invariant Consistent(names, outcomes) ==> forall j :: 0 <= j < i ==> entries[j] == (names[j], outcomes[j])
    {
      CollectedHas(names, outcomes, order, i);
      if Consistent(names, outcomes) { CollectedIsOutcome(names, outcomes, order, i); }
      entries := entries + [(names[i], results[names[i]])];
      i := i + 1;
    }
  }

  lemma {:induction false} CollectedHas<T>(names: seq<string>, outcomes: seq<T>, order: seq<nat>, k: nat)
    requires |names| == |outcomes| && InRange(order, |names|) && k in order
    ensures names[k] in Collected(names, outcomes, order)
  {
    var n := |order| - 1;
    if order[n] != k {
      assert order == order[..n] + [order[n]];
      CollectedHas(names, outcomes, order[..n], k);
    }
  }

  /** Jobs of one name had the same outcome. */
  ghost predicate Consistent<T>(names: seq<string>, outcomes: seq<T>)
    requires |names| == |outcomes|
  {
    forall i, j :: 0 <= i < |names| && 0 <= j < |names| && names[i] == names[j] ==> outcomes[i] == outcomes[j]
  }

  lemma {:induction false} CollectedIsOutcome<T>(names: seq<string>, outcomes: seq<T>, order: seq<nat>, k: nat)
    requires |names| == |outcomes| && InRange(order, |names|) && k in order && Consistent(names, outcomes)
    ensures names[k] in Collected(names, outcomes, order) && Collected(names, outcomes, order)[names[k]] == outcomes[k]
  {
    var n := |order| - 1;
    assert order == order[..n] + [order[n]];
    if names[order[n]] != names[k] { CollectedIsOutcome(names, outcomes, order[..n], k); }
  }

  ghost predicate SameManifest<T>(names: seq<string>, outcomes: seq<T>, a: seq<nat>, b: seq<nat>)
    requires |names| == |outcomes| && IsOrder(a, |names|) && IsOrder(b, |names|)
  {
    forall i :: 0 <= i < |names| ==>
      && names[i] in Collected(names, outcomes, a) && names[i] in Collected(names, outcomes, b)
      && Collected(names, outcomes, a)[names[i]] == Collected(names, outcomes, b)[names[i]]
  }

  function Range(lo: nat, hi: nat): (r: seq<nat>)
    requires lo <= hi
    ensures |r| == hi - lo && forall i :: 0 <= i < |r| ==> r[i] == lo + i
    decreases hi - lo
  {
    if lo == hi then [] else Range(lo, hi - 1) + [hi - 1]
  }

  /** An order in which job k completes last. */
  function LastOf(n: nat, k: nat): seq<nat>
    requires k < n
  {
    Range(0, k) + Range(k + 1, n) + [k]
  }

  lemma LastOfIsOrder(n: nat, k: nat)
    requires k < n
    ensures IsOrder(LastOf(n, k), n)
  {
    hide Range;
    var order := LastOf(n, k);
    forall j | 0 <= j < n ensures j in order {
      if j < k {
        assert order[j] == j;
      } else if j == k {
        assert order[n - 1] == k;
      } else {
        assert order[j - 1] == j;
      }
    }
  }

  lemma LastWins<T>(names: seq<string>, outcomes: seq<T>, k: nat)
    requires |names| == |outcomes| && k < |names|
    ensures IsOrder(LastOf(|names|, k), |names|)
    ensures names[k] in Collected(names, outcomes, LastOf(|names|, k))
         && Collected(names, outcomes, LastOf(|names|, k))[names[k]] == outcomes[k]
  {
    LastOfIsOrder(|names|, k);
    hide Range;
    var order := LastOf(|names|, k);
    assert order[|order| - 1] == k;
  }

  /** The manifest is the same for every completion order exactly when jobs that share a name share their outcome;
      distinct names are enough. */
  lemma ManifestIgnoresOrder<T(!new)>(names: seq<string>, outcomes: seq<T>)
    requires |names| == |outcomes|
    ensures (forall a, b | IsOrder(a, |names|) && IsOrder(b, |names|) :: SameManifest(names, outcomes, a, b))
       <==> Consistent(names, outcomes)
    ensures (forall i, j :: 0 <= i < j < |names| ==> names[i] != names[j]) ==> Consistent(names, outcomes)
  {
    hide Collected, LastOf;
    if Consistent(names, outcomes) {
      forall a, b | IsOrder(a, |names|) && IsOrder(b, |names|) ensures SameManifest(names, outcomes, a, b) {
        forall i | 0 <= i < |names|
          ensures names[i] in Collected(names, outcomes, a) && names[i] in Collected(names, outcomes, b)
          ensures Collected(names, outcomes, a)[names[i]] == Collected(names, outcomes, b)[names[i]]
        {
          CollectedIsOutcome(names, outcomes, a, i);
          CollectedIsOutcome(names, outcomes, b, i);
        }
      }
    } else {
      var i, j :| 0 <= i < |names| && 0 <= j < |names| && names[i] == names[j] && outcomes[i] != outcomes[j];
      LastWins(names, outcomes, i);
      LastWins(names, outcomes, j);
      assert !SameManifest(names, outcomes, LastOf(|names|, i), LastOf(|names|, j));
    }
  }
}
