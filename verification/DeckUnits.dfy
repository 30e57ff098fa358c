/** Splitting a deck into the NX-terminated units sent down a resident engine. */
module DeckUnits {
  import opened Cards
  import opened Results

  /** The complete units of a run of lines, and the lines after the last NX. */
  function Units(lines: seq<string>): seq<seq<string>> {
    if lines == [] then []
    else
      var before, last := lines[..|lines| - 1], lines[|lines| - 1];
      if IsNX(last) then Units(before) + [Rest(before) + [last]] else Units(before)
  }

  function Rest(lines: seq<string>): seq<string> {
    if lines == [] then []
    else
      var before, last := lines[..|lines| - 1], lines[|lines| - 1];
      if IsNX(last) then [] else Rest(before) + [last]
  }

  /** One more line completes a unit or joins the unfinished one. */
  lemma NextLine(lines: seq<string>, line: string)
    ensures Units(lines + [line]) == if IsNX(line) then Units(lines) + [Rest(lines) + [line]] else Units(lines)
    ensures Rest(lines + [line]) == if IsNX(line) then [] else Rest(lines) + [line]
  {
    hide IsNX;
    assert (lines + [line])[..|lines|] == lines;
  }

  /** "\n".join(lines) */
  function Join(lines: seq<string>): string {
    if lines == [] then ""
    else if |lines| == 1 then lines[0]
    else lines[0] + "\n" + Join(lines[1..])
  }

  lemma {:induction false} JoinTerminated(lines: seq<string>)
    requires lines != []
    ensures Join(lines) + "\n" == Terminated(lines)
  {
    assert Terminated([]) == "";
    if |lines| == 1 {
      assert lines[1..] == [];
    } else {
      JoinTerminated(lines[1..]);
    }
  }

  function Texts(units: seq<seq<string>>): (r: seq<string>)
    ensures |r| == |units| && forall i :: 0 <= i < |r| ==> r[i] == Terminated(units[i])
  {
    if units == [] then [] else Texts(units[..|units| - 1]) + [Terminated(units[|units| - 1])]
  }

  lemma NextText(units: seq<seq<string>>, unit: seq<string>)
    ensures Texts(units + [unit]) == Texts(units) + [Terminated(unit)]
  {
    hide Terminated;
    assert (units + [unit])[..|units|] == units;
  }

  predicate AllBlank(lines: seq<string>) {
    forall i :: 0 <= i < |lines| ==> Blank(lines[i])
  }

  lemma NothingSplit()
    ensures Units([]) == [] && Rest([]) == [] && Texts([]) == []
  {
  }

  method Split(name: string, text: string) returns (r: Result<seq<string>, string>)
    ensures r == if AllBlank(Rest(SplitLines(text))) then Ok(Texts(Units(SplitLines(text))))
                 else Err(name + ": trailing cards after last NX")
  {
    hide IsNX, SplitLines, Terminated, Join, Units, Rest, Texts;
    var lines := SplitLines(text);
    var units: seq<string>, current: seq<string> := [], [];
    assert Units([]) == [] && Rest([]) == [] && Texts([]) == [] by { NothingSplit(); }
    var i := 0;
    while i < |lines|
      invariant 0 <= i <= |lines|
      invariant units == Texts(Units(lines[..i])) && current == Rest(lines[..i])
    {
      assert lines[..i + 1] == lines[..i] + [lines[i]];
      NextLine(lines[..i], lines[i]);
      current := current + [lines[i]];
      if IsNX(lines[i]) {
        JoinTerminated(current);
        NextText(Units(lines[..i]), current);
        units := units + [Join(current) + "\n"];
        current := [];
      }
      i := i + 1;
    }
    assert lines[..i] == lines;
    if exists j :: 0 <= j < |current| && !Blank(current[j]) {
      r := Err(name + ": trailing cards after last NX");
    } else {
      r := Ok(units);
    }
  }

  // ---------------------------------------------------------------- what a split file is

  function Flatten(units: seq<seq<string>>): seq<string> {
    if units == [] then [] else Flatten(units[..|units| - 1]) + units[|units| - 1]
  }

  lemma {:induction false} FlattenUnits(lines: seq<string>)
    ensures Flatten(Units(lines)) + Rest(lines) == lines
  {
    hide IsNX;
    if lines != [] {
      var before, last := lines[..|lines| - 1], lines[|lines| - 1];
      FlattenUnits(before);
      assert lines == before + [last];
      if IsNX(last) {
        var units := Units(before) + [Rest(before) + [last]];
        assert units[..|units| - 1] == Units(before);
      }
    }
  }

  /** A unit's only NX card is its last line. */
  predicate IsUnit(unit: seq<string>) {
    unit != [] && IsNX(unit[|unit| - 1]) && NoNX(unit[..|unit| - 1])
  }

  predicate NoNX(lines: seq<string>) {
    forall i :: 0 <= i < |lines| ==> !IsNX(lines[i])
  }

  predicate AllUnits(units: seq<seq<string>>) {
    forall i :: 0 <= i < |units| ==> IsUnit(units[i])
  }

  lemma {:induction false} UnitsEndWithTheirNX(lines: seq<string>)
    ensures AllUnits(Units(lines)) && NoNX(Rest(lines))
  {
    hide IsNX;
    if lines != [] {
      var before, last := lines[..|lines| - 1], lines[|lines| - 1];
      UnitsEndWithTheirNX(before);
      assert (Rest(before) + [last])[..|Rest(before)|] == Rest(before);
    }
  }

  lemma {:induction false} UnitsOfUnit(before: seq<string>, unit: seq<string>)
    requires NoNX(unit)
    ensures Units(before + unit) == Units(before) && Rest(before + unit) == Rest(before) + unit
  {
    hide IsNX;
    if unit == [] {
      assert before + unit == before;
    } else {
      var n := |unit| - 1;
      UnitsOfUnit(before, unit[..n]);
      assert before + unit == before + unit[..n] + [unit[n]];
      assert (before + unit)[..|before + unit| - 1] == before + unit[..n];
    }
  }

  lemma UnitsAfterUnit(before: seq<string>, unit: seq<string>)
    requires IsUnit(unit) && Rest(before) == []
    ensures Units(before + unit) == Units(before) + [unit] && Rest(before + unit) == []
  {
    hide IsNX, Units, Rest;
    var m := |unit| - 1;
    UnitsOfUnit(before, unit[..m]);
    NextLine(before + unit[..m], unit[m]);
    assert before + unit == before + unit[..m] + [unit[m]];
    assert [] + unit[..m] + [unit[m]] == unit;
  }

  /** Units placed end to end are found again. */
  lemma {:induction false} UnitsOfFlatten(units: seq<seq<string>>)
    requires AllUnits(units)
    ensures Units(Flatten(units)) == units && Rest(Flatten(units)) == []
  {
    hide IsUnit;
    if units == [] {
      assert Flatten(units) == [];
    } else {
      var n := |units| - 1;
      UnitsOfFlatten(units[..n]);
      hide Units, Rest;
      UnitsAfterUnit(Flatten(units[..n]), units[n]);
      assert units[..n] + [units[n]] == units;
    }
  }

  lemma {:induction false} ConcatTexts(units: seq<seq<string>>)
    ensures Concat(Texts(units)) == Terminated(Flatten(units))
  {
    if units != [] {
      var n := |units| - 1;
      ConcatTexts(units[..n]);
      assert Texts(units)[..n] == Texts(units[..n]);
      TerminatedAppend(Flatten(units[..n]), units[n]);
    }
  }

  /** The units of an accepted file, put together, are the file's lines up to the blank ones after the last NX. */
  lemma AcceptedFile(text: string)
    requires AllBlank(Rest(SplitLines(text)))
    ensures var lines := SplitLines(text);
            var kept := |lines| - |Rest(lines)|;
            && 0 <= kept
            && Concat(Texts(Units(lines))) == Terminated(lines[..kept])
            && AllBlank(lines[kept..])
            && (kept > 0 ==> IsNX(lines[kept - 1]))
            && AllUnits(Units(lines))
  {
    hide IsNX, SplitLines, Terminated;
    var lines := SplitLines(text);
    FlattenUnits(lines);
    UnitsEndWithTheirNX(lines);
    ConcatTexts(Units(lines));
    var kept := |lines| - |Rest(lines)|;
    assert lines[..kept] == Flatten(Units(lines)) && lines[kept..] == Rest(lines);
    if kept > 0 { LastOfFlatten(Units(lines)); }
  }

  lemma {:induction false} LastOfFlatten(units: seq<seq<string>>)
    requires AllUnits(units) && Flatten(units) != []
    ensures IsNX(Flatten(units)[|Flatten(units)| - 1])
  {
  }

  /** Splitting the concatenated units again gives the same units. */
  lemma ResplitIsIdentity(text: string)
    ensures var units := Texts(Units(SplitLines(text)));
            Texts(Units(SplitLines(Concat(units)))) == units && Rest(SplitLines(Concat(units))) == []
  {
    var lines := SplitLines(text);
    SplitLinesAreLines(text);
    hide IsNX, SplitLines, Terminated, IsBreak;
    FlattenUnits(lines);
    UnitsEndWithTheirNX(lines);
    ConcatTexts(Units(lines));
    var whole := Flatten(Units(lines));
    assert forall i :: 0 <= i < |whole| ==> whole[i] == lines[i];
    SplitTerminated(whole);
    UnitsOfFlatten(Units(lines));
  }

  // ---------------------------------------------------------------- the streaming splitter

  /** The deck texts a stream of lines with their newlines is cut into. */
  function Streamed(lines: seq<string>): (r: seq<string>)
    ensures |r| == |Units(lines)| && forall i :: 0 <= i < |r| ==> r[i] == Concat(Units(lines)[i])
  {
    ConcatAll(Units(lines))
  }

  function ConcatAll(units: seq<seq<string>>): (r: seq<string>)
    ensures |r| == |units| && forall i :: 0 <= i < |r| ==> r[i] == Concat(units[i])
  {
    if units == [] then [] else ConcatAll(units[..|units| - 1]) + [Concat(units[|units| - 1])]
  }

  lemma {:induction false} UnitsWithNewlines(lines: seq<string>)
    ensures |Units(WithNewlines(lines))| == |Units(lines)|
    ensures forall i :: 0 <= i < |Units(lines)| ==> Units(WithNewlines(lines))[i] == WithNewlines(Units(lines)[i])
    ensures Rest(WithNewlines(lines)) == WithNewlines(Rest(lines))
  {
    hide CardOf;
    if lines != [] {
      var n := |lines| - 1;
      UnitsWithNewlines(lines[..n]);
      assert WithNewlines(lines)[..n] == WithNewlines(lines[..n]);
      assert IsSpace('\n');
      CardIgnoresTerminator(lines[n], '\n');
      assert IsNX(lines[n] + "\n") == IsNX(lines[n]);
      assert WithNewlines(Rest(lines[..n]) + [lines[n]]) == WithNewlines(Rest(lines[..n])) + [lines[n] + "\n"];
    }
  }

  lemma {:induction false} ConcatWithNewlines(lines: seq<string>)
    ensures Concat(WithNewlines(lines)) == Terminated(lines)
  {
    if lines != [] {
      var n := |lines| - 1;
      assert lines == lines[..n] + [lines[n]];
      TerminatedAppend(lines[..n], [lines[n]]);
      assert Terminated([]) == "";
      assert Terminated([lines[n]]) == lines[n] + "\n" + Terminated([lines[n]][1..]);
      assert WithNewlines(lines)[..n] == WithNewlines(lines[..n]);
      ConcatWithNewlines(lines[..n]);
    }
  }

  /** Sent down a pipe one after another, the units of a file are cut apart by the streaming splitter
      exactly where they were joined. */
  lemma StreamAgrees(text: string)
    ensures var units := Texts(Units(SplitLines(text)));
            Streamed(KeepEnds(Concat(units))) == units && Rest(KeepEnds(Concat(units))) == []
  {
    var lines := SplitLines(text);
    SplitLinesAreLines(text);
    hide IsNX, SplitLines, Terminated, IsBreak, KeepEnds, Units, Rest, Flatten, WithNewlines, Concat;
    var U := Units(lines);
    FlattenUnits(lines);
    UnitsEndWithTheirNX(lines);
    ConcatTexts(U);
    var whole := Flatten(U);
    assert forall i :: 0 <= i < |whole| ==> whole[i] == lines[i];
    KeepEndsTerminated(whole);
    UnitsOfFlatten(U);
    UnitsWithNewlines(whole);
    forall i | 0 <= i < |U| ensures Streamed(WithNewlines(whole))[i] == Texts(U)[i] {
      ConcatWithNewlines(U[i]);
    }
  }

  /** No character of a stream is lost or moved by cutting it into decks. */
  lemma {:induction false} StreamLosesNothing(lines: seq<string>)
    ensures Concat(Streamed(lines)) + Concat(Rest(lines)) == Concat(lines)
  {
    hide IsNX;
    if lines != [] {
      var before, last := lines[..|lines| - 1], lines[|lines| - 1];
      StreamLosesNothing(before);
      assert (Rest(before) + [last])[..|Rest(before)|] == Rest(before);
      if IsNX(last) {
        assert Streamed(lines) == Streamed(before) + [Concat(Rest(before) + [last])];
        assert Streamed(lines)[..|Streamed(before)|] == Streamed(before);
      }
    }
  }
}
