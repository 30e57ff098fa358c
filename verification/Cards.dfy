/** Lines of text and the card a line of a deck carries. */
module Cards {
  /** The characters at which str.split separates words. */
  predicate IsSpace(c: char) {
    || '\U{9}' <= c <= '\U{D}'
    || '\U{1C}' <= c <= ' '
    || c == '\U{85}' || c == '\U{A0}' || c == '\U{1680}'
    || '\U{2000}' <= c <= '\U{200A}'
    || c == '\U{2028}' || c == '\U{2029}' || c == '\U{202F}' || c == '\U{205F}' || c == '\U{3000}'
  }

  /** The characters at which str.splitlines breaks a text whose newlines were already translated. */
  predicate IsBreak(c: char) {
    || '\U{A}' <= c <= '\U{C}'
    || '\U{1C}' <= c <= '\U{1E}'
    || c == '\U{85}' || c == '\U{2028}' || c == '\U{2029}'
  }

  predicate Blank(line: string) {
    forall i :: 0 <= i < |line| ==> IsSpace(line[i])
  }

  /** The letters other than A to Z that str.upper maps into A to Z are a to z and two more. */
  function UpperChar(c: char): char {
    if 'a' <= c <= 'z' then c - 'a' + 'A'
    else if c == '\U{131}' then 'I'
    else if c == '\U{17F}' then 'S'
    else c
  }

  function Upper(s: string): string {
    if s == "" then "" else [UpperChar(s[0])] + Upper(s[1..])
  }

  /** The leading characters up to the first space. */
  function Word(s: string): string {
    if s == "" || IsSpace(s[0]) then "" else [s[0]] + Word(s[1..])
  }

  /** The first word, empty when the line is blank. */
  function FirstWord(line: string): string {
    if line == "" then "" else if IsSpace(line[0]) then FirstWord(line[1..]) else Word(line)
  }

  function CardOf(line: string): string { Upper(FirstWord(line)) }

  predicate IsNX(line: string) { CardOf(line) == "NX" }

  lemma {:induction false} WordBeforeSpace(s: string, c: char)
    requires IsSpace(c)
    ensures Word(s + [c]) == Word(s)
  {
    if s != "" && !IsSpace(s[0]) {
      WordBeforeSpace(s[1..], c);
      assert (s + [c])[1..] == s[1..] + [c];
    }
  }

  /** A line terminator does not change the card. */
  lemma {:induction false} CardIgnoresTerminator(line: string, c: char)
    requires IsSpace(c)
    ensures CardOf(line + [c]) == CardOf(line)
  {
    FirstWordBeforeSpace(line, c);
  }

  lemma {:induction false} FirstWordBeforeSpace(line: string, c: char)
    requires IsSpace(c)
    ensures FirstWord(line + [c]) == FirstWord(line)
  {
    if line == "" {
      assert (line + [c])[1..] == "";
    } else if IsSpace(line[0]) {
      FirstWordBeforeSpace(line[1..], c);
      assert (line + [c])[1..] == line[1..] + [c];
    } else {
      WordBeforeSpace(line, c);
    }
  }

  lemma {:induction false} BlankHasNoCard(line: string)
    requires Blank(line)
    ensures FirstWord(line) == "" && !IsNX(line)
  {
    if line != "" { BlankHasNoCard(line[1..]); }
  }

  function DropLeading(s: string): string {
    if s == "" || !IsSpace(s[0]) then s else DropLeading(s[1..])
  }

  function DropTrailing(s: string): string {
    if s == "" || !IsSpace(s[|s| - 1]) then s else DropTrailing(s[..|s| - 1])
  }

  function Strip(s: string): string { DropTrailing(DropLeading(s)) }

  predicate IsWord(s: string) {
    s != "" && forall i :: 0 <= i < |s| ==> !IsSpace(s[i])
  }

  /** The card of a line is its first word in capitals; a blank line has none (`BlankHasNoCard`). */
  lemma {:induction false} CardIsFirstWord(lead: string, word: string, rest: string)
    requires Blank(lead) && IsWord(word) && (rest == "" || IsSpace(rest[0]))
    ensures FirstWord(lead + word + rest) == word && CardOf(lead + word + rest) == Upper(word)
  {
    hide IsSpace, Upper;
    var line := lead + word + rest;
    if lead == "" {
      assert line == word + rest && line[0] == word[0];
      WordOf(word, rest);
    } else {
      assert line[0] == lead[0] && line[1..] == lead[1..] + word + rest;
      CardIsFirstWord(lead[1..], word, rest);
    }
  }

  lemma {:induction false} WordOf(word: string, rest: string)
    requires (forall i :: 0 <= i < |word| ==> !IsSpace(word[i])) && (rest == "" || IsSpace(rest[0]))
    ensures Word(word + rest) == word
  {
    hide IsSpace;
    if word == "" {
      assert word + rest == rest;
    } else {
      assert (word + rest)[0] == word[0] && (word + rest)[1..] == word[1..] + rest;
      WordOf(word[1..], rest);
    }
  }

  /** Capitals, letter by letter. */
  lemma {:induction false} UpperAt(s: string)
    ensures |Upper(s)| == |s| && forall i :: 0 <= i < |s| ==> Upper(s)[i] == UpperChar(s[i])
  {
    hide UpperChar;
    if s != "" { UpperAt(s[1..]); }
  }

  /** A line ends a unit exactly when its first word is NX, in whatever case. */
  lemma NXInAnyCase(lead: string, word: string, rest: string)
    requires Blank(lead) && IsWord(word) && (rest == "" || IsSpace(rest[0]))
    ensures IsNX(lead + word + rest) <==> word in ["NX", "Nx", "nX", "nx"]
  {
    CardIsFirstWord(lead, word, rest);
    hide IsSpace, CardOf, FirstWord, Word;
    UpperAt(word);
    UpperAt("NX");
    if word in ["NX", "Nx", "nX", "nx"] { assert Upper(word) == "NX"; }
    if Upper(word) == "NX" {
      assert |word| == 2 && UpperChar(word[0]) == 'N' && UpperChar(word[1]) == 'X';
      assert word == [word[0], word[1]];
    }
  }

  /** What is dropped on the left is white space, and the rest does not begin with any. */
  lemma {:induction false} DropLeadingLaws(s: string) returns (lead: string)
    ensures Blank(lead) && s == lead + DropLeading(s)
    ensures DropLeading(s) != "" ==> !IsSpace(DropLeading(s)[0])
  {
    hide IsSpace;
    if s == "" || !IsSpace(s[0]) {
      lead := "";
    } else {
      var before := DropLeadingLaws(s[1..]);
      hide DropLeading, Blank;
      BlankGrows(s[0], before);
      lead := [s[0]] + before;
      assert s == [s[0]] + s[1..];
      assert DropLeading(s) == DropLeading(s[1..]) by { DropOne(s); }
    }
  }

  lemma DropOne(s: string)
    requires s != "" && IsSpace(s[0])
    ensures DropLeading(s) == DropLeading(s[1..])
  {
    hide IsSpace;
  }

  lemma BlankGrows(c: char, s: string)
    requires IsSpace(c) && Blank(s)
    ensures Blank([c] + s)
  {
    hide IsSpace;
  }

  lemma {:induction false} DropTrailingLaws(s: string) returns (tail: string)
    ensures Blank(tail) && s == DropTrailing(s) + tail
    ensures DropTrailing(s) != "" ==> !IsSpace(DropTrailing(s)[|DropTrailing(s)| - 1])
  {
    hide IsSpace;
    if s == "" || !IsSpace(s[|s| - 1]) {
      tail := "";
    } else {
      tail := DropTrailingLaws(s[..|s| - 1]);
      tail := tail + [s[|s| - 1]];
    }
  }

  /** Stripping takes white space off both ends, all of it and nothing else. */
  lemma StripLaws(s: string) returns (lead: string, tail: string)
    ensures Blank(lead) && Blank(tail) && s == lead + Strip(s) + tail
    ensures Strip(s) != "" ==> !IsSpace(Strip(s)[0]) && !IsSpace(Strip(s)[|Strip(s)| - 1])
  {
    lead := DropLeadingLaws(s);
    tail := DropTrailingLaws(DropLeading(s));
    hide IsSpace, DropLeading, DropTrailing;
    assert s == lead + (Strip(s) + tail);
    if Strip(s) != "" { assert Strip(s)[0] == DropLeading(s)[0]; }
  }

  // ---------------------------------------------------------------- lines

  /** The first line break at or after the start, or the length. */
  function FirstBreak(text: string): (n: nat)
    ensures n <= |text| && (n < |text| ==> IsBreak(text[n]))
    ensures forall i :: 0 <= i < n ==> !IsBreak(text[i])
  {
    if text == "" || IsBreak(text[0]) then 0 else 1 + FirstBreak(text[1..])
  }

  /** str.splitlines: no line for a final terminator, an empty line for an empty one. */
  function SplitLines(text: string): (lines: seq<string>)
    decreases |text|
  {
    if text == "" then []
    else
      var n := FirstBreak(text);
      [text[..n]] + if n < |text| then SplitLines(text[n + 1..]) else []
  }

  /** The lines of a stream with their newlines, as iterating over it yields them. */
  function KeepEnds(text: string): seq<string>
    decreases |text|
  {
    if text == "" then []
    else
      var n := FirstNewline(text);
      if n < |text| then [text[..n + 1]] + KeepEnds(text[n + 1..]) else [text]
  }

  function FirstNewline(text: string): (n: nat)
    ensures n <= |text| && (n < |text| ==> text[n] == '\n')
    ensures forall i :: 0 <= i < n ==> text[i] != '\n'
  {
    if text == "" || text[0] == '\n' then 0 else 1 + FirstNewline(text[1..])
  }

  predicate OneLine(line: string) {
    forall i :: 0 <= i < |line| ==> !IsBreak(line[i])
  }

  predicate AllOneLine(lines: seq<string>) {
    forall i :: 0 <= i < |lines| ==> OneLine(lines[i])
  }

  /** The first line and the others. */
  lemma SplitFirst(text: string)
    requires text != ""
    ensures var n := FirstBreak(text);
            SplitLines(text) == if n < |text| then [text[..n]] + SplitLines(text[n + 1..]) else [text]
    ensures OneLine(text[..FirstBreak(text)])
  {
    hide IsBreak, FirstBreak;
    var n := FirstBreak(text);
    if n == |text| { assert text[..n] == text; }
  }

  lemma {:induction false} SplitLinesAreLines(text: string)
    ensures AllOneLine(SplitLines(text))
    decreases |text|
  {
    hide OneLine, FirstBreak;
    if text == "" {
      assert SplitLines(text) == [];
    } else {
      var n := FirstBreak(text);
      SplitFirst(text);
      hide SplitLines;
      if n < |text| { SplitLinesAreLines(text[n + 1..]); } else { assert text[..n] == text; }
    }
  }

  /** Every line followed by a newline. */
  function Terminated(lines: seq<string>): string {
    if lines == [] then "" else lines[0] + "\n" + Terminated(lines[1..])
  }

  lemma {:induction false} TerminatedAppend(a: seq<string>, b: seq<string>)
    ensures Terminated(a + b) == Terminated(a) + Terminated(b)
  {
    if a == [] {
      assert a + b == b;
    } else {
      assert (a + b)[1..] == a[1..] + b;
      TerminatedAppend(a[1..], b);
    }
  }

  lemma FirstBreakOfLine(line: string, rest: string)
    requires OneLine(line)
    ensures FirstBreak(line + "\n" + rest) == |line| == FirstNewline(line + "\n" + rest)
  {
    var text := line + "\n" + rest;
    assert IsBreak(text[|line|]) && text[|line|] == '\n';
    assert forall i :: 0 <= i < |line| ==> text[i] == line[i];
  }

  /** Lines written with newlines are read back. */
  lemma {:induction false} SplitTerminated(lines: seq<string>)
    requires AllOneLine(lines)
    ensures SplitLines(Terminated(lines)) == lines
  {
    if lines != [] {
      var rest := Terminated(lines[1..]);
      var text := lines[0] + "\n" + rest;
      FirstBreakOfLine(lines[0], rest);
      assert text[|lines[0]| + 1..] == rest && text[..|lines[0]|] == lines[0];
      SplitTerminated(lines[1..]);
    }
  }

  function WithNewlines(lines: seq<string>): (r: seq<string>)
    ensures |r| == |lines| && forall i :: 0 <= i < |r| ==> r[i] == lines[i] + "\n"
  {
    if lines == [] then [] else [lines[0] + "\n"] + WithNewlines(lines[1..])
  }

  lemma {:induction false} KeepEndsTerminated(lines: seq<string>)
    requires AllOneLine(lines)
    ensures KeepEnds(Terminated(lines)) == WithNewlines(lines)
  {
    if lines != [] {
      var rest := Terminated(lines[1..]);
      var text := lines[0] + "\n" + rest;
      FirstBreakOfLine(lines[0], rest);
      assert text[|lines[0]| + 1..] == rest && text[..|lines[0]| + 1] == lines[0] + "\n";
      KeepEndsTerminated(lines[1..]);
    }
  }

  /** Every line break in the text is a newline. */
  predicate OnlyNewlines(text: string) {
    forall i :: 0 <= i < |text| && IsBreak(text[i]) ==> text[i] == '\n'
  }

  lemma BreakAt(text: string, n: nat)
    requires OnlyNewlines(text) && n < |text| && IsBreak(text[n])
    ensures text == text[..n] + "\n" + text[n + 1..] && OnlyNewlines(text[n + 1..])
  {
    hide IsBreak;
    CutAt(text, n);
    OnlyNewlinesAfter(text, n + 1);
  }

  lemma CutAt(text: string, n: nat)
    requires n < |text| && text[n] == '\n'
    ensures text == text[..n] + "\n" + text[n + 1..]
  {
  }

  lemma OnlyNewlinesAfter(text: string, n: nat)
    requires OnlyNewlines(text) && n <= |text|
    ensures OnlyNewlines(text[n..])
  {
    hide IsBreak;
  }

  function EndTerminated(text: string): string {
    if text == "" || text[|text| - 1] == '\n' then text else text + "\n"
  }

  /** A text broken by newlines only is its terminated lines, up to a missing last newline. */
  lemma {:induction false} TerminatedSplit(text: string)
    requires OnlyNewlines(text)
    ensures Terminated(SplitLines(text)) == EndTerminated(text)
    decreases |text|
  {
    assert IsBreak('\n');
    hide IsBreak, OneLine, FirstBreak, OnlyNewlines;
    var n := FirstBreak(text);
    if text == "" {
      assert SplitLines(text) == [];
    } else if n == |text| {
      SplitFirst(text);
      TerminatedOne(text, []);
      assert !IsBreak(text[|text| - 1]);
    } else {
      SplitFirst(text);
      hide SplitLines;
      BreakAt(text, n);
      TerminatedSplit(text[n + 1..]);
      TerminatedOne(text[..n], SplitLines(text[n + 1..]));
      EndOfTail(text[..n], text[n + 1..]);
    }
  }

  lemma EndOfTail(line: string, rest: string)
    ensures EndTerminated(line + "\n" + rest) == line + "\n" + EndTerminated(rest)
  {
    if rest != "" { assert (line + "\n" + rest)[|line| + |rest|] == rest[|rest| - 1]; }
  }

  lemma TerminatedOne(line: string, rest: seq<string>)
    ensures Terminated([line] + rest) == line + "\n" + Terminated(rest)
    ensures Terminated([line]) == line + "\n"
  {
    assert ([line] + rest)[1..] == rest;
    assert [line][1..] == [];
    assert Terminated([]) == "";
  }

  function Concat(parts: seq<string>): string {
    if parts == [] then "" else Concat(parts[..|parts| - 1]) + parts[|parts| - 1]
  }
}
