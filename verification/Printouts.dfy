/** Masking the engine stamp of a printout: its second line, wherever that line repeats.

    A text is its lines joined by newlines, a stamp its words split at white space, and the mask replaces the first
    place where the version stands between blanks.  That place is the version's own exactly when single blanks
    surround it, which is what the results about two versions and about masking twice need. */
module Printouts {
  import opened Cards
  import opened Results
  import opened TokenText

  datatype Refusal = NoSecondLine | StampNamesOtherBasis

  const VERSION_MASK := "<version>"
  const STAMP_MASK := "<engine stamp>"

  // ---------------------------------------------------------------- text and its lines

  /** text.split("\n"): one piece more than there are newlines. */
  function SplitAll(text: string): (lines: seq<string>)
    ensures lines != []
    decreases |text|
  {
    var n := FirstNewline(text);
    if n == |text| then [text] else [text[..n]] + SplitAll(text[n + 1..])
  }

  predicate NoNewline(line: string) {
    forall i :: 0 <= i < |line| ==> line[i] != '\n'
  }

  predicate AllNoNewline(lines: seq<string>) {
    forall i :: 0 <= i < |lines| ==> NoNewline(lines[i])
  }

  lemma SplitStep(text: string)
    ensures var n := FirstNewline(text);
            && (n == |text| ==> SplitAll(text) == [text])
            && (n < |text| ==> SplitAll(text) == [text[..n]] + SplitAll(text[n + 1..]))
            && (n < |text| ==> text == text[..n] + "\n" + text[n + 1..])
    ensures NoNewline(text[..FirstNewline(text)])
  {
    var n := FirstNewline(text);
    FirstPiece(text);
    hide FirstNewline, NoNewline;
    if n < |text| { CutAt(text, n); }
  }

  lemma FirstPiece(text: string)
    ensures NoNewline(text[..FirstNewline(text)])
  {
    hide FirstNewline;
  }

  lemma {:induction false} PiecesHaveNoNewline(text: string)
    ensures AllNoNewline(SplitAll(text))
    decreases |text|
  {
    hide SplitAll, FirstNewline, NoNewline;
    var n := FirstNewline(text);
    SplitStep(text);
    if n < |text| { PiecesHaveNoNewline(text[n + 1..]); } else { assert text[..n] == text; }
  }

  lemma {:induction false} JoinOfSplit(text: string)
    ensures Join(SplitAll(text), "\n") == text
    decreases |text|
  {
    hide FirstNewline, NoNewline;
    var n := FirstNewline(text);
    SplitStep(text);
    if n < |text| {
      var rest := SplitAll(text[n + 1..]);
      JoinOfSplit(text[n + 1..]);
      hide SplitAll;
      JoinStep(text[..n], rest);
    }
  }

  lemma JoinStep(line: string, rest: seq<string>)
    requires rest != []
    ensures Join([line] + rest, "\n") == line + "\n" + Join(rest, "\n")
  {
    assert ([line] + rest)[1..] == rest;
  }

  lemma {:induction false} SplitOfJoin(lines: seq<string>)
    requires lines != [] && AllNoNewline(lines)
    ensures SplitAll(Join(lines, "\n")) == lines
  {
    if |lines| == 1 {
      assert FirstNewline(lines[0]) == |lines[0]|;
    } else {
      var rest := Join(lines[1..], "\n");
      SplitOfJoin(lines[1..]);
      assert [lines[0]] + lines[1..] == lines;
      JoinStep(lines[0], lines[1..]);
      SplitAfterLine(lines[0], rest);
    }
  }

  lemma SplitAfterLine(line: string, rest: string)
    requires NoNewline(line)
    ensures SplitAll(line + "\n" + rest) == [line] + SplitAll(rest)
  {
    var text := line + "\n" + rest;
    assert FirstNewline(text) == |line| by {
      hide FirstNewline;
      assert text[|line|] == '\n' && forall i :: 0 <= i < |line| ==> text[i] == line[i];
    }
    assert text[..|line|] == line && text[|line| + 1..] == rest;
  }

  // ---------------------------------------------------------------- replacing

  /** Whether `pattern` stands at position i. */
  predicate StandsAt(s: string, pattern: string, i: nat) {
    i + |pattern| <= |s| && s[i..i + |pattern|] == pattern
  }

  /** The first position from i on at which the pattern stands. */
  function Find(s: string, pattern: string, i: nat): (r: Option<nat>)
    ensures r.Some? ==> i <= r.value && StandsAt(s, pattern, r.value)
    ensures r.Some? ==> forall j :: i <= j < r.value ==> !StandsAt(s, pattern, j)
    ensures r.None? ==> forall j :: i <= j ==> !StandsAt(s, pattern, j)
    decreases |s| - i
  {
    if i + |pattern| > |s| then None
    else if StandsAt(s, pattern, i) then Some(i)
    else if i == |s| then None
    else Find(s, pattern, i + 1)
  }

  /** s.replace(pattern, other, 1) */
  function ReplaceFirst(s: string, pattern: string, other: string): string {
    var at := Find(s, pattern, 0);
    if at.None? then s else s[..at.value] + other + s[at.value + |pattern|..]
  }

  // ---------------------------------------------------------------- the masks

  function ReplaceLines(lines: seq<string>, stamp: string, masked: string): (r: seq<string>)
    ensures |r| == |lines|
    ensures forall i :: 0 <= i < |lines| ==> r[i] == if lines[i] == stamp then masked else lines[i]
  {
    if lines == [] then []
    else ReplaceLines(lines[..|lines| - 1], stamp, masked)
         + [if lines[|lines| - 1] == stamp then masked else lines[|lines| - 1]]
  }

  predicate NamesBasis(stamp: string, basis: string) {
    var fields := Tokens(stamp, false);
    |fields| >= 4 && fields[0] == "momwire" && fields[2] == basis
  }

  function MaskedStamp(stamp: string): string
    requires |Tokens(stamp, false)| >= 4
  {
    ReplaceFirst(stamp, " " + Tokens(stamp, false)[1] + " ", " " + VERSION_MASK + " ")
  }

  function MaskVersion(text: string, basis: string): Result<string, Refusal> {
    var lines := SplitAll(text);
    if |lines| < 2 then Err(NoSecondLine)
    else if !NamesBasis(lines[1], basis) then Err(StampNamesOtherBasis)
    else Ok(Join(ReplaceLines(lines, lines[1], MaskedStamp(lines[1])), "\n"))
  }

  function MaskStamp(text: string, basis: string): Result<string, Refusal> {
    var lines := SplitAll(text);
    if |lines| < 2 then Err(NoSecondLine)
    else if basis !in Tokens(lines[1], false) then Err(StampNamesOtherBasis)
    else Ok(Join(ReplaceLines(lines, lines[1], STAMP_MASK), "\n"))
  }

  lemma ReplaceHasNoNewline(s: string, pattern: string, other: string)
    requires NoNewline(s) && NoNewline(other)
    ensures NoNewline(ReplaceFirst(s, pattern, other))
  {
  }

  lemma ReplacedLinesHaveNoNewline(lines: seq<string>, stamp: string, masked: string)
    requires AllNoNewline(lines) && NoNewline(masked)
    ensures AllNoNewline(ReplaceLines(lines, stamp, masked))
  {
    hide NoNewline;
  }

  /** Which printouts are refused: those without a second line, and those whose second line, read as words, does not
      name the engine first, the basis third and something after it; the whole stamp may name the basis anywhere. */
  lemma RefusedExactly(text: string, basis: string, lead: string, fields: seq<string>)
    requires AllTokens(fields, false) && (forall i :: 0 <= i < |lead| ==> IsSpace(lead[i]))
    requires |SplitAll(text)| >= 2 ==> SplitAll(text)[1] == lead + Join(fields, " ")
    ensures MaskVersion(text, basis).Ok?
       <==> |SplitAll(text)| >= 2 && |fields| >= 4 && fields[0] == "momwire" && fields[2] == basis
    ensures MaskStamp(text, basis).Ok? <==> |SplitAll(text)| >= 2 && basis in fields
    ensures |SplitAll(text)| < 2 ==> MaskVersion(text, basis) == MaskStamp(text, basis) == Err(NoSecondLine)
  {
    hide SplitAll, Tokens, IsToken, IsSpace, ReplaceLines;
    WordsRoundTrip(fields);
    assert forall i :: 0 <= i < |lead| ==> IsSeparator(lead[i], false);
    SkipSeparators(lead, Join(fields, " "), false);
  }

  /** Masking keeps the number of lines and every line that is not the stamp. */
  lemma MaskTouchesStampLinesOnly(text: string, basis: string)
    requires MaskVersion(text, basis).Ok?
    ensures var lines, out := SplitAll(text), SplitAll(MaskVersion(text, basis).value);
            && |out| == |lines| >= 2
            && forall i :: 0 <= i < |lines| ==> out[i] == if lines[i]
                == lines[1] then MaskedStamp(lines[1]) else lines[i]
  {
    var lines := SplitAll(text);
    PiecesHaveNoNewline(text);
    hide SplitAll, Tokens, ReplaceFirst, FirstNewline;
    MaskedHasNoNewline(lines[1]);
    hide NoNewline, MaskedStamp;
    ReplacedLinesHaveNoNewline(lines, lines[1], MaskedStamp(lines[1]));
    SplitOfJoin(ReplaceLines(lines, lines[1], MaskedStamp(lines[1])));
  }

  /** The whole stamp masked: it disappears from every line it stood on, and printouts that differ in their stamps
      alone become equal. */
  lemma StampsMaskAlike(template: Template, s: string, t: string, basis: string)
    requires IsTemplate(template, s) && IsTemplate(template, t) && NoNewline(s) && NoNewline(t)
    requires basis in Tokens(s, false) && basis in Tokens(t, false)
    ensures MaskStamp(Join(Fill(template, s), "\n"), basis)
         == MaskStamp(Join(Fill(template, t), "\n"), basis)
         == Ok(Join(Fill(template, STAMP_MASK), "\n"))
  {
    hide MaskStamp, Fill, IsTemplate, Tokens, NoNewline;
    StampOfFill(template, s, basis);
    StampOfFill(template, t, basis);
  }

  lemma StampOfFill(template: Template, stamp: string, basis: string)
    requires IsTemplate(template, stamp) && NoNewline(stamp) && basis in Tokens(stamp, false)
    ensures MaskStamp(Join(Fill(template, stamp), "\n"), basis) == Ok(Join(Fill(template, STAMP_MASK), "\n"))
  {
    hide NoNewline, Tokens, SplitAll;
    SplitFill(template, stamp);
    ReplaceFill(template, stamp, STAMP_MASK);
    hide Fill, ReplaceLines, Join;
  }

  lemma SplitFill(template: Template, stamp: string)
    requires IsTemplate(template, stamp) && NoNewline(stamp)
    ensures |Fill(template, stamp)| >= 2 && Fill(template, stamp)[1] == stamp
    ensures SplitAll(Join(Fill(template, stamp), "\n")) == Fill(template, stamp)
  {
    hide NoNewline;
    SplitOfJoin(Fill(template, stamp));
  }

  lemma ReplaceFill(template: Template, stamp: string, masked: string)
    requires IsTemplate(template, stamp)
    ensures ReplaceLines(Fill(template, stamp), stamp, masked) == Fill(template, masked)
  {
    hide NoNewline, Fill, ReplaceLines;
  }

  lemma MaskedHasNoNewline(stamp: string)
    requires NoNewline(stamp) && |Tokens(stamp, false)| >= 4
    ensures NoNewline(MaskedStamp(stamp))
  {
    assert NoNewline(" " + VERSION_MASK + " ");
    hide NoNewline, Tokens, ReplaceFirst;
    ReplaceHasNoNewline(stamp, " " + Tokens(stamp, false)[1] + " ", " " + VERSION_MASK + " ");
  }

  // ---------------------------------------------------------------- when the version is what gets masked

  const ENGINE := "momwire"

  predicate AllSpace(s: string) {
    forall i :: 0 <= i < |s| ==> IsSpace(s[i])
  }

  /** A text cut at a version: white space before it, and white space after it. */
  ghost predicate IsCut(head: string, version: string, tail: string) {
    && head != "" && IsSpace(head[|head| - 1])
    && IsToken(version, false)
    && tail != "" && IsSpace(tail[0])
  }

  /** A stamp cut at its version: white space or nothing, the engine name, white space, the version, the rest. */
  ghost predicate IsStamp(lead: string, gap: string, version: string, tail: string) {
    && AllSpace(lead)
    && gap != "" && AllSpace(gap)
    && IsToken(version, false)
    && tail != "" && IsSpace(tail[0])
  }

  /** Everything before the version. */
  function Head(lead: string, gap: string): string { lead + ENGINE + gap }

  /** Single blanks stand directly before and after the version. */
  predicate Blanks(gap: string, tail: string)
    requires gap != "" && tail != ""
  {
    gap[|gap| - 1] == ' ' && tail[0] == ' '
  }

  /** The version is spelled like the engine name, and that name stands between blanks too. */
  predicate Ambiguous(lead: string, gap: string, version: string)
    requires gap != ""
  {
    version == ENGINE && lead != "" && lead[|lead| - 1] == ' ' && gap[0] == ' '
  }

  lemma StampIsCut(lead: string, gap: string, version: string, tail: string)
    requires IsStamp(lead, gap, version, tail)
    ensures IsCut(Head(lead, gap), version, tail)
  {
    var head := Head(lead, gap);
    assert head[|head| - 1] == gap[|gap| - 1];
    hide IsSpace, IsToken;
  }

  lemma StampFields(lead: string, gap: string, version: string, tail: string)
    requires IsStamp(lead, gap, version, tail)
    ensures Tokens(Head(lead, gap) + version + tail, false) == [ENGINE, version] + Tokens(tail, false)
  {
    EngineNameIsToken();
    hide IsSpace, IsToken, Tokens;
    TokenThen(version, tail, false);
    SkipSeparators(gap, version + tail, false);
    TokenThen(ENGINE, gap + (version + tail), false);
    SkipSeparators(lead, ENGINE + (gap + (version + tail)), false);
    assert Head(lead, gap) + version + tail == lead + (ENGINE + (gap + (version + tail)));
    assert [ENGINE] + ([version] + Tokens(tail, false)) == [ENGINE, version] + Tokens(tail, false);
  }

  lemma EngineNameIsToken()
    ensures IsToken(ENGINE, false)
  {
  }

  /** A blank with no version after it. */
  lemma NoVersionAfter(s: string, version: string, j: nat)
    requires IsToken(version, false) && j < |s|
    requires s[j] != ' ' || (j + 1 < |s| && IsSpace(s[j + 1]))
    ensures !StandsAt(s, " " + version + " ", j)
  {
    var pattern := " " + version + " ";
    assert !IsSeparator(version[0], false);
    if j + |pattern| <= |s| {
      assert s[j..j + |pattern|][0] == s[j] && s[j..j + |pattern|][1] == s[j + 1];
    }
  }

  /** Before the version it can stand in one other place only: on the engine name. */
  lemma NotBeforeVersion(lead: string, gap: string, version: string, tail: string, j: nat)
    requires IsStamp(lead, gap, version, tail) && j < |Head(lead, gap)| - 1 && j + 1 != |lead|
    ensures !StandsAt(Head(lead, gap) + version + tail, " " + version + " ", j)
  {
    var s, name := Head(lead, gap) + version + tail, |lead| + |ENGINE|;
    EngineNameIsToken();
    if j + 1 < |lead| {
      assert s[j + 1] == lead[j + 1];
    } else if j < name {
      assert s[j] == ENGINE[j - |lead|];
      assert !IsSeparator(ENGINE[j - |lead|], false) && IsSpace(' ');
    } else {
      assert s[j + 1] == gap[j + 1 - name];
    }
    hide IsSpace, IsToken;
    NoVersionAfter(s, version, j);
  }

  /** There it stands exactly when the name is ambiguous. */
  lemma AtEngineName(lead: string, gap: string, version: string, tail: string)
    requires IsStamp(lead, gap, version, tail) && lead != ""
    ensures StandsAt(Head(lead, gap) + version + tail, " " + version + " ", |lead| - 1)
       <==> Ambiguous(lead, gap, version)
  {
    var s, pattern, rest := Head(lead, gap) + version + tail, " " + version + " ", gap + version + tail;
    EngineNameIsToken();
    assert IsSpace(' ');
    hide IsSpace, IsToken;
    assert s == lead + (ENGINE + rest);
    if version == ENGINE {
      assert s == lead + version + rest;
      AtVersion(lead, version, rest);
    } else if StandsAt(s, pattern, |lead| - 1) {
      SameToken(lead, ENGINE, rest, version, s);
    }
  }

  /** Where a version stands on another token, the two are the same. */
  lemma SameToken(lead: string, token: string, rest: string, version: string, s: string)
    requires lead != "" && IsToken(token, false) && IsToken(version, false) && rest != "" && IsSpace(rest[0])
    requires s == lead + (token + rest) && StandsAt(s, " " + version + " ", |lead| - 1)
    ensures version == token && lead[|lead| - 1] == ' ' && rest[0] == ' '
  {
    var pattern, at := " " + version + " ", |lead| - 1;
    var after := s[at + |version| + 1..];
    assert IsSpace(' ');
    hide IsSpace, IsToken;
    assert s[at..at + |pattern|] == pattern;
    assert s[at] == pattern[0] && s[at + |version| + 1] == pattern[|version| + 1];
    assert s[|lead|..|lead| + |version|] == pattern[1..|version| + 1] == version;
    assert token + rest == s[|lead|..] == version + after;
    RunOfToken(token, rest, false);
    RunOfToken(version, after, false);
    assert (token + rest)[..|token|] == token && (version + after)[..|version|] == version;
  }

  /** At the version it stands between blanks or not at all. */
  lemma AtVersion(head: string, version: string, tail: string)
    requires head != "" && tail != ""
    ensures StandsAt(head + version + tail, " " + version + " ", |head| - 1)
       <==> head[|head| - 1] == ' ' && tail[0] == ' '
  {
    var s, pattern, at := head + version + tail, " " + version + " ", |head| - 1;
    var window := s[at..at + |pattern|];
    assert window[0] == head[at] && window[|version| + 1] == tail[0];
    assert pattern[0] == ' ' && pattern[|version| + 1] == ' ';
    assert window == [head[at]] + version + [tail[0]];
    assert pattern == [' '] + version + [' '];
  }

  lemma NotInsideVersion(head: string, version: string, tail: string, j: nat)
    requires IsCut(head, version, tail) && |head| <= j < |head| + |version|
    ensures !StandsAt(head + version + tail, " " + version + " ", j)
  {
    var s := head + version + tail;
    assert !IsSeparator(version[j - |head|], false) && IsSpace(' ');
    assert s[j] == version[j - |head|];
    hide IsSpace, IsToken;
    NoVersionAfter(s, version, j);
  }

  /** The masked stamp, were the version alone replaced. */
  function OnlyVersionMasked(head: string, tail: string): string { head + VERSION_MASK + tail }

  /** A text that agrees with it and has a version in that place has the mask there. */
  lemma VersionIsMask(head: string, version: string, tail: string, rest: string)
    requires IsCut(head, version, tail) && rest != "" && IsSpace(rest[0])
    requires head + version + rest == OnlyVersionMasked(head, tail)
    ensures version == VERSION_MASK
  {
    var out := head + version + rest;
    assert out[|head|..] == version + rest;
    assert OnlyVersionMasked(head, tail)[|head|..] == VERSION_MASK + tail;
    MaskIsToken();
    hide IsSpace;
    RunOfToken(version, rest, false);
    RunOfToken(VERSION_MASK, tail, false);
    assert (version + rest)[..|version|] == version && (VERSION_MASK + tail)[..|VERSION_MASK|] == VERSION_MASK;
  }

  /** The version is masked, and nothing else, exactly when single blanks stand directly before and after it and
      the engine name cannot be taken for it, or when it was masked already. */
  lemma VersionMaskedExactlyWhenBlanks(lead: string, gap: string, version: string, tail: string)
    requires IsStamp(lead, gap, version, tail)
    requires |Tokens(Head(lead, gap) + version + tail, false)| >= 4
    ensures MaskedStamp(Head(lead, gap) + version + tail) == OnlyVersionMasked(Head(lead, gap), tail)
       <==> version == VERSION_MASK || (Blanks(gap, tail) && !Ambiguous(lead, gap, version))
    ensures Ambiguous(lead, gap, version) ==>
              MaskedStamp(Head(lead, gap) + version + tail) == EngineMasked(lead, gap, version, tail)
  {
    var head := Head(lead, gap);
    var s := head + version + tail;
    MaskedStampIs(lead, gap, version, tail);
    StampIsCut(lead, gap, version, tail);
    FirstPlace(lead, gap, version, tail);
    BlankBeforeVersion(lead, gap);
    MaskIsNotEngine();
    hide Tokens, StandsAt, Find, IsStamp, IsCut, ReplaceFirst, OnlyVersionMasked, Head, EngineMasked;
    var found := Find(s, " " + version + " ", 0);
    if Ambiguous(lead, gap, version) {
      ReplacedAtEngine(lead, gap, version, tail);
      EngineMaskedDiffers(lead, gap, version, tail);
    } else if Blanks(gap, tail) {
      ReplacedAtVersion(head, version, tail);
    } else if found.None? {
      NotReplaced(head, version, tail);
    } else {
      ReplacedLater(head, version, tail, found.value);
    }
  }

  lemma MaskedStampIs(lead: string, gap: string, version: string, tail: string)
    requires IsStamp(lead, gap, version, tail)
    requires |Tokens(Head(lead, gap) + version + tail, false)| >= 4
    ensures MaskedStamp(Head(lead, gap) + version + tail) == Replaced(Head(lead, gap), version, tail)
  {
    StampFields(lead, gap, version, tail);
    hide Tokens, ReplaceFirst, IsStamp;
  }

  lemma BlankBeforeVersion(lead: string, gap: string)
    requires gap != ""
    ensures Head(lead, gap) != "" && Head(lead, gap)[|Head(lead, gap)| - 1] == gap[|gap| - 1]
  {
  }

  lemma MaskIsNotEngine()
    ensures ENGINE != VERSION_MASK
  {
    assert ENGINE[0] != VERSION_MASK[0];
  }

  /** What is left when the engine name is masked in the version's stead. */
  function EngineMasked(lead: string, gap: string, version: string, tail: string): string {
    OnlyVersionMasked(lead, gap + version + tail)
  }

  lemma EngineMaskedDiffers(lead: string, gap: string, version: string, tail: string)
    ensures EngineMasked(lead, gap, version, tail) != OnlyVersionMasked(Head(lead, gap), tail)
  {
    assert EngineMasked(lead, gap, version, tail)[|lead|] == VERSION_MASK[0];
    assert OnlyVersionMasked(Head(lead, gap), tail)[|lead|] == ENGINE[0];
  }

  lemma ReplacedAtEngine(lead: string, gap: string, version: string, tail: string)
    requires gap != "" && Ambiguous(lead, gap, version)
    requires Find(Head(lead, gap) + version + tail, " " + version + " ", 0) == Some(|lead| - 1)
    ensures Replaced(Head(lead, gap), version, tail) == EngineMasked(lead, gap, version, tail)
  {
    hide Find, ReplaceFirst, OnlyVersionMasked;
    assert Head(lead, gap) + version + tail == lead + version + (gap + version + tail);
    ReplacedAtVersion(lead, version, gap + version + tail);
  }

  /** The first place where the version stands between blanks: the engine name's when that is ambiguous, else its
      own if there are blanks, else one after it. */
  lemma FirstPlace(lead: string, gap: string, version: string, tail: string)
    requires IsStamp(lead, gap, version, tail)
    ensures var head := Head(lead, gap);
            var found := Find(head + version + tail, " " + version + " ", 0);
            if Ambiguous(lead, gap, version) then found == Some(|lead| - 1)
            else if Blanks(gap, tail) then found == Some(|head| - 1)
            else found.Some? ==> found.value >= |head| + |version|
  {
    var head := Head(lead, gap);
    var s, pattern := head + version + tail, " " + version + " ";
    StampIsCut(lead, gap, version, tail);
    BlankBeforeVersion(lead, gap);
    AtVersion(head, version, tail);
    if lead != "" { AtEngineName(lead, gap, version, tail); }
    forall j | 0 <= j < |head| - 1 && j + 1 != |lead| ensures !StandsAt(s, pattern, j) {
      NotBeforeVersion(lead, gap, version, tail, j);
    }
    forall j | |head| <= j < |head| + |version| ensures !StandsAt(s, pattern, j) {
      NotInsideVersion(head, version, tail, j);
    }
    assert |lead| < |head|;
    hide StandsAt, Find, IsStamp, IsCut, Head, Ambiguous;
    if Ambiguous(lead, gap, version) {
      AmbiguousHasLead(lead, gap, version);
      FirstOf(s, pattern, |lead| - 1, |lead| - 1);
    } else {
      FirstOf(s, pattern, |head| - 1, |head| + |version|);
    }
  }

  lemma AmbiguousHasLead(lead: string, gap: string, version: string)
    requires gap != "" && Ambiguous(lead, gap, version)
    ensures lead != ""
  {
  }

  lemma FirstOf(s: string, pattern: string, at: nat, cut: nat)
    requires forall j :: 0 <= j < at ==> !StandsAt(s, pattern, j)
    requires forall j :: at < j < cut ==> !StandsAt(s, pattern, j)
    ensures var found := Find(s, pattern, 0);
            if StandsAt(s, pattern, at) then found == Some(at) else found.Some? ==> found.value >= cut
  {
    hide StandsAt, Find;
  }

  function Replaced(head: string, version: string, tail: string): string {
    ReplaceFirst(head + version + tail, " " + version + " ", " " + VERSION_MASK + " ")
  }

  lemma NotReplaced(head: string, version: string, tail: string)
    requires IsCut(head, version, tail) && Find(head + version + tail, " " + version + " ", 0) == None
    ensures Replaced(head, version, tail) == OnlyVersionMasked(head, tail) <==> version == VERSION_MASK
  {
    hide Find;
    if head + version + tail == OnlyVersionMasked(head, tail) { VersionIsMask(head, version, tail, tail); }
  }

  lemma ReplacedAtVersion(head: string, version: string, tail: string)
    requires head != "" && tail != "" && head[|head| - 1] == ' ' && tail[0] == ' '
    requires Find(head + version + tail, " " + version + " ", 0) == Some(|head| - 1)
    ensures Replaced(head, version, tail) == OnlyVersionMasked(head, tail)
  {
    hide Find;
    CutAtBlanks(head, version, tail);
    JoinAtBlanks(head, tail);
  }

  lemma CutAtBlanks(head: string, version: string, tail: string)
    requires head != "" && tail != ""
    ensures var s, at := head + version + tail, |head| - 1;
            s[..at] == head[..at] && s[at + (|version| + 2)..] == tail[1..]
  {
  }

  lemma JoinAtBlanks(head: string, tail: string)
    requires head != "" && tail != "" && head[|head| - 1] == ' ' && tail[0] == ' '
    ensures head[..|head| - 1] + (" " + VERSION_MASK + " ") + tail[1..] == OnlyVersionMasked(head, tail)
  {
    assert head[..|head| - 1] + " " == head && " " + tail[1..] == tail;
  }

  lemma ReplacedLater(head: string, version: string, tail: string, j: nat)
    requires IsCut(head, version, tail) && |head| + |version| <= j
    requires Find(head + version + tail, " " + version + " ", 0) == Some(j)
    ensures Replaced(head, version, tail) == OnlyVersionMasked(head, tail) <==> version == VERSION_MASK
  {
    hide Find, IsToken;
    var s, cut, out := head + version + tail, |head| + |version|, Replaced(head, version, tail);
    assert out == s[..j] + (" " + VERSION_MASK + " ") + s[j + |version| + 2..];
    if version == VERSION_MASK {
      assert out == s;
    } else if out == OnlyVersionMasked(head, tail) {
      var rest := out[cut..];
      assert out[..cut] == s[..cut] == head + version;
      assert out == head + version + rest;
      assert rest[0] == if j == cut then ' ' else tail[0];
      assert IsSpace(' ');
      VersionIsMask(head, version, tail, rest);
    }
  }

  lemma MaskIsToken()
    ensures IsToken(VERSION_MASK, false)
  {
  }

  // ---------------------------------------------------------------- twice, and across versions

  /** The lines of a printout whose stamp is left open: None where the stamp goes. */
  type Template = seq<Option<string>>

  function Fill(template: Template, stamp: string): (lines: seq<string>)
    ensures |lines| == |template|
    ensures forall i :: 0 <= i < |lines| ==> lines[i] == if template[i].Some? then template[i].value else stamp
  {
    if template == [] then []
    else
      var last := template[|template| - 1];
      Fill(template[..|template| - 1], stamp) + [if last.Some? then last.value else stamp]
  }

  ghost predicate IsTemplate(template: Template, stamp: string) {
    && |template| >= 2 && template[1] == None
    && forall i :: 0 <= i < |template| && template[i].Some? ==>
         NoNewline(template[i].value) && template[i].value != stamp
  }

  lemma MaskOfFill(template: Template, stamp: string, basis: string)
    requires IsTemplate(template, stamp) && NoNewline(stamp) && NamesBasis(stamp, basis)
    ensures MaskVersion(Join(Fill(template, stamp), "\n"), basis) == Ok(Join(Fill(template, MaskedStamp(stamp)), "\n"))
  {
    hide NoNewline, Tokens, ReplaceFirst, SplitAll;
    SplitFill(template, stamp);
    ReplaceFill(template, stamp, MaskedStamp(stamp));
    hide Fill, ReplaceLines, Join;
  }

  lemma FillsDiffer(template: Template, s: string, t: string)
    requires |template| >= 2 && template[1] == None && NoNewline(s) && NoNewline(t)
    requires forall i :: 0 <= i < |template| && template[i].Some? ==> NoNewline(template[i].value)
    requires s != t
    ensures Join(Fill(template, s), "\n") != Join(Fill(template, t), "\n")
  {
    hide NoNewline, Fill;
    SplitOfJoin(Fill(template, s));
    SplitOfJoin(Fill(template, t));
    assert Fill(template, s)[1] != Fill(template, t)[1];
  }

  lemma MasksHaveNoNewline(lead: string, gap: string, version: string, tail: string)
    requires NoNewline(Head(lead, gap) + version + tail)
    ensures NoNewline(OnlyVersionMasked(Head(lead, gap), tail)) && NoNewline(EngineMasked(lead, gap, version, tail))
  {
    var s := Head(lead, gap) + version + tail;
    assert NoNewline(VERSION_MASK);
    forall i | 0 <= i < |lead| ensures lead[i] != '\n' { assert lead[i] == s[i]; }
    forall i | 0 <= i < |gap| ensures gap[i] != '\n' { assert gap[i] == s[|lead| + |ENGINE| + i]; }
    forall i | 0 <= i < |version| ensures version[i] != '\n' { assert version[i] == s[|Head(lead, gap)| + i]; }
    forall i | 0 <= i < |tail| ensures tail[i] != '\n' { assert tail[i] == s[|Head(lead, gap)| + |version| + i]; }
  }

  /** Two printouts that differ only in the version of their stamps mask to the same text exactly when in neither of
      them the engine name is taken for the version. */
  lemma VersionsMaskAlike(template: Template, lead: string, gap: string, v: string, u: string, tail: string,
                          basis: string)
    requires IsStamp(lead, gap, v, tail) && IsStamp(lead, gap, u, tail) && Blanks(gap, tail) && v != u
    requires NoNewline(Head(lead, gap) + v + tail) && NoNewline(Head(lead, gap) + u + tail)
    requires IsTemplate(template, Head(lead, gap) + v + tail) && IsTemplate(template, Head(lead, gap) + u + tail)
    requires NamesBasis(Head(lead, gap) + v + tail, basis) && NamesBasis(Head(lead, gap) + u + tail, basis)
    ensures MaskVersion(Join(Fill(template, Head(lead, gap) + v + tail), "\n"), basis)
         == MaskVersion(Join(Fill(template, Head(lead, gap) + u + tail), "\n"), basis)
       <==> !Ambiguous(lead, gap, v) && !Ambiguous(lead, gap, u)
    ensures !Ambiguous(lead, gap, v) ==>
              MaskVersion(Join(Fill(template, Head(lead, gap) + v + tail), "\n"), basis)
              == Ok(Join(Fill(template, OnlyVersionMasked(Head(lead, gap), tail)), "\n"))
  {
    var head := Head(lead, gap);
    VersionMaskedExactlyWhenBlanks(lead, gap, v, tail);
    VersionMaskedExactlyWhenBlanks(lead, gap, u, tail);
    MasksHaveNoNewline(lead, gap, v, tail);
    MasksHaveNoNewline(lead, gap, u, tail);
    EngineMaskedDiffers(lead, gap, v, tail);
    EngineMaskedDiffers(lead, gap, u, tail);
    TemplateLines(template, head + v + tail);
    assert !(Ambiguous(lead, gap, v) && Ambiguous(lead, gap, u));
    hide IsStamp, IsTemplate, NoNewline, NamesBasis, Tokens, MaskedStamp, MaskVersion, OnlyVersionMasked, EngineMasked;
    hide Fill, Head, Ambiguous, Blanks, Join;
    MaskOfFill(template, head + v + tail, basis);
    MaskOfFill(template, head + u + tail, basis);
    if Ambiguous(lead, gap, v) {
      FillsDiffer(template, EngineMasked(lead, gap, v, tail), OnlyVersionMasked(head, tail));
    }
    if Ambiguous(lead, gap, u) {
      FillsDiffer(template, EngineMasked(lead, gap, u, tail), OnlyVersionMasked(head, tail));
    }
  }

  lemma TemplateLines(template: Template, stamp: string)
    requires IsTemplate(template, stamp)
    ensures |template| >= 2 && template[1] == None
    ensures forall i :: 0 <= i < |template| && template[i].Some? ==> NoNewline(template[i].value)
  {
    hide NoNewline;
  }

  /** Masking a masked printout changes nothing, exactly when the engine name was not taken for the version:
      otherwise the second masking refuses the printout. */
  lemma MaskIsIdempotent(text: string, lead: string, gap: string, v: string, tail: string, basis: string)
    requires IsStamp(lead, gap, v, tail) && Blanks(gap, tail)
    requires |SplitAll(text)| >= 2 && SplitAll(text)[1] == Head(lead, gap) + v + tail
    requires MaskVersion(text, basis).Ok?
    ensures MaskVersion(MaskVersion(text, basis).value, basis) == MaskVersion(text, basis)
       <==> !Ambiguous(lead, gap, v)
    ensures Ambiguous(lead, gap, v) ==>
              MaskVersion(MaskVersion(text, basis).value, basis) == Err(StampNamesOtherBasis)
  {
    VersionMaskedExactlyWhenBlanks(lead, gap, v, tail);
    MaskTouchesStampLinesOnly(text, basis);
    if Ambiguous(lead, gap, v) {
      EngineMaskedIsRefused(lead, gap, v, tail, basis);
      hide Tokens, SplitAll, MaskedStamp, IsStamp, EngineMasked, NamesBasis, Head, OnlyVersionMasked, Join;
    } else {
      MaskedStampIsFixed(lead, gap, v, tail, basis);
      hide Tokens, SplitAll, MaskedStamp, IsStamp, OnlyVersionMasked, NamesBasis, Head, EngineMasked;
      FixedStamp(MaskVersion(text, basis).value, OnlyVersionMasked(Head(lead, gap), tail), basis);
    }
  }

  /** With its engine name masked, a stamp no longer names the engine. */
  lemma EngineMaskedIsRefused(lead: string, gap: string, v: string, tail: string, basis: string)
    requires IsStamp(lead, gap, v, tail)
    ensures !NamesBasis(EngineMasked(lead, gap, v, tail), basis)
  {
    var rest := gap + v + tail;
    MaskIsToken();
    MaskIsNotEngine();
    assert rest[0] == gap[0];
    hide IsSpace, IsToken, Tokens;
    TokenThen(VERSION_MASK, rest, false);
    SkipSeparators(lead, VERSION_MASK + rest, false);
    assert EngineMasked(lead, gap, v, tail) == lead + (VERSION_MASK + rest);
  }

  lemma MaskedStampIsFixed(lead: string, gap: string, v: string, tail: string, basis: string)
    requires IsStamp(lead, gap, v, tail) && Blanks(gap, tail) && NamesBasis(Head(lead, gap) + v + tail, basis)
    ensures NamesBasis(OnlyVersionMasked(Head(lead, gap), tail), basis)
    ensures MaskedStamp(OnlyVersionMasked(Head(lead, gap), tail)) == OnlyVersionMasked(Head(lead, gap), tail)
  {
    MaskIsToken();
    StampFields(lead, gap, v, tail);
    StampFields(lead, gap, VERSION_MASK, tail);
    hide Tokens, MaskedStamp, IsSpace, IsToken, Head;
    VersionMaskedExactlyWhenBlanks(lead, gap, VERSION_MASK, tail);
  }

  /** A printout whose stamp masks to itself masks to itself. */
  lemma FixedStamp(text: string, stamp: string, basis: string)
    requires |SplitAll(text)| >= 2 && SplitAll(text)[1] == stamp
    requires NamesBasis(stamp, basis) && MaskedStamp(stamp) == stamp
    ensures MaskVersion(text, basis) == Ok(text)
  {
    hide Tokens, SplitAll, ReplaceFirst;
    assert ReplaceLines(SplitAll(text), stamp, stamp) == SplitAll(text);
    JoinOfSplit(text);
  }

  // ---------------------------------------------------------------- the stamps that are printed, and those that fail

  /** A printed stamp - a blank, the engine name, the version, the basis and more, single blanks between - has its
      version masked, unless the version is the engine name: then that name is masked and the version stays. */
  lemma PrintedStamp(version: string, basis: string, variant: string)
    requires IsToken(version, false) && IsToken(basis, false) && IsToken(variant, false)
    ensures var tail := " " + basis + " " + variant;
            && IsStamp(" ", " ", version, tail) && NamesBasis(Head(" ", " ") + version + tail, basis)
            && MaskedStamp(Head(" ", " ") + version + tail)
               == if version == ENGINE then EngineMasked(" ", " ", version, tail)
                  else OnlyVersionMasked(Head(" ", " "), tail)
  {
    var tail := " " + basis + " " + variant;
    assert IsSpace(' ') && tail[0] == ' ';
    assert AllSpace(" ");
    hide IsSpace, IsToken, Tokens, MaskedStamp, Head, EngineMasked, OnlyVersionMasked;
    StampFields(" ", " ", version, tail);
    TailFields(basis, variant);
    VersionMaskedExactlyWhenBlanks(" ", " ", version, tail);
  }

  /** A tab before the version keeps it from being masked, though the stamp is accepted. */
  lemma TabHidesTheVersion(lead: string, version: string, basis: string, variant: string)
    requires AllSpace(lead)
    requires IsToken(version, false) && IsToken(basis, false) && IsToken(variant, false) && version != VERSION_MASK
    ensures var tail := " " + basis + " " + variant;
            && NamesBasis(Head(lead, "\t") + version + tail, basis)
            && MaskedStamp(Head(lead, "\t") + version + tail) != OnlyVersionMasked(Head(lead, "\t"), tail)
  {
    var tail := " " + basis + " " + variant;
    assert IsSpace('\t') && IsSpace(' ') && tail[0] == ' ';
    assert AllSpace("\t");
    hide IsSpace, IsToken, Tokens, MaskedStamp, Head, OnlyVersionMasked;
    StampFields(lead, "\t", version, tail);
    TailFields(basis, variant);
    VersionMaskedExactlyWhenBlanks(lead, "\t", version, tail);
  }

  lemma TailFields(basis: string, variant: string)
    requires IsToken(basis, false) && IsToken(variant, false)
    ensures Tokens(" " + basis + " " + variant, false) == [basis, variant]
  {
    assert IsSpace(' ');
    assert Tokens("", false) == [];
    hide IsSpace, Tokens, IsToken;
    TokenThen(variant, "", false);
    assert variant + "" == variant;
    SkipSeparators(" ", variant, false);
    TokenThen(basis, " " + variant, false);
    SkipSeparators(" ", basis + (" " + variant), false);
    assert " " + (basis + (" " + variant)) == " " + basis + " " + variant;
  }
}
