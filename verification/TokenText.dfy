/** Writing tokens with separators and reading them back. */
module TokenText {
  import opened Cards
  import opened Results

  /** White space separates words; in a C initialiser commas do too. */
  predicate IsSeparator(c: char, commas: bool) {
    IsSpace(c) || (commas && c == ',')
  }

  /** The length of the leading run of characters that are not separators. */
  function RunLength(text: string, commas: bool): (n: nat)
    ensures n <= |text|
  {
    if text == "" || IsSeparator(text[0], commas) then 0 else 1 + RunLength(text[1..], commas)
  }

  /** str.split(), or the items of an initialiser. */
  function Tokens(text: string, commas: bool): seq<string>
    decreases |text|
  {
    if text == "" then []
    else if IsSeparator(text[0], commas) then Tokens(text[1..], commas)
    else
      var n := RunLength(text, commas);
      [text[..n]] + Tokens(text[n..], commas)
  }

  predicate IsToken(s: string, commas: bool) {
    s != "" && forall i :: 0 <= i < |s| ==> !IsSeparator(s[i], commas)
  }

  predicate AllTokens(tokens: seq<string>, commas: bool) {
    forall i :: 0 <= i < |tokens| ==> IsToken(tokens[i], commas)
  }

  lemma {:induction false} RunOfToken(s: string, rest: string, commas: bool)
    requires forall i :: 0 <= i < |s| ==> !IsSeparator(s[i], commas)
    requires rest == "" || IsSeparator(rest[0], commas)
    ensures RunLength(s + rest, commas) == |s|
  {
    hide IsSeparator;
    if s == "" {
      assert s + rest == rest;
    } else {
      assert (s + rest)[1..] == s[1..] + rest;
      RunOfToken(s[1..], rest, commas);
    }
  }

  /** A token in front of a separator is read as it stands. */
  lemma TokenThen(s: string, rest: string, commas: bool)
    requires IsToken(s, commas)
    requires rest == "" || IsSeparator(rest[0], commas)
    ensures Tokens(s + rest, commas) == [s] + Tokens(rest, commas)
  {
    hide IsSeparator;
    RunOfToken(s, rest, commas);
    assert (s + rest)[0] == s[0];
    assert (s + rest)[..|s|] == s && (s + rest)[|s|..] == rest;
  }

  lemma {:induction false} SkipSeparators(sep: string, rest: string, commas: bool)
    requires forall i :: 0 <= i < |sep| ==> IsSeparator(sep[i], commas)
    ensures Tokens(sep + rest, commas) == Tokens(rest, commas)
  {
    hide IsSeparator;
    if sep == "" {
      assert sep + rest == rest;
    } else {
      assert (sep + rest)[1..] == sep[1..] + rest;
      SkipSeparators(sep[1..], rest, commas);
    }
  }

  /** sep.join(tokens) */
  function Join(tokens: seq<string>, sep: string): string {
    if tokens == [] then ""
    else if |tokens| == 1 then tokens[0]
    else tokens[0] + sep + Join(tokens[1..], sep)
  }

  /** Joined tokens, followed by a separator or nothing, are read back. */
  lemma {:induction false} ReadJoined(tokens: seq<string>, sep: string, rest: string, commas: bool)
    requires AllTokens(tokens, commas) && sep != "" && forall i :: 0 <= i < |sep| ==> IsSeparator(sep[i], commas)
    requires rest == "" || IsSeparator(rest[0], commas)
    ensures Tokens(Join(tokens, sep) + rest, commas) == tokens + Tokens(rest, commas)
  {
    hide IsSeparator, Tokens;
    if tokens == [] {
      assert Join(tokens, sep) + rest == rest;
    } else if |tokens| == 1 {
      TokenThen(tokens[0], rest, commas);
    } else {
      var tail := Join(tokens[1..], sep) + rest;
      ReadJoined(tokens[1..], sep, rest, commas);
      SkipSeparators(sep, tail, commas);
      TokenThen(tokens[0], sep + tail, commas);
      assert Join(tokens, sep) + rest == tokens[0] + (sep + tail);
    }
  }

  /** A word list written with single spaces is read back by str.split(). */
  lemma WordsRoundTrip(tokens: seq<string>)
    requires AllTokens(tokens, false)
    ensures Tokens(Join(tokens, " "), false) == tokens
  {
    ReadJoined(tokens, " ", "", false);
    assert Join(tokens, " ") + "" == Join(tokens, " ");
  }

  // ---------------------------------------------------------------- rows of a printed array

  function Min(a: nat, b: nat): nat { if a < b then a else b }

  function RowText(values: seq<string>): string { "    " + Join(values, ", ") + ",\n" }

  /** The values in rows of `width`, each row with a trailing comma. */
  function Rows(values: seq<string>, width: nat): string
    requires width > 0
    decreases |values|
  {
    if values == [] then ""
    else RowText(values[..Min(width, |values|)]) + Rows(values[Min(width, |values|)..], width)
  }

  method PrintRows(values: seq<string>, width: nat) returns (out: string)
    requires width > 0
    ensures out == Rows(values, width)
  {
    hide RowText;
    out := "";
    var i := 0;
    while i < |values|
      invariant 0 <= i
      invariant out + Rows(values[Min(i, |values|)..], width) == Rows(values, width)
      decreases |values| - i
    {
      ghost var rest := values[i..];
      assert rest[..Min(width, |rest|)] == values[i..Min(i + width, |values|)];
      assert rest[Min(width, |rest|)..] == values[Min(i + width, |values|)..];
      assert out + (RowText(values[i..Min(i + width, |values|)]) + Rows(values[Min(i + width, |values|)..], width))
          == out + RowText(values[i..Min(i + width, |values|)]) + Rows(values[Min(i + width, |values|)..], width);
      out := out + RowText(values[i..Min(i + width, |values|)]);
      i := i + width;
    }
  }

  /** A printed array is read back, whatever its length and the width of its rows. */
  lemma {:induction false} RowsRoundTrip(values: seq<string>, width: nat)
    requires width > 0 && AllTokens(values, true)
    ensures Tokens(Rows(values, width), true) == values
    decreases |values|
  {
    if values != [] {
      var k := Min(width, |values|);
      var row, rest := values[..k], Rows(values[k..], width);
      RowsRoundTrip(values[k..], width);
      assert forall i :: 0 <= i < k ==> row[i] == values[i];
      ReadRow(row, rest);
      assert Rows(values, width) == RowText(row) + rest;
      assert row + values[k..] == values;
    }
  }

  lemma ReadRow(row: seq<string>, rest: string)
    requires AllTokens(row, true)
    ensures Tokens(RowText(row) + rest, true) == row + Tokens(rest, true)
  {
    hide Tokens, Join;
    var tail := ",\n" + rest;
    SkipSeparators(",\n", rest, true);
    ReadJoined(row, ", ", tail, true);
    SkipSeparators("    ", Join(row, ", ") + tail, true);
    assert RowText(row) + rest == "    " + (Join(row, ", ") + tail);
  }

  /** Row r holds the values from r * width on, `width` of them or all that are left. */
  lemma RowAt(values: seq<string>, width: nat, r: nat)
    requires width > 0 && r * width < |values|
    ensures var lo, hi := r * width, Min(r * width + width, |values|);
            Rows(values, width) == Rows(values[..lo], width) + (RowText(values[lo..hi]) + Rows(values[hi..], width))
  {
    hide *;
    var lo: nat := r * width;
    RowsSplit(values, width, r, lo);
    RowFrom(values, width, lo);
  }

  lemma RowFrom(values: seq<string>, width: nat, lo: nat)
    requires width > 0 && lo < |values|
    requires Rows(values, width) == Rows(values[..lo], width) + Rows(values[lo..], width)
    ensures var hi := Min(lo + width, |values|);
            Rows(values, width) == Rows(values[..lo], width) + (RowText(values[lo..hi]) + Rows(values[hi..], width))
  {
    hide Rows, RowText;
    FirstRow(values[lo..], width);
    var rest, k := values[lo..], Min(width, |values| - lo);
    assert rest[..k] == values[lo..lo + k] && rest[k..] == values[lo + k..];
  }

  lemma FirstRow(values: seq<string>, width: nat)
    requires width > 0 && values != []
    ensures var k := Min(width, |values|); Rows(values, width) == RowText(values[..k]) + Rows(values[k..], width)
  {
  }

  lemma {:induction false} RowsSplit(values: seq<string>, width: nat, r: nat, lo: nat)
    requires width > 0 && lo == r * width && lo <= |values|
    ensures Rows(values, width) == Rows(values[..lo], width) + Rows(values[lo..], width)
  {
    hide *;
    if r == 0 {
      assert values[..0] == [] && values[0..] == values;
      NoRows(width);
    } else {
      PreviousRow(r, width);
      RowsSplit(values[width..], width, r - 1, lo - width);
      RowsSplitStep(values, width, lo);
    }
  }

  lemma RowsSplitStep(values: seq<string>, width: nat, lo: nat)
    requires 0 < width <= lo <= |values|
    requires var rest := values[width..];
             Rows(rest, width) == Rows(rest[..lo - width], width) + Rows(rest[lo - width..], width)
    ensures Rows(values, width) == Rows(values[..lo], width) + Rows(values[lo..], width)
  {
    hide Rows, RowText;
    var rest := values[width..];
    FirstRow(values, width);
    FirstRow(values[..lo], width);
    assert values[..lo][..width] == values[..width] && values[..lo][width..] == rest[..lo - width];
    assert rest[lo - width..] == values[lo..];
    Regroup(RowText(values[..width]), Rows(rest[..lo - width], width), Rows(values[lo..], width));
  }

  lemma NoRows(width: nat)
    requires width > 0
    ensures Rows([], width) == ""
  {
  }

  lemma PreviousRow(r: nat, width: nat)
    requires r > 0
    ensures (r - 1) * width == r * width - width && r * width >= width
  {
  }

  lemma Regroup(a: string, b: string, c: string)
    ensures a + (b + c) == a + b + c
  {
  }

  // ---------------------------------------------------------------- the items of an initialiser

  function FirstComma(text: string): (n: nat)
    ensures n <= |text| && (n < |text| ==> text[n] == ',')
    ensures forall i :: 0 <= i < n ==> text[i] != ','
  {
    if text == "" || text[0] == ',' then 0 else 1 + FirstComma(text[1..])
  }

  /** The items between the braces of an array: separated by commas, with white space around them, and nothing
      after a last comma. */
  function Items(text: string): seq<string>
    decreases |text|
  {
    var n := FirstComma(text);
    if n < |text| then [Strip(text[..n])] + Items(text[n + 1..])
    else if Blank(text) then []
    else [Strip(text)]
  }

  lemma StripsTo(lead: string, s: string)
    requires Blank(lead) && s != "" && !IsSpace(s[0]) && !IsSpace(s[|s| - 1])
    ensures Strip(lead + s) == s
  {
    hide IsSpace;
    LeadDropped(lead, s);
  }

  lemma {:induction false} LeadDropped(lead: string, s: string)
    requires Blank(lead) && s != "" && !IsSpace(s[0])
    ensures DropLeading(lead + s) == s
  {
    hide IsSpace;
    if lead == "" {
      assert lead + s == s;
    } else {
      assert (lead + s)[1..] == lead[1..] + s;
      LeadDropped(lead[1..], s);
    }
  }

  /** An item up to its comma. */
  lemma ItemThen(lead: string, s: string, rest: string)
    requires Blank(lead) && IsToken(s, true)
    ensures Items(lead + s + "," + rest) == [s] + Items(rest)
  {
    var text, n := lead + s + "," + rest, |lead| + |s|;
    assert forall i :: 0 <= i < n ==> text[i] != ',' by { assert !IsSpace(','); }
    assert text[n] == ',' && text[..n] == lead + s && text[n + 1..] == rest;
    hide IsSpace, Strip;
    StripsTo(lead, s);
    assert FirstComma(text) == n by { hide FirstComma; }
  }

  /** One printed row of an array. */
  lemma {:induction false} RowItems(lead: string, row: seq<string>, rest: string)
    requires Blank(lead) && AllTokens(row, true) && row != []
    ensures Items(lead + Join(row, ", ") + "," + rest) == row + Items(rest)
    decreases |row|
  {
    hide Items, IsToken;
    if |row| == 1 {
      ItemThen(lead, row[0], rest);
    } else {
      RowItems(" ", row[1..], rest) by { assert IsSpace(' '); }
      hide IsSpace;
      var tail := " " + Join(row[1..], ", ") + "," + rest;
      assert lead + Join(row, ", ") + "," + rest == lead + row[0] + "," + tail;
      ItemThen(lead, row[0], tail);
    }
  }

  /** A printed array read as an initialiser: one item for each value, every one closed by its own comma. */
  lemma {:induction false} ItemsRoundTrip(lead: string, values: seq<string>, width: nat)
    requires width > 0 && AllTokens(values, true) && Blank(lead) && ',' !in lead
    ensures Items(lead + Rows(values, width)) == values
    decreases |values|
  {
    if values == [] {
      assert lead + Rows(values, width) == lead;
      NoItems(lead);
    } else {
      var k := Min(width, |values|);
      ItemsRoundTrip("\n", values[k..], width) by { assert IsSpace('\n'); }
      OneRowOfItems(lead, values[..k], Rows(values[k..], width));
      assert values[..k] + values[k..] == values;
    }
  }

  lemma OneRowOfItems(lead: string, row: seq<string>, rest: string)
    requires Blank(lead) && AllTokens(row, true) && row != []
    ensures Items(lead + (RowText(row) + rest)) == row + Items("\n" + rest)
  {
    assert Blank(lead + "    ") by { assert IsSpace(' '); }
    RowItems(lead + "    ", row, "\n" + rest);
    SameText(lead, Join(row, ", "), rest);
    hide *;
    assert RowText(row) == "    " + Join(row, ", ") + ",\n" by { RowTextIs(row); }
  }

  lemma RowTextIs(row: seq<string>)
    ensures RowText(row) == "    " + Join(row, ", ") + ",\n"
  {
  }

  lemma SameText(lead: string, row: string, rest: string)
    ensures lead + ("    " + row + ",\n" + rest) == lead + "    " + row + "," + ("\n" + rest)
  {
    assert ",\n" == "," + "\n";
    Regroup(lead, "    " + row + ",", "\n" + rest);
    Regroup(lead, "    ", row + ",");
  }

  lemma NoItems(lead: string)
    requires Blank(lead) && ',' !in lead
    ensures Items(lead) == []
  {
    hide IsSpace;
  }

  lemma ReadItems(values: seq<string>, width: nat)
    requires width > 0 && AllTokens(values, true)
    ensures Items(Rows(values, width)) == values
  {
    ItemsRoundTrip("", values, width);
    assert "" + Rows(values, width) == Rows(values, width);
  }

  // ---------------------------------------------------------------- decimal numbers

  predicate IsDigit(c: char) { '0' <= c <= '9' }

  function Digit(d: nat): (c: char)
    requires d < 10
    ensures IsDigit(c) && c as int - '0' as int == d
  {
    (d + '0' as int) as char
  }

  /** str(n) */
  function Decimal(n: nat): string {
    if n < 10 then [Digit(n)] else Decimal(n / 10) + [Digit(n % 10)]
  }

  /** The number a digit string stands for. */
  function Number(s: string): Option<nat> {
    if s == "" || !IsDigit(s[|s| - 1]) then None
    else
      var last := s[|s| - 1] as int - '0' as int;
      if |s| == 1 then Some(last)
      else
        var before := Number(s[..|s| - 1]);
        if before.Some? then Some(before.value * 10 + last) else None
  }

  /** A printed number is one token and reads back. */
  lemma {:induction false} DecimalRoundTrip(n: nat)
    ensures IsToken(Decimal(n), true) && Number(Decimal(n)) == Some(n)
  {
    if n >= 10 {
      DecimalRoundTrip(n / 10);
      assert Decimal(n)[..|Decimal(n)| - 1] == Decimal(n / 10);
    }
  }

  function Decimals(values: seq<nat>): (texts: seq<string>)
    ensures |texts| == |values| && forall i :: 0 <= i < |values| ==> texts[i] == Decimal(values[i])
  {
    if values == [] then [] else [Decimal(values[0])] + Decimals(values[1..])
  }

  /** A printed array of numbers is read back, number by number. */
  lemma NumbersRoundTrip(values: seq<nat>, width: nat)
    requires width > 0
    ensures Tokens(Rows(Decimals(values), width), true) == Decimals(values)
    ensures Items(Rows(Decimals(values), width)) == Decimals(values)
    ensures forall i :: 0 <= i < |values| ==> Number(Decimals(values)[i]) == Some(values[i])
  {
    hide Tokens, Items, Rows, Decimal, Number, IsToken;
    forall i | 0 <= i < |values|
      ensures IsToken(Decimals(values)[i], true) && Number(Decimals(values)[i]) == Some(values[i])
    {
      DecimalRoundTrip(values[i]);
    }
    RowsRoundTrip(Decimals(values), width);
    ReadItems(Decimals(values), width);
  }
}
