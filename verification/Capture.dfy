/** Loading a captured session for replay. */
module Capture {
  import opened Results
  import opened Shim

  // What is refused, in which order the rows come out, and why an accepted capture pairs every deck with its own
  // finish time.

  datatype Refusal = NoRows | MissingDecks(missing: nat, total: nat)

  /** A row of the replay stream: a paired row and its distance from the first. */
  datatype Entry = Entry(row: Row, offset: int)

  function AllRows(files: seq<seq<Row>>): seq<Row> {
    if files == [] then [] else AllRows(files[..|files| - 1]) + files[|files| - 1]
  }

  /** The rows that carry no deck text. */
  function Missing(rows: seq<Row>): (n: nat)
    ensures n <= |rows|
    ensures n == 0 <==> HasDecks(rows)
  {
    if rows == [] then 0
    else Missing(rows[..|rows| - 1]) + if rows[|rows| - 1].Placeholder? then 1 else 0
  }

  /** As many as there are such rows. */
  lemma {:induction false} MissingCounts(rows: seq<Row>)
    ensures Missing(rows) == |set i | 0 <= i < |rows| && rows[i].Placeholder?|
  {
    var places := set i | 0 <= i < |rows| && rows[i].Placeholder?;
    if rows != [] {
      var n := |rows| - 1;
      MissingCounts(rows[..n]);
      var before := set i | 0 <= i < |rows[..n]| && rows[..n][i].Placeholder?;
      assert places == if rows[n].Placeholder? then before + {n} else before;
    }
  }

  /** The rows of each file stand together, after those of the files before it. */
  lemma {:induction false} RowsInFileOrder(files: seq<seq<Row>>, f: nat)
    requires f < |files|
    ensures AllRows(files[..f]) + files[f] <= AllRows(files)
  {
    var n := |files| - 1;
    if f < n {
      RowsInFileOrder(files[..n], f);
      assert files[..n][..f] == files[..f];
    }
  }

  predicate HasDecks(rows: seq<Row>) {
    forall i :: 0 <= i < |rows| ==> rows[i].Paired?
  }

  /** Insertion behind every row that did not arrive later. */
  function Insert(rows: seq<Row>, row: Row): seq<Row>
    requires HasDecks(rows) && row.Paired?
  {
    if rows == [] || rows[|rows| - 1].rec.tIn <= row.rec.tIn then rows + [row]
    else Insert(rows[..|rows| - 1], row) + [rows[|rows| - 1]]
  }

  /** The rows by time of arrival, ties in their original order. */
  function Sorted(rows: seq<Row>): (sorted: seq<Row>)
    requires HasDecks(rows)
    ensures HasDecks(sorted) && |sorted| == |rows|
  {
    if rows == [] then []
    else
      InsertHasDecks(Sorted(rows[..|rows| - 1]), rows[|rows| - 1]);
      Insert(Sorted(rows[..|rows| - 1]), rows[|rows| - 1])
  }

  lemma {:induction false} InsertHasDecks(rows: seq<Row>, row: Row)
    requires HasDecks(rows) && row.Paired?
    ensures HasDecks(Insert(rows, row)) && |Insert(rows, row)| == |rows| + 1
  {
    if rows != [] && rows[|rows| - 1].rec.tIn > row.rec.tIn { InsertHasDecks(rows[..|rows| - 1], row); }
  }

  method LoadStream(files: seq<seq<Row>>) returns (r: Result<seq<Entry>, Refusal>)
    ensures r.Err? && r.error.NoRows? <==> AllRows(files) == []
    ensures r.Err? && r.error.MissingDecks? <==> AllRows(files) != [] && !HasDecks(AllRows(files))
    ensures r.Err? && r.error.MissingDecks? ==> r.error == MissingDecks(Missing(AllRows(files)), |AllRows(files)|)
    ensures r.Ok? ==> |r.value| == |AllRows(files)| && HasDecks(AllRows(files))
    ensures r.Ok? ==> forall i :: 0 <= i < |r.value| ==>
              var sorted := Sorted(AllRows(files));
              r.value[i] == Entry(sorted[i], sorted[i].rec.tIn - sorted[0].rec.tIn)
  {
    var rows: seq<Row> := [];
    var f := 0;
    while f < |files|
      invariant 0 <= f <= |files| && rows == AllRows(files[..f])
    {
      assert files[..f + 1][..f] == files[..f];
      rows := rows + files[f];
      f := f + 1;
    }
    assert files[..f] == files;
    if rows == [] { return Err(NoRows); }
    var missing := Missing(rows);
    if missing > 0 { return Err(MissingDecks(missing, |rows|)); }
    var sorted := Sorted(rows);
    var t0 := sorted[0].rec.tIn;
    var entries: seq<Entry> := [];
    var i := 0;
    while i < |sorted|
      invariant 0 <= i == |entries| <= |sorted|
      invariant forall j :: 0 <= j < i ==> entries[j] == Entry(sorted[j], sorted[j].rec.tIn - t0)
    {
      entries := entries + [Entry(sorted[i], sorted[i].rec.tIn - t0)];
      i := i + 1;
    }
    r := Ok(entries);
  }

  // ---------------------------------------------------------------- the order of the stream

  predicate Ascending(rows: seq<Row>)
    requires HasDecks(rows)
  {
    forall i, j :: 0 <= i < j < |rows| ==> rows[i].rec.tIn <= rows[j].rec.tIn
  }

  /** The rows that arrived at a time, in order. */
  function At(rows: seq<Row>, t: int): seq<Row>
    requires HasDecks(rows)
  {
    if rows == [] then []
    else
      var before, last := At(rows[..|rows| - 1], t), rows[|rows| - 1];
      if last.rec.tIn == t then before + [last] else before
  }

  lemma AtStep(rows: seq<Row>, row: Row, t: int)
    requires HasDecks(rows) && row.Paired?
    ensures At(rows + [row], t) == if row.rec.tIn == t then At(rows, t) + [row] else At(rows, t)
  {
    assert (rows + [row])[..|rows|] == rows;
  }

  lemma {:induction false} AtLater(rows: seq<Row>, t: int)
    requires HasDecks(rows) && forall i :: 0 <= i < |rows| ==> rows[i].rec.tIn != t
    ensures At(rows, t) == []
  {
    if rows != [] { AtLater(rows[..|rows| - 1], t); }
  }

  lemma {:induction false} InsertSame(rows: seq<Row>, row: Row)
    requires HasDecks(rows) && row.Paired?
    ensures multiset(Insert(rows, row)) == multiset(rows) + multiset{row}
  {
    if rows != [] && rows[|rows| - 1].rec.tIn > row.rec.tIn {
      var before, last := rows[..|rows| - 1], rows[|rows| - 1];
      InsertSame(before, row);
      assert rows == before + [last];
    }
  }

  lemma {:induction false} InsertBelow(rows: seq<Row>, row: Row, t: int)
    requires HasDecks(rows) && row.Paired? && row.rec.tIn <= t
    requires forall i :: 0 <= i < |rows| ==> rows[i].rec.tIn <= t
    ensures HasDecks(Insert(rows, row))
    ensures forall i :: 0 <= i < |Insert(rows, row)| ==> Insert(rows, row)[i].rec.tIn <= t
  {
    InsertHasDecks(rows, row);
    if rows != [] && rows[|rows| - 1].rec.tIn > row.rec.tIn {
      InsertHasDecks(rows[..|rows| - 1], row);
      InsertBelow(rows[..|rows| - 1], row, t);
    }
  }

  lemma {:induction false} InsertAscending(rows: seq<Row>, row: Row)
    requires HasDecks(rows) && row.Paired? && Ascending(rows)
    ensures HasDecks(Insert(rows, row)) && Ascending(Insert(rows, row))
  {
    InsertHasDecks(rows, row);
    if rows != [] && rows[|rows| - 1].rec.tIn > row.rec.tIn {
      var before, last := rows[..|rows| - 1], rows[|rows| - 1];
      InsertHasDecks(before, row);
      InsertAscending(before, row);
      InsertBelow(before, row, last.rec.tIn);
    }
  }

  lemma {:induction false} InsertStable(rows: seq<Row>, row: Row, t: int)
    requires HasDecks(rows) && row.Paired?
    ensures HasDecks(Insert(rows, row)) && At(Insert(rows, row), t) == At(rows + [row], t)
  {
    InsertHasDecks(rows, row);
    AtStep(rows, row, t);
    if rows != [] && rows[|rows| - 1].rec.tIn > row.rec.tIn {
      var before, last := rows[..|rows| - 1], rows[|rows| - 1];
      InsertHasDecks(before, row);
      InsertStable(before, row, t);
      AtStep(Insert(before, row), last, t);
      AtStep(before, row, t);
    }
  }

  /** The stream is a stable sort of the rows by time of arrival. */
  lemma {:induction false} StableSort(rows: seq<Row>, t: int)
    requires HasDecks(rows)
    ensures Ascending(Sorted(rows))
    ensures multiset(Sorted(rows)) == multiset(rows)
    ensures At(Sorted(rows), t) == At(rows, t)
  {
    hide Insert, At, Ascending;
    if rows == [] {
      NothingAscends();
    } else {
      var before, last := rows[..|rows| - 1], rows[|rows| - 1];
      StableSort(before, t);
      InsertAscending(Sorted(before), last);
      InsertSame(Sorted(before), last);
      InsertStable(Sorted(before), last, t);
      assert rows == before + [last];
      AtStep(Sorted(before), last, t);
      AtStep(before, last, t);
    }
  }

  lemma NothingAscends()
    ensures Ascending([])
  {
  }

  lemma {:induction false} SortedWhenAscending(rows: seq<Row>)
    requires HasDecks(rows) && Ascending(rows)
    ensures Sorted(rows) == rows
  {
    hide Insert;
    if rows != [] {
      var before, last := rows[..|rows| - 1], rows[|rows| - 1];
      assert rows == before + [last];
      AscendingPrefix(before, last);
      hide Ascending, HasDecks;
      SortedWhenAscending(before);
      InsertLast(before, last);
    }
  }

  lemma AscendingPrefix(before: seq<Row>, last: Row)
    requires HasDecks(before + [last]) && Ascending(before + [last])
    ensures HasDecks(before) && last.Paired? && Ascending(before)
    ensures before != [] ==> before[|before| - 1].rec.tIn <= last.rec.tIn
  {
    var rows := before + [last];
    assert rows[|before|] == last;
    assert forall i :: 0 <= i < |before| ==> rows[i] == before[i];
    if before != [] { assert rows[|before| - 1].rec.tIn <= rows[|before|].rec.tIn; }
  }

  lemma InsertLast(rows: seq<Row>, row: Row)
    requires HasDecks(rows) && row.Paired? && (rows != [] ==> rows[|rows| - 1].rec.tIn <= row.rec.tIn)
    ensures Insert(rows, row) == rows + [row]
  {
  }

  // ---------------------------------------------------------------- accepted captures

  /** The log a shim session on this input may leave. */
  ghost predicate FromSession(input: seq<string>, log: seq<Row>) {
    exists run: seq<State> :: IsRun(input, run) && run[|run| - 1].log == log
  }

  lemma SessionRun(input: seq<string>, log: seq<Row>) returns (run: seq<State>)
    requires FromSession(input, log)
    ensures IsRun(input, run) && run != [] && run[|run| - 1].log == log
  {
    run :| IsRun(input, run) && run[|run| - 1].log == log;
  }

  lemma {:induction false} RowsOfFile(files: seq<seq<Row>>, f: nat, i: nat)
    requires f < |files| && i < |files[f]|
    ensures files[f][i] in AllRows(files)
  {
    if f < |files| - 1 { RowsOfFile(files[..|files| - 1], f, i); }
  }

  /** In an accepted capture no session lost step: row i of each session carries its i-th deck, and its
      finish time belongs to that deck if the engine answered every NX up to it, and only then. */
  lemma AcceptedRowsOwnTheirDecks(files: seq<seq<Row>>, inputs: seq<seq<string>>, f: nat, i: nat)
    requires |inputs| == |files| && forall g :: 0 <= g < |files| ==> FromSession(inputs[g], files[g])
    requires HasDecks(AllRows(files))
    requires f < |files| && i < |files[f]|
    ensures files[f][i].Paired? && IsDeck(files[f][i].rec, i, inputs[f]) && files[f][i].rec.tIn <= files[f][i].tOut
    ensures files[f][i].owner == i <==> forall k :: 0 <= k <= i ==> files[f][k].owner == k
  {
    hide HasDecks, IsDeck, IsRun;
    var log := files[f];
    var run := SessionRun(inputs[f], log);
    PairingInEveryRun(inputs[f], run);
    assert FirstGap(log) == |log| by {
      var j := FirstGap(log);
      if j < |log| {
        RowsOfFile(files, f, j);
        assert HasDecks(AllRows(files)) && log[j] in AllRows(files);
        DeckOf(AllRows(files), log[j]);
      }
    }
    hide FirstGap;
    RowIsItsOwnDeck(inputs[f], run, i);
    assert files[f][i].rec.seqNo == i by { DeckNumber(files[f][i].rec, i, inputs[f]); }
  }

  /** An accepted capture can carry a deck whose finish time is another deck's: the loader cannot see that the
      engine skipped an answer. */
  lemma AcceptedWithForeignTime() returns (input: seq<string>, log: seq<Row>)
    ensures FromSession(input, log) && log != [] && HasDecks(AllRows([log]))
    ensures log[0].Paired? && log[0].rec.seqNo == 0 && log[0].owner == 1
  {
    var run;
    input, run := SkippedAnswerHappens();
    log := run[|run| - 1].log;
    assert AllRows([log]) == log by { assert [log][..0] == []; }
  }

  lemma DeckOf(rows: seq<Row>, row: Row)
    requires HasDecks(rows) && row in rows
    ensures row.Paired?
  {
  }

  lemma DeckNumber(rec: Record, i: nat, input: seq<string>)
    requires IsDeck(rec, i, input)
    ensures rec.seqNo == i
  {
  }

  lemma {:induction false} RecordsOfPaired(log: seq<Row>)
    requires HasDecks(log)
    ensures |RecordsOf(log)| == |log| && forall i :: 0 <= i < |log| ==> RecordsOf(log)[i] == log[i].rec
  {
    if log != [] {
      assert HasDecks(log[..|log| - 1]);
      RecordsOfPaired(log[..|log| - 1]);
    }
  }

  /** A single accepted session is replayed in the order in which its decks were sent. */
  lemma OneSessionKeepsItsOrder(log: seq<Row>, input: seq<string>)
    requires FromSession(input, log) && HasDecks(log)
    ensures Sorted(log) == log && forall i :: 0 <= i < |log| ==> IsDeck(log[i].rec, i, input)
  {
    var run := SessionRun(input, log);
    PairingInEveryRun(input, run);
    RunIsChronological(input, run);
    hide IsRun, RecordsOf, IsDeck, HasDecks, Chronological, Ascending, FirstGap;
    AscendingLog(log, run[|run| - 1].pending);
    SortedWhenAscending(log);
    NoGap(log);
  }

  lemma NoGap(log: seq<Row>)
    requires HasDecks(log)
    ensures FirstGap(log) == |log|
  {
  }

  lemma AscendingLog(log: seq<Row>, pending: seq<Record>)
    requires HasDecks(log) && Chronological(RecordsOf(log) + pending)
    ensures Ascending(log)
  {
    RecordsOfPaired(log);
    hide RecordsOf;
    var all := RecordsOf(log) + pending;
    assert forall i :: 0 <= i < |log| ==> all[i] == log[i].rec;
  }

  lemma RunIsChronological(input: seq<string>, run: seq<State>)
    requires IsRun(input, run)
    ensures Chronological(RecordsOf(run[|run| - 1].log) + run[|run| - 1].pending)
  {
    RunKeepsInv(input, run);
    hide PumpOk, QueueOk, LogOk, ChildOk;
  }
}
