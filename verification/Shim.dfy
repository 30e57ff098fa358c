/** The timing shim between the front end and a portal: pump, child and reader, interleaved. */
module Shim {
  import opened Cards
  import opened DeckUnits
  import opened Sequences

  // The pump writes each input line to the child and, at an NX card, enqueues the unit's record only after the
  // line has been delivered.  The reader takes the child's output line by line and pairs each sentinel with the
  // oldest pending record, or with a placeholder when there is none.  Of the child only this is assumed: it
  // answers each delivered NX at most once, in order.

  datatype Phase =
    | Reading    // about to take the next input line
    | Delivered  // an NX line is with the child, its record is not yet enqueued
    | Stopped    // end of input, or a write or flush raised

  datatype Record = Record(seqNo: nat, tIn: int, fr: string, geom: seq<string>, cards: nat, deck: string)

  /** What the child prints: the sentinel answering its `owner`-th NX, or any other line. */
  datatype Output = Sentinel(owner: nat) | Text(line: string)

  /** A logged row: the record a sentinel was paired with, or a placeholder. */
  datatype Row = Paired(rec: Record, owner: nat, tOut: int) | Placeholder(owner: nat, tOut: int)

  datatype State = State(
    now: int,
    fed: seq<string>,      // the lines the child has been given
    seqNo: nat, unit: seq<string>, geom: seq<string>, fr: string, phase: Phase,
    emitted: seq<Output>,  // the lines the child has printed
    taken: nat,            // how many of them the reader has forwarded
    pending: seq<Record>,
    log: seq<Row>)

  // ---------------------------------------------------------------- the per-line work of the pump

  const GEOM_PREFIXES: seq<string> := ["GW", "GM", "GS", "GE", "GN", "GD", "LD", "IS", "EK"]

  function NextGeom(geom: seq<string>, line: string): seq<string> {
    if CardOf(line) in GEOM_PREFIXES then geom + [Strip(line)] else geom
  }

  function NextFr(fr: string, line: string): string {
    if CardOf(line) !in GEOM_PREFIXES && CardOf(line) == "FR" then Strip(line) else fr
  }

  /** The geometry cards of a unit, in order. */
  function GeomOf(unit: seq<string>): seq<string> {
    if unit == [] then [] else NextGeom(GeomOf(unit[..|unit| - 1]), unit[|unit| - 1])
  }

  /** The last FR card of a unit, or "". */
  function FrOf(unit: seq<string>): string {
    if unit == [] then "" else NextFr(FrOf(unit[..|unit| - 1]), unit[|unit| - 1])
  }

  // ---------------------------------------------------------------- the steps

  const INITIAL := State(0, [], 0, [], [], "", Reading, [], 0, [], [])

  predicate CanWrite(input: seq<string>, s: State) {
    s.phase == Reading && |s.fed| < |input|
  }

  function WriteLine(input: seq<string>, s: State): State
    requires CanWrite(input, s)
  {
    var line := input[|s.fed|];
    s.(fed := s.fed + [line], unit := s.unit + [line], geom := NextGeom(s.geom, line), fr := NextFr(s.fr, line),
       phase := if IsNX(line) then Delivered else Reading)
  }

  function Enqueue(s: State): State
    requires s.phase == Delivered
  {
    var rec := Record(s.seqNo, s.now, s.fr, s.geom, |s.geom|, Concat(s.unit));
    s.(pending := s.pending + [rec], seqNo := s.seqNo + 1, unit := [], geom := [], fr := "", phase := Reading)
  }

  function Stop(s: State): State { s.(phase := Stopped) }

  function OwnersOf(out: seq<Output>): seq<nat> {
    if out == [] then []
    else
      var before := OwnersOf(out[..|out| - 1]);
      if out[|out| - 1].Sentinel? then before + [out[|out| - 1].owner] else before
  }

  /** The engine assumption: the next sentinel answers a delivered NX later than any answered before. */
  predicate CanEmit(s: State, out: Output) {
    out.Sentinel? ==>
      && out.owner < |Units(s.fed)|
      && (OwnersOf(s.emitted) != [] ==> OwnersOf(s.emitted)[|OwnersOf(s.emitted)| - 1] < out.owner)
  }

  function Emit(s: State, out: Output): State { s.(emitted := s.emitted + [out]) }

  predicate CanTake(s: State) { s.taken < |s.emitted| }

  function Take(s: State): State
    requires CanTake(s)
  {
    var out := s.emitted[s.taken];
    if out.Text? then s.(taken := s.taken + 1)
    else if s.pending == [] then s.(taken := s.taken + 1, log := s.log + [Placeholder(out.owner, s.now)])
    else s.(taken := s.taken + 1, pending := s.pending[1..], log := s.log + [Paired(s.pending[0], out.owner, s.now)])
  }

  ghost predicate Next(input: seq<string>, s: State, s': State) {
    || (CanWrite(input, s) && s' == WriteLine(input, s))
    || (s.phase == Delivered && s' == Enqueue(s))
    || s' == Stop(s)
    || (exists out :: CanEmit(s, out) && s' == Emit(s, out))
    || (CanTake(s) && s' == Take(s))
    || (exists later :: later >= s.now && s' == s.(now := later))
  }

  ghost predicate IsRun(input: seq<string>, run: seq<State>) {
    run != [] && run[0] == INITIAL && forall i :: 0 < i < |run| ==> Next(input, run[i - 1], run[i])
  }

  // ---------------------------------------------------------------- the invariant

  /** The index of the first placeholder, or the length of the log. */
  function FirstGap(log: seq<Row>): (j: nat)
    ensures j <= |log| && (j < |log| ==> log[j].Placeholder?)
    ensures forall i :: 0 <= i < j ==> log[i].Paired?
  {
    if log == [] then 0
    else
      var j := FirstGap(log[..|log| - 1]);
      if j < |log| - 1 || log[|log| - 1].Placeholder? then j else |log|
  }

  /** Rows before the first placeholder carry their own record, rows after it the one before. */
  predicate Aligned(log: seq<Row>) {
    var j := FirstGap(log);
    && (forall i :: 0 <= i < j ==> log[i].rec.seqNo == i)
    && (forall i :: j < i < |log| ==> log[i].Paired? && log[i].rec.seqNo == i - 1)
  }

  function Popped(log: seq<Row>): nat {
    if FirstGap(log) < |log| then |log| - 1 else |log|
  }

  /** A record describes the unit of its number. */
  predicate Describes(rec: Record, units: seq<seq<string>>) {
    && rec.seqNo < |units|
    && rec.deck == Concat(units[rec.seqNo])
    && rec.geom == GeomOf(units[rec.seqNo]) && rec.cards == |rec.geom|
    && rec.fr == FrOf(units[rec.seqNo])
  }

  predicate PumpOk(s: State) {
    var units := Units(s.fed);
    match s.phase
    case Reading => |units| == s.seqNo && s.unit == Rest(s.fed) && s.geom == GeomOf(s.unit) && s.fr == FrOf(s.unit)
    case Delivered =>
      |units| == s.seqNo + 1 && s.unit == units[s.seqNo] && Rest(s.fed) == [] && s.geom == GeomOf(s.unit) && s.fr
          == FrOf(s.unit)
    case Stopped => s.seqNo <= |units| <= s.seqNo + 1
  }

  predicate QueueOk(s: State) {
    && s.seqNo == Popped(s.log) + |s.pending|
    && (forall i :: 0 <= i < |s.pending| ==>
          && s.pending[i].seqNo == Popped(s.log) + i
          && Describes(s.pending[i], Units(s.fed))
          && s.pending[i].tIn <= s.now)
  }

  predicate LogOk(s: State) {
    && Aligned(s.log)
    && (forall i :: 0 <= i < |s.log| && s.log[i].Paired? ==>
          Describes(s.log[i].rec, Units(s.fed)) && s.log[i].rec.tIn <= s.log[i].tOut)
    && (forall i :: 0 <= i < |s.log| ==> s.log[i].tOut <= s.now)
  }

  /** The records of the paired rows. */
  function RecordsOf(log: seq<Row>): seq<Record> {
    if log == [] then []
    else
      var before := RecordsOf(log[..|log| - 1]);
      if log[|log| - 1].Paired? then before + [log[|log| - 1].rec] else before
  }

  predicate Chronological(records: seq<Record>) {
    forall i, j :: 0 <= i < j < |records| ==> records[i].tIn <= records[j].tIn
  }

  /** All records ever enqueued, oldest first, carry ascending times of arrival. */
  predicate ClockOk(s: State) {
    var all := RecordsOf(s.log) + s.pending;
    Chronological(all) && forall i :: 0 <= i < |all| ==> all[i].tIn <= s.now
  }

  predicate ChildOk(s: State) {
    var owners := OwnersOf(s.emitted);
    && Increasing(owners)
    && (forall i :: 0 <= i < |owners| ==> owners[i] < |Units(s.fed)|)
    && s.taken <= |s.emitted|
    && |OwnersOf(s.emitted[..s.taken])| == |s.log|
    && (forall i :: 0 <= i < |s.log| ==> s.log[i].owner == OwnersOf(s.emitted[..s.taken])[i])
  }

  ghost predicate Inv(input: seq<string>, s: State) {
    s.fed <= input && PumpOk(s) && QueueOk(s) && LogOk(s) && ClockOk(s) && ChildOk(s)
  }

  // ---------------------------------------------------------------- facts the steps need

  lemma UnitStep(unit: seq<string>, line: string)
    ensures GeomOf(unit + [line]) == NextGeom(GeomOf(unit), line) && FrOf(unit + [line]) == NextFr(FrOf(unit), line)
  {
    hide NextGeom, NextFr;
    assert (unit + [line])[..|unit|] == unit;
  }

  lemma OwnersStep(out: seq<Output>, last: Output)
    ensures OwnersOf(out + [last]) == if last.Sentinel? then OwnersOf(out) + [last.owner] else OwnersOf(out)
  {
    assert (out + [last])[..|out|] == out;
  }

  lemma {:induction false} OwnersPrefix(out: seq<Output>, k: nat)
    requires k <= |out|
    ensures OwnersOf(out[..k]) <= OwnersOf(out)
  {
    if k < |out| {
      OwnersPrefix(out[..|out| - 1], k);
      assert out[..|out| - 1][..k] == out[..k];
    } else {
      assert out[..k] == out;
    }
  }

  lemma LogStep(log: seq<Row>, row: Row)
    ensures FirstGap(log + [row]) == if FirstGap(log) < |log| || row.Placeholder? then FirstGap(log) else |log| + 1
  {
    assert (log + [row])[..|log|] == log;
  }

  lemma DescribesMore(rec: Record, units: seq<seq<string>>, more: seq<seq<string>>)
    requires Describes(rec, units) && units <= more
    ensures Describes(rec, more)
  {
    assert more[rec.seqNo] == units[rec.seqNo];
  }

  // ---------------------------------------------------------------- every step keeps it

  lemma SameRecords(s: State, s': State)
    requires ClockOk(s) && s.now <= s'.now && RecordsOf(s.log) + s.pending == RecordsOf(s'.log) + s'.pending
    ensures ClockOk(s')
  {
    hide RecordsOf;
  }

  lemma RecordsStep(log: seq<Row>, row: Row)
    ensures RecordsOf(log + [row]) == if row.Paired? then RecordsOf(log) + [row.rec] else RecordsOf(log)
  {
    assert (log + [row])[..|log|] == log;
  }

  lemma WriteKeeps(input: seq<string>, s: State)
    requires Inv(input, s) && CanWrite(input, s)
    ensures Inv(input, WriteLine(input, s))
  {
    hide IsNX, NextGeom, NextFr, GeomOf, FrOf, Describes, Units, Rest, OwnersOf, FirstGap, Aligned;
    var line, s' := input[|s.fed|], WriteLine(input, s);
    NextLine(s.fed, line);
    UnitStep(s.unit, line);
    SameRecords(s, s');
    hide ClockOk;
    assert s'.fed <= input;
    assert Units(s.fed) <= Units(s'.fed);
    forall rec | Describes(rec, Units(s.fed)) ensures Describes(rec, Units(s'.fed)) {
      DescribesMore(rec, Units(s.fed), Units(s'.fed));
    }
  }

  lemma EnqueueKeeps(input: seq<string>, s: State)
    requires Inv(input, s) && s.phase == Delivered
    ensures Inv(input, Enqueue(s))
  {
    assert GeomOf([]) == [] && FrOf([]) == "";
    hide GeomOf, FrOf, Units, Rest, OwnersOf, FirstGap, Aligned, Concat;
    assert ClockOk(Enqueue(s)) by { EnqueueKeepsClock(s); }
    hide ClockOk;
  }

  lemma EnqueueKeepsClock(s: State)
    requires ClockOk(s) && s.phase == Delivered
    ensures ClockOk(Enqueue(s))
  {
    hide RecordsOf, Concat;
    var all, rec := RecordsOf(s.log) + s.pending, Enqueue(s).pending[|s.pending|];
    assert RecordsOf(s.log) + Enqueue(s).pending == all + [rec];
  }

  lemma LogPaired(log: seq<Row>, row: Row)
    requires Aligned(log) && row.Paired? && row.rec.seqNo == Popped(log)
    ensures Aligned(log + [row]) && Popped(log + [row]) == Popped(log) + 1
  {
    LogStep(log, row);
    hide FirstGap;
  }

  lemma LogPlaceholder(log: seq<Row>, row: Row)
    requires Aligned(log) && row.Placeholder? && Popped(log) == |log|
    ensures Aligned(log + [row]) && Popped(log + [row]) == Popped(log)
  {
    LogStep(log, row);
    hide FirstGap;
  }

  lemma TakeKeeps(input: seq<string>, s: State)
    requires Inv(input, s) && CanTake(s)
    ensures Inv(input, Take(s))
  {
    var s' := Take(s);
    TakeKeepsChild(s);
    PumpUnchanged(s, s');
    TakeKeepsClock(s);
    hide ClockOk, ChildOk, PumpOk, QueueOk, LogOk;
    if s.emitted[s.taken].Sentinel? {
      if s.pending == [] {
        EmptyQueue(input, s);
        TakePlaceholder(s);
      } else {
        TakePaired(s);
      }
    } else {
      TakeText(s);
    }
  }

  lemma TakeKeepsClock(s: State)
    requires ClockOk(s) && CanTake(s)
    ensures ClockOk(Take(s))
  {
    var s' := Take(s);
    if s.emitted[s.taken].Sentinel? { RecordsStep(s.log, s'.log[|s.log|]); }
    hide RecordsOf;
    if s.emitted[s.taken].Sentinel? && s.pending != [] {
      assert RecordsOf(s.log) + s.pending == RecordsOf(s.log) + [s.pending[0]] + s.pending[1..];
    }
    SameRecords(s, s');
  }

  lemma TakeText(s: State)
    requires QueueOk(s) && LogOk(s) && CanTake(s) && s.emitted[s.taken].Text?
    ensures QueueOk(Take(s)) && LogOk(Take(s))
  {
    hide Describes, Units, Aligned, Popped;
  }

  lemma TakePlaceholder(s: State)
    requires QueueOk(s) && LogOk(s) && CanTake(s) && s.emitted[s.taken].Sentinel? && s.pending == []
    requires Popped(s.log) == |s.log|
    ensures QueueOk(Take(s)) && LogOk(Take(s))
  {
    hide Describes, Units, Aligned, Popped;
    LogPlaceholder(s.log, Placeholder(s.emitted[s.taken].owner, s.now));
  }

  lemma TakePaired(s: State)
    requires QueueOk(s) && LogOk(s) && CanTake(s) && s.emitted[s.taken].Sentinel? && s.pending != []
    ensures QueueOk(Take(s)) && LogOk(Take(s))
  {
    hide Describes, Units, Aligned, Popped;
    LogPaired(s.log, Paired(s.pending[0], s.emitted[s.taken].owner, s.now));
    assert forall i :: 0 <= i < |s.pending| - 1 ==> Take(s).pending[i] == s.pending[i + 1];
  }

  lemma TakeKeepsChild(s: State)
    requires ChildOk(s) && CanTake(s)
    ensures ChildOk(Take(s))
  {
    hide Units;
    var out, s' := s.emitted[s.taken], Take(s);
    assert s'.emitted[..s'.taken] == s.emitted[..s.taken] + [out];
    OwnersStep(s.emitted[..s.taken], out);
    hide OwnersOf;
  }

  lemma PumpUnchanged(s: State, s': State)
    requires PumpOk(s) && s' == s.(taken := s'.taken, pending := s'.pending, log := s'.log)
    ensures PumpOk(s')
  {
    hide Units, Rest, GeomOf, FrOf;
  }

  /** A sentinel that finds no pending record is the first to do so. */
  lemma EmptyQueue(input: seq<string>, s: State)
    requires Inv(input, s) && CanTake(s) && s.emitted[s.taken].Sentinel? && s.pending == []
    ensures Popped(s.log) == |s.log| && s.phase != Reading
  {
    hide Describes, Units, Rest, GeomOf, FrOf, FirstGap, Aligned;
    assert s.emitted[..s.taken] + [s.emitted[s.taken]] == s.emitted[..s.taken + 1];
    OwnersStep(s.emitted[..s.taken], s.emitted[s.taken]);
    OwnersPrefix(s.emitted, s.taken + 1);
    hide OwnersOf;
    RunsAhead(OwnersOf(s.emitted), 0, |s.log|);
  }

  lemma EmitKeeps(input: seq<string>, s: State, out: Output)
    requires Inv(input, s) && CanEmit(s, out)
    ensures Inv(input, Emit(s, out))
  {
    hide Describes, Units, Rest, GeomOf, FrOf, FirstGap, Aligned;
    OwnersStep(s.emitted, out);
    hide OwnersOf;
    SameRecords(s, Emit(s, out));
    hide ClockOk;
    assert Emit(s, out).emitted[..s.taken] == s.emitted[..s.taken];
  }

  lemma {:induction false} RunKeepsInv(input: seq<string>, run: seq<State>)
    requires IsRun(input, run)
    ensures Inv(input, run[|run| - 1])
  {
    hide Inv, Next;
    var n := |run| - 1;
    if n == 0 {
      InitialOk(input);
    } else {
      assert IsRun(input, run[..n]);
      RunKeepsInv(input, run[..n]);
      NextKeeps(input, run[n - 1], run[n]);
    }
  }

  lemma InitialOk(input: seq<string>)
    ensures Inv(input, INITIAL)
  {
  }

  lemma NextKeeps(input: seq<string>, s: State, s': State)
    requires Inv(input, s) && Next(input, s, s')
    ensures Inv(input, s')
  {
    hide Inv, WriteLine, Enqueue, Take, Emit;
    if CanWrite(input, s) && s' == WriteLine(input, s) {
      WriteKeeps(input, s);
    } else if s.phase == Delivered && s' == Enqueue(s) {
      EnqueueKeeps(input, s);
    } else if s' == Stop(s) {
      StopKeeps(input, s);
    } else if CanTake(s) && s' == Take(s) {
      TakeKeeps(input, s);
    } else if out :| CanEmit(s, out) && s' == Emit(s, out) {
      EmitKeeps(input, s, out);
    } else {
      TickKeeps(input, s, s'.now);
    }
  }

  lemma StopKeeps(input: seq<string>, s: State)
    requires Inv(input, s)
    ensures Inv(input, Stop(s))
  {
    hide Describes, Units, Rest, GeomOf, FrOf, FirstGap, Aligned, OwnersOf;
    SameRecords(s, Stop(s));
    hide ClockOk;
  }

  lemma TickKeeps(input: seq<string>, s: State, later: int)
    requires Inv(input, s) && later >= s.now
    ensures Inv(input, s.(now := later))
  {
    hide Describes, Units, Rest, GeomOf, FrOf, FirstGap, Aligned, OwnersOf;
    SameRecords(s, s.(now := later));
    hide ClockOk;
  }

  // ---------------------------------------------------------------- what every log looks like

  /** In every run at most one placeholder is logged.  Before it the m-th sentinel is paired with the m-th deck;
      after it every pairing lags by exactly one. */
  lemma PairingInEveryRun(input: seq<string>, run: seq<State>)
    requires IsRun(input, run)
    ensures var log := run[|run| - 1].log;
            var j := FirstGap(log);
            && |log| <= |Units(input)|
            && (forall i :: 0 <= i < j ==> log[i].Paired? && IsDeck(log[i].rec, i, input))
            && (forall i :: j < i < |log| ==> log[i].Paired? && IsDeck(log[i].rec, i - 1, input))
            && (forall i :: 0 <= i < |log| && log[i].Paired? ==> log[i].rec.tIn <= log[i].tOut)
  {
    var s := run[|run| - 1];
    RunKeepsInv(input, run);
    UnitsPrefix(input, |s.fed|);
    assert input[..|s.fed|] == s.fed;
    LogWithinUnits(input, s);
    hide Units, Describes, FirstGap;
    forall i | 0 <= i < |s.log| && s.log[i].Paired? ensures Describes(s.log[i].rec, Units(input)) {
      DescribesMore(s.log[i].rec, Units(s.fed), Units(input));
    }
  }

  /** The record of the i-th deck of the input: its text, its geometry cards and its last FR card. */
  predicate IsDeck(rec: Record, i: nat, input: seq<string>) {
    rec.seqNo == i && Describes(rec, Units(input))
  }

  lemma LogWithinUnits(input: seq<string>, s: State)
    requires Inv(input, s)
    ensures |s.log| <= |Units(s.fed)|
  {
    hide Units, Rest, GeomOf, FrOf, FirstGap, Aligned, Describes;
    OwnersPrefix(s.emitted, s.taken);
    hide OwnersOf;
    if s.log != [] { RunsAhead(OwnersOf(s.emitted), 0, |s.log| - 1); }
  }

  lemma {:induction false} UnitsPrefix(lines: seq<string>, k: nat)
    requires k <= |lines|
    ensures Units(lines[..k]) <= Units(lines)
  {
    hide IsNX;
    if k < |lines| {
      UnitsPrefix(lines[..|lines| - 1], k);
      assert lines[..|lines| - 1][..k] == lines[..k];
    } else {
      assert lines[..k] == lines;
    }
  }

  /** A row's record is the deck its sentinel answered exactly when no placeholder came before it and the
      child has answered every NX up to it. */
  lemma RowIsItsOwnDeck(input: seq<string>, run: seq<State>, i: nat)
    requires IsRun(input, run) && i < |run[|run| - 1].log| && run[|run| - 1].log[i].Paired?
    ensures var log := run[|run| - 1].log;
            log[i].rec.seqNo == log[i].owner <==> i < FirstGap(log) && forall k :: 0 <= k <= i ==> log[k].owner == k
  {
    var s := run[|run| - 1];
    RunKeepsInv(input, run);
    hide Units, Rest, GeomOf, FrOf, FirstGap, Describes, PumpOk, QueueOk;
    OwnersPrefix(s.emitted, s.taken);
    hide OwnersOf;
    var owners := OwnersOf(s.emitted);
    forall k | 0 <= k <= i ensures s.log[k].owner == owners[k] >= k {
      RunsAhead(owners, 0, k);
    }
    if i < FirstGap(s.log) && owners[i] == i {
      forall k | 0 <= k <= i ensures owners[k] == k { StillTight(owners, i, k); }
    }
  }

  // ---------------------------------------------------------------- the clock readings

  /** From `s` to `s'` the reader forwards a sentinel, the one answering `owner`, and logs row `i`. */
  predicate LogsRow(s: State, s': State, i: nat, owner: nat) {
    && s.taken < |s.emitted| && s.emitted[s.taken] == Sentinel(owner) && s'.taken == s.taken + 1
    && |s.log| == i && |s'.log| == i + 1
  }

  /** From `s` to `s'` the pump enqueues the record numbered `n`. */
  predicate StoresRecord(s: State, s': State, n: nat) {
    && s.phase == Delivered && s'.phase == Reading
    && s.seqNo == n && s'.seqNo == n + 1 && |s'.pending| == |s.pending| + 1
  }

  predicate LoggedAt(run: seq<State>, p: nat, i: nat, row: Row) {
    p + 1 < |run| && LogsRow(run[p], run[p + 1], i, row.owner) && row.tOut == run[p].now
  }

  predicate StoredAt(run: seq<State>, q: nat, rec: Record) {
    q + 1 < |run| && StoresRecord(run[q], run[q + 1], rec.seqNo) && rec.tIn == run[q].now
  }

  /** Row `i` was logged at some step, its record stored at an earlier one. */
  ghost predicate RowTimed(run: seq<State>, i: nat, row: Row) {
    exists p: nat :: LoggedAt(run, p, i, row)
                && (row.Paired? ==> exists q: nat :: q < p && StoredAt(run, q, row.rec))
  }

  ghost predicate RecordTimed(run: seq<State>, rec: Record) {
    exists q: nat :: StoredAt(run, q, rec)
  }

  ghost predicate AllTimed(run: seq<State>)
    requires run != []
  {
    var s := run[|run| - 1];
    && (forall i :: 0 <= i < |s.log| ==> RowTimed(run, i, s.log[i]))
    && (forall i :: 0 <= i < |s.pending| ==> RecordTimed(run, s.pending[i]))
  }

  lemma RowTimedLater(run: seq<State>, s: State, i: nat, row: Row)
    requires RowTimed(run, i, row)
    ensures RowTimed(run + [s], i, row)
  {
    hide LogsRow, StoresRecord;
    var longer := run + [s];
    var p: nat :| LoggedAt(run, p, i, row) && (row.Paired? ==> exists q: nat :: q < p && StoredAt(run, q, row.rec));
    assert longer[p] == run[p] && longer[p + 1] == run[p + 1];
    assert LoggedAt(longer, p, i, row);
    if row.Paired? {
      var q: nat :| q < p && StoredAt(run, q, row.rec);
      assert longer[q] == run[q] && longer[q + 1] == run[q + 1];
      assert StoredAt(longer, q, row.rec);
    }
  }

  lemma RecordTimedLater(run: seq<State>, s: State, rec: Record)
    requires RecordTimed(run, rec)
    ensures RecordTimed(run + [s], rec)
  {
    hide StoresRecord;
    var q: nat :| StoredAt(run, q, rec);
    assert (run + [s])[q] == run[q] && (run + [s])[q + 1] == run[q + 1];
    assert StoredAt(run + [s], q, rec);
  }

  /** What one step does to the log and to the queue. */
  lemma StepTimes(input: seq<string>, s: State, s': State)
    requires Next(input, s, s')
    ensures s'.log == s.log
            || (&& s'.log == s.log + [s'.log[|s.log|]]
                && LogsRow(s, s', |s.log|, s'.log[|s.log|].owner) && s'.log[|s.log|].tOut == s.now
                && (s'.log[|s.log|].Paired? ==> s'.log[|s.log|].rec in s.pending))
    ensures forall i :: 0 <= i < |s'.pending| ==>
      s'.pending[i] in s.pending || (StoresRecord(s, s', s'.pending[i].seqNo) && s'.pending[i].tIn == s.now)
  {
    hide NextGeom, NextFr, Concat, IsNX, Units, OwnersOf;
  }

  lemma TimedStep(input: seq<string>, run: seq<State>, s: State)
    requires run != [] && Next(input, run[|run| - 1], s) && AllTimed(run)
    ensures AllTimed(run + [s])
  {
    hide Next, RowTimed, RecordTimed, LogsRow, StoresRecord;
    var last, longer := run[|run| - 1], run + [s];
    StepTimes(input, last, s);
    assert longer[|run| - 1] == last && longer[|run|] == s;
    forall i | 0 <= i < |s.log| ensures RowTimed(longer, i, s.log[i]) {
      if i < |last.log| { RowTimedLater(run, s, i, last.log[i]); } else { NewRowTimed(input, run, s); }
    }
    forall i | 0 <= i < |s.pending| ensures RecordTimed(longer, s.pending[i]) {
      if s.pending[i] in last.pending {
        RecordTimedLater(run, s, s.pending[i]);
      } else {
        NewRecordTimed(run, s, s.pending[i]);
      }
    }
  }

  lemma NewRowTimed(input: seq<string>, run: seq<State>, s: State)
    requires run != [] && Next(input, run[|run| - 1], s) && AllTimed(run) && |s.log| > |run[|run| - 1].log|
    ensures RowTimed(run + [s], |s.log| - 1, s.log[|s.log| - 1])
  {
    hide Next, LogsRow, StoresRecord;
    var last, longer, row := run[|run| - 1], run + [s], s.log[|s.log| - 1];
    StepTimes(input, last, s);
    assert longer[|run| - 1] == last && longer[|run|] == s;
    assert LoggedAt(longer, |run| - 1, |s.log| - 1, row);
    if row.Paired? {
      var i :| 0 <= i < |last.pending| && last.pending[i] == row.rec;
      var q: nat :| StoredAt(run, q, last.pending[i]);
      assert longer[q] == run[q] && longer[q + 1] == run[q + 1];
      assert StoredAt(longer, q, row.rec);
    }
  }

  lemma NewRecordTimed(run: seq<State>, s: State, rec: Record)
    requires run != [] && StoresRecord(run[|run| - 1], s, rec.seqNo) && rec.tIn == run[|run| - 1].now
    ensures RecordTimed(run + [s], rec)
  {
    hide StoresRecord;
    assert (run + [s])[|run| - 1] == run[|run| - 1] && (run + [s])[|run|] == s;
    assert StoredAt(run + [s], |run| - 1, rec);
  }

  /** In every run row `i` carries the clock of the step at which its sentinel was read, placeholder or not, and its
      record the clock of the earlier step at which the pump enqueued it. */
  lemma {:induction false} RowsCarryTheirClocks(input: seq<string>, run: seq<State>)
    requires IsRun(input, run)
    ensures AllTimed(run)
  {
    hide AllTimed, Next;
    var n := |run| - 1;
    if n == 0 {
      NothingTimed(run);
    } else {
      assert IsRun(input, run[..n]);
      RowsCarryTheirClocks(input, run[..n]);
      TimedStep(input, run[..n], run[n]);
      assert run[..n] + [run[n]] == run;
    }
  }

  lemma NothingTimed(run: seq<State>)
    requires run == [INITIAL]
    ensures AllTimed(run)
  {
  }

  // ---------------------------------------------------------------- what a record holds

  predicate IsGeometry(line: string) {
    CardOf(line) in ["GW", "GM", "GS", "GE", "GN", "GD", "LD", "IS", "EK"]
  }

  /** The places of the geometry lines. */
  function GeomPlaces(unit: seq<string>): seq<nat> {
    if unit == [] then []
    else
      var before := GeomPlaces(unit[..|unit| - 1]);
      if IsGeometry(unit[|unit| - 1]) then before + [|unit| - 1] else before
  }

  lemma GeomPlacesStep(unit: seq<string>)
    requires unit != []
    ensures var before, n := GeomPlaces(unit[..|unit| - 1]), |unit| - 1;
            GeomPlaces(unit) == if IsGeometry(unit[n]) then before + [n] else before
    ensures var before, n := GeomOf(unit[..|unit| - 1]), |unit| - 1;
            GeomOf(unit) == if IsGeometry(unit[n]) then before + [Strip(unit[n])] else before
  {
    hide CardOf, Strip, IsGeometry;
    GeometryStep(GeomOf(unit[..|unit| - 1]), unit[|unit| - 1]);
  }

  lemma {:induction false} GeomPlacesAscend(unit: seq<string>)
    ensures forall i, j :: 0 <= i < j < |GeomPlaces(unit)| ==> GeomPlaces(unit)[i] < GeomPlaces(unit)[j]
    ensures forall i :: 0 <= i < |GeomPlaces(unit)| ==> GeomPlaces(unit)[i] < |unit|
  {
    hide IsGeometry, GeomOf, GeomPlaces;
    if unit == [] {
      NoGeometry();
    } else {
      GeomPlacesAscend(unit[..|unit| - 1]);
      GeomPlacesStep(unit);
    }
  }

  lemma NoGeometry()
    ensures GeomPlaces([]) == [] && GeomOf([]) == []
  {
  }

  lemma {:induction false} PlaceOfGeometry(unit: seq<string>, k: nat)
    requires k < |unit|
    ensures k in GeomPlaces(unit) <==> IsGeometry(unit[k])
  {
    hide IsGeometry, GeomOf, GeomPlaces;
    var n := |unit| - 1;
    GeomPlacesStep(unit);
    if k < n {
      PlaceOfGeometry(unit[..n], k);
      assert unit[..n][k] == unit[k];
    } else {
      GeomPlacesAscend(unit[..n]);
      assert n !in GeomPlaces(unit[..n]);
    }
  }

  lemma {:induction false} GeometryAtPlace(unit: seq<string>, i: nat)
    requires i < |GeomPlaces(unit)|
    ensures |GeomOf(unit)| == |GeomPlaces(unit)| && GeomPlaces(unit)[i] < |unit|
    ensures GeomOf(unit)[i] == Strip(unit[GeomPlaces(unit)[i]])
  {
    hide IsGeometry, GeomOf, GeomPlaces, Strip;
    NoGeometry();
    GeomPlacesAscend(unit);
    AsManyPlaces(unit);
    var n := |unit| - 1;
    GeomPlacesStep(unit);
    if i < |GeomPlaces(unit[..n])| {
      GeometryAtPlace(unit[..n], i);
      assert unit[..n][GeomPlaces(unit[..n])[i]] == unit[GeomPlaces(unit[..n])[i]];
    }
  }

  lemma {:induction false} AsManyPlaces(unit: seq<string>)
    ensures |GeomOf(unit)| == |GeomPlaces(unit)|
  {
    hide IsGeometry, GeomOf, GeomPlaces, Strip;
    if unit == [] {
      NoGeometry();
    } else {
      AsManyPlaces(unit[..|unit| - 1]);
      GeomPlacesStep(unit);
    }
  }

  /** The geometry kept is the geometry lines, stripped, each once and in order. */
  lemma GeometryInOrder(unit: seq<string>)
    ensures |GeomOf(unit)| == |GeomPlaces(unit)|
    ensures forall i, j :: 0 <= i < j < |GeomPlaces(unit)| ==> GeomPlaces(unit)[i] < GeomPlaces(unit)[j]
    ensures forall i :: 0 <= i < |GeomPlaces(unit)| ==> GeomPlaces(unit)[i] < |unit|
    ensures forall k: nat :: k < |unit| ==> (k in GeomPlaces(unit) <==> IsGeometry(unit[k]))
    ensures forall i :: 0 <= i < |GeomPlaces(unit)| ==> GeomOf(unit)[i] == Strip(unit[GeomPlaces(unit)[i]])
  {
    hide IsGeometry, GeomOf, GeomPlaces, Strip;
    AsManyPlaces(unit);
    GeomPlacesAscend(unit);
    forall k: nat | k < |unit| ensures k in GeomPlaces(unit) <==> IsGeometry(unit[k]) { PlaceOfGeometry(unit, k); }
    forall i | 0 <= i < |GeomPlaces(unit)| ensures GeomOf(unit)[i] == Strip(unit[GeomPlaces(unit)[i]]) {
      GeometryAtPlace(unit, i);
    }
  }

  lemma GeometryStep(geom: seq<string>, line: string)
    ensures NextGeom(geom, line) == if IsGeometry(line) then geom + [Strip(line)] else geom
  {
    hide CardOf, Strip;
  }

  ghost predicate IsLastFr(unit: seq<string>, k: nat) {
    k < |unit| && CardOf(unit[k]) == "FR" && forall m :: k < m < |unit| ==> CardOf(unit[m]) != "FR"
  }

  ghost predicate NoFr(unit: seq<string>) {
    forall k :: 0 <= k < |unit| ==> CardOf(unit[k]) != "FR"
  }

  /** The frequency kept is the last FR line, stripped, or nothing. */
  lemma {:induction false} LastFrequency(unit: seq<string>)
    ensures NoFr(unit) ==> FrOf(unit) == ""
    ensures forall k: nat | IsLastFr(unit, k) :: FrOf(unit) == Strip(unit[k])
  {
    hide CardOf, Strip;
    if unit != [] {
      var n := |unit| - 1;
      LastFrequency(unit[..n]);
      FrequencyStep(FrOf(unit[..n]), unit[n]);
      hide FrOf, NextFr;
      forall k: nat | IsLastFr(unit, k) ensures FrOf(unit) == Strip(unit[k]) {
        if k < n { assert IsLastFr(unit[..n], k); }
      }
    }
  }

  lemma FrequencyStep(fr: string, line: string)
    ensures NextFr(fr, line) == if CardOf(line) == "FR" then Strip(line) else fr
  {
    hide CardOf, Strip;
  }

  /** In every run the record of a row holds its unit's text, its geometry lines and its last FR line. */
  lemma RecordHoldsItsUnit(input: seq<string>, run: seq<State>, i: nat)
    requires IsRun(input, run) && i < |run[|run| - 1].log| && run[|run| - 1].log[i].Paired?
    ensures var rec := run[|run| - 1].log[i].rec;
            && rec.seqNo < |Units(input)|
            && var unit := Units(input)[rec.seqNo];
            && rec.deck == Concat(unit)
            && rec.cards == |rec.geom| == |GeomPlaces(unit)|
            && (forall j :: 0 <= j < |rec.geom| ==>
                  GeomPlaces(unit)[j] < |unit| && rec.geom[j] == Strip(unit[GeomPlaces(unit)[j]]))
            && (NoFr(unit) ==> rec.fr == "")
            && forall k: nat | IsLastFr(unit, k) :: rec.fr == Strip(unit[k])
  {
    PairingInEveryRun(input, run);
    hide IsRun, Units, FirstGap, GeomOf, FrOf, CardOf, Strip, Concat, GeomPlaces, IsLastFr, NoFr;
    var rec := run[|run| - 1].log[i].rec;
    assert Describes(rec, Units(input));
    GeometryInOrder(Units(input)[rec.seqNo]);
    LastFrequency(Units(input)[rec.seqNo]);
  }

  /** The placeholder does occur: the child may answer before the record is enqueued. */
  lemma PlaceholderHappens() returns (input: seq<string>, run: seq<State>)
    ensures IsRun(input, run) && run[|run| - 1].log == [Placeholder(0, 0)]
  {
    NXLine();
    input, run := RaceOn("NX\n");
  }

  /** Written, answered and read before the pump has enqueued its record. */
  lemma RaceOn(line: string) returns (input: seq<string>, run: seq<State>)
    requires IsNX(line)
    ensures IsRun(input, run) && run[|run| - 1].log == [Placeholder(0, 0)]
  {
    input := [line];
    var s1, out := WriteLine(input, INITIAL), Sentinel(0);
    NextLine([], line);
    assert s1.fed == [] + [line];
    assert OwnersOf(s1.emitted) == [];
    hide IsNX, Units, Rest, NextGeom, NextFr, Concat, OwnersOf;
    var s2 := Emit(s1, out);
    assert CanEmit(s1, out);
    assert CanTake(s2) && s2.emitted[s2.taken] == out && s2.pending == [];
    var s3 := Take(s2);
    run := [INITIAL, s1, s2, s3];
    assert Next(input, INITIAL, s1) && Next(input, s1, s2) && Next(input, s2, s3);
  }

  /** The other failure occurs too: the child skips the first NX, and its record goes to the answer of the second. */
  lemma SkippedAnswerHappens() returns (input: seq<string>, run: seq<State>)
    ensures IsRun(input, run) && |run[|run| - 1].log| == 1
    ensures var row := run[|run| - 1].log[0]; row.Paired? && row.rec.seqNo == 0 && row.owner == 1
  {
    NXLine();
    input, run := SkipOn("NX\n");
  }

  /** Two units delivered, the first enqueued, the second alone answered. */
  lemma SkipOn(line: string) returns (input: seq<string>, run: seq<State>)
    requires IsNX(line)
    ensures IsRun(input, run) && |run[|run| - 1].log| == 1
    ensures var row := run[|run| - 1].log[0]; row.Paired? && row.rec.seqNo == 0 && row.owner == 1
  {
    input := [line, line];
    var s1, out := WriteLine(input, INITIAL), Sentinel(1);
    NextLine([], line);
    NextLine([line], line);
    assert s1.fed == [] + [line];
    assert OwnersOf(s1.emitted) == [];
    hide IsNX, Units, Rest, NextGeom, NextFr, Concat, OwnersOf;
    var s2 := Enqueue(s1);
    assert CanWrite(input, s2);
    var s3 := WriteLine(input, s2);
    assert s3.fed == [line] + [line];
    var s4 := Emit(s3, out);
    assert CanEmit(s3, out);
    assert CanTake(s4) && s4.emitted[s4.taken] == out && s4.pending[0].seqNo == 0;
    var s5 := Take(s4);
    run := [INITIAL, s1, s2, s3, s4, s5];
    assert Next(input, INITIAL, s1) && Next(input, s1, s2) && Next(input, s2, s3);
    assert Next(input, s3, s4) && Next(input, s4, s5);
  }

  lemma NXLine()
    ensures IsNX("NX\n")
  {
    assert FirstWord("NX\n") == Word("NX\n");
    assert "NX\n"[1..] == "X\n" && "X\n"[1..] == "\n";
    assert Word("\n") == "" && Word("X\n") == "X" && Word("NX\n") == "NX";
    assert "NX"[1..] == "X" && "X"[1..] == "";
    assert Upper("X") == "X" && Upper("NX") == "NX";
  }
}
