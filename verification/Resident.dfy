/** Timing deck units down one resident engine that is replaced when it dies or times out. */
module Resident {
  import opened Sequences

  // `solve` blocks to a sentinel.  Of an engine only this is assumed: it answers each unit at most once, in order.

  /** A line the engine prints: the sentinel answering a job, an error line, or any other. */
  datatype Line = Sentinel(job: nat) | Error | Plain

  /** What one wait on the line queue yields: a line, the end of the output, or nothing in time. */
  datatype Item = Got(line: Line) | Closed | Nothing

  datatype Outcome = Answered(job: nat, error: bool) | Died | TimedOut

  predicate Final(item: Item) {
    item.Closed? || item.Nothing? || item.line.Sentinel?
  }

  predicate SawError(items: seq<Item>) {
    exists i :: 0 <= i < |items| && items[i] == Got(Error)
  }

  /** The outcome of a solve whose waits ended with `last` after `before`. */
  function OutcomeOf(before: seq<Item>, last: Item): Outcome
    requires Final(last)
  {
    match last
    case Closed => Died
    case Nothing => TimedOut
    case Got(line) => Answered(line.job, SawError(before))
  }

  lemma SawErrorStep(items: seq<Item>, item: Item)
    ensures SawError(items + [item]) <==> SawError(items) || item == Got(Error)
  {
    if SawError(items) {
      var i :| 0 <= i < |items| && items[i] == Got(Error);
      assert (items + [item])[i] == Got(Error);
    }
    if item == Got(Error) { assert (items + [item])[|items|] == Got(Error); }
  }

  /** One solve: it uses up the waits up to the first final one, and no more. */
  method Solve(items: seq<Item>) returns (r: Outcome, used: nat)
    requires exists i :: 0 <= i < |items| && Final(items[i])
    ensures 0 < used <= |items| && Final(items[used - 1])
    ensures forall i :: 0 <= i < used - 1 ==> !Final(items[i])
    ensures r == Died <==> items[used - 1] == Closed
    ensures r == TimedOut <==> items[used - 1] == Nothing
    ensures items[used - 1].Got? ==> r.Answered? && r.job == items[used - 1].line.job
    ensures r.Answered? ==> (r.error <==> exists i :: 0 <= i < used - 1 && items[i] == Got(Error))
    ensures r == OutcomeOf(items[..used - 1], items[used - 1])
  {
    var sawError := false;
    used := 0;
    while true
      invariant 0 <= used <= |items|
      invariant forall i :: 0 <= i < used ==> !Final(items[i])
      invariant sawError <==> SawError(items[..used])
      decreases |items| - used
    {
      var item := items[used];
      if item.Nothing? { used := used + 1; return TimedOut, used; }
      if item.Closed? { used := used + 1; return Died, used; }
      if item.line.Sentinel? { used := used + 1; return Answered(item.line.job, sawError), used; }
      assert items[..used + 1] == items[..used] + [item];
      SawErrorStep(items[..used], item);
      if item.line.Error? { sawError := true; }
      used := used + 1;
    }
  }

  // ---------------------------------------------------------------- a bench of many solves

  /** One engine process: the jobs `first`, `first + 1`, ... it was sent, what it printed, how much was read. */
  datatype Engine = Engine(first: nat, sent: nat, printed: seq<Line>, taken: nat, closed: bool)

  datatype Pc = Idle | Solving(seen: seq<Item>) | Raised

  /** `outcomes[k]` is the outcome of job k. */
  datatype State = State(pc: Pc, engine: Engine, outcomes: seq<Outcome>)

  function Spawn(first: nat): Engine { Engine(first, 0, [], 0, false) }

  const INITIAL := State(Idle, Spawn(0), [])

  /** The unit of the next job is written. */
  function Send(s: State): State {
    s.(pc := Solving([]), engine := s.engine.(sent := s.engine.sent + 1))
  }

  /** The jobs answered, in the order of their sentinels. */
  function AnswersOf(printed: seq<Line>): seq<nat> {
    if printed == [] then []
    else
      var before := AnswersOf(printed[..|printed| - 1]);
      if printed[|printed| - 1].Sentinel? then before + [printed[|printed| - 1].job] else before
  }

  /** The engine assumption: the next sentinel answers a job sent, later than any answered before. */
  predicate CanPrint(e: Engine, line: Line) {
    var answers := AnswersOf(e.printed);
    line.Sentinel? ==> e.first <= line.job < e.first + e.sent && (answers != [] ==> answers[|answers| - 1] < line.job)
  }

  function Print(s: State, line: Line): State {
    s.(engine := s.engine.(printed := s.engine.printed + [line]))
  }

  /** The next wait of a solve: the oldest unread line, the end once all lines are read, or a timeout. */
  predicate CanYield(e: Engine, item: Item) {
    match item
    case Got(line) => e.taken < |e.printed| && line == e.printed[e.taken]
    case Closed => e.taken == |e.printed| && e.closed
    case Nothing => e.taken == |e.printed|
  }

  /** A solve takes the item; at a final one it ends, and an engine that did not answer is replaced. */
  function Take(s: State, item: Item): State
    requires s.pc.Solving? && CanYield(s.engine, item)
  {
    var read := if item.Got? then s.engine.(taken := s.engine.taken + 1) else s.engine;
    if !Final(item) then s.(pc := Solving(s.pc.seen + [item]), engine := read)
    else
      var outcome := OutcomeOf(s.pc.seen, item);
      State(Idle, if outcome.Answered? then read else Spawn(|s.outcomes| + 1), s.outcomes + [outcome])
  }

  ghost predicate Next(total: nat, s: State, s': State) {
    || (s.pc.Idle? && |s.outcomes| < total && s' == Send(s))
    || (s.pc.Idle? && |s.outcomes| < total && s' == s.(pc := Raised))  // writing to a dead engine
    || (exists line :: !s.engine.closed && CanPrint(s.engine, line) && s' == Print(s, line))
    || s' == s.(engine := s.engine.(closed := true))
    || (s.pc.Solving? && exists item :: CanYield(s.engine, item) && s' == Take(s, item))
  }

  ghost predicate IsRun(total: nat, run: seq<State>) {
    run != [] && run[0] == INITIAL && forall i :: 0 < i < |run| ==> Next(total, run[i - 1], run[i])
  }

  // ---------------------------------------------------------------- the invariant

  predicate EngineOk(e: Engine) {
    var answers := AnswersOf(e.printed);
    && e.taken <= |e.printed|
    && Increasing(answers)
    && forall i :: 0 <= i < |answers| ==> e.first <= answers[i] < e.first + e.sent
  }

  /** The current engine's jobs are the latest ones, all answered but the one being solved. */
  predicate JobsOk(s: State)
    requires s.engine.taken <= |s.engine.printed|
  {
    var answered := |AnswersOf(s.engine.printed[..s.engine.taken])|;
    && s.engine.first + answered == |s.outcomes|
    && s.engine.sent == answered + if s.pc.Solving? then 1 else 0
  }

  /** No finished job took another job's sentinel. */
  predicate OwnSentinels(outcomes: seq<Outcome>) {
    forall k :: 0 <= k < |outcomes| && outcomes[k].Answered? ==> outcomes[k].job == k
  }

  predicate Inv(s: State) {
    EngineOk(s.engine) && JobsOk(s) && OwnSentinels(s.outcomes)
  }

  lemma AnswersStep(printed: seq<Line>, line: Line)
    ensures AnswersOf(printed + [line]) == if line.Sentinel? then AnswersOf(printed)
        + [line.job] else AnswersOf(printed)
  {
    assert (printed + [line])[..|printed|] == printed;
  }

  lemma {:induction false} AnswersPrefix(printed: seq<Line>, k: nat)
    requires k <= |printed|
    ensures AnswersOf(printed[..k]) <= AnswersOf(printed)
  {
    if k < |printed| {
      AnswersPrefix(printed[..|printed| - 1], k);
      assert printed[..|printed| - 1][..k] == printed[..k];
    } else {
      assert printed[..k] == printed;
    }
  }

  /** Reading one more line. */
  lemma ReadStep(e: Engine)
    requires e.taken < |e.printed|
    ensures var line := e.printed[e.taken];
            var read := AnswersOf(e.printed[..e.taken]);
            AnswersOf(e.printed[..e.taken + 1]) == if line.Sentinel? then read + [line.job] else read
    ensures AnswersOf(e.printed[..e.taken + 1]) <= AnswersOf(e.printed)
  {
    assert e.printed[..e.taken + 1] == e.printed[..e.taken] + [e.printed[e.taken]];
    AnswersStep(e.printed[..e.taken], e.printed[e.taken]);
    AnswersPrefix(e.printed, e.taken + 1);
  }

  /** The sentinel a solve takes answers the job it sent: not an earlier one, nor one of an earlier engine. */
  lemma TakesItsOwn(s: State)
    requires Inv(s) && s.pc.Solving? && s.engine.taken < |s.engine.printed|
    requires s.engine.printed[s.engine.taken].Sentinel?
    ensures s.engine.printed[s.engine.taken].job == |s.outcomes|
  {
    ReadStep(s.engine);
    hide AnswersOf;
    RunsAhead(AnswersOf(s.engine.printed), s.engine.first, |AnswersOf(s.engine.printed[..s.engine.taken])|);
  }

  lemma TakeKeeps(s: State, item: Item)
    requires Inv(s) && s.pc.Solving? && CanYield(s.engine, item)
    ensures Inv(Take(s, item))
  {
    hide AnswersOf, SawError;
    if item.Got? {
      ReadStep(s.engine);
      if item.line.Sentinel? { TakesItsOwn(s); }
    }
    if item.Closed? || item.Nothing? {
      assert AnswersOf([]) == [] by { NoAnswers(); }
    }
  }

  lemma NoAnswers()
    ensures AnswersOf([]) == []
  {
  }

  lemma PrintKeeps(s: State, line: Line)
    requires Inv(s) && CanPrint(s.engine, line)
    ensures Inv(Print(s, line))
  {
    AnswersStep(s.engine.printed, line);
    hide AnswersOf;
    assert Print(s, line).engine.printed[..s.engine.taken] == s.engine.printed[..s.engine.taken];
  }

  lemma NextKeeps(total: nat, s: State, s': State)
    requires Inv(s) && Next(total, s, s')
    ensures Inv(s')
  {
    hide AnswersOf;
    if line :| CanPrint(s.engine, line) && s' == Print(s, line) {
      PrintKeeps(s, line);
    } else if s.pc.Solving? && exists item :: CanYield(s.engine, item) && s' == Take(s, item) {
      var item :| CanYield(s.engine, item) && s' == Take(s, item);
      TakeKeeps(s, item);
    }
  }

  /** In no run, however many engines die or time out, does a solve take a sentinel of another job. */
  lemma {:induction false} NoForeignSentinel(total: nat, run: seq<State>)
    requires IsRun(total, run)
    ensures Inv(run[|run| - 1]) && OwnSentinels(run[|run| - 1].outcomes)
  {
    hide Inv, Next;
    var n := |run| - 1;
    if n == 0 {
      InitialOk();
    } else {
      assert IsRun(total, run[..n]);
      NoForeignSentinel(total, run[..n]);
      NextKeeps(total, run[n - 1], run[n]);
    }
    InvOwn(run[n]);
  }

  lemma InitialOk()
    ensures Inv(INITIAL)
  {
  }

  lemma InvOwn(s: State)
    requires Inv(s)
    ensures OwnSentinels(s.outcomes)
  {
  }

  // ---------------------------------------------------------------- what a solve has seen

  /** While a solve waits, it has seen all that was read since the engine began or last printed a sentinel. */
  predicate SeenOk(s: State) {
    && s.engine.taken <= |s.engine.printed|
    && match s.pc
       case Raised => true
       case Idle => SinceSentinel(s.engine, 0)
       case Solving(seen) =>
         && |seen| <= s.engine.taken && SinceSentinel(s.engine, |seen|)
         && forall i :: 0 <= i < |seen| ==> SeenLine(s.engine, seen, i)
  }

  /** Item i of those seen is the line that far after the first of them, and no sentinel. */
  predicate SeenLine(e: Engine, seen: seq<Item>, i: int)
    requires |seen| <= e.taken <= |e.printed| && 0 <= i < |seen|
  {
    var line := e.printed[e.taken - |seen| + i];
    seen[i] == Got(line) && !line.Sentinel?
  }

  /** Before the last `n` lines read there is a sentinel, or nothing. */
  predicate SinceSentinel(e: Engine, n: nat)
    requires e.taken <= |e.printed|
  {
    n <= e.taken && (e.taken == n || e.printed[e.taken - n - 1].Sentinel?)
  }

  /** An outcome tells how its solve ended, and its error flag whether an error line came since the sentinel before. */
  lemma {:induction false} OutcomesSeeTheirErrors(total: nat, run: seq<State>)
    requires IsRun(total, run)
    ensures SeenOk(run[|run| - 1])
  {
    hide Next, SeenOk;
    var n := |run| - 1;
    if n == 0 {
      NothingSeen();
    } else {
      assert IsRun(total, run[..n]);
      OutcomesSeeTheirErrors(total, run[..n]);
      SeenStep(total, run[n - 1], run[n]);
    }
  }

  lemma NothingSeen()
    ensures SeenOk(INITIAL)
  {
  }

  lemma SeenStep(total: nat, s: State, s': State)
    requires SeenOk(s) && Next(total, s, s')
    ensures SeenOk(s')
  {
    hide AnswersOf, SawError;
    if s.pc.Solving? && exists item :: CanYield(s.engine, item) && s' == Take(s, item) {
      var item :| CanYield(s.engine, item) && s' == Take(s, item);
      SeenTake(s, item);
    } else if s.pc.Solving? {
      forall i | 0 <= i < |s.pc.seen| ensures SeenLine(s'.engine, s.pc.seen, i) {
        assert SeenLine(s.engine, s.pc.seen, i);
      }
    }
  }

  lemma SeenTake(s: State, item: Item)
    requires SeenOk(s) && s.pc.Solving? && CanYield(s.engine, item)
    ensures SeenOk(Take(s, item))
  {
    hide SawError;
    var s' := Take(s, item);
    if !Final(item) {
      forall i | 0 <= i < |s.pc.seen| + 1 ensures SeenLine(s'.engine, s.pc.seen + [item], i) {
        if i < |s.pc.seen| { assert SeenLine(s.engine, s.pc.seen, i); }
      }
    }
  }

  /** A step that ends a solve: an answer with the flag of the lines read since the sentinel before it, the end of an
      engine that closed, or a timeout. */
  lemma SolveEnds(total: nat, run: seq<State>, s': State)
    requires IsRun(total, run) && Next(total, run[|run| - 1], s')
    requires |s'.outcomes| > |run[|run| - 1].outcomes|
    ensures var s := run[|run| - 1];
            && s.pc.Solving? && |s'.outcomes| == |s.outcomes| + 1 && s'.outcomes[..|s.outcomes|] == s.outcomes
            && |s.pc.seen| <= s.engine.taken <= |s.engine.printed| && SinceSentinel(s.engine, |s.pc.seen|)
            && match s'.outcomes[|s.outcomes|]
               case Died => s.engine.closed && s.engine.taken == |s.engine.printed|
               case TimedOut => s.engine.taken == |s.engine.printed|
               case Answered(job, error) =>
                 && s.engine.taken < |s.engine.printed| && s.engine.printed[s.engine.taken] == Sentinel(job)
                 && (error <==> exists i :: s.engine.taken - |s.pc.seen| <= i < s.engine.taken
                                            && s.engine.printed[i] == Error)
  {
    OutcomesSeeTheirErrors(total, run);
    hide IsRun, AnswersOf, SawError;
    var s := run[|run| - 1];
    var item :| CanYield(s.engine, item) && s' == Take(s, item);
    ErrorWasPrinted(s);
    assert item.Got? ==> item.line == s.engine.printed[s.engine.taken];
  }

  lemma ErrorWasPrinted(s: State)
    requires SeenOk(s) && s.pc.Solving?
    ensures SawError(s.pc.seen) <==>
      exists i :: s.engine.taken - |s.pc.seen| <= i < s.engine.taken && s.engine.printed[i] == Error
  {
    var n, t := |s.pc.seen|, s.engine.taken;
    if SawError(s.pc.seen) {
      var i :| 0 <= i < n && s.pc.seen[i] == Got(Error);
      assert SeenLine(s.engine, s.pc.seen, i) && s.engine.printed[t - n + i] == Error;
    }
    if i :| t - n <= i < t && s.engine.printed[i] == Error {
      assert SeenLine(s.engine, s.pc.seen, i - (t - n)) && s.pc.seen[i - (t - n)] == Got(Error);
    }
  }
}
