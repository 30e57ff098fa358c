/** Replaying a captured stream over a crew of resident portals. */
module Crew {
  import opened Results

  // One dispatcher and one reader per member.  The dispatcher looks for an idle member without taking any lock,
  // one flag at a time, and dispatches under that member's lock; the deck goes down the pipe after the lock is
  // released.  A reader takes the lock when its portal prints a sentinel.  Of a portal only this is assumed: it
  // answers each deck at most once, in order.

  /** A record in flight, and a record that came back. */
  datatype Flight = Flight(rec: nat, tDisp: int)

  datatype Finish = Finish(rec: nat, tDisp: int, tDone: int)

  /** What a member's lock protects. */
  datatype View = View(busy: bool, current: Option<Flight>, done: seq<Finish>)

  const IDLE := View(false, None, [])

  function Dispatched(v: View, rec: nat, t: int): View {
    v.(busy := true, current := Some(Flight(rec, t)))
  }

  function Completed(v: View, t: int): View {
    match v.current
    case None => v.(busy := false)
    case Some(f) => View(false, None, v.done + [Finish(f.rec, f.tDisp, t)])
  }

  class Member {
    var busy: bool
    var current: Option<Flight>
    var done: seq<Finish>

    function Seen(): View
      reads this
    {
      View(busy, current, done)
    }

    constructor ()
      ensures Seen() == IDLE
    {
      busy, current, done := false, None, [];
    }

    /** The locked part of a dispatch. */
    method Dispatch(rec: nat, t: int)
      modifies this
      ensures busy && current == Some(Flight(rec, t)) && done == old(done)
      ensures Seen() == Dispatched(old(Seen()), rec, t)
    {
      busy := true;
      current := Some(Flight(rec, t));
    }

    /** The locked part of the reader, at a sentinel. */
    method OnSentinel(t: int)
      modifies this
      ensures !busy && current == None
      ensures old(current) == None ==> done == old(done)
      ensures old(current).Some? ==>
        done == old(done) + [Finish(old(current).value.rec, old(current).value.tDisp, t)]
      ensures Seen() == Completed(old(Seen()), t)
    {
      var rec := current;
      if rec.Some? {
        done := done + [Finish(rec.value.rec, rec.value.tDisp, t)];
      }
      current := None;
      busy := false;
    }
  }

  // ---------------------------------------------------------------- the interleaved system

  /** A member and its portal: the decks delivered, and which of them each sentinel so far answered. */
  datatype Portal = Portal(view: View, sent: seq<nat>, owners: seq<nat>)

  datatype Pc =
    | Arrive(n: nat)            // about to take record n from the stream, or to drain
    | Scan(n: nat, i: nat)      // looking for an idle member, about to read the flag of member i
    | Found(n: nat, i: nat)     // member i was seen idle
    | Write(n: nat, i: nat)     // lock released, the deck not yet sent
    | Drain(i: nat)             // waiting for the end, about to read the flag of member i
    | Finished
    | Aborted(n: nat)           // no member freed before the deadline

  datatype State = State(now: int, pc: Pc, members: seq<Portal>)

  predicate CanArrive(s: State) { s.pc.Arrive? }

  function ArriveStep(total: nat, s: State): State
    requires CanArrive(s)
  {
    s.(pc := if s.pc.n < total then Scan(s.pc.n, 0) else Drain(0))
  }

  /** One flag is read; at the end of a scan the dispatcher starts over, or gives up. */
  function ScanStep(s: State): State
    requires s.pc.Scan? && s.pc.i < |s.members|
  {
    if s.members[s.pc.i].view.busy then s.(pc := Scan(s.pc.n, s.pc.i + 1)) else s.(pc := Found(s.pc.n, s.pc.i))
  }

  predicate ScanEnds(s: State) { s.pc.Scan? && s.pc.i >= |s.members| }

  function DispatchStep(s: State): State
    requires s.pc.Found? && s.pc.i < |s.members|
  {
    var m := s.members[s.pc.i];
    s.(pc := Write(s.pc.n, s.pc.i), members := s.members[s.pc.i := m.(view := Dispatched(m.view, s.pc.n, s.now))])
  }

  function WriteStep(s: State): State
    requires s.pc.Write? && s.pc.i < |s.members|
  {
    var m := s.members[s.pc.i];
    s.(pc := Arrive(s.pc.n + 1), members := s.members[s.pc.i := m.(sent := m.sent + [s.pc.n])])
  }

  function DrainStep(s: State): State
    requires s.pc.Drain?
  {
    if s.pc.i >= |s.members| then s.(pc := Finished)
    else s.(pc := Drain(if s.members[s.pc.i].view.busy then 0 else s.pc.i + 1))
  }

  /** The portal assumption: the next sentinel answers a delivered deck later than any answered before. */
  predicate CanAnswer(s: State, i: nat, owner: nat) {
    && i < |s.members|
    && owner < |s.members[i].sent|
    && (s.members[i].owners != [] ==> s.members[i].owners[|s.members[i].owners| - 1] < owner)
  }

  function AnswerStep(s: State, i: nat, owner: nat): State
    requires CanAnswer(s, i, owner)
  {
    var m := s.members[i];
    s.(members := s.members[i := m.(view := Completed(m.view, s.now), owners := m.owners + [owner])])
  }

  ghost predicate Next(total: nat, s: State, s': State) {
    || (CanArrive(s) && s' == ArriveStep(total, s))
    || (s.pc.Scan? && s.pc.i < |s.members| && s' == ScanStep(s))
    || (ScanEnds(s) && (s' == s.(pc := Scan(s.pc.n, 0)) || s' == s.(pc := Aborted(s.pc.n))))
    || (s.pc.Found? && s.pc.i < |s.members| && s' == DispatchStep(s))
    || (s.pc.Write? && s.pc.i < |s.members| && s' == WriteStep(s))
    || (s.pc.Drain? && s' == DrainStep(s))
    || (exists i, owner :: CanAnswer(s, i, owner) && s' == AnswerStep(s, i, owner))
    || (s'.now >= s.now && s' == s.(now := s'.now))
  }

  ghost predicate Initial(s: State) {
    s.pc == Arrive(0) && forall i :: 0 <= i < |s.members| ==> s.members[i] == Portal(IDLE, [], [])
  }

  ghost predicate IsRun(total: nat, run: seq<State>) {
    run != [] && Initial(run[0]) && forall i :: 0 < i < |run| ==> Next(total, run[i - 1], run[i])
  }

  // ---------------------------------------------------------------- the invariant

  /** How many records have been dispatched. */
  function Count(total: nat, pc: Pc): nat {
    match pc
    case Arrive(n) => n
    case Scan(n, _) => n
    case Found(n, _) => n
    case Write(n, _) => n + 1
    case Drain(_) => total
    case Finished => total
    case Aborted(n) => n
  }

  predicate InFlight(m: Portal, k: nat) { m.view.current.Some? && m.view.current.value.rec == k }

  predicate IsDone(m: Portal, k: nat) {
    exists j :: 0 <= j < |m.view.done| && m.view.done[j].rec == k
  }

  predicate Holds(m: Portal, k: nat) { InFlight(m, k) || IsDone(m, k) }

  /** One member: its flag, the order and the times of its records, and what its portal has seen of them. */
  predicate MemberOk(m: Portal, now: int) {
    var v, d := m.view, |m.view.done|;
    && (v.busy <==> v.current.Some?)
    && |m.owners| == d && (forall j :: 0 <= j < d ==> m.owners[j] == j)
    && d <= |m.sent| <= d + (if v.busy then 1 else 0)
    && (forall j :: 0 <= j < d ==> m.sent[j] == v.done[j].rec)
    && (|m.sent| > d ==> m.sent[d] == v.current.value.rec)
    && InOrder(v)
    && (forall j :: 0 <= j < d ==> v.done[j].tDone <= now)
    && (v.current.Some? ==> v.current.value.tDisp <= now)
  }

  /** Records leave a member in the order of the stream, one after the other. */
  predicate InOrder(v: View) {
    && (forall j :: 0 <= j < |v.done| ==> v.done[j].tDisp <= v.done[j].tDone)
    && (forall j, k :: 0 <= j < k < |v.done| ==> v.done[j].rec < v.done[k].rec && v.done[j].tDone <= v.done[k].tDisp)
    && (v.current.Some? ==> forall j :: 0 <= j < |v.done| ==>
          v.done[j].rec < v.current.value.rec && v.done[j].tDone <= v.current.value.tDisp)
  }

  predicate PcOk(total: nat, s: State) {
    match s.pc
    case Arrive(n) => n <= total && AllDelivered(s.members, |s.members|)
    case Scan(n, i) => n < total && AllDelivered(s.members, |s.members|)
    case Found(n, i) => n < total && i < |s.members| && !s.members[i].view.busy && AllDelivered(s.members, |s.members|)
    case Write(n, i) => n < total && i < |s.members| && InFlight(s.members[i], n) && AllDelivered(s.members, i)
    case Drain(i) => i <= |s.members| && AllDelivered(s.members, |s.members|) && AllIdle(s.members, i)
    case Finished => AllIdle(s.members, |s.members|)
    case Aborted(n) => n < total
  }

  /** Every record in flight, except at member `except`, has been sent to its portal. */
  predicate AllDelivered(members: seq<Portal>, except: nat) {
    forall i :: 0 <= i < |members| && members[i].view.busy ==>
      if i == except then |members[i].sent| == |members[i].view.done|
      else |members[i].sent| == |members[i].view.done| + 1
  }

  predicate AllIdle(members: seq<Portal>, k: nat) {
    forall i :: 0 <= i < |members| && i < k ==> !members[i].view.busy
  }

  /** Every dispatched record is held by exactly one member, and no other record by any. */
  ghost predicate Partition(members: seq<Portal>, count: nat) {
    && (forall k :: 0 <= k < count ==> HeldBySome(members, k))
    && (forall i, k :: 0 <= i < |members| && 0 <= k && Holds(members[i], k) ==> k < count)
    && (forall i, j, k :: 0 <= i < j < |members| && 0 <= k ==> !(Holds(members[i], k) && Holds(members[j], k)))
  }

  ghost predicate HeldBySome(members: seq<Portal>, k: nat) {
    exists i :: 0 <= i < |members| && Holds(members[i], k)
  }

  ghost predicate Inv(total: nat, s: State) {
    && (forall i :: 0 <= i < |s.members| ==> MemberOk(s.members[i], s.now))
    && PcOk(total, s)
    && Partition(s.members, Count(total, s.pc))
  }

  // ---------------------------------------------------------------- each step keeps it

  /** The laws of one member across a dispatch. */
  lemma MemberDispatched(m: Portal, rec: nat, now: int)
    requires MemberOk(m, now) && !m.view.busy
    requires forall k :: 0 <= k && Holds(m, k) ==> k < rec
    ensures var m' := m.(view := Dispatched(m.view, rec, now));
            MemberOk(m', now) && forall k :: 0 <= k ==> (Holds(m', k) <==> Holds(m, k) || k == rec)
  {
    forall j | 0 <= j < |m.view.done| ensures m.view.done[j].rec < rec {
      assert IsDone(m, m.view.done[j].rec);
      assert Holds(m, m.view.done[j].rec);
    }
  }

  lemma MemberAnswers(s: State, i: nat, owner: nat)
    requires CanAnswer(s, i, owner) && MemberOk(s.members[i], s.now)
    ensures var m, m' := s.members[i], AnswerStep(s, i, owner).members[i];
            && MemberOk(m', s.now) && !m'.view.busy
            && owner == |m.view.done| && InFlight(m, m.sent[owner])
            && m'.view.done == m.view.done + [Finish(m.sent[owner], m.view.current.value.tDisp, s.now)]
            && forall k :: 0 <= k ==> (Holds(m', k) <==> Holds(m, k))
  {
    var m, m' := s.members[i], AnswerStep(s, i, owner).members[i];
    var d := |m.view.done|;
    assert owner == d && m.view.current.Some?;
    forall k | 0 <= k ensures Holds(m', k) <==> Holds(m, k) {
      if InFlight(m, k) { assert m'.view.done[d].rec == k; }
      if IsDone(m, k) {
        var j :| 0 <= j < d && m.view.done[j].rec == k;
        assert m'.view.done[j].rec == k;
      }
    }
  }

  /** The same holdings, member by member. */
  ghost predicate SameHoldings(members: seq<Portal>, members': seq<Portal>) {
    |members| == |members'|
    && forall i, k :: 0 <= i < |members| && 0 <= k ==> (Holds(members[i], k) <==> Holds(members'[i], k))
  }

  lemma SamePartition(members: seq<Portal>, members': seq<Portal>, count: nat)
    requires Partition(members, count) && SameHoldings(members, members')
    ensures Partition(members', count)
  {
    hide Holds;
    forall k | 0 <= k < count ensures HeldBySome(members', k) {
      assert HeldBySome(members, k);
      var i :| 0 <= i < |members| && Holds(members[i], k);
      assert Holds(members'[i], k);
    }
  }

  lemma AnswerKeeps(total: nat, s: State, i: nat, owner: nat)
    requires Inv(total, s) && CanAnswer(s, i, owner)
    ensures Inv(total, AnswerStep(s, i, owner))
  {
    var s' := AnswerStep(s, i, owner);
    MemberAnswers(s, i, owner);
    hide MemberOk, Holds, IsDone;
    assert SameHoldings(s.members, s'.members);
    SamePartition(s.members, s'.members, Count(total, s.pc));
    hide Partition;
    assert PcOk(total, s') by { AnswerKeepsPc(total, s, i, owner); }
  }

  lemma AnswerKeepsPc(total: nat, s: State, i: nat, owner: nat)
    requires PcOk(total, s) && CanAnswer(s, i, owner) && MemberOk(s.members[i], s.now)
    ensures PcOk(total, AnswerStep(s, i, owner))
  {
    MemberAnswers(s, i, owner);
    hide InOrder, Holds;
  }

  lemma DispatchKeeps(total: nat, s: State)
    requires Inv(total, s) && s.pc.Found?
    ensures Inv(total, DispatchStep(s))
  {
    var s', n, i := DispatchStep(s), s.pc.n, s.pc.i;
    MemberDispatched(s.members[i], n, s.now);
    IdleIsDelivered(s.members[i], s.now);
    assert InFlight(s'.members[i], n) && |s'.members[i].sent| == |s'.members[i].view.done|;
    hide MemberOk, Holds, IsDone;
    AddRecord(s.members, s'.members, i, n);
    hide Partition;
  }

  lemma IdleIsDelivered(m: Portal, now: int)
    requires MemberOk(m, now) && !m.view.busy
    ensures |m.sent| == |m.view.done|
  {
  }

  lemma AddRecord(members: seq<Portal>, members': seq<Portal>, i: nat, n: nat)
    requires Partition(members, n) && i < |members| == |members'| && members' == members[i := members'[i]]
    requires forall k :: 0 <= k ==> (Holds(members'[i], k) <==> Holds(members[i], k) || k == n)
    ensures Partition(members', n + 1)
  {
    hide Holds;
    forall k | 0 <= k < n + 1 ensures HeldBySome(members', k) {
      if k < n {
        assert HeldBySome(members, k);
        var j :| 0 <= j < |members| && Holds(members[j], k);
        assert Holds(members'[j], k);
      } else {
        assert Holds(members'[i], n);
      }
    }
  }

  lemma WriteKeeps(total: nat, s: State)
    requires Inv(total, s) && s.pc.Write?
    ensures Inv(total, WriteStep(s))
  {
    var s', i := WriteStep(s), s.pc.i;
    assert MemberOk(s'.members[i], s.now);
    assert SameHoldings(s.members, s'.members);
    SamePartition(s.members, s'.members, s.pc.n + 1);
    hide MemberOk, Holds, IsDone, Partition;
  }

  lemma DispatcherKeeps(total: nat, s: State, s': State)
    requires Inv(total, s)
    requires
      || (CanArrive(s) && s' == ArriveStep(total, s))
      || (s.pc.Scan? && s.pc.i < |s.members| && s' == ScanStep(s))
      || (ScanEnds(s) && (s' == s.(pc := Scan(s.pc.n, 0)) || s' == s.(pc := Aborted(s.pc.n))))
      || (s.pc.Drain? && s' == DrainStep(s))
    ensures Inv(total, s')
  {
    hide MemberOk, Holds, Partition;
  }

  lemma TickKeeps(total: nat, s: State, later: int)
    requires Inv(total, s) && later >= s.now
    ensures Inv(total, s.(now := later))
  {
    hide Partition, AllDelivered;
    forall i | 0 <= i < |s.members| ensures MemberOk(s.members[i], later) {
      assert MemberOk(s.members[i], s.now);
    }
  }

  lemma NextKeeps(total: nat, s: State, s': State)
    requires Inv(total, s) && Next(total, s, s')
    ensures Inv(total, s')
  {
    if s.pc.Found? && s.pc.i < |s.members| && s' == DispatchStep(s) {
      DispatchKeeps(total, s);
    } else if s.pc.Write? && s.pc.i < |s.members| && s' == WriteStep(s) {
      WriteKeeps(total, s);
    } else if i, owner :| CanAnswer(s, i, owner) && s' == AnswerStep(s, i, owner) {
      AnswerKeeps(total, s, i, owner);
    } else if s'.now >= s.now && s' == s.(now := s'.now) {
      TickKeeps(total, s, s'.now);
    } else {
      DispatcherKeeps(total, s, s');
    }
  }

  lemma InitialOk(total: nat, s: State)
    requires Initial(s)
    ensures Inv(total, s)
  {
  }

  lemma {:induction false} RunKeepsInv(total: nat, run: seq<State>)
    requires IsRun(total, run)
    ensures Inv(total, run[|run| - 1])
  {
    hide Inv, Next, Initial;
    var n := |run| - 1;
    if n == 0 {
      InitialOk(total, run[0]);
    } else {
      assert IsRun(total, run[..n]);
      RunKeepsInv(total, run[..n]);
      NextKeeps(total, run[n - 1], run[n]);
    }
  }

  // ---------------------------------------------------------------- what every interleaving guarantees

  ghost predicate Waiting(total: nat, s: State, k: nat) { Count(total, s.pc) <= k }

  ghost predicate FliesSomewhere(s: State, k: nat) {
    exists i :: 0 <= i < |s.members| && InFlight(s.members[i], k)
  }

  ghost predicate DoneSomewhere(s: State, k: nat) {
    exists i :: 0 <= i < |s.members| && IsDone(s.members[i], k)
  }

  lemma NotFlyingAndDone(total: nat, s: State, i: nat, j: nat, k: nat)
    requires Inv(total, s) && i < |s.members| && j < |s.members|
    ensures !(InFlight(s.members[i], k) && IsDone(s.members[j], k))
  {
    hide PcOk;
    if i == j {
      assert MemberOk(s.members[i], s.now);
    } else {
      assert !(Holds(s.members[i], k) && Holds(s.members[j], k));
    }
  }

  /** At every moment each record is in exactly one of three places: waiting, in flight, or done. */
  lemma ExactlyOnePlace(total: nat, run: seq<State>, k: nat)
    requires IsRun(total, run) && k < total
    ensures var s := run[|run| - 1];
            && (Waiting(total, s, k) || FliesSomewhere(s, k) || DoneSomewhere(s, k))
            && !(Waiting(total, s, k) && FliesSomewhere(s, k))
            && !(Waiting(total, s, k) && DoneSomewhere(s, k))
            && !(FliesSomewhere(s, k) && DoneSomewhere(s, k))
  {
    var s := run[|run| - 1];
    RunKeepsInv(total, run);
    hide IsRun, PcOk, Count;
    var count := Count(total, s.pc);
    if k < count {
      assert HeldBySome(s.members, k);
      var i :| 0 <= i < |s.members| && Holds(s.members[i], k);
    }
    forall i, j | 0 <= i < |s.members| && 0 <= j < |s.members|
      ensures !(InFlight(s.members[i], k) && IsDone(s.members[j], k))
    {
      NotFlyingAndDone(total, s, i, j, k);
    }
    if FliesSomewhere(s, k) {
      var i :| 0 <= i < |s.members| && InFlight(s.members[i], k);
      assert Holds(s.members[i], k);
    }
    if DoneSomewhere(s, k) {
      var j :| 0 <= j < |s.members| && IsDone(s.members[j], k);
      assert Holds(s.members[j], k);
    }
  }

  /** A member is busy exactly while it has a record, finishes its records in stream order and one at a time,
      and each by the sentinel that answered that record's own deck. */
  lemma EveryMember(total: nat, run: seq<State>, i: nat)
    requires IsRun(total, run) && i < |run[|run| - 1].members|
    ensures var m := run[|run| - 1].members[i];
            && (m.view.busy <==> m.view.current.Some?)
            && InOrder(m.view)
            && |m.owners| == |m.view.done| <= |m.sent|
            && forall j :: 0 <= j < |m.owners| ==> m.owners[j] < |m.sent| && m.sent[m.owners[j]] == m.view.done[j].rec
  {
    RunKeepsInv(total, run);
    hide IsRun, PcOk, Partition, InOrder;
    assert MemberOk(run[|run| - 1].members[i], run[|run| - 1].now);
  }

  /** Seen idle, a member stays idle until the dispatcher uses it, whatever else happens in between. */
  lemma SeenIdleStaysIdle(total: nat, run: seq<State>)
    requires IsRun(total, run) && run[|run| - 1].pc.Found?
    ensures var s := run[|run| - 1];
            s.pc.i < |s.members| && !s.members[s.pc.i].view.busy && s.members[s.pc.i].view.current == None
  {
    RunKeepsInv(total, run);
    hide IsRun, Partition, InOrder;
    var s := run[|run| - 1];
    assert MemberOk(s.members[s.pc.i], s.now);
  }

  /** The drain loop is left only when every record of the stream is done, once, at one member. */
  lemma DrainedMeansDone(total: nat, run: seq<State>, k: nat)
    requires IsRun(total, run) && run[|run| - 1].pc == Finished && k < total
    ensures var members := run[|run| - 1].members;
            exists i, j :: DoneAt(members, i, j, k)
                           && forall i', j' :: DoneAt(members, i', j', k) ==> i' == i && j' == j
  {
    var s := run[|run| - 1];
    RunKeepsInv(total, run);
    hide IsRun, MemberOk, InOrder;
    assert HeldBySome(s.members, k);
    var i :| 0 <= i < |s.members| && Holds(s.members[i], k);
    var j := IdleHasFinished(s.members[i], s.now, k);
    assert DoneAt(s.members, i, j, k);
    hide Holds, IsDone;
    forall i', j' | DoneAt(s.members, i', j', k) ensures i' == i && j' == j {
      DoneIsHeld(s.members, i', j', k);
      DoneOnce(s.members, s.now, i, j, j', k);
    }
  }

  lemma IdleHasFinished(m: Portal, now: int, k: nat) returns (j: nat)
    requires MemberOk(m, now) && !m.view.busy && Holds(m, k)
    ensures j < |m.view.done| && m.view.done[j].rec == k
  {
    hide InOrder;
    j :| 0 <= j < |m.view.done| && m.view.done[j].rec == k;
  }

  lemma DoneIsHeld(members: seq<Portal>, i: int, j: int, k: nat)
    requires DoneAt(members, i, j, k)
    ensures Holds(members[i], k)
  {
  }

  lemma DoneOnce(members: seq<Portal>, now: int, i: nat, j: nat, j': nat, k: nat)
    requires i < |members| && MemberOk(members[i], now) && DoneAt(members, i, j, k)
    ensures DoneAt(members, i, j', k) ==> j' == j
  {
  }

  predicate DoneAt(members: seq<Portal>, i: int, j: int, k: nat) {
    0 <= i < |members| && 0 <= j < |members[i].view.done| && members[i].view.done[j].rec == k
  }

  // ---------------------------------------------------------------- the clock readings

  /** From `s` to `s'` the dispatcher hands record `rec` to member `i`, which had none. */
  predicate Dispatches(s: State, s': State, i: nat, rec: nat) {
    && s.pc == Found(rec, i) && s'.pc == Write(rec, i) && i < |s.members| && i < |s'.members|
    && s.members[i].view.current == None
    && s'.members[i].view.current.Some? && s'.members[i].view.current.value.rec == rec
  }

  /** From `s` to `s'` member `i` reads a sentinel and files its `j`-th record. */
  predicate Files(s: State, s': State, i: nat, j: nat) {
    && i < |s.members| && i < |s'.members|
    && |s'.members[i].owners| == |s.members[i].owners| + 1
    && |s.members[i].view.done| == j && |s'.members[i].view.done| == j + 1
  }

  predicate DispatchedAt(run: seq<State>, p: nat, i: nat, rec: nat, tDisp: int) {
    p + 1 < |run| && Dispatches(run[p], run[p + 1], i, rec) && tDisp == run[p].now
  }

  predicate FiledAt(run: seq<State>, q: nat, i: nat, j: nat, tDone: int) {
    q + 1 < |run| && Files(run[q], run[q + 1], i, j) && tDone == run[q].now
  }

  ghost predicate FlightTimed(run: seq<State>, i: nat, f: Flight) {
    exists p: nat :: DispatchedAt(run, p, i, f.rec, f.tDisp)
  }

  /** The `j`-th record of member `i` was filed at some step, and dispatched to it at an earlier one. */
  ghost predicate FinishTimed(run: seq<State>, i: nat, j: nat, f: Finish) {
    exists q: nat :: FiledAt(run, q, i, j, f.tDone) && exists p: nat :: p < q && DispatchedAt(run, p, i, f.rec, f.tDisp)
  }

  ghost predicate MemberTimed(run: seq<State>, i: nat, v: View) {
    && (v.current.Some? ==> FlightTimed(run, i, v.current.value))
    && forall j :: 0 <= j < |v.done| ==> FinishTimed(run, i, j, v.done[j])
  }

  ghost predicate AllTimed(run: seq<State>)
    requires run != []
  {
    var s := run[|run| - 1];
    forall i :: 0 <= i < |s.members| ==> MemberTimed(run, i, s.members[i].view)
  }

  lemma FlightTimedLater(run: seq<State>, s: State, i: nat, f: Flight)
    requires FlightTimed(run, i, f)
    ensures FlightTimed(run + [s], i, f)
  {
    hide Dispatches;
    var p: nat :| DispatchedAt(run, p, i, f.rec, f.tDisp);
    assert (run + [s])[p] == run[p] && (run + [s])[p + 1] == run[p + 1];
    assert DispatchedAt(run + [s], p, i, f.rec, f.tDisp);
  }

  lemma FinishTimedLater(run: seq<State>, s: State, i: nat, j: nat, f: Finish)
    requires FinishTimed(run, i, j, f)
    ensures FinishTimed(run + [s], i, j, f)
  {
    hide Dispatches, Files;
    var longer := run + [s];
    var q: nat :| FiledAt(run, q, i, j, f.tDone) && exists p: nat :: p < q && DispatchedAt(run, p, i, f.rec, f.tDisp);
    var p: nat :| p < q && DispatchedAt(run, p, i, f.rec, f.tDisp);
    assert longer[q] == run[q] && longer[q + 1] == run[q + 1] && longer[p] == run[p] && longer[p + 1] == run[p + 1];
    assert FiledAt(longer, q, i, j, f.tDone) && DispatchedAt(longer, p, i, f.rec, f.tDisp);
  }

  /** What one step does to a member. */
  lemma StepTimes(total: nat, s: State, s': State, i: nat)
    requires Inv(total, s) && Next(total, s, s') && i < |s.members|
    ensures |s'.members| == |s.members|
    ensures var v, v' := s.members[i].view, s'.members[i].view;
            || v' == v
            || (v'.done == v.done && v'.current.Some? && v'.current.value.tDisp == s.now
                && Dispatches(s, s', i, v'.current.value.rec))
            || (v'.current == None && Files(s, s', i, |v.done|) && v.current.Some?
                && v'.done == v.done + [Finish(v.current.value.rec, v.current.value.tDisp, s.now)])
  {
    assert MemberOk(s.members[i], s.now);
    if k: nat, owner: nat :| CanAnswer(s, k, owner) && s' == AnswerStep(s, k, owner) {
      assert MemberOk(s.members[k], s.now);
      MemberAnswers(s, k, owner);
    }
    hide Partition, InOrder, AllDelivered, AllIdle;
  }

  lemma NewFlight(run: seq<State>, s: State, i: nat, f: Flight)
    requires run != [] && Dispatches(run[|run| - 1], s, i, f.rec) && f.tDisp == run[|run| - 1].now
    ensures FlightTimed(run + [s], i, f)
  {
    hide Dispatches;
    assert (run + [s])[|run| - 1] == run[|run| - 1] && (run + [s])[|run|] == s;
    assert DispatchedAt(run + [s], |run| - 1, i, f.rec, f.tDisp);
  }

  lemma NewFinish(run: seq<State>, s: State, i: nat, j: nat, f: Finish)
    requires run != [] && Files(run[|run| - 1], s, i, j) && f.tDone == run[|run| - 1].now
    requires FlightTimed(run, i, Flight(f.rec, f.tDisp))
    ensures FinishTimed(run + [s], i, j, f)
  {
    hide Dispatches, Files;
    var longer := run + [s];
    var p: nat :| DispatchedAt(run, p, i, f.rec, f.tDisp);
    assert longer[|run| - 1] == run[|run| - 1] && longer[|run|] == s;
    assert longer[p] == run[p] && longer[p + 1] == run[p + 1];
    assert FiledAt(longer, |run| - 1, i, j, f.tDone) && DispatchedAt(longer, p, i, f.rec, f.tDisp);
  }

  lemma TimedStep(total: nat, run: seq<State>, s: State)
    requires run != [] && Inv(total, run[|run| - 1]) && Next(total, run[|run| - 1], s) && AllTimed(run)
    requires |s.members| == |run[|run| - 1].members|
    ensures AllTimed(run + [s])
  {
    hide Next, Inv, MemberTimed;
    forall i | 0 <= i < |s.members| ensures MemberTimed(run + [s], i, s.members[i].view) {
      MemberTimedStep(total, run, s, i);
    }
  }

  lemma MemberTimedStep(total: nat, run: seq<State>, s: State, i: nat)
    requires run != [] && Inv(total, run[|run| - 1]) && Next(total, run[|run| - 1], s)
    requires |s.members| == |run[|run| - 1].members| && i < |s.members|
    requires MemberTimed(run, i, run[|run| - 1].members[i].view)
    ensures MemberTimed(run + [s], i, s.members[i].view)
  {
    hide Next, Inv, FlightTimed, FinishTimed, Dispatches, Files;
    var last := run[|run| - 1];
    StepTimes(total, last, s, i);
    var v, v' := last.members[i].view, s.members[i].view;
    if v'.current.Some? {
      if v' == v { FlightTimedLater(run, s, i, v.current.value); } else { NewFlight(run, s, i, v'.current.value); }
    }
    forall j | 0 <= j < |v'.done| ensures FinishTimed(run + [s], i, j, v'.done[j]) {
      if j < |v.done| { FinishTimedLater(run, s, i, j, v.done[j]); } else { NewFinish(run, s, i, j, v'.done[j]); }
    }
  }

  /** In every run each record at a member carries the clock of the step that dispatched it to that member, and each
      finished one that of the later step at which the member's reader filed it. */
  lemma {:induction false} RecordsCarryTheirClocks(total: nat, run: seq<State>)
    requires IsRun(total, run)
    ensures AllTimed(run)
  {
    hide AllTimed, Next, Inv, Initial;
    var n := |run| - 1;
    if n == 0 {
      NothingTimed(run);
    } else {
      assert IsRun(total, run[..n]);
      RecordsCarryTheirClocks(total, run[..n]);
      RunKeepsInv(total, run[..n]);
      SameCrew(total, run[n - 1], run[n]);
      TimedStep(total, run[..n], run[n]);
      assert run[..n] + [run[n]] == run;
    }
  }

  lemma SameCrew(total: nat, s: State, s': State)
    requires Next(total, s, s')
    ensures |s'.members| == |s.members|
  {
  }

  lemma NothingTimed(run: seq<State>)
    requires |run| == 1 && Initial(run[0])
    ensures AllTimed(run)
  {
  }

  // ---------------------------------------------------------------- the scan

  /** From step `start` to step `end` the dispatcher is in one pass over the flags for record `n`. */
  ghost predicate OnePass(run: seq<State>, n: nat, start: nat, end: nat) {
    && start <= end < |run| && run[start].pc == Scan(n, 0)
    && (forall p :: start <= p <= end ==> run[p].pc.Scan? && run[p].pc.n == n)
    && forall p, q :: start <= p <= q <= end ==> run[p].pc.Scan? && run[q].pc.Scan? && run[p].pc.i <= run[q].pc.i
  }

  /** At step `p` the flag of member `j` is read and found set, or not. */
  predicate ReadsFlag(run: seq<State>, p: nat, n: nat, j: nat, busy: bool) {
    && p < |run| && run[p].pc == Scan(n, j) && j < |run[p].members| && run[p].members[j].view.busy == busy
  }

  ghost predicate FoundBusy(run: seq<State>, n: nat, j: nat, start: nat, end: nat) {
    exists p: nat :: start <= p < end && ReadsFlag(run, p, n, j, true)
  }

  /** One pass has read the flags of all members before `i`, and found them set. */
  ghost predicate PassedOver(run: seq<State>, n: nat, i: nat, start: nat, end: nat) {
    OnePass(run, n, start, end) && forall j: nat :: j < i ==> FoundBusy(run, n, j, start, end)
  }

  ghost predicate Scanning(run: seq<State>, n: nat, i: nat, end: nat) {
    exists start: nat :: PassedOver(run, n, i, start, end)
  }

  ghost predicate ScanOk(run: seq<State>)
    requires run != []
  {
    var s := run[|run| - 1];
    && (s.pc.Scan? ==> Scanning(run, s.pc.n, s.pc.i, |run| - 1))
    && (s.pc.Found? ==> FirstIdle(run, s.pc.n, s.pc.i))
  }

  /** Member `i` was found idle by a pass that had found every member before it busy. */
  ghost predicate FirstIdle(run: seq<State>, n: nat, i: nat) {
    exists start: nat, end: nat :: PassedOver(run, n, i, start, end) && ReadsFlag(run, end, n, i, false)
  }

  lemma PassedOverLater(run: seq<State>, s: State, n: nat, i: nat, start: nat, end: nat)
    requires PassedOver(run, n, i, start, end)
    ensures PassedOver(run + [s], n, i, start, end)
  {
    forall j: nat | j < i ensures FoundBusy(run + [s], n, j, start, end) {
      assert FoundBusy(run, n, j, start, end);
      var p: nat :| start <= p < end && ReadsFlag(run, p, n, j, true);
      assert ReadsFlag(run + [s], p, n, j, true);
    }
  }

  /** A pass goes on with the same flag, or with the next one after finding a flag set. */
  lemma PassGoesOn(run: seq<State>, s: State, n: nat, i: nat, start: nat)
    requires run != [] && PassedOver(run, n, i, start, |run| - 1) && run[|run| - 1].pc == Scan(n, i)
    requires s.pc == Scan(n, i) || (s.pc == Scan(n, i + 1) && ReadsFlag(run, |run| - 1, n, i, true))
    ensures PassedOver(run + [s], n, s.pc.i, start, |run|)
  {
    var longer, last := run + [s], |run| - 1;
    PassedOverLater(run, s, n, i, start, last);
    assert longer[|run|] == s && longer[last] == run[last];
    forall j: nat | j < s.pc.i ensures FoundBusy(longer, n, j, start, |run|) {
      if j < i {
        assert FoundBusy(longer, n, j, start, last);
        var p: nat :| start <= p < last && ReadsFlag(longer, p, n, j, true);
        assert ReadsFlag(longer, p, n, j, true);
      } else {
        assert ReadsFlag(longer, last, n, j, true);
      }
    }
  }

  lemma PassBegins(run: seq<State>, s: State, n: nat)
    requires s.pc == Scan(n, 0)
    ensures PassedOver(run + [s], n, 0, |run|, |run|)
  {
  }

  /** What one step does to the scan. */
  lemma StepScans(total: nat, s: State, s': State)
    requires Next(total, s, s')
    ensures s'.pc.Scan? ==>
      || s'.pc == Scan(s'.pc.n, 0)
      || (s.pc == s'.pc)
      || (s.pc.Scan? && s'.pc == Scan(s.pc.n, s.pc.i + 1) && s.pc.i < |s.members| && s.members[s.pc.i].view.busy)
    ensures s'.pc.Found? ==>
      || s.pc == s'.pc
      || (s.pc == Scan(s'.pc.n, s'.pc.i) && s.pc.i < |s.members| && !s.members[s.pc.i].view.busy)
  {
  }

  lemma ScanStepOk(total: nat, run: seq<State>, s: State)
    requires run != [] && Next(total, run[|run| - 1], s) && ScanOk(run)
    ensures ScanOk(run + [s])
  {
    hide Next, PassedOver, ReadsFlag;
    var longer, last := run + [s], run[|run| - 1];
    StepScans(total, last, s);
    if s.pc.Scan? {
      if s.pc == Scan(s.pc.n, 0) {
        PassBegins(run, s, s.pc.n);
        assert PassedOver(longer, s.pc.n, 0, |run|, |run|);
      } else {
        var start: nat :| PassedOver(run, last.pc.n, last.pc.i, start, |run| - 1);
        if s.pc != last.pc { IsRead(run, last.pc.n, last.pc.i, true); }
        PassGoesOn(run, s, last.pc.n, last.pc.i, start);
      }
    }
    if s.pc.Found? {
      if s.pc == last.pc {
        FirstIdleLater(run, s, s.pc.n, s.pc.i);
      } else {
        var start: nat :| PassedOver(run, last.pc.n, last.pc.i, start, |run| - 1);
        IsRead(run, last.pc.n, last.pc.i, false);
        NowIdle(run, s, last.pc.n, last.pc.i, start, |run| - 1);
      }
    }
  }

  lemma IsRead(run: seq<State>, n: nat, i: nat, busy: bool)
    requires run != [] && run[|run| - 1].pc == Scan(n, i) && i < |run[|run| - 1].members|
    requires run[|run| - 1].members[i].view.busy == busy
    ensures ReadsFlag(run, |run| - 1, n, i, busy)
  {
  }

  lemma NowIdle(run: seq<State>, s: State, n: nat, i: nat, start: nat, end: nat)
    requires PassedOver(run, n, i, start, end) && ReadsFlag(run, end, n, i, false)
    ensures FirstIdle(run + [s], n, i)
  {
    PassedOverLater(run, s, n, i, start, end);
    assert ReadsFlag(run + [s], end, n, i, false);
    hide PassedOver, ReadsFlag;
  }

  lemma FirstIdleLater(run: seq<State>, s: State, n: nat, i: nat)
    requires FirstIdle(run, n, i)
    ensures FirstIdle(run + [s], n, i)
  {
    hide PassedOver, ReadsFlag;
    var start: nat, end: nat :| PassedOver(run, n, i, start, end) && ReadsFlag(run, end, n, i, false);
    NowIdle(run, s, n, i, start, end);
  }

  /** The member a record goes to is the first of the crew that one pass over the flags found idle: the same pass had
      read the flag of every member before it, and found it set. */
  lemma {:induction false} FirstIdleIsChosen(total: nat, run: seq<State>)
    requires IsRun(total, run)
    ensures ScanOk(run)
  {
    hide ScanOk, Next;
    var n := |run| - 1;
    if n == 0 {
      NoScanYet(run);
    } else {
      assert IsRun(total, run[..n]);
      FirstIdleIsChosen(total, run[..n]);
      ScanStepOk(total, run[..n], run[n]);
      assert run[..n] + [run[n]] == run;
    }
  }

  lemma NoScanYet(run: seq<State>)
    requires |run| == 1 && Initial(run[0])
    ensures ScanOk(run)
  {
  }

  // ---------------------------------------------------------------- a replay can finish

  /** A crew at rest before record `n`: the first member has done all records so far, the others none. */
  predicate AtRest(s: State, n: nat) {
    && s.pc == Arrive(n) && s.members != []
    && (forall i :: 0 <= i < |s.members| ==> !s.members[i].view.busy)
    && |s.members[0].owners| <= |s.members[0].sent|
    && (forall j :: 0 <= j < |s.members[0].owners| ==> s.members[0].owners[j] < |s.members[0].sent|)
  }

  lemma Extend(total: nat, run: seq<State>, s: State)
    requires IsRun(total, run) && Next(total, run[|run| - 1], s)
    ensures IsRun(total, run + [s])
  {
    hide Next;
  }

  /** One more record, dispatched, sent and answered. */
  lemma OneMore(total: nat, run: seq<State>, n: nat) returns (longer: seq<State>)
    requires IsRun(total, run) && n < total && AtRest(run[|run| - 1], n)
    ensures IsRun(total, longer) && AtRest(longer[|longer| - 1], n + 1)
    ensures |longer[|longer| - 1].members| == |run[|run| - 1].members|
  {
    var s0 := run[|run| - 1];
    hide IsRun;
    var s1 := ArriveStep(total, s0);
    var s2 := ScanStep(s1);
    var s3 := DispatchStep(s2);
    var s4 := WriteStep(s3);
    var owner := |s4.members[0].sent| - 1;
    assert CanAnswer(s4, 0, owner);
    var s5 := AnswerStep(s4, 0, owner);
    Extend(total, run, s1);
    Extend(total, run + [s1], s2);
    Extend(total, run + [s1] + [s2], s3);
    Extend(total, run + [s1] + [s2] + [s3], s4);
    Extend(total, run + [s1] + [s2] + [s3] + [s4], s5);
    longer := run + [s1] + [s2] + [s3] + [s4] + [s5];
    assert longer[|longer| - 1] == s5;
  }

  lemma {:induction false} AllOfThem(total: nat, s: State, n: nat) returns (run: seq<State>)
    requires Initial(s) && s.members != [] && n <= total
    ensures IsRun(total, run) && AtRest(run[|run| - 1], n) && |run[|run| - 1].members| == |s.members|
    decreases n
  {
    if n == 0 {
      run := [s];
    } else {
      hide IsRun, AtRest, Initial;
      run := AllOfThem(total, s, n - 1);
      run := OneMore(total, run, n - 1);
    }
  }

  lemma {:induction false} DrainAll(total: nat, run: seq<State>, i: nat) returns (longer: seq<State>)
    requires IsRun(total, run) && run[|run| - 1].pc == Drain(i) && i <= |run[|run| - 1].members|
    requires AllIdle(run[|run| - 1].members, |run[|run| - 1].members|)
    ensures IsRun(total, longer) && longer[|longer| - 1] == run[|run| - 1].(pc := Finished)
    decreases |run[|run| - 1].members| - i
  {
    var s := run[|run| - 1];
    var next := DrainStep(s);
    hide IsRun;
    Extend(total, run, next);
    longer := run + [next];
    if i < |s.members| { longer := DrainAll(total, longer, i + 1); }
  }

  /** Every crew of at least one member can replay every stream to its end. */
  lemma ReplayCanFinish(total: nat, s: State) returns (run: seq<State>)
    requires Initial(s) && s.members != []
    ensures IsRun(total, run) && run[|run| - 1].pc == Finished && |run[|run| - 1].members| == |s.members|
  {
    run := AllOfThem(total, s, total);
    var last := run[|run| - 1];
    Extend(total, run, ArriveStep(total, last));
    hide IsRun;
    run := DrainAll(total, run + [ArriveStep(total, last)], 0);
  }
}
