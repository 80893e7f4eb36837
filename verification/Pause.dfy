/** Pausing budget scopes: operators pause and resume, a scheduler lists the rows and then clears those it finds
    expired, one at a time and interleaved with the operators, and every question is answered from the rows. */
module Pause {
  import opened Wrappers
  import Runs

  datatype Target = Target(scope: string, value: string)

  /** Times are milliseconds; autoResume is zero for a pause without an end. */
  datatype Row = Row(reason: string, started: int, autoResume: int)

  datatype Status = Fine | UnknownScope | EmptyValue

  predicate ValidScope(scope: string)
  {
    scope == "project" || scope == "doctrine" || scope == "stage" || scope == "worker_id"
  }

  /** The clock counts nanoseconds and rows keep milliseconds. */
  function Millis(nanos: int): int { nanos / 1_000_000 }

  function Deadline(now: int, duration: int): int { if duration > 0 then Millis(now + duration) else 0 }

  function TriggerStatus(target: Target): Status
  {
    if !ValidScope(target.scope) then UnknownScope else if target.value == "" then EmptyValue else Fine
  }

  function AfterTrigger(rows: map<Target, Row>, target: Target, reason: string, now: int, duration: int)
    : map<Target, Row>
  {
    if TriggerStatus(target).Fine? then
      rows[target := Row(if reason == "" then "unspecified" else reason, Millis(now), Deadline(now, duration))]
    else rows
  }

  function Without(rows: map<Target, Row>, target: Target): map<Target, Row>
  {
    map t | t in rows && t != target :: rows[t]
  }

  function AfterResume(rows: map<Target, Row>, target: Target): map<Target, Row>
  {
    if ValidScope(target.scope) then Without(rows, target) else rows
  }

  predicate Expired(row: Row, before: int) { 0 < row.autoResume <= before }

  /** The store deletes the row only if it has expired when the delete happens. */
  function AfterClear(rows: map<Target, Row>, target: Target, before: int): map<Target, Row>
  {
    if target in rows && Expired(rows[target], before) then Without(rows, target) else rows
  }

  predicate Paused(rows: map<Target, Row>, target: Target, now: int)
  {
    target in rows && (rows[target].autoResume == 0 || rows[target].autoResume > now)
  }

  /** The rows left when everything expired is gone. */
  function Swept(rows: map<Target, Row>, now: int): map<Target, Row>
  {
    map t | t in rows && !Expired(rows[t], now) :: rows[t]
  }

  ghost predicate Lists(order: seq<Target>, rows: map<Target, Row>)
  {
    forall t :: t in rows <==> t in order
  }

  class Pauser {
    var rows: map<Target, Row>

    constructor ()
      ensures rows == map[]
    {
      rows := map[];
    }

    method Trigger(target: Target, reason: string, now: int, duration: int) returns (status: Status)
      modifies this
      ensures rows == AfterTrigger(old(rows), target, reason, now, duration) && status == TriggerStatus(target)
    {
      if !ValidScope(target.scope) {
        return UnknownScope;
      }
      if target.value == "" {
        return EmptyValue;
      }
      var why := reason;
      if why == "" {
        why := "unspecified";
      }
      var autoResume := 0;
      if duration > 0 {
        autoResume := Millis(now + duration);
      }
      rows := rows[target := Row(why, Millis(now), autoResume)];
      return Fine;
    }

    method Resume(target: Target) returns (status: Status)
      modifies this
      ensures rows == AfterResume(old(rows), target)
      ensures status == if ValidScope(target.scope) then Fine else UnknownScope
    {
      if !ValidScope(target.scope) {
        return UnknownScope;
      }
      rows := Without(rows, target);
      return Fine;
    }

    method IsPaused(target: Target, now: int) returns (paused: bool)
      ensures paused == Paused(rows, target, now)
    {
      if target !in rows {
        return false;
      }
      var autoResume := rows[target].autoResume;
      if autoResume == 0 {
        return true;
      }
      return autoResume > now;
    }

    /** A pass that nothing disturbs leaves exactly the rows that have not expired, in whatever order they were
        listed, so the bare presence of a row then answers IsPaused. */
    method RunSchedulerOnce(order: seq<Target>, now: int)
      requires Lists(order, rows)
      modifies this
      ensures rows == Swept(old(rows), now)
      ensures forall t, later :: now <= later ==> (Paused(rows, t, later) <==> Paused(old(rows), t, later))
      ensures forall t :: t in rows <==> Paused(old(rows), t, now) || (t in old(rows) && old(rows)[t].autoResume < 0)
    {
      ghost var was := rows;
      var listed := rows;
      var i := 0;
      while i < |order|
        invariant 0 <= i <= |order|
        invariant listed == was
        invariant forall t :: t in rows ==> t in was && rows[t] == was[t]
        invariant forall t :: t in was && t !in rows ==> Expired(was[t], now)
        invariant forall j :: 0 <= j < i && order[j] in rows ==> !Expired(rows[order[j]], now)
      {
        var r := listed[order[i]];
        if r.autoResume != 0 && r.autoResume <= now {
          rows := AfterClear(rows, order[i], now);
        }
        i := i + 1;
      }
    }
  }

  // ----- Interleaved runs -----

  datatype Event =
    | Trigger(target: Target, reason: string, now: int, duration: int)
    | Resume(target: Target)
    | List(order: seq<Target>)
    | Tick(now: int)
    | Next

  datatype Item = Item(target: Target, autoResume: int)

  /** The rows, and the scheduler's pass: what it listed and has yet to look at, and its clock reading. */
  datatype State = State(rows: map<Target, Row>, listed: seq<Item>, clock: Option<int>)

  function Items(order: seq<Target>, rows: map<Target, Row>): seq<Item>
  {
    if order == [] then []
    else
      var t, rest := order[0], Items(order[1..], rows);
      if t in rows then [Item(t, rows[t].autoResume)] + rest else rest
  }

  /** Operators write at any moment; the scheduler lists, reads its clock, and then takes one listed row at a time. */
  function Step(s: State, e: Event): State
  {
    match e
    case Trigger(target, reason, now, duration) => s.(rows := AfterTrigger(s.rows, target, reason, now, duration))
    case Resume(target) => s.(rows := AfterResume(s.rows, target))
    case List(order) => s.(listed := Items(order, s.rows), clock := None)
    case Tick(now) => s.(clock := Some(now))
    case Next =>
      if s.clock.None? || s.listed == [] then s
      else
        var item, now := s.listed[0], s.clock.value;
        var expired := item.autoResume != 0 && item.autoResume <= now;
        var rows := if expired then AfterClear(s.rows, item.target, now) else s.rows;
        s.(rows := rows, listed := s.listed[1..])
  }

  const START := State(map[], [], None)

  function Stepper(): (State, Event) -> State { (s, e) => Step(s, e) }

  function After(s: State, events: seq<Event>): State { Runs.Fold(Stepper(), s, events) }

  function Run(events: seq<Event>): State { After(START, events) }

  predicate Operator(e: Event) { e.Trigger? || e.Resume? }

  /** The rows had the scheduler never run. */
  function Undisturbed(events: seq<Event>): map<Target, Row>
  {
    if events == [] then map[]
    else
      var before, e := Undisturbed(events[..|events| - 1]), events[|events| - 1];
      if Operator(e) then Step(State(before, [], None), e).rows else before
  }

  predicate TicksBy(events: seq<Event>, t: int)
  {
    forall i :: 0 <= i < |events| && events[i].Tick? ==> events[i].now <= t
  }

  /** The scheduler only ever removes rows, and only rows that had expired by one of its clock readings. */
  ghost predicate OnlyExpiredGone(s: State, reference: map<Target, Row>, t: int)
  {
    && (forall x :: x in s.rows ==> x in reference && s.rows[x] == reference[x])
    && (forall x :: x in reference && x !in s.rows ==> Expired(reference[x], t))
    && (s.clock.Some? ==> s.clock.value <= t)
  }

  lemma {:induction false} SchedulerRemovesOnlyExpired(events: seq<Event>, t: int)
    requires TicksBy(events, t)
    ensures OnlyExpiredGone(Run(events), Undisturbed(events), t)
  {
    if events != [] {
      var before, e := events[..|events| - 1], events[|events| - 1];
      SchedulerRemovesOnlyExpired(before, t);
      assert e.Tick? ==> e.now <= t;
    }
  }

  /** Whatever the interleaving, the scheduler changes no answer at or after its clock readings. */
  lemma SchedulerInvisible(events: seq<Event>, target: Target, t: int)
    requires TicksBy(events, t)
    ensures Paused(Run(events).rows, target, t) <==> Paused(Undisturbed(events), target, t)
  {
    SchedulerRemovesOnlyExpired(events, t);
  }

  // ----- What the history says -----

  /** Whether an operator event is accepted and concerns the target. */
  predicate Concerns(e: Event, target: Target)
  {
    || (e.Trigger? && e.target == target && TriggerStatus(target).Fine?)
    || (e.Resume? && e.target == target && ValidScope(target.scope))
  }

  /** The last accepted operator event on the target is a trigger that is still in force. */
  predicate InForce(events: seq<Event>, target: Target, t: int)
  {
    exists i :: 0 <= i < |events| && Concerns(events[i], target) && LastWord(events, i, target) && Holds(events[i], t)
  }

  predicate LastWord(events: seq<Event>, i: nat, target: Target)
  {
    forall j :: i < j < |events| ==> !Concerns(events[j], target)
  }

  predicate Holds(e: Event, t: int)
  {
    e.Trigger? && (e.duration <= 0 || Millis(e.now + e.duration) > t || Millis(e.now + e.duration) == 0)
  }

  lemma {:induction false} LastTriggerStands(events: seq<Event>, target: Target, t: int)
    ensures Paused(Undisturbed(events), target, t) <==> InForce(events, target, t)
  {
    if events != [] {
      var n := |events| - 1;
      var before, e := events[..n], events[n];
      LastTriggerStands(before, target, t);
      if Concerns(e, target) {
        assert LastWord(events, n, target);
        assert InForce(events, target, t) <==> Holds(e, t);
      } else {
        forall i: nat | i < n
          ensures LastWord(events, i, target) <==> LastWord(before, i, target)
        {
          assert forall j :: i < j < n ==> before[j] == events[j];
        }
        assert InForce(events, target, t) <==> InForce(before, target, t);
      }
    }
  }

  /** The row says what the last trigger said: its reason if it gave one, its time and its deadline in milliseconds. */
  predicate RowTells(row: Row, e: Event)
  {
    && e.Trigger?
    && row.reason == (if e.reason == "" then "unspecified" else e.reason)
    && row.started == e.now / 1_000_000
    && row.autoResume == (if e.duration > 0 then (e.now + e.duration) / 1_000_000 else 0)
  }

  lemma {:induction false} LastTriggerWrites(events: seq<Event>, target: Target) returns (i: nat)
    requires target in Undisturbed(events)
    ensures i < |events| && Concerns(events[i], target) && LastWord(events, i, target)
    ensures RowTells(Undisturbed(events)[target], events[i])
  {
    i := |events| - 1;
    if !Concerns(events[i], target) {
      i := LastTriggerWrites(events[..|events| - 1], target);
      assert forall j :: i < j < |events| - 1 ==> events[..|events| - 1][j] == events[j];
    }
  }

  /** In every interleaving each row is the one that the operators' last word on its target wrote. */
  lemma RowIsLastTrigger(events: seq<Event>, target: Target, t: int) returns (i: nat)
    requires TicksBy(events, t) && target in Run(events).rows
    ensures i < |events| && Concerns(events[i], target) && LastWord(events, i, target)
    ensures RowTells(Run(events).rows[target], events[i])
  {
    SchedulerRemovesOnlyExpired(events, t);
    i := LastTriggerWrites(events, target);
  }

  /** IsPaused answers from the operators' history alone. */
  lemma AnswersFromHistory(events: seq<Event>, target: Target, t: int)
    requires TicksBy(events, t)
    ensures Paused(Run(events).rows, target, t) <==> InForce(events, target, t)
  {
    SchedulerInvisible(events, target, t);
    LastTriggerStands(events, target, t);
  }

  lemma NextMilli(now: int, duration: int)
    requires duration > 0
    ensures Millis(now + duration) > Millis(now) <==> now % 1_000_000 + duration >= 1_000_000
  {
    var q, r := now / 1_000_000, now % 1_000_000;
    assert now == q * 1_000_000 + r;
  }

  lemma RunAppend(events: seq<Event>, e: Event)
    ensures Run(events + [e]) == Step(Run(events), e)
  {
    Runs.FoldSnoc(Stepper(), START, events, e);
  }

  /** A trigger takes effect at once unless its duration is too short to reach the next millisecond. */
  lemma TriggerTakesEffectExactlyWhen(events: seq<Event>, target: Target, reason: string, now: int, duration: int)
    requires TriggerStatus(target).Fine? && TicksBy(events, Millis(now)) && now >= 1_000_000
    ensures Paused(Run(events + [Trigger(target, reason, now, duration)]).rows, target, Millis(now))
            <==> duration <= 0 || now % 1_000_000 + duration >= 1_000_000
  {
    var trigger := Trigger(target, reason, now, duration);
    RunAppend(events, trigger);
    if duration > 0 {
      NextMilli(now, duration);
    }
  }

  // ----- The raw row after an undisturbed pass -----

  /** The first events of a pass: the listing, the clock reading, and n listed rows looked at. */
  function PassUpTo(order: seq<Target>, now: int, n: nat): seq<Event>
  {
    if n == 0 then [List(order), Tick(now)] else PassUpTo(order, now, n - 1) + [Next]
  }

  function Pass(order: seq<Target>, now: int): seq<Event> { PassUpTo(order, now, |order|) }

  lemma {:induction false} ItemsAll(order: seq<Target>, rows: map<Target, Row>)
    requires forall t :: t in order ==> t in rows
    ensures Items(order, rows) == seq(|order|, i requires 0 <= i < |order| && order[i] in rows =>
                                                 Item(order[i], rows[order[i]].autoResume))
  {
    if order != [] {
      ItemsAll(order[1..], rows);
    }
  }

  /** The rows while a pass is under way: those already looked at are gone if expired. */
  ghost predicate PartSwept(rows: map<Target, Row>, was: map<Target, Row>, order: seq<Target>, n: nat, now: int)
  {
    && (forall t :: t in rows ==> t in was && rows[t] == was[t])
    && (forall t :: t in was && t !in rows ==> Expired(was[t], now))
    && (forall j :: 0 <= j < n && j < |order| && order[j] in rows ==> !Expired(rows[order[j]], now))
  }

  ghost predicate MidPass(s: State, was: map<Target, Row>, order: seq<Target>, n: nat, now: int)
  {
    && PartSwept(s.rows, was, order, n, now) && s.clock == Some(now)
    && n <= |order| == |Items(order, was)| && s.listed == Items(order, was)[n..]
  }

  lemma OneMore(s: State, was: map<Target, Row>, order: seq<Target>, n: nat, now: int)
    requires Lists(order, was) && n < |order| && MidPass(s, was, order, n, now)
    ensures MidPass(Step(s, Next), was, order, n + 1, now)
  {
    ItemsAll(order, was);
    assert s.listed[0] == Item(order[n], was[order[n]].autoResume);
  }

  lemma PassBegins(s: State, order: seq<Target>, now: int)
    ensures After(s, PassUpTo(order, now, 0)) == Step(Step(s, List(order)), Tick(now))
  {
    assert [List(order), Tick(now)] == [List(order)] + [Tick(now)];
    Runs.FoldOne(Stepper(), s, List(order));
    Runs.FoldSnoc(Stepper(), s, [List(order)], Tick(now));
  }

  lemma {:induction false} PassSoFar(s: State, order: seq<Target>, now: int, n: nat)
    requires Lists(order, s.rows) && n <= |order|
    ensures MidPass(After(s, PassUpTo(order, now, n)), s.rows, order, n, now)
  {
    if n == 0 {
      ItemsAll(order, s.rows);
      PassBegins(s, order, now);
    } else {
      var prior := PassUpTo(order, now, n - 1);
      PassSoFar(s, order, now, n - 1);
      OneMore(After(s, prior), s.rows, order, n - 1, now);
      Runs.FoldSnoc(Stepper(), s, prior, Next);
    }
  }

  /** A pass with no operator event in between leaves exactly the rows that have not expired. */
  lemma PassSweeps(events: seq<Event>, order: seq<Target>, now: int)
    requires Lists(order, Run(events).rows)
    ensures Run(events + Pass(order, now)).rows == Swept(Run(events).rows, now)
  {
    Runs.FoldAppend(Stepper(), START, events, Pass(order, now));
    PassSoFar(Run(events), order, now, |order|);
  }

  /** No trigger asked for a deadline before the epoch. */
  predicate AfterEpoch(events: seq<Event>)
  {
    forall i :: 0 <= i < |events| && events[i].Trigger? ==> Deadline(events[i].now, events[i].duration) >= 0
  }

  lemma {:induction false} NoNegativeDeadline(events: seq<Event>)
    requires AfterEpoch(events)
    ensures forall t :: t in Undisturbed(events) ==> Undisturbed(events)[t].autoResume >= 0
  {
    if events != [] {
      NoNegativeDeadline(events[..|events| - 1]);
      var e := events[|events| - 1];
      assert e.Trigger? ==> Deadline(e.now, e.duration) >= 0;
    }
  }

  /** After such a pass the presence of a row, which is all the gate looks at, is the operators' last word. */
  lemma RawFlagAfterPass(events: seq<Event>, order: seq<Target>, now: int, target: Target)
    requires TicksBy(events, now) && AfterEpoch(events) && Lists(order, Run(events).rows)
    ensures target in Run(events + Pass(order, now)).rows <==> InForce(events, target, now)
  {
    PassSweeps(events, order, now);
    AnswersFromHistory(events, target, now);
    SchedulerRemovesOnlyExpired(events, now);
    NoNegativeDeadline(events);
  }

  // ----- When the raw row is right -----

  /** The deadline of a row has passed. */
  predicate Stale(row: Row, t: int) { row.autoResume != 0 && row.autoResume <= t }

  /** At any moment of any run, the presence of a row is the operators' last word exactly when the row is not one whose
      deadline has passed and that no pass has cleared yet. */
  lemma RawFlagRightExactlyWhen(events: seq<Event>, target: Target, t: int)
    requires TicksBy(events, t)
    ensures (target in Run(events).rows <==> InForce(events, target, t))
            <==> !(target in Run(events).rows && Stale(Run(events).rows[target], t))
  {
    AnswersFromHistory(events, target, t);
  }

  const PROJECT := Target("project", "p")

  /** A pause of five milliseconds from the first on. */
  const BRIEF := [Trigger(PROJECT, "busy", 1_000_000, 5_000_000)]

  /** The row of such a pause is still there when the pause is long over, if no pass has come. */
  lemma RawFlagCanBeStale()
    ensures TicksBy(BRIEF, 10) && PROJECT in Run(BRIEF).rows
    ensures !Paused(Run(BRIEF).rows, PROJECT, 10) && !InForce(BRIEF, PROJECT, 10)
    ensures forall target :: target in Run(BRIEF).rows <==> target == PROJECT
  {
    assert BRIEF == [] + BRIEF;
    RunAppend([], BRIEF[0]);
    assert Run(BRIEF).rows == map[PROJECT := Row("busy", 1, 6)];
    AnswersFromHistory(BRIEF, PROJECT, 10);
  }
}
