/** The heartbeat probe: an index of the last beat of every worker, brought up to date from a cursor into an
    append-only event log, against replaying the whole log at every poll. */
module Heartbeat {
  import Runs

  datatype Kind = WorkerDispatched | WorkerCheckpoint | OtherKind

  /** An event; the payload is what decoding its JSON finds under worker_id. */
  datatype Record = Record(id: int, session: string, kind: Kind, payload: Payload, timestamp: int)

  datatype Payload = Absent | Malformed | Worker(id: string)

  datatype Answer = Found(beats: map<string, int>) | QueryFailed

  const DAEMON_SESSION := "daemon-plan5-background"

  function SessionOf(configured: string): string { if configured == "" then DAEMON_SESSION else configured }

  /** What one event does to the index. */
  function Beat(beats: map<string, int>, r: Record): map<string, int>
  {
    if !r.kind.OtherKind? && r.payload.Worker? && r.payload.id != "" then beats[r.payload.id := r.timestamp] else beats
  }

  /** The store's promise about a query: the session's events after the cursor, in the order of the log. */
  function Query(log: seq<Record>, session: string, after: int): seq<Record>
  {
    if log == [] then []
    else
      var last, before := log[|log| - 1], Query(log[..|log| - 1], session, after);
      if last.session == session && last.id > after then before + [last] else before
  }

  function Beater(): (map<string, int>, Record) -> map<string, int> { (beats, r) => Beat(beats, r) }

  function Beats(beats: map<string, int>, records: seq<Record>): map<string, int>
  {
    Runs.Fold(Beater(), beats, records)
  }

  function Newest(cursor: int, records: seq<Record>): int
  {
    if records == [] then cursor
    else
      var before, id := Newest(cursor, records[..|records| - 1]), records[|records| - 1].id;
      if id > before then id else before
  }

  /** The last beat of every worker of the session, by replaying the whole log. */
  function Replay(log: seq<Record>, session: string): map<string, int> { Beats(map[], Query(log, session, 0)) }

  datatype Index = Index(lastSeen: int, beats: map<string, int>)

  function AfterPoll(index: Index, log: seq<Record>, session: string): Index
  {
    var records := Query(log, session, index.lastSeen);
    Index(Newest(index.lastSeen, records), Beats(index.beats, records))
  }

  class Probe {
    const sessionId: string
    var lastSeen: int
    var beats: map<string, int>

    constructor (session: string)
      ensures sessionId == session && View() == Index(0, map[])
    {
      sessionId, lastSeen, beats := session, 0, map[];
    }

    ghost function View(): Index
      reads this
    {
      Index(lastSeen, beats)
    }

    /** A poll; the query may fail, and then nothing changes. */
    method LastBeats(log: seq<Record>, queryOk: bool) returns (answer: Answer)
      modifies this
      ensures View() == if queryOk then AfterPoll(old(View()), log, SessionOf(sessionId)) else old(View())
      ensures answer == if queryOk then Found(beats) else QueryFailed
      ensures queryOk && sessionId == "" ==> View() == AfterPoll(old(View()), log, "daemon-plan5-background")
      ensures queryOk && sessionId != "" ==> View() == AfterPoll(old(View()), log, sessionId)
    {
      if !queryOk {
        return QueryFailed;
      }
      var session := sessionId;
      if session == "" {
        session := DAEMON_SESSION;
      }
      var records := Query(log, session, lastSeen);
      ghost var start := View();
      var i := 0;
      while i < |records|
        invariant 0 <= i <= |records|
        invariant lastSeen == Newest(start.lastSeen, records[..i])
        invariant beats == Beats(start.beats, records[..i])
      {
        var r := records[i];
        assert records[..i + 1][..i] == records[..i];
        if r.id > lastSeen {
          lastSeen := r.id;
        }
        i := i + 1;
        if r.kind.OtherKind? || !r.payload.Worker? || r.payload.id == "" {
          continue;
        }
        beats := beats[r.payload.id := r.timestamp];
      }
      assert records[..i] == records;
      return Found(beats);
    }
  }

  // ----- Appends and polls interleaved -----

  /** Ids start at one and grow along the log. */
  ghost predicate InOrder(log: seq<Record>)
  {
    && (forall i :: 0 <= i < |log| ==> log[i].id >= 1)
    && (forall i, j :: 0 <= i < j < |log| ==> log[i].id < log[j].id)
  }

  datatype Event = Append(r: Record) | Poll(queryOk: bool)

  datatype State = State(log: seq<Record>, index: Index, answers: seq<Answer>)

  /** The log takes an event only with a larger id than any before. */
  function Step(s: State, e: Event, session: string): State
  {
    match e
    case Append(r) =>
      if r.id > LastId(s.log) then s.(log := s.log + [r]) else s
    case Poll(false) => s.(answers := s.answers + [QueryFailed])
    case Poll(true) =>
      var index := AfterPoll(s.index, s.log, session);
      s.(index := index, answers := s.answers + [Found(index.beats)])
  }

  function Stepper(session: string): (State, Event) -> State { (s, e) => Step(s, e, session) }

  const START := State([], Index(0, map[]), [])

  function Run(events: seq<Event>, session: string): State { Runs.Fold(Stepper(session), START, events) }

  function LastId(log: seq<Record>): int { if log == [] then 0 else log[|log| - 1].id }

  /** The index is the replay of what the cursor has passed. */
  ghost predicate UpTo(log: seq<Record>, index: Index, session: string, k: nat)
  {
    && InOrder(log) && k <= |log| && 0 <= index.lastSeen <= LastId(log)
    && (forall i :: 0 <= i < k && log[i].session == session ==> log[i].id <= index.lastSeen)
    && (forall i :: k <= i < |log| ==> log[i].id > index.lastSeen)
    && index.beats == Replay(log[..k], session)
  }

  /** Asking from the cursor gives exactly what the whole log adds to the part already passed. */
  lemma {:induction false} QueryFromCursor(log: seq<Record>, session: string, cursor: int, k: nat)
    requires InOrder(log) && k <= |log| && cursor >= 0
    requires forall i :: 0 <= i < k && log[i].session == session ==> log[i].id <= cursor
    requires forall i :: k <= i < |log| ==> log[i].id > cursor
    ensures Query(log, session, 0) == Query(log[..k], session, 0) + Query(log, session, cursor)
  {
    if k == |log| {
      assert log[..k] == log;
      NothingNew(log, session, cursor);
    } else {
      var n := |log| - 1;
      QueryFromCursor(log[..n], session, cursor, k);
      assert log[..n][..k] == log[..k];
    }
  }

  lemma {:induction false} NothingNew(log: seq<Record>, session: string, cursor: int)
    requires forall i :: 0 <= i < |log| && log[i].session == session ==> log[i].id <= cursor
    ensures Query(log, session, cursor) == []
  {
    if log != [] {
      NothingNew(log[..|log| - 1], session, cursor);
    }
  }

  lemma NewestNext(records: seq<Record>, r: Record, cursor: int)
    ensures Newest(cursor, records + [r]) == if r.id > Newest(cursor, records) then r.id else Newest(cursor, records)
  {
    assert (records + [r])[..|records|] == records;
  }

  lemma {:induction false} NewestBounds(log: seq<Record>, session: string, cursor: int)
    ensures var n := Newest(cursor, Query(log, session, cursor));
            && cursor <= n
            && (forall i :: 0 <= i < |log| && log[i].session == session ==> log[i].id <= n)
            && (n == cursor || exists i :: 0 <= i < |log| && log[i].id == n)
  {
    if log != [] {
      var front, last := log[..|log| - 1], log[|log| - 1];
      NewestBounds(front, session, cursor);
      NewestNext(Query(front, session, cursor), last, cursor);
      assert forall i :: 0 <= i < |front| ==> log[i] == front[i];
    }
  }

  /** One poll brings the index up to the whole log. */
  lemma PollCatchesUp(log: seq<Record>, index: Index, session: string, k: nat)
    requires UpTo(log, index, session, k)
    ensures AfterPoll(index, log, session).beats == Replay(log, session)
    ensures UpTo(log, AfterPoll(index, log, session), session, |log|)
  {
    QueryFromCursor(log, session, index.lastSeen, k);
    Runs.FoldAppend(Beater(), map[], Query(log[..k], session, 0), Query(log, session, index.lastSeen));
    NewestBounds(log, session, index.lastSeen);
    assert log[..|log|] == log;
  }

  lemma AppendKeeps(log: seq<Record>, r: Record, index: Index, session: string, k: nat)
    requires UpTo(log, index, session, k) && r.id > LastId(log)
    ensures UpTo(log + [r], index, session, k)
  {
    assert (log + [r])[..k] == log[..k];
  }

  lemma {:induction false} RunUpTo(events: seq<Event>, session: string) returns (k: nat)
    ensures UpTo(Run(events, session).log, Run(events, session).index, session, k)
  {
    k := 0;
    if events != [] {
      var s, e := Run(events[..|events| - 1], session), events[|events| - 1];
      k := RunUpTo(events[..|events| - 1], session);
      if e.Poll? && e.queryOk {
        PollCatchesUp(s.log, s.index, session, k);
        k := |s.log|;
      } else if e.Append? && e.r.id > LastId(s.log) {
        AppendKeeps(s.log, e.r, s.index, session, k);
      }
    }
  }

  /** However appends and polls interleave, every successful poll answers with the replay of the whole log. */
  lemma PollIsReplay(events: seq<Event>, session: string)
    ensures var s := Run(events, session);
            AfterPoll(s.index, s.log, session).beats == Replay(s.log, session)
  {
    var k := RunUpTo(events, session);
    PollCatchesUp(Run(events, session).log, Run(events, session).index, session, k);
  }

  // ----- The same run with a probe that has no index -----

  datatype Plain = Plain(log: seq<Record>, answers: seq<Answer>)

  /** Every poll replays the whole log. */
  function PlainStep(s: Plain, e: Event, session: string): Plain
  {
    match e
    case Append(r) => if r.id > LastId(s.log) then s.(log := s.log + [r]) else s
    case Poll(false) => s.(answers := s.answers + [QueryFailed])
    case Poll(true) => s.(answers := s.answers + [Found(Replay(s.log, session))])
  }

  function PlainStepper(session: string): (Plain, Event) -> Plain { (s, e) => PlainStep(s, e, session) }

  function PlainRun(events: seq<Event>, session: string): Plain
  {
    Runs.Fold(PlainStepper(session), Plain([], []), events)
  }

  /** The answers to all polls of a run, each at its own moment, are those of replaying the log every time. */
  lemma {:induction false} AnswersAreReplays(events: seq<Event>, session: string)
    ensures var s, plain := Run(events, session), PlainRun(events, session);
            s.log == plain.log && s.answers == plain.answers
  {
    if events != [] {
      AnswersAreReplays(events[..|events| - 1], session);
      PollIsReplay(events[..|events| - 1], session);
    }
  }

  // ----- What a replay says -----

  /** The replay itself: a worker is listed with the time of its last beat, and only if it has one. */
  lemma {:induction false} ReplayMeans(log: seq<Record>, session: string, worker: string, i: nat)
    requires i < |log| && BeatOf(log[i], session, worker)
    requires forall j :: i < j < |log| ==> !BeatOf(log[j], session, worker)
    requires InOrder(log)
    ensures worker in Replay(log, session) && Replay(log, session)[worker] == log[i].timestamp
  {
    var n := |log| - 1;
    FoldLast(log, session);
    if i < n {
      ReplayMeans(log[..n], session, worker, i);
    }
  }

  predicate BeatOf(r: Record, session: string, worker: string)
  {
    r.session == session && !r.kind.OtherKind? && r.payload == Worker(worker) && worker != ""
  }

  lemma FoldLast(log: seq<Record>, session: string)
    requires log != [] && log[|log| - 1].id >= 1
    ensures var last, before := log[|log| - 1], Replay(log[..|log| - 1], session);
            Replay(log, session) == if last.session == session then Beat(before, last) else before
  {
    var q, last := Query(log[..|log| - 1], session, 0), log[|log| - 1];
    assert (q + [last])[..|q|] == q;
  }

  lemma {:induction false} RunInOrder(events: seq<Event>, session: string)
    ensures InOrder(Run(events, session).log)
  {
    var k := RunUpTo(events, session);
  }

  lemma PollAnswers(events: seq<Event>, session: string)
    ensures var s := Run(events, session);
            Run(events + [Poll(true)], session).answers == s.answers + [Found(Replay(s.log, session))]
  {
    Runs.FoldSnoc(Stepper(session), START, events, Poll(true));
    PollIsReplay(events, session);
  }

  lemma AppendGrows(events: seq<Event>, session: string, r: Record)
    requires r.id > LastId(Run(events, session).log)
    ensures Run(events + [Append(r)], session).log == Run(events, session).log + [r]
  {
    Runs.FoldSnoc(Stepper(session), START, events, Append(r));
  }

  lemma LastBeatCounts(log: seq<Record>, r: Record, session: string, worker: string)
    requires InOrder(log + [r]) && BeatOf(r, session, worker)
    ensures worker in Replay(log + [r], session) && Replay(log + [r], session)[worker] == r.timestamp
  {
    ReplayMeans(log + [r], session, worker, |log|);
  }

  /** A beat that is appended is reported by the next poll, whatever happened before. */
  lemma BeatIsSeen(events: seq<Event>, session: string, r: Record, worker: string)
    requires r.id > LastId(Run(events, session).log) && BeatOf(r, session, worker)
    ensures var answers := Run(events + [Append(r)] + [Poll(true)], session).answers;
            && answers != [] && var last := answers[|answers| - 1];
            last.Found? && worker in last.beats && last.beats[worker] == r.timestamp
  {
    var grown := events + [Append(r)];
    AppendGrows(events, session, r);
    PollAnswers(grown, session);
    RunInOrder(grown, session);
    LastBeatCounts(Run(events, session).log, r, session, worker);
  }

  lemma {:induction false} SilentNotListed(log: seq<Record>, session: string, worker: string)
    requires InOrder(log) && forall j :: 0 <= j < |log| ==> !BeatOf(log[j], session, worker)
    ensures worker !in Replay(log, session)
  {
    if log != [] {
      FoldLast(log, session);
      SilentNotListed(log[..|log| - 1], session, worker);
    }
  }
}
