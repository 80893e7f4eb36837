/** Concurrent augmentation runs as a step system: the admission gate with its condition variable and cancellation
    watchers, the budget check before the work, and the commit after it. Every critical section is one step, so a run
    of the system is any interleaving of the callers. Dollars are counted in tokens: every amount the gate compares is
    a whole number of tokens times one fixed price. */
module Admission {
  import opened AugmentTypes
  import Truncation
  import Runs

  // ----- The counters behind the lock -----

  datatype Slots = Slots(inflight: int, queued: int, condReady: bool)

  datatype Grant = InFlight | InQueue | Refused

  datatype Outcome = Enter | GiveUp | Sleep

  function AfterAcquire(s: Slots, maxInflight: int, maxQueue: int): (Slots, Grant)
  {
    var s := s.(condReady := true);
    if s.inflight < maxInflight then (s.(inflight := s.inflight + 1), InFlight)
    else if s.queued >= maxQueue then (s, Refused)
    else (s.(queued := s.queued + 1), InQueue)
  }

  /** One pass of the waiting loop, from taking the lock to giving it up. */
  function AfterTurn(s: Slots, maxInflight: int, cancelled: bool): (Slots, Outcome)
  {
    var s := s.(condReady := true);
    if s.inflight < maxInflight then (s.(inflight := s.inflight + 1, queued := s.queued - 1), Enter)
    else if cancelled then (s.(queued := s.queued - 1), GiveUp)
    else (s, Sleep)
  }

  function AfterRelease(s: Slots): Slots { s.(inflight := s.inflight - 1) }

  class PipelineRuntime {
    var inflight: int
    var queued: int
    var condReady: bool

    constructor ()
      ensures View() == Slots(0, 0, false)
    {
      inflight, queued, condReady := 0, 0, false;
    }

    ghost function View(): Slots
      reads this
    {
      Slots(inflight, queued, condReady)
    }

    method TryAcquire(maxInflight: int, maxQueue: int) returns (grant: Grant)
      modifies this
      ensures (View(), grant) == AfterAcquire(old(View()), maxInflight, maxQueue)
      ensures grant.InFlight? <==> old(inflight) < maxInflight
      ensures grant.InQueue? <==> old(inflight) >= maxInflight && old(queued) < maxQueue
      ensures inflight == old(inflight) + if grant.InFlight? then 1 else 0
      ensures queued == old(queued) + if grant.InQueue? then 1 else 0
      ensures condReady
    {
      condReady := true;
      if inflight < maxInflight {
        inflight := inflight + 1;
        return InFlight;
      }
      if queued >= maxQueue {
        return Refused;
      }
      queued := queued + 1;
      return InQueue;
    }

    method WaitTurn(maxInflight: int, cancelled: bool) returns (outcome: Outcome)
      modifies this
      ensures (View(), outcome) == AfterTurn(old(View()), maxInflight, cancelled)
      ensures outcome.Enter? <==> old(inflight) < maxInflight
      ensures outcome.GiveUp? <==> old(inflight) >= maxInflight && cancelled
      ensures inflight == old(inflight) + if outcome.Enter? then 1 else 0
      ensures queued == old(queued) - if outcome.Sleep? then 0 else 1
      ensures condReady
    {
      condReady := true;
      if inflight >= maxInflight {
        if cancelled {
          queued := queued - 1;
          return GiveUp;
        }
        return Sleep;
      }
      queued := queued - 1;
      inflight := inflight + 1;
      return Enter;
    }

    /** Gives the slot back; the result says whether there is anyone to wake. */
    method Release() returns (broadcast: bool)
      modifies this
      ensures View() == AfterRelease(old(View())) && broadcast == old(condReady)
      ensures inflight == old(inflight) - 1 && queued == old(queued) && condReady == old(condReady)
    {
      inflight := inflight - 1;
      broadcast := condReady;
    }
  }

  // ----- The budget gate and its ledger -----

  datatype Entry = Entry(requestId: string, projectId: string, tokens: int)

  function Spent(ledger: seq<Entry>, projectId: string): int
  {
    if ledger == [] then 0
    else
      var last := ledger[|ledger| - 1];
      Spent(ledger[..|ledger| - 1], projectId) + if last.projectId == projectId then last.tokens else 0
  }

  predicate Recorded(ledger: seq<Entry>, requestId: string)
  {
    exists i :: 0 <= i < |ledger| && ledger[i].requestId == requestId
  }

  /** Inserting is idempotent on the request id, across projects. */
  function Inserted(ledger: seq<Entry>, e: Entry): seq<Entry>
  {
    if Recorded(ledger, e.requestId) then ledger else ledger + [e]
  }

  datatype CheckResult = BadRequest | Blocked | Proceed

  function BudgetCheck(rolled: int, requested: int, cap: int): CheckResult
  {
    if requested <= 0 || cap < 0 then BadRequest
    else if rolled + requested > cap then Blocked
    else Proceed
  }

  /** How the store answers the question what a project has spent: by the ledger, as the gate's contract has it, or
      with the constant zero, as the adapter now wired in does. */
  datatype Reading = SumsLedger | AlwaysZero

  function Rolled(reading: Reading, ledger: seq<Entry>, projectId: string): int
  {
    if reading.SumsLedger? then Spent(ledger, projectId) else 0
  }

  // ----- Callers and steps -----

  datatype Request = Request(prompt: string, projectId: string, requestId: string, doctrine: string, maxKgTokens: int)

  datatype Phase = Arrived | Ready | Queued | Awake | Asleep | Admitted | Checked | Leaving | Finished

  datatype Watcher = NotStarted | Watching | Ended

  datatype Caller = Caller(req: Request, phase: Phase, cancelled: bool, watcher: Watcher)

  datatype Config = Config(maxInflight: nat, maxQueue: nat, reading: Reading)

  datatype State = State(slots: Slots, callers: seq<Caller>, ledger: seq<Entry>)

  datatype Event =
    | Arrive(req: Request)
    | Cancel(id: nat)
    | CheckContext(id: nat)
    | Acquire(id: nat)
    | StartWatcher(id: nat)
    | Turn(id: nat)
    | WatcherFire(id: nat)
    | WatcherStop(id: nat)
    | Fail(id: nat)
    | Check(id: nat)
    | Spend(id: nat, summaries: seq<CommunitySummary>, fused: seq<FusedResult>)
    | Release(id: nat)

  function Meta(req: Request): ProjectMeta
  {
    ProjectMeta(req.projectId, if req.doctrine == "" then "default" else req.doctrine, "")
  }

  /** What a run is charged: the estimate of the context left by the truncation guard. */
  function Charge(req: Request, summaries: seq<CommunitySummary>, fused: seq<FusedResult>): nat
  {
    var st := StaticContext(Meta(req), summaries, Truncation.StaticTokens(Meta(req), summaries));
    var vo := VolatileContext(fused, [], [], Truncation.VolatileTokens(fused, [], []));
    var kept := Truncation.Kept(st, vo, req.maxKgTokens);
    kept.0.tokens + kept.1.tokens
  }

  function Woken(c: Caller): Caller
  {
    if c.phase.Asleep? then c.(phase := Awake) else c
  }

  function WakeAll(callers: seq<Caller>): seq<Caller>
  {
    seq(|callers|, i requires 0 <= i < |callers| => Woken(callers[i]))
  }

  /** Broadcast does nothing until the condition variable exists. */
  function Broadcast(s: State): State
  {
    if s.slots.condReady then s.(callers := WakeAll(s.callers)) else s
  }

  function Moved(s: State, id: nat, phase: Phase): State
    requires id < |s.callers|
  {
    s.(callers := s.callers[id := s.callers[id].(phase := phase)])
  }

  function Waiting(c: Caller): bool { c.phase.Queued? || c.phase.Awake? || c.phase.Asleep? }

  function Holding(c: Caller): bool { c.phase.Admitted? || c.phase.Checked? || c.phase.Leaving? }

  /** One step of the system; an event that is not enabled changes nothing. */
  function Step(cfg: Config, s: State, e: Event): State
  {
    if e.Arrive? then
      var valid := e.req.prompt != "" && e.req.projectId != "" && e.req.requestId != "";
      s.(callers := s.callers + [Caller(e.req, if valid then Arrived else Finished, false, NotStarted)])
    else if e.id >= |s.callers| then s
    else
      var c := s.callers[e.id];
      match e
      case Cancel(id) => s.(callers := s.callers[id := c.(cancelled := true)])
      case CheckContext(id) =>
        if c.phase.Arrived? then Moved(s, id, if c.cancelled then Finished else Ready) else s
      case Acquire(id) =>
        if c.phase.Ready? then
          var (slots, grant) := AfterAcquire(s.slots, cfg.maxInflight, cfg.maxQueue);
          var phase := match grant case InFlight => Admitted case InQueue => Queued case Refused => Finished;
          Moved(s, id, phase).(slots := slots)
        else s
      case StartWatcher(id) =>
        if c.phase.Queued? then s.(callers := s.callers[id := c.(phase := Awake, watcher := Watching)]) else s
      case Turn(id) =>
        if c.phase.Awake? then
          var (slots, outcome) := AfterTurn(s.slots, cfg.maxInflight, c.cancelled);
          var phase := match outcome case Enter => Admitted case GiveUp => Finished case Sleep => Asleep;
          Moved(s, id, phase).(slots := slots)
        else s
      case WatcherFire(id) =>
        if c.watcher.Watching? && c.cancelled then
          Broadcast(s.(callers := s.callers[id := c.(watcher := Ended)]))
        else s
      case WatcherStop(id) =>
        if c.watcher.Watching? && !Waiting(c) then s.(callers := s.callers[id := c.(watcher := Ended)]) else s
      case Fail(id) =>
        if c.phase.Admitted? || c.phase.Checked? then Moved(s, id, Leaving) else s
      case Check(id) =>
        if c.phase.Admitted? then
          var rolled, kg := Rolled(cfg.reading, s.ledger, c.req.projectId), c.req.maxKgTokens;
          var r := BudgetCheck(rolled, kg, kg * 100);
          Moved(s, id, if r.Proceed? then Checked else Leaving)
        else s
      case Spend(id, summaries, fused) =>
        if c.phase.Checked? then
          var tokens := Charge(c.req, summaries, fused);
          var entry := Entry(c.req.requestId, c.req.projectId, tokens);
          var ledger := if tokens > 0 then Inserted(s.ledger, entry) else s.ledger;
          Moved(s, id, Leaving).(ledger := ledger)
        else s
      case Release(id) =>
        if c.phase.Leaving? then Broadcast(Moved(s, id, Finished).(slots := AfterRelease(s.slots))) else s
  }

  const START := State(Slots(0, 0, false), [], [])

  function Stepper(cfg: Config): (State, Event) -> State { (s, e) => Step(cfg, s, e) }

  function After(cfg: Config, s: State, events: seq<Event>): State { Runs.Fold(Stepper(cfg), s, events) }

  /** The state after any sequence of events. */
  function Run(cfg: Config, events: seq<Event>): State { After(cfg, START, events) }

  // ----- Sums over the callers -----

  function Sum(callers: seq<Caller>, w: Caller -> nat): nat
  {
    if callers == [] then 0 else Sum(callers[..|callers| - 1], w) + w(callers[|callers| - 1])
  }

  lemma {:induction false} SumUpdate(callers: seq<Caller>, i: nat, c: Caller, w: Caller -> nat)
    requires i < |callers|
    ensures Sum(callers[i := c], w) == Sum(callers, w) - w(callers[i]) + w(c)
  {
    var n := |callers| - 1;
    if i < n {
      SumUpdate(callers[..n], i, c, w);
      assert callers[i := c][..n] == callers[..n][i := c];
    } else {
      assert callers[i := c][..n] == callers[..n];
    }
  }

  lemma SumAppend(callers: seq<Caller>, c: Caller, w: Caller -> nat)
    ensures Sum(callers + [c], w) == Sum(callers, w) + w(c)
  {
    assert (callers + [c])[..|callers|] == callers;
  }

  lemma {:induction false} SumWake(callers: seq<Caller>, w: Caller -> nat)
    requires forall c :: w(Woken(c)) == w(c)
    ensures Sum(WakeAll(callers), w) == Sum(callers, w)
  {
    if callers != [] {
      var n := |callers| - 1;
      SumWake(callers[..n], w);
      assert WakeAll(callers)[..n] == WakeAll(callers[..n]);
    }
  }

  lemma {:induction false} SumAtMost(callers: seq<Caller>, v: Caller -> nat, w: Caller -> nat)
    requires forall c :: v(c) <= w(c)
    ensures Sum(callers, v) <= Sum(callers, w)
  {
    if callers != [] {
      SumAtMost(callers[..|callers| - 1], v, w);
    }
  }

  lemma {:induction false} SumZero(callers: seq<Caller>, w: Caller -> nat)
    ensures Sum(callers, w) == 0 <==> forall i :: 0 <= i < |callers| ==> w(callers[i]) == 0
  {
    if callers != [] {
      SumZero(callers[..|callers| - 1], w);
    }
  }

  function HoldsSlot(c: Caller): nat { if Holding(c) then 1 else 0 }

  function HoldsPlace(c: Caller): nat { if Waiting(c) then 1 else 0 }

  // ----- Admission safety and no lost wake-up -----

  ghost predicate Sound(cfg: Config, s: State)
  {
    && s.slots.inflight == Sum(s.callers, HoldsSlot) <= cfg.maxInflight
    && s.slots.queued == Sum(s.callers, HoldsPlace) <= cfg.maxQueue
    && (forall i :: 0 <= i < |s.callers| ==> CallerSound(cfg, s.slots, s.callers[i]))
  }

  /** A sleeper sleeps because every slot is taken, and if it was cancelled its watcher has yet to wake it. */
  ghost predicate CallerSound(cfg: Config, slots: Slots, c: Caller)
  {
    && (c.phase.Asleep? ==> slots.inflight >= cfg.maxInflight && slots.condReady)
    && (c.phase.Asleep? && c.cancelled ==> c.watcher.Watching?)
    && (c.phase.Arrived? || c.phase.Ready? || c.phase.Queued? ==> c.watcher.NotStarted?)
    && (c.phase.Awake? || c.phase.Asleep? ==> !c.watcher.NotStarted?)
    && (Waiting(c) && c.watcher.Ended? ==> c.cancelled)
  }

  lemma MoveKeeps(cfg: Config, s: State, id: nat, c: Caller, slots: Slots)
    requires Sound(cfg, s) && id < |s.callers|
    requires slots.inflight == s.slots.inflight - HoldsSlot(s.callers[id]) + HoldsSlot(c) <= cfg.maxInflight
    requires slots.queued == s.slots.queued - HoldsPlace(s.callers[id]) + HoldsPlace(c) <= cfg.maxQueue
    requires s.slots.condReady ==> slots.condReady
    requires slots.inflight >= s.slots.inflight
    requires CallerSound(cfg, slots, c)
    ensures Sound(cfg, s.(callers := s.callers[id := c], slots := slots))
  {
    SumUpdate(s.callers, id, c, HoldsSlot);
    SumUpdate(s.callers, id, c, HoldsPlace);
  }

  lemma BroadcastKeeps(cfg: Config, s: State)
    requires s.slots.inflight == Sum(s.callers, HoldsSlot) <= cfg.maxInflight
    requires s.slots.queued == Sum(s.callers, HoldsPlace) <= cfg.maxQueue
    requires forall i :: 0 <= i < |s.callers| ==> CallerSound(cfg, s.slots, Woken(s.callers[i]))
    requires forall i :: 0 <= i < |s.callers| && s.callers[i].phase.Asleep? ==> s.slots.condReady
    ensures Sound(cfg, Broadcast(s))
  {
    SumWake(s.callers, HoldsSlot);
    SumWake(s.callers, HoldsPlace);
    if !s.slots.condReady {
      assert forall i :: 0 <= i < |s.callers| ==> Woken(s.callers[i]) == s.callers[i];
    }
  }

  /** The two steps that wake sleepers. */
  predicate Wakes(s: State, e: Event)
  {
    !e.Arrive? && e.id < |s.callers| &&
    var c := s.callers[e.id];
    (e.Release? && c.phase.Leaving?) || (e.WatcherFire? && c.watcher.Watching? && c.cancelled)
  }

  /** The caller that a waking step moves, after its own part of the step. */
  function Waker(s: State, e: Event): Caller
    requires Wakes(s, e)
  {
    var c := s.callers[e.id];
    if e.Release? then c.(phase := Finished) else c.(watcher := Ended)
  }

  function BeforeWaking(s: State, e: Event): State
    requires Wakes(s, e)
  {
    var slots := if e.Release? then AfterRelease(s.slots) else s.slots;
    s.(callers := s.callers[e.id := Waker(s, e)], slots := slots)
  }

  lemma WakingStepIs(cfg: Config, s: State, e: Event)
    requires Wakes(s, e)
    ensures Step(cfg, s, e) == Broadcast(BeforeWaking(s, e))
  {
  }

  lemma WakingKeepsSound(cfg: Config, s: State, e: Event)
    requires Sound(cfg, s) && Wakes(s, e)
    ensures Sound(cfg, Broadcast(BeforeWaking(s, e)))
  {
    SumUpdate(s.callers, e.id, Waker(s, e), HoldsSlot);
    SumUpdate(s.callers, e.id, Waker(s, e), HoldsPlace);
    BroadcastKeeps(cfg, BeforeWaking(s, e));
  }

  lemma WakingStepKeepsSound(cfg: Config, s: State, e: Event)
    requires Sound(cfg, s) && Wakes(s, e)
    ensures Sound(cfg, Step(cfg, s, e))
  {
    WakingStepIs(cfg, s, e);
    WakingKeepsSound(cfg, s, e);
  }

  /** Every other step moves one caller. */
  lemma PlainStepIs(cfg: Config, s: State, e: Event)
    requires !e.Arrive? && e.id < |s.callers| && !Wakes(s, e)
    ensures |Step(cfg, s, e).callers| == |s.callers|
    ensures Step(cfg, s, e).callers == s.callers[e.id := Step(cfg, s, e).callers[e.id]]
  {
  }

  lemma PlainStepKeepsSound(cfg: Config, s: State, e: Event)
    requires Sound(cfg, s) && !e.Arrive? && e.id < |s.callers| && !Wakes(s, e)
    ensures Sound(cfg, Step(cfg, s, e))
  {
    var s' := Step(cfg, s, e);
    if s' != s {
      PlainStepIs(cfg, s, e);
      MoveKeeps(cfg, s, e.id, s'.callers[e.id], s'.slots);
    }
  }

  lemma StepKeepsSound(cfg: Config, s: State, e: Event)
    requires Sound(cfg, s)
    ensures Sound(cfg, Step(cfg, s, e))
  {
    if e.Arrive? {
      var c := Step(cfg, s, e).callers[|s.callers|];
      SumAppend(s.callers, c, HoldsSlot);
      SumAppend(s.callers, c, HoldsPlace);
    } else if Wakes(s, e) {
      WakingStepKeepsSound(cfg, s, e);
    } else if e.id < |s.callers| {
      PlainStepKeepsSound(cfg, s, e);
    }
  }

  /** Under every interleaving: the counters count the holders and the waiters, neither limit is passed, and nobody
      sleeps without a wake-up still to come. */
  lemma {:induction false} AdmissionSafe(cfg: Config, events: seq<Event>)
    ensures Sound(cfg, Run(cfg, events))
  {
    if events != [] {
      AdmissionSafe(cfg, events[..|events| - 1]);
      StepKeepsSound(cfg, Run(cfg, events[..|events| - 1]), events[|events| - 1]);
    }
  }

  /** When nobody holds a slot any more, nobody sleeps. */
  lemma NoSleeperWithoutHolder(cfg: Config, events: seq<Event>)
    requires cfg.maxInflight >= 1
    requires forall c :: c in Run(cfg, events).callers ==> !Holding(c)
    ensures forall c :: c in Run(cfg, events).callers ==> !c.phase.Asleep?
  {
    AdmissionSafe(cfg, events);
    SumZero(Run(cfg, events).callers, HoldsSlot);
  }

  // ----- Progress: every run that gets no new callers comes to rest with everybody out -----

  predicate FromOutside(e: Event) { e.Arrive? || e.Cancel? }

  /** Steps left to a caller, sleeping or awake, and to its watcher. */
  function Work(c: Caller): nat
  {
    (match c.phase
     case Arrived => 8 case Ready => 7 case Queued => 6 case Awake => 4 case Asleep => 4
     case Admitted => 3 case Checked => 2 case Leaving => 1 case Finished => 0)
    + (if c.watcher.Watching? then 1 else 0)
  }

  function IsAwake(c: Caller): nat { if c.phase.Awake? then 1 else 0 }

  /** Less work to do, or as much work and fewer callers awake. */
  ghost predicate Less(s': State, s: State)
  {
    || Sum(s'.callers, Work) < Sum(s.callers, Work)
    || (Sum(s'.callers, Work) == Sum(s.callers, Work) && Sum(s'.callers, IsAwake) < Sum(s.callers, IsAwake))
  }

  lemma OneCallerLess(s: State, callers: seq<Caller>, id: nat, c: Caller)
    requires id < |s.callers| && callers == s.callers[id := c]
    requires Work(c) < Work(s.callers[id]) || (Work(c) == Work(s.callers[id]) && IsAwake(c) < IsAwake(s.callers[id]))
    ensures Less(s.(callers := callers), s)
    ensures Work(c) < Work(s.callers[id]) ==> Sum(callers, Work) < Sum(s.callers, Work)
  {
    SumUpdate(s.callers, id, c, Work);
    SumUpdate(s.callers, id, c, IsAwake);
  }

  lemma PlainWork(cfg: Config, s: State, e: Event)
    requires !FromOutside(e) && Step(cfg, s, e) != s && !Wakes(s, e)
    ensures e.id < |s.callers| == |Step(cfg, s, e).callers|
    ensures var c, c' := s.callers[e.id], Step(cfg, s, e).callers[e.id];
            Work(c') < Work(c) || (Work(c') == Work(c) && IsAwake(c') < IsAwake(c))
  {
  }

  lemma PlainStepMakesProgress(cfg: Config, s: State, e: Event)
    requires !FromOutside(e) && Step(cfg, s, e) != s && !Wakes(s, e)
    ensures Less(Step(cfg, s, e), s)
  {
    PlainWork(cfg, s, e);
    PlainStepIs(cfg, s, e);
    OneCallerLess(s, Step(cfg, s, e).callers, e.id, Step(cfg, s, e).callers[e.id]);
  }

  lemma WakingStepMakesProgress(cfg: Config, s: State, e: Event)
    requires Wakes(s, e)
    ensures Less(Step(cfg, s, e), s)
  {
    WakingStepIs(cfg, s, e);
    var t := BeforeWaking(s, e);
    OneCallerLess(s, t.callers, e.id, Waker(s, e));
    SumWake(t.callers, Work);
  }

  /** Every step of the system itself that changes anything makes progress, so no schedule goes on for ever. */
  lemma StepMakesProgress(cfg: Config, s: State, e: Event)
    requires !FromOutside(e) && Step(cfg, s, e) != s
    ensures Less(Step(cfg, s, e), s)
  {
    if Wakes(s, e) {
      WakingStepMakesProgress(cfg, s, e);
    } else {
      PlainStepMakesProgress(cfg, s, e);
    }
  }

  predicate AtRest(c: Caller) { c.phase.Finished? && !c.watcher.Watching? }

  /** As long as a caller is not out, or a watcher not ended, the system itself can take some step. */
  lemma SomeStepIsEnabled(cfg: Config, s: State) returns (e: Event)
    requires Sound(cfg, s) && cfg.maxInflight >= 1
    requires exists i :: 0 <= i < |s.callers| && !AtRest(s.callers[i])
    ensures !FromOutside(e) && Step(cfg, s, e) != s
  {
    SumZero(s.callers, HoldsSlot);
    var i;
    if s.slots.inflight == 0 {
      i :| 0 <= i < |s.callers| && !AtRest(s.callers[i]);
      assert CallerSound(cfg, s.slots, s.callers[i]);
    } else {
      i :| 0 <= i < |s.callers| && HoldsSlot(s.callers[i]) != 0;
    }
    e := NextEvent(s.callers[i], i);
    assert Step(cfg, s, e).callers[i] != s.callers[i];
  }

  function NextEvent(c: Caller, id: nat): Event
  {
    match c.phase
    case Arrived => CheckContext(id)
    case Ready => Acquire(id)
    case Queued => StartWatcher(id)
    case Awake => Turn(id)
    case Asleep => Turn(id)
    case Admitted => Fail(id)
    case Checked => Fail(id)
    case Leaving => Release(id)
    case Finished => WatcherStop(id)
  }

  lemma RunSnoc(cfg: Config, events: seq<Event>, e: Event)
    ensures Run(cfg, events + [e]) == Step(cfg, Run(cfg, events), e)
  {
    Runs.FoldSnoc(Stepper(cfg), START, events, e);
  }

  lemma EverybodyOut(cfg: Config, s: State)
    requires Sound(cfg, s)
    requires forall i :: 0 <= i < |s.callers| ==> AtRest(s.callers[i])
    ensures s.slots.inflight == 0 && s.slots.queued == 0
  {
    SumZero(s.callers, HoldsSlot);
    SumZero(s.callers, HoldsPlace);
  }

  ghost predicate AllOut(s: State)
  {
    && (forall i :: 0 <= i < |s.callers| ==> AtRest(s.callers[i]))
    && s.slots.inflight == 0 && s.slots.queued == 0
  }

  lemma {:induction false} DrainFrom(cfg: Config, s: State) returns (more: seq<Event>)
    requires Sound(cfg, s) && cfg.maxInflight >= 1
    ensures forall i :: 0 <= i < |more| ==> !FromOutside(more[i])
    ensures AllOut(After(cfg, s, more))
    decreases Sum(s.callers, Work), Sum(s.callers, IsAwake)
  {
    if exists i :: 0 <= i < |s.callers| && !AtRest(s.callers[i]) {
      var e := SomeStepIsEnabled(cfg, s);
      StepMakesProgress(cfg, s, e);
      StepKeepsSound(cfg, s, e);
      var rest := DrainFrom(cfg, Step(cfg, s, e));
      more := [e] + rest;
      Runs.FoldAppend(Stepper(cfg), s, [e], rest);
      Runs.FoldOne(Stepper(cfg), s, e);
    } else {
      more := [];
      EverybodyOut(cfg, s);
    }
  }

  /** From any reachable state the system, left to itself, can let everybody out, and then both counters are zero. */
  lemma Drains(cfg: Config, events: seq<Event>) returns (more: seq<Event>)
    requires cfg.maxInflight >= 1
    ensures forall i :: 0 <= i < |more| ==> !FromOutside(more[i])
    ensures AllOut(Run(cfg, events + more))
  {
    AdmissionSafe(cfg, events);
    more := DrainFrom(cfg, Run(cfg, events));
    Runs.FoldAppend(Stepper(cfg), START, events, more);
  }

  /** A bound on the steps that the system can still take by itself. */
  function StepsLeft(s: State): nat { Sum(s.callers, Work) * (|s.callers| + 1) + Sum(s.callers, IsAwake) }

  lemma {:induction false} AwakeAtMost(callers: seq<Caller>)
    ensures Sum(callers, IsAwake) <= |callers|
  {
    if callers != [] {
      AwakeAtMost(callers[..|callers| - 1]);
    }
  }

  lemma ScaledAtMost(x: nat, y: nat, top: nat)
    requires x <= y
    ensures x * top <= y * top
  {
  }

  lemma LessThenFewer(work': nat, awake': nat, work: nat, awake: nat, n: nat)
    requires awake' <= n && (work' < work || (work' == work && awake' < awake))
    ensures work' * (n + 1) + awake' < work * (n + 1) + awake
  {
    if work' < work {
      ScaledAtMost(work' + 1, work, n + 1);
    }
  }

  lemma StepCountsDown(cfg: Config, s: State, e: Event)
    requires !FromOutside(e) && Step(cfg, s, e) != s
    ensures StepsLeft(Step(cfg, s, e)) < StepsLeft(s)
  {
    var s' := Step(cfg, s, e);
    StepMakesProgress(cfg, s, e);
    assert |s'.callers| == |s.callers|;
    AwakeAtMost(s'.callers);
    LessThenFewer(Sum(s'.callers, Work), Sum(s'.callers, IsAwake), Sum(s.callers, Work), Sum(s.callers, IsAwake),
                  |s.callers|);
  }

  /** The system alone is at work, and each of its steps changes something. */
  ghost predicate Busy(cfg: Config, s: State, more: seq<Event>)
  {
    more == [] ||
    var front, e := more[..|more| - 1], more[|more| - 1];
    Busy(cfg, s, front) && !FromOutside(e) && Step(cfg, After(cfg, s, front), e) != After(cfg, s, front)
  }

  /** No schedule of the system's own steps, however unfair, goes on for longer than the bound. */
  lemma {:induction false} EveryScheduleEnds(cfg: Config, s: State, more: seq<Event>)
    requires Busy(cfg, s, more)
    ensures |more| + StepsLeft(After(cfg, s, more)) <= StepsLeft(s)
  {
    if more != [] {
      var front := more[..|more| - 1];
      EveryScheduleEnds(cfg, s, front);
      StepCountsDown(cfg, After(cfg, s, front), more[|more| - 1]);
    }
  }

  /** A state that the system itself cannot leave has everybody out: nobody is stuck asleep. */
  lemma StuckMeansDone(cfg: Config, events: seq<Event>)
    requires cfg.maxInflight >= 1
    requires forall e :: !FromOutside(e) ==> Step(cfg, Run(cfg, events), e) == Run(cfg, events)
    ensures AllOut(Run(cfg, events))
  {
    var s := Run(cfg, events);
    AdmissionSafe(cfg, events);
    if exists i :: 0 <= i < |s.callers| && !AtRest(s.callers[i]) {
      var e := SomeStepIsEnabled(cfg, s);
    }
    EverybodyOut(cfg, s);
  }

  // ----- Who gets in, who waits and who is turned away -----

  /** Acquiring ends a caller only if every slot is held and every place in the queue taken; it moves nobody else. */
  lemma AcquireDecides(cfg: Config, events: seq<Event>, id: nat)
    requires var s := Run(cfg, events); id < |s.callers| && s.callers[id].phase.Ready?
    ensures var s, s' := Run(cfg, events), Run(cfg, events + [Acquire(id)]);
            var holders, waiters := Sum(s.callers, HoldsSlot), Sum(s.callers, HoldsPlace);
            && s'.callers == s.callers[id := s.callers[id].(phase := s'.callers[id].phase)]
            && var c' := s'.callers[id];
            && (Holding(c') <==> holders < cfg.maxInflight)
            && (Waiting(c') <==> holders == cfg.maxInflight && waiters < cfg.maxQueue)
            && (c'.phase.Finished? <==> holders == cfg.maxInflight && waiters == cfg.maxQueue)
  {
    AdmissionSafe(cfg, events);
    RunSnoc(cfg, events, Acquire(id));
  }

  /** A waiter that gets its turn enters if a slot is free, even if it was cancelled; else it leaves if it was cancelled
      and sleeps if not. */
  lemma TurnDecides(cfg: Config, events: seq<Event>, id: nat)
    requires var s := Run(cfg, events); id < |s.callers| && s.callers[id].phase.Awake?
    ensures var s, s' := Run(cfg, events), Run(cfg, events + [Turn(id)]);
            var full := Sum(s.callers, HoldsSlot) == cfg.maxInflight;
            && s'.callers == s.callers[id := s.callers[id].(phase := s'.callers[id].phase)]
            && var c, c' := s.callers[id], s'.callers[id];
            && (Holding(c') <==> !full)
            && (c'.phase.Finished? <==> full && c.cancelled)
            && (c'.phase.Asleep? <==> full && !c.cancelled)
  {
    AdmissionSafe(cfg, events);
    RunSnoc(cfg, events, Turn(id));
  }

  /** The events of a caller that joins the queue and falls asleep. */
  function Joins(id: nat): seq<Event> { [Acquire(id), StartWatcher(id), Turn(id)] }

  lemma FallsAsleep(cfg: Config, events: seq<Event>, id: nat)
    requires var s := Run(cfg, events); id < |s.callers| && s.callers[id].phase.Ready? && !s.callers[id].cancelled
    requires var s := Run(cfg, events); s.slots.inflight == cfg.maxInflight && s.slots.queued < cfg.maxQueue
    ensures var s, s' := Run(cfg, events), Run(cfg, events + Joins(id));
            && s'.callers == s.callers[id := s.callers[id].(phase := Asleep, watcher := Watching)]
            && s'.slots == Slots(s.slots.inflight, s.slots.queued + 1, true)
  {
    var one, two := events + [Acquire(id)], events + [Acquire(id)] + [StartWatcher(id)];
    RunSnoc(cfg, events, Acquire(id));
    RunSnoc(cfg, one, StartWatcher(id));
    RunSnoc(cfg, two, Turn(id));
    assert events + Joins(id) == two + [Turn(id)];
  }

  lemma WakesAndEnters(cfg: Config, events: seq<Event>, id: nat, other: nat)
    requires var s := Run(cfg, events); id < |s.callers| && other < |s.callers| && s.slots.condReady
    requires var s := Run(cfg, events); s.callers[id].phase.Asleep? && s.callers[other].phase.Leaving?
    ensures var s, s' := Run(cfg, events), Run(cfg, events + [Release(other), Turn(id)]);
            && id < |s'.callers| && s'.callers[id].phase.Admitted?
            && s'.slots == s.slots.(queued := s.slots.queued - 1)
  {
    AdmissionSafe(cfg, events);
    var one := events + [Release(other)];
    RunSnoc(cfg, events, Release(other));
    RunSnoc(cfg, one, Turn(id));
    assert events + [Release(other), Turn(id)] == one + [Turn(id)];
  }

  /** At a full gate with room in its queue a caller waits, asleep, and enters once a holder has let go. */
  lemma WaitsThenEnters(cfg: Config, events: seq<Event>, id: nat, other: nat)
    requires var s := Run(cfg, events); id < |s.callers| && s.callers[id].phase.Ready? && !s.callers[id].cancelled
    requires var s := Run(cfg, events); other < |s.callers| && s.callers[other].phase.Leaving?
    requires Sum(Run(cfg, events).callers, HoldsSlot) == cfg.maxInflight
    requires Sum(Run(cfg, events).callers, HoldsPlace) < cfg.maxQueue
    ensures var asleep := Run(cfg, events + Joins(id));
            id < |asleep.callers| && asleep.callers[id].phase.Asleep?
    ensures var entered := Run(cfg, events + Joins(id) + [Release(other), Turn(id)]);
            id < |entered.callers| && entered.callers[id].phase.Admitted?
  {
    AdmissionSafe(cfg, events);
    FallsAsleep(cfg, events, id);
    WakesAndEnters(cfg, events + Joins(id), id, other);
  }

  /** A sleeper that is cancelled is woken by its watcher and gives its place up, in every reachable state. */
  lemma CancelledSleeperLeaves(cfg: Config, events: seq<Event>, id: nat)
    requires var s := Run(cfg, events); id < |s.callers| && s.callers[id].phase.Asleep?
    ensures var s, s' := Run(cfg, events), Run(cfg, events + [Cancel(id), WatcherFire(id), Turn(id)]);
            && id < |s'.callers| && s'.callers[id].phase.Finished?
            && s'.slots == s.slots.(queued := s.slots.queued - 1)
  {
    AdmissionSafe(cfg, events);
    var one, two := events + [Cancel(id)], events + [Cancel(id)] + [WatcherFire(id)];
    RunSnoc(cfg, events, Cancel(id));
    RunSnoc(cfg, one, WatcherFire(id));
    RunSnoc(cfg, two, Turn(id));
    assert events + [Cancel(id), WatcherFire(id), Turn(id)] == two + [Turn(id)];
  }

  // ----- What has to hold before a run does any work -----

  predicate Complete(req: Request) { req.prompt != "" && req.projectId != "" && req.requestId != "" }

  /** A request without prompt, project or request id never gets anywhere, in any run. */
  lemma {:induction false} OnlyCompleteRequestsRun(cfg: Config, events: seq<Event>)
    ensures forall c :: c in Run(cfg, events).callers && !c.phase.Finished? ==> Complete(c.req)
  {
    if events != [] {
      OnlyCompleteRequestsRun(cfg, events[..|events| - 1]);
      StepKeepsComplete(cfg, Run(cfg, events[..|events| - 1]), events[|events| - 1]);
    }
  }

  /** A finished caller stays finished, so no caller starts to work with a request that was refused. */
  lemma StepKeepsComplete(cfg: Config, s: State, e: Event)
    requires forall c :: c in s.callers && !c.phase.Finished? ==> Complete(c.req)
    ensures forall c :: c in Step(cfg, s, e).callers && !c.phase.Finished? ==> Complete(c.req)
  {
    var s' := Step(cfg, s, e);
    forall i | 0 <= i < |s'.callers| && !s'.callers[i].phase.Finished?
      ensures Complete(s'.callers[i].req)
    {
      if i < |s.callers| {
        FinishedStays(cfg, s, e, i);
        assert s.callers[i] in s.callers;
      }
    }
  }

  lemma FinishedStays(cfg: Config, s: State, e: Event, i: nat)
    requires i < |s.callers|
    ensures i < |Step(cfg, s, e).callers| && Step(cfg, s, e).callers[i].req == s.callers[i].req
    ensures s.callers[i].phase.Finished? ==> Step(cfg, s, e).callers[i].phase.Finished?
  {
  }

  /** A new caller is turned away at once exactly when its request is incomplete, and at the gate's door exactly when
      its context was cancelled before. */
  lemma DoorDecides(cfg: Config, events: seq<Event>, req: Request, id: nat)
    requires var s := Run(cfg, events); id < |s.callers| && s.callers[id].phase.Arrived?
    ensures var s' := Run(cfg, events + [Arrive(req)]);
            s'.callers == Run(cfg, events).callers
                          + [Caller(req, if Complete(req) then Arrived else Finished, false, NotStarted)]
    ensures var c, s' := Run(cfg, events).callers[id], Run(cfg, events + [CheckContext(id)]);
            s'.callers == Run(cfg, events).callers[id := c.(phase := if c.cancelled then Finished else Ready)]
  {
    RunSnoc(cfg, events, Arrive(req));
    RunSnoc(cfg, events, CheckContext(id));
  }

  /** A caller that was cancelled before it came to the gate never gets a slot or a place in the queue. */
  lemma {:induction false} CancelledEarlyStaysOut(cfg: Config, s: State, id: nat, more: seq<Event>)
    requires id < |s.callers| && s.callers[id].phase.Arrived? && s.callers[id].cancelled
    ensures var s' := After(cfg, s, more);
            id < |s'.callers| && var c := s'.callers[id];
            c.phase.Finished? || (c.phase.Arrived? && c.cancelled)
  {
    if more != [] {
      CancelledEarlyStaysOut(cfg, s, id, more[..|more| - 1]);
      StepKeepsOut(cfg, After(cfg, s, more[..|more| - 1]), id, more[|more| - 1]);
    }
  }

  lemma StepKeepsOut(cfg: Config, s: State, id: nat, e: Event)
    requires id < |s.callers|
    requires s.callers[id].phase.Finished? || (s.callers[id].phase.Arrived? && s.callers[id].cancelled)
    ensures id < |Step(cfg, s, e).callers| && var c := Step(cfg, s, e).callers[id];
            c.phase.Finished? || (c.phase.Arrived? && c.cancelled)
  {
  }

  /** The check lets a run go on exactly when it asks for a positive number of tokens and, on top of what its project
      has spent, stays within a hundred times that number. */
  lemma CheckDecides(cfg: Config, events: seq<Event>, id: nat)
    requires cfg.reading.SumsLedger?
    requires var s := Run(cfg, events); id < |s.callers| && s.callers[id].phase.Admitted?
    ensures var s, s' := Run(cfg, events), Run(cfg, events + [Check(id)]);
            var req := s.callers[id].req;
            var goesOn := req.maxKgTokens > 0
                          && Spent(s.ledger, req.projectId) + req.maxKgTokens <= req.maxKgTokens * 100;
            && s'.callers == s.callers[id := s.callers[id].(phase := if goesOn then Checked else Leaving)]
            && s'.ledger == s.ledger && s'.slots == s.slots
  {
    RunSnoc(cfg, events, Check(id));
  }
}
