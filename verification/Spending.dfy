/** What concurrent augmentation runs can spend: the bound over admission, check, truncation and commit, and when the
    cap that every check compares against holds. */
module Spending {
  import opened Admission
  import opened AugmentTypes
  import Truncation
  import Runs

  /** A request is recorded at most once, however often it is committed. */
  ghost predicate OncePerRequest(ledger: seq<Entry>)
  {
    forall i, j :: 0 <= i < j < |ledger| ==> ledger[i].requestId != ledger[j].requestId
  }

  /** Every caller of the project is budgeted at most kg tokens and can be charged at most top. */
  ghost predicate Within(callers: seq<Caller>, projectId: string, kg: nat, top: nat)
  {
    forall i :: 0 <= i < |callers| && callers[i].req.projectId == projectId ==>
      var req := callers[i].req;
      req.maxKgTokens <= kg && Truncation.Max(req.maxKgTokens, Truncation.MetaTokens(Meta(req))) <= top
  }

  /** Passed the check, not committed yet. */
  function Owing(projectId: string): Caller -> nat
  {
    (c: Caller) => if c.phase.Checked? && c.req.projectId == projectId then 1 else 0
  }

  ghost predicate SpendSound(cfg: Config, s: State, projectId: string, kg: nat, top: nat)
  {
    Spent(s.ledger, projectId) + Sum(s.callers, Owing(projectId)) * top <= 99 * kg + cfg.maxInflight * top
  }

  /** Everything a run found, with the estimates of its two halves. */
  function FoundStatic(req: Request, summaries: seq<CommunitySummary>): StaticContext
  {
    StaticContext(Meta(req), summaries, Truncation.StaticTokens(Meta(req), summaries))
  }

  function FoundVolatile(fused: seq<FusedResult>): VolatileContext
  {
    VolatileContext(fused, [], [], Truncation.VolatileTokens(fused, [], []))
  }

  /** The truncation guard keeps each charge within the budget, or at what ProjectMeta alone comes to. */
  lemma ChargeBounded(req: Request, summaries: seq<CommunitySummary>, fused: seq<FusedResult>)
    ensures Charge(req, summaries, fused) <= Truncation.Max(req.maxKgTokens, Truncation.MetaTokens(Meta(req)))
  {
    Truncation.FitsOrIsMinimal(FoundStatic(req, summaries), FoundVolatile(fused), req.maxKgTokens);
  }

  /** The tail of one run: the split, the guard, and the tokens to commit. */
  method TokensToCommit(req: Request, summaries: seq<CommunitySummary>, fused: seq<FusedResult>)
    returns (tokens: nat)
    ensures tokens == Charge(req, summaries, fused)
  {
    var st, vo := Truncation.Split(summaries, fused, Meta(req), [], []);
    var truncated;
    st, vo, truncated := Truncation.Apply(st, vo, req.maxKgTokens);
    tokens := st.tokens + vo.tokens;
  }

  /** What committing leaves in the ledger, in every run: one entry more, holding the estimate of what the guard returns
      on everything the run found, unless the request id is on record. */
  lemma SpendRecords(cfg: Config, events: seq<Event>, id: nat, summaries: seq<CommunitySummary>,
                     fused: seq<FusedResult>) returns (s: StaticContext, v: VolatileContext)
    requires id < |Run(cfg, events).callers| && Run(cfg, events).callers[id].phase.Checked?
    ensures var req := Run(cfg, events).callers[id].req;
            Truncation.Guarded(FoundStatic(req, summaries), FoundVolatile(fused), req.maxKgTokens, s, v)
    ensures var before, after := Run(cfg, events), Run(cfg, events + [Spend(id, summaries, fused)]);
            var req := before.callers[id].req;
            var entry := Entry(req.requestId, req.projectId, Truncation.StaticTokens(s.meta, s.summaries)
                                                            + Truncation.VolatileTokens(v.fused, v.callers, v.callees));
            && after.ledger == before.ledger + (if Recorded(before.ledger, req.requestId) then [] else [entry])
            && after.callers == before.callers[id := before.callers[id].(phase := Leaving)]
            && after.slots == before.slots
  {
    var e := Spend(id, summaries, fused);
    s, v := ChargeIsEstimate(Run(cfg, events).callers[id].req, summaries, fused);
    RunSnoc(cfg, events, e);
    SpendStepIs(cfg, Run(cfg, events), e);
  }

  /** The charge is the estimate of what the guard returns, and never nothing. */
  lemma ChargeIsEstimate(req: Request, summaries: seq<CommunitySummary>, fused: seq<FusedResult>)
    returns (s: StaticContext, v: VolatileContext)
    ensures Truncation.Guarded(FoundStatic(req, summaries), FoundVolatile(fused), req.maxKgTokens, s, v)
    ensures Charge(req, summaries, fused)
            == Truncation.StaticTokens(s.meta, s.summaries) + Truncation.VolatileTokens(v.fused, v.callers, v.callees)
            > 0
  {
    var kept := Truncation.Kept(FoundStatic(req, summaries), FoundVolatile(fused), req.maxKgTokens);
    Truncation.KeptIsGuarded(FoundStatic(req, summaries), FoundVolatile(fused), req.maxKgTokens);
    s, v := kept.0, kept.1;
  }

  /** A run that fits its budget pays for all it found. */
  lemma WholeChargeWhenItFits(cfg: Config, events: seq<Event>, id: nat, summaries: seq<CommunitySummary>,
                              fused: seq<FusedResult>)
    requires id < |Run(cfg, events).callers| && Run(cfg, events).callers[id].phase.Checked?
    requires var req := Run(cfg, events).callers[id].req;
             && FoundStatic(req, summaries).tokens + FoundVolatile(fused).tokens <= req.maxKgTokens
             && !Recorded(Run(cfg, events).ledger, req.requestId)
    ensures var before, after := Run(cfg, events), Run(cfg, events + [Spend(id, summaries, fused)]);
            var req := before.callers[id].req;
            var tokens := Truncation.StaticTokens(Meta(req), summaries) + Truncation.VolatileTokens(fused, [], []);
            after.ledger == before.ledger + [Entry(req.requestId, req.projectId, tokens)]
  {
    var req := Run(cfg, events).callers[id].req;
    var st, vo := FoundStatic(req, summaries), FoundVolatile(fused);
    var s, v := SpendRecords(cfg, events, id, summaries, fused);
    Truncation.WholeIsGuarded(st, vo, req.maxKgTokens);
    Truncation.GuardDetermined(st, vo, req.maxKgTokens, st, vo, s, v);
  }

  /** One more summary costs a run that has the budget for it its own estimate and five tokens more. */
  lemma EverySummaryIsCharged(req: Request, summaries: seq<CommunitySummary>, more: CommunitySummary,
                              fused: seq<FusedResult>)
    requires FoundStatic(req, summaries + [more]).tokens + FoundVolatile(fused).tokens <= req.maxKgTokens
    ensures Charge(req, summaries + [more], fused) == Charge(req, summaries, fused) + more.tokenCount + 5
  {
    assert (summaries + [more])[..|summaries|] == summaries;
  }

  /** A request that names no doctrine is charged as one that names the default. */
  lemma NoDoctrineIsDefault(req: Request, summaries: seq<CommunitySummary>, fused: seq<FusedResult>)
    ensures Charge(req.(doctrine := ""), summaries, fused) == Charge(req.(doctrine := "default"), summaries, fused)
  {
  }

  lemma InsertedSpends(ledger: seq<Entry>, e: Entry, projectId: string)
    requires e.tokens >= 0
    ensures Spent(Inserted(ledger, e), projectId)
            <= Spent(ledger, projectId) + (if e.projectId == projectId then e.tokens else 0)
    ensures OncePerRequest(ledger) ==> OncePerRequest(Inserted(ledger, e))
  {
    assert (ledger + [e])[..|ledger|] == ledger;
  }

  /** The price of one caller more or fewer among those that owe. */
  lemma OwingUpdate(callers: seq<Caller>, id: nat, c: Caller, projectId: string, top: nat)
    requires id < |callers|
    ensures Sum(callers[id := c], Owing(projectId)) * top
            == Sum(callers, Owing(projectId)) * top + (Owing(projectId)(c) - Owing(projectId)(callers[id])) * top
  {
    SumUpdate(callers, id, c, Owing(projectId));
  }

  /** A check that passes saw at most 99 budgets spent, and no more callers owe than there are slots. */
  lemma PassedCheckKeepsSpend(cfg: Config, s: State, id: nat, projectId: string, kg: nat, top: nat)
    requires cfg.reading.SumsLedger? && Sound(cfg, s)
    requires id < |s.callers| && s.callers[id].phase.Admitted? && Within(s.callers, projectId, kg, top)
    requires Step(cfg, s, Check(id)).callers[id].phase.Checked? && s.callers[id].req.projectId == projectId
    ensures SpendSound(cfg, Step(cfg, s, Check(id)), projectId, kg, top)
  {
    var s' := Step(cfg, s, Check(id));
    StepKeepsSound(cfg, s, Check(id));
    SumAtMost(s'.callers, Owing(projectId), HoldsSlot);
    ScaledAtMost(Sum(s'.callers, Owing(projectId)), cfg.maxInflight, top);
    assert s'.ledger == s.ledger && Spent(s.ledger, projectId) <= 99 * kg;
  }

  lemma CheckStepKeepsSpend(cfg: Config, s: State, id: nat, projectId: string, kg: nat, top: nat)
    requires cfg.reading.SumsLedger? && Sound(cfg, s) && SpendSound(cfg, s, projectId, kg, top)
    requires id < |s.callers| && s.callers[id].phase.Admitted? && Within(s.callers, projectId, kg, top)
    ensures SpendSound(cfg, Step(cfg, s, Check(id)), projectId, kg, top)
  {
    var s' := Step(cfg, s, Check(id));
    if s'.callers[id].phase.Checked? && s.callers[id].req.projectId == projectId {
      PassedCheckKeepsSpend(cfg, s, id, projectId, kg, top);
    } else {
      OwingUpdate(s.callers, id, s'.callers[id], projectId, top);
    }
  }

  /** What committing does to the callers and the ledger. */
  lemma SpendStepIs(cfg: Config, s: State, e: Event)
    requires e.Spend? && e.id < |s.callers| && s.callers[e.id].phase.Checked?
    ensures var c := s.callers[e.id];
            var tokens := Charge(c.req, e.summaries, e.fused);
            var entry := Entry(c.req.requestId, c.req.projectId, tokens);
            && Step(cfg, s, e).callers == s.callers[e.id := c.(phase := Leaving)] && Step(cfg, s, e).slots == s.slots
            && Step(cfg, s, e).ledger == if tokens > 0 then Inserted(s.ledger, entry) else s.ledger
  {
  }

  lemma SpendStepKeepsSpend(cfg: Config, s: State, e: Event, projectId: string, kg: nat, top: nat)
    requires SpendSound(cfg, s, projectId, kg, top) && Within(s.callers, projectId, kg, top)
    requires e.Spend? && e.id < |s.callers| && s.callers[e.id].phase.Checked?
    ensures SpendSound(cfg, Step(cfg, s, e), projectId, kg, top)
  {
    var c := s.callers[e.id];
    var tokens := Charge(c.req, e.summaries, e.fused);
    SpendStepIs(cfg, s, e);
    OwingUpdate(s.callers, e.id, c.(phase := Leaving), projectId, top);
    ChargeBounded(c.req, e.summaries, e.fused);
    InsertedSpends(s.ledger, Entry(c.req.requestId, c.req.projectId, tokens), projectId);
  }

  lemma WakingStepKeepsSpend(cfg: Config, s: State, e: Event, projectId: string, kg: nat, top: nat)
    requires SpendSound(cfg, s, projectId, kg, top) && Wakes(s, e)
    ensures SpendSound(cfg, Step(cfg, s, e), projectId, kg, top)
  {
    WakingStepIs(cfg, s, e);
    OwingUpdate(s.callers, e.id, Waker(s, e), projectId, top);
    SumWake(BeforeWaking(s, e).callers, Owing(projectId));
  }

  lemma PlainStepKeepsSpend(cfg: Config, s: State, e: Event, projectId: string, kg: nat, top: nat)
    requires SpendSound(cfg, s, projectId, kg, top) && Step(cfg, s, e) != s
    requires !e.Arrive? && !e.Check? && !e.Spend? && !Wakes(s, e)
    ensures SpendSound(cfg, Step(cfg, s, e), projectId, kg, top)
  {
    PlainStepIs(cfg, s, e);
    OwingUpdate(s.callers, e.id, Step(cfg, s, e).callers[e.id], projectId, top);
  }

  lemma StepKeepsSpend(cfg: Config, s: State, e: Event, projectId: string, kg: nat, top: nat)
    requires cfg.reading.SumsLedger? && Sound(cfg, s) && SpendSound(cfg, s, projectId, kg, top)
    requires Within(s.callers, projectId, kg, top)
    ensures SpendSound(cfg, Step(cfg, s, e), projectId, kg, top)
  {
    var s' := Step(cfg, s, e);
    if e.Arrive? {
      SumAppend(s.callers, s'.callers[|s.callers|], Owing(projectId));
    } else if s' != s {
      if e.Check? {
        CheckStepKeepsSpend(cfg, s, e.id, projectId, kg, top);
      } else if e.Spend? {
        SpendStepKeepsSpend(cfg, s, e, projectId, kg, top);
      } else if Wakes(s, e) {
        WakingStepKeepsSpend(cfg, s, e, projectId, kg, top);
      } else {
        PlainStepKeepsSpend(cfg, s, e, projectId, kg, top);
      }
    }
  }

  lemma {:induction false} RunKeepsSpend(cfg: Config, events: seq<Event>, projectId: string, kg: nat, top: nat)
    requires cfg.reading.SumsLedger?
    requires Within(Run(cfg, events).callers, projectId, kg, top)
    ensures SpendSound(cfg, Run(cfg, events), projectId, kg, top)
  {
    if events == [] {
      ScaledAtMost(0, cfg.maxInflight, top);
    } else {
      var before, e := events[..|events| - 1], events[|events| - 1];
      var s := Run(cfg, before);
      EarlierCallersWithin(cfg, s, e, projectId, kg, top);
      RunKeepsSpend(cfg, before, projectId, kg, top);
      AdmissionSafe(cfg, before);
      StepKeepsSpend(cfg, s, e, projectId, kg, top);
    }
  }

  lemma EarlierCallersWithin(cfg: Config, s: State, e: Event, projectId: string, kg: nat, top: nat)
    requires Within(Step(cfg, s, e).callers, projectId, kg, top)
    ensures Within(s.callers, projectId, kg, top)
  {
    forall i | 0 <= i < |s.callers|
      ensures i < |Step(cfg, s, e).callers| && Step(cfg, s, e).callers[i].req == s.callers[i].req
    {
      FinishedStays(cfg, s, e, i);
    }
  }

  /** The bound over all four mechanisms, for every interleaving: what a project has been charged never exceeds 99
      budgets plus one charge for every slot of the gate. */
  lemma SpendBound(cfg: Config, events: seq<Event>, projectId: string, kg: nat, top: nat)
    requires cfg.reading.SumsLedger?
    requires Within(Run(cfg, events).callers, projectId, kg, top)
    ensures Spent(Run(cfg, events).ledger, projectId) <= 99 * kg + cfg.maxInflight * top
  {
    RunKeepsSpend(cfg, events, projectId, kg, top);
    ScaledAtMost(0, Sum(Run(cfg, events).callers, Owing(projectId)), top);
  }

  lemma {:induction false} ChargedOnce(cfg: Config, events: seq<Event>)
    ensures OncePerRequest(Run(cfg, events).ledger)
  {
    if events != [] {
      var before, e := events[..|events| - 1], events[|events| - 1];
      ChargedOnce(cfg, before);
    }
  }

  // ----- When the cap itself holds -----

  /** The callers of a project all have the same budget, and ProjectMeta fits it. */
  ghost predicate SameBudget(callers: seq<Caller>, projectId: string, kg: nat)
  {
    forall i :: 0 <= i < |callers| && callers[i].req.projectId == projectId ==>
      callers[i].req.maxKgTokens == kg && Truncation.MetaTokens(Meta(callers[i].req)) <= kg
  }

  /** The project's spend stays within the cap of 100 budgets that every check compares against. */
  ghost predicate WithinCap(cfg: Config, events: seq<Event>, projectId: string, kg: nat)
  {
    SameBudget(Run(cfg, events).callers, projectId, kg) ==> Spent(Run(cfg, events).ledger, projectId) <= 100 * kg
  }

  /** A request for project p with a budget of 100 tokens, the n-th of its kind. */
  function Sample(n: nat): Request { Request("prompt", "p", Repeat('r', n + 1), "default", 100) }

  function Repeat(c: char, n: nat): (s: string)
    ensures |s| == n
  {
    seq(n, _ => c)
  }

  /** One fused result that, with the ProjectMeta of project p, is estimated at exactly 100 tokens. */
  function Filler(): seq<FusedResult> { [FusedResult("n", "", Repeat('s', 334), "kg", 0.5, "p", "")] }

  lemma SampleCharge(n: nat)
    ensures Charge(Sample(n), [], Filler()) == 100 && Truncation.MetaTokens(Meta(Sample(n))) == 9
  {
    assert Truncation.FusedChars(Filler()) == 364;
  }

  /** With the budget for it, the same request pays 55 tokens for a summary of 50. */
  lemma SampleChargeWithSummary(n: nat)
    ensures var summary := CommunitySummary("k", "code", [], [], [], 50);
            Charge(Sample(n).(maxKgTokens := 1000), [summary], Filler()) == 155
  {
    assert Truncation.FusedChars(Filler()) == 364;
    var summary := CommunitySummary("k", "code", [], [], [], 50);
    assert Truncation.SummaryChars([summary]) == 220;
  }

  function Ledger(n: nat): seq<Entry>
  {
    seq(n, i requires 0 <= i < n => Entry(Sample(i).requestId, "p", 100))
  }

  lemma {:induction false} LedgerSpent(n: nat)
    ensures Spent(Ledger(n), "p") == 100 * n
    ensures forall m: nat :: n <= m ==> !Recorded(Ledger(n), Sample(m).requestId)
  {
    if n > 0 {
      LedgerSpent(n - 1);
      assert Ledger(n)[..n - 1] == Ledger(n - 1);
    }
  }

  /** Sample callers that never had to wait: their phases, the slots they hold, how many have been charged. */
  datatype Scene = Scene(phases: seq<Phase>, inflight: nat, ready: bool, charged: nat)

  function Visitor(n: nat, phase: Phase): Caller { Caller(Sample(n), phase, false, NotStarted) }

  function Cast(phases: seq<Phase>): seq<Caller>
  {
    seq(|phases|, i requires 0 <= i < |phases| => Visitor(i, phases[i]))
  }

  function Shown(sc: Scene): State
  {
    State(Slots(sc.inflight, 0, sc.ready), Cast(sc.phases), Ledger(sc.charged))
  }

  lemma ThenReady(cfg: Config, events: seq<Event>, sc: Scene) returns (more: seq<Event>)
    requires Run(cfg, events) == Shown(sc)
    ensures Run(cfg, more) == Shown(sc.(phases := sc.phases + [Ready]))
  {
    var n := |sc.phases|;
    var arrived, ready := sc.(phases := sc.phases + [Arrived]), sc.(phases := sc.phases + [Ready]);
    RunSnoc(cfg, events, Arrive(Sample(n)));
    more := events + [Arrive(Sample(n))];
    assert Run(cfg, more) == Shown(arrived) by {
      assert Cast(arrived.phases) == Cast(sc.phases) + [Visitor(n, Arrived)];
    }
    RunSnoc(cfg, more, CheckContext(n));
    more := more + [CheckContext(n)];
    CastUpdate(arrived.phases, n, Ready);
    assert arrived.phases[n := Ready] == ready.phases;
  }

  lemma ThenEnter(cfg: Config, events: seq<Event>, sc: Scene) returns (more: seq<Event>)
    requires Run(cfg, events) == Shown(sc) && sc.inflight < cfg.maxInflight
    ensures Run(cfg, more) == Shown(Scene(sc.phases + [Admitted], sc.inflight + 1, true, sc.charged))
  {
    var n, ready := |sc.phases|, sc.phases + [Ready];
    var knocked := ThenReady(cfg, events, sc);
    RunSnoc(cfg, knocked, Acquire(n));
    more := knocked + [Acquire(n)];
    CastUpdate(ready, n, Admitted);
    assert ready[n := Admitted] == sc.phases + [Admitted];
  }

  lemma CastUpdate(phases: seq<Phase>, i: nat, phase: Phase)
    requires i < |phases|
    ensures Cast(phases[i := phase]) == Cast(phases)[i := Visitor(i, phase)]
  {
  }

  lemma ThenCheck(cfg: Config, events: seq<Event>, sc: Scene, i: nat) returns (more: seq<Event>)
    requires Run(cfg, events) == Shown(sc) && i < |sc.phases| && sc.phases[i].Admitted?
    requires cfg.reading.AlwaysZero? || sc.charged <= 99
    ensures Run(cfg, more) == Shown(sc.(phases := sc.phases[i := Checked]))
  {
    RunSnoc(cfg, events, Check(i));
    more := events + [Check(i)];
    LedgerSpent(sc.charged);
    CastUpdate(sc.phases, i, Checked);
  }

  lemma OneMoreEntry(n: nat)
    ensures Inserted(Ledger(n), Entry(Sample(n).requestId, "p", 100)) == Ledger(n + 1)
  {
    LedgerSpent(n);
    assert Ledger(n) + [Entry(Sample(n).requestId, "p", 100)] == Ledger(n + 1);
  }

  lemma ThenSpend(cfg: Config, events: seq<Event>, sc: Scene, i: nat) returns (more: seq<Event>)
    requires Run(cfg, events) == Shown(sc) && i < |sc.phases| && sc.phases[i].Checked? && i == sc.charged
    ensures Run(cfg, more) == Shown(sc.(phases := sc.phases[i := Leaving], charged := i + 1))
  {
    RunSnoc(cfg, events, Spend(i, [], Filler()));
    more := events + [Spend(i, [], Filler())];
    SampleCharge(i);
    OneMoreEntry(i);
    CastUpdate(sc.phases, i, Leaving);
  }

  lemma ThenLeave(cfg: Config, events: seq<Event>, sc: Scene, i: nat) returns (more: seq<Event>)
    requires Run(cfg, events) == Shown(sc) && i < |sc.phases| && sc.phases[i].Leaving? && sc.inflight > 0
    requires forall j :: 0 <= j < |sc.phases| ==> !sc.phases[j].Asleep?
    ensures Run(cfg, more) == Shown(sc.(phases := sc.phases[i := Finished], inflight := sc.inflight - 1))
  {
    RunSnoc(cfg, events, Release(i));
    more := events + [Release(i)];
    CastUpdate(sc.phases, i, Finished);
    var after := Cast(sc.phases[i := Finished]);
    assert WakeAll(after) == after;
  }

  function AllIn(n: nat): seq<Phase> { seq(n, _ => Admitted) }

  lemma {:induction false} FillSlots(cfg: Config, n: nat) returns (events: seq<Event>)
    requires n <= cfg.maxInflight
    ensures Run(cfg, events) == Shown(Scene(AllIn(n), n, n > 0, 0))
  {
    if n == 0 {
      events := [];
    } else {
      events := FillSlots(cfg, n - 1);
      events := ThenEnter(cfg, events, Scene(AllIn(n - 1), n - 1, n > 1, 0));
      assert AllIn(n - 1) + [Admitted] == AllIn(n);
    }
  }

  /** Every gate that has slots and a queue has a run in which a caller waits, asleep, and later enters. */
  lemma SomebodyWaits(cfg: Config) returns (events: seq<Event>, more: seq<Event>, id: nat)
    requires cfg.maxInflight >= 1 && cfg.maxQueue >= 1
    ensures var s, s' := Run(cfg, events), Run(cfg, events + more);
            && id < |s.callers| && s.callers[id].phase.Asleep?
            && id < |s'.callers| && s'.callers[id].phase.Admitted?
  {
    id := cfg.maxInflight;
    var phases := AllIn(id) + [Ready];
    var full := FillSlots(cfg, id);
    full := ThenReady(cfg, full, Scene(AllIn(id), id, true, 0));
    RunSnoc(cfg, full, Fail(0));
    full := full + [Fail(0)];
    CastUpdate(phases, 0, Leaving);
    assert Run(cfg, full) == Shown(Scene(phases[0 := Leaving], id, true, 0));
    AdmissionSafe(cfg, full);
    WaitsThenEnters(cfg, full, id, 0);
    events, more := full + Joins(id), [Release(0), Turn(id)];
  }

  function Over(n: nat): seq<Phase> { seq(n, _ => Finished) }

  /** n callers come and go one after the other, each charged its whole budget. */
  lemma {:induction false} SerialRun(cfg: Config, n: nat) returns (events: seq<Event>)
    requires cfg.maxInflight >= 1 && (cfg.reading.AlwaysZero? || n <= 100)
    ensures Run(cfg, events) == Shown(Scene(Over(n), 0, n > 0, n))
  {
    if n == 0 {
      events := [];
    } else {
      var m, over := n - 1, Over(n - 1);
      events := SerialRun(cfg, m);
      events := ThenEnter(cfg, events, Scene(over, 0, m > 0, m));
      events := ThenCheck(cfg, events, Scene(over + [Admitted], 1, true, m), m);
      assert (over + [Admitted])[m := Checked] == over + [Checked];
      events := ThenSpend(cfg, events, Scene(over + [Checked], 1, true, m), m);
      assert (over + [Checked])[m := Leaving] == over + [Leaving];
      events := ThenLeave(cfg, events, Scene(over + [Leaving], 1, true, n), m);
      assert (over + [Leaving])[m := Finished] == Over(n);
    }
  }

  /** Two callers that arrive when 99 budgets are spent both pass the check, and then both commit. */
  lemma TwoAtOnce(cfg: Config) returns (events: seq<Event>)
    requires cfg.maxInflight >= 2 && cfg.reading.SumsLedger?
    ensures SameBudget(Run(cfg, events).callers, "p", 100)
    ensures Spent(Run(cfg, events).ledger, "p") == 10100
  {
    var over := Over(99);
    events := SerialRun(cfg, 99);
    events := ThenEnter(cfg, events, Scene(over, 0, true, 99));
    events := ThenEnter(cfg, events, Scene(over + [Admitted], 1, true, 99));
    var sc := Scene(over + [Admitted] + [Admitted], 2, true, 99);
    events := ThenCheck(cfg, events, sc, 99);
    sc := sc.(phases := sc.phases[99 := Checked]);
    events := ThenCheck(cfg, events, sc, 100);
    sc := sc.(phases := sc.phases[100 := Checked]);
    events := ThenSpend(cfg, events, sc, 99);
    sc := sc.(phases := sc.phases[99 := Leaving], charged := 100);
    events := ThenSpend(cfg, events, sc, 100);
    LedgerSpent(101);
    SampleBudgets(Run(cfg, events).callers);
  }

  lemma SampleBudgets(callers: seq<Caller>)
    requires forall i :: 0 <= i < |callers| ==> exists n: nat :: callers[i].req == Sample(n)
    ensures SameBudget(callers, "p", 100)
  {
    forall i | 0 <= i < |callers|
      ensures callers[i].req.maxKgTokens == 100 && Truncation.MetaTokens(Meta(callers[i].req)) <= 100
    {
      var n: nat :| callers[i].req == Sample(n);
      SampleCharge(n);
    }
  }

  /** The cap of 100 budgets holds in every run exactly when the gate has a single slot. */
  lemma CapHoldsExactlyWhenSerial(cfg: Config)
    requires cfg.maxInflight >= 1 && cfg.reading.SumsLedger?
    ensures cfg.maxInflight == 1 <==>
              forall events, projectId, kg: nat :: WithinCap(cfg, events, projectId, kg)
  {
    if cfg.maxInflight == 1 {
      forall events, projectId, kg: nat
        ensures WithinCap(cfg, events, projectId, kg)
      {
        if SameBudget(Run(cfg, events).callers, projectId, kg) {
          SpendBound(cfg, events, projectId, kg, kg);
        }
      }
    } else {
      var events := TwoAtOnce(cfg);
      assert !WithinCap(cfg, events, "p", 100);
    }
  }

  /** With the reading that always answers zero no amount bounds the spend, whatever the number of slots. */
  lemma ZeroReadingUnbounded(cfg: Config, bound: nat) returns (events: seq<Event>)
    requires cfg.maxInflight >= 1 && cfg.reading.AlwaysZero?
    ensures SameBudget(Run(cfg, events).callers, "p", 100)
    ensures Spent(Run(cfg, events).ledger, "p") > bound
  {
    events := SerialRun(cfg, bound + 1);
    LedgerSpent(bound + 1);
    SampleBudgets(Run(cfg, events).callers);
  }
}
