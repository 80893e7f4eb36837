/** The budget gate over four scopes: which of them block a call, listed from the most to the least restrictive
    whatever order the collecting map is walked in. */
module Enforce {
  import Pause
  import Ordering

  datatype Axis = Project | Doctrine | Stage | WorkerId

  function Name(axis: Axis): string
  {
    match axis
    case Project => "project"
    case Doctrine => "doctrine"
    case Stage => "stage"
    case WorkerId => "worker_id"
  }

  datatype Scopes = Scopes(project: string, doctrine: string, stage: string, worker: string)

  datatype Caps = Caps(project: real, doctrine: real, stage: real, worker: real)

  datatype Decision = Decision(allowed: bool, blocked: seq<Axis>, remaining: map<Axis, real>)

  datatype Outcome = Decided(decision: Decision) | InvalidEstimate | InvalidScopes | StoreFailed

  datatype Answer<T> = Answered(value: T) | Failed

  /** The store's two questions: what a scope has spent in the window, and whether it has a pause row. */
  datatype Store = Store(rolled: Pause.Target -> Answer<real>, row: Pause.Target -> Answer<bool>)

  function ScopeTarget(scopes: Scopes, axis: Axis): Pause.Target
  {
    Pause.Target(Name(axis),
                 match axis
                 case Project => scopes.project
                 case Doctrine => scopes.doctrine
                 case Stage => scopes.stage
                 case WorkerId => scopes.worker)
  }

  function CapOf(caps: Caps, axis: Axis): real
  {
    match axis
    case Project => caps.project
    case Doctrine => caps.doctrine
    case Stage => caps.stage
    case WorkerId => caps.worker
  }

  predicate Complete(scopes: Scopes)
  {
    scopes.project != "" && scopes.doctrine != "" && scopes.stage != "" && scopes.worker != ""
  }

  predicate Answers(store: Store, target: Pause.Target)
  {
    store.rolled(target).Answered? && store.row(target).Answered?
  }

  function Remaining(store: Store, scopes: Scopes, caps: Caps, estimated: real, axis: Axis): real
    requires Answers(store, ScopeTarget(scopes, axis))
  {
    CapOf(caps, axis) - store.rolled(ScopeTarget(scopes, axis)).value - estimated
  }

  predicate Blocks(store: Store, scopes: Scopes, caps: Caps, estimated: real, axis: Axis)
    requires Answers(store, ScopeTarget(scopes, axis))
  {
    Remaining(store, scopes, caps, estimated, axis) < 0.0 || store.row(ScopeTarget(scopes, axis)).value
  }

  function Precedence(axis: Axis): int
  {
    match axis
    case WorkerId => 0
    case Stage => 1
    case Doctrine => 2
    case Project => 3
  }

  function MoreRestrictive(): (Axis, Axis) -> bool { (a, b) => Precedence(a) < Precedence(b) }

  /** The order in which the gate asks about the scopes. */
  function AxisAt(i: nat): Axis
  {
    if i == 0 then Project else if i == 1 then Doctrine else if i == 2 then Stage else WorkerId
  }

  predicate Visited(axis: Axis, i: nat) { 3 - Precedence(axis) < i }

  method Check(store: Store, scopes: Scopes, caps: Caps, estimated: real) returns (r: Outcome)
    ensures r.InvalidEstimate? <==> estimated < 0.0
    ensures r.InvalidScopes? <==> estimated >= 0.0 && !Complete(scopes)
    ensures r.StoreFailed? <==> estimated >= 0.0 && Complete(scopes)
                                && exists axis :: !Answers(store, ScopeTarget(scopes, axis))
    ensures r.Decided? ==> Faithful(r.decision, store, scopes, caps, estimated)
  {
    if estimated < 0.0 {
      return InvalidEstimate;
    }
    if scopes.project == "" || scopes.doctrine == "" || scopes.stage == "" || scopes.worker == "" {
      return InvalidScopes;
    }
    var blocked: set<Axis>, remaining: map<Axis, real> := {}, map[];
    var i := 0;
    while i < 4
      invariant 0 <= i <= 4
      invariant forall x :: Visited(x, i) ==> Answers(store, ScopeTarget(scopes, x))
      invariant forall x :: x in blocked <==> Visited(x, i) && Blocks(store, scopes, caps, estimated, x)
      invariant forall x :: x in remaining <==> Visited(x, i)
      invariant forall x :: x in remaining ==> remaining[x] == Remaining(store, scopes, caps, estimated, x)
    {
      var axis := AxisAt(i);
      var target := ScopeTarget(scopes, axis);
      var rolled := store.rolled(target);
      if rolled.Failed? {
        return StoreFailed;
      }
      remaining := remaining[axis := CapOf(caps, axis) - rolled.value - estimated];
      if rolled.value + estimated > CapOf(caps, axis) {
        blocked := blocked + {axis};
      }
      var paused := store.row(target);
      if paused.Failed? {
        return StoreFailed;
      }
      if paused.value {
        blocked := blocked + {axis};
      }
      i := i + 1;
    }
    RestrictionOrdered();
    var out := Ordering.Sorted(blocked, MoreRestrictive());
    assert |out| > 0 ==> out[0] in out;
    assert forall x :: Visited(x, i) && Answers(store, ScopeTarget(scopes, x));
    return Decided(Decision(|out| == 0, out, remaining));
  }

  /** Exactly the scopes that block are listed, most restrictive first, and a call is allowed when nothing blocks it. */
  ghost predicate Faithful(d: Decision, store: Store, scopes: Scopes, caps: Caps, estimated: real)
  {
    && (forall axis :: Answers(store, ScopeTarget(scopes, axis)))
    && Ordering.Ascending(d.blocked, MoreRestrictive())
    && (forall axis :: axis in d.blocked <==> Blocks(store, scopes, caps, estimated, axis))
    && (forall axis :: axis in d.remaining && d.remaining[axis] == Remaining(store, scopes, caps, estimated, axis))
    && (d.allowed <==> forall axis :: !Blocks(store, scopes, caps, estimated, axis))
  }

  /** Whether a scope blocks, from its own name and value, its own cap and the store's answers for it. */
  predicate Refused(store: Store, scope: string, value: string, cap: real, estimated: real)
    requires Answers(store, Pause.Target(scope, value))
  {
    var target := Pause.Target(scope, value);
    store.rolled(target).value + estimated > cap || store.row(target).value
  }

  function Listed(refused: bool, axis: Axis): seq<Axis> { if refused then [axis] else [] }

  function LeftOver(store: Store, scope: string, value: string, cap: real, estimated: real): real
    requires Answers(store, Pause.Target(scope, value))
  {
    cap - store.rolled(Pause.Target(scope, value)).value - estimated
  }

  lemma BlockedPart(xs: seq<Axis>, ys: seq<Axis>)
    requires Ascending(xs) && Ascending(ys)
    requires forall x, y :: x in xs && y in ys ==> Precedence(x) < Precedence(y)
    ensures Ascending(xs + ys) && forall x :: x in xs + ys <==> x in xs || x in ys
  {
    forall i, j | 0 <= i < j < |xs + ys|
      ensures Precedence((xs + ys)[i]) < Precedence((xs + ys)[j])
    {
      assert i < |xs| ==> (xs + ys)[i] in xs;
      assert j >= |xs| ==> (xs + ys)[j] in ys;
    }
  }

  predicate Ascending(xs: seq<Axis>) { Ordering.Ascending(xs, MoreRestrictive()) }

  lemma ListedOrder(worker: bool, stage: bool, doctrine: bool, project: bool)
    ensures var all := Listed(worker, WorkerId) + Listed(stage, Stage) + Listed(doctrine, Doctrine)
                       + Listed(project, Project);
            && Ascending(all) && (WorkerId in all <==> worker) && (Stage in all <==> stage)
            && (Doctrine in all <==> doctrine) && (Project in all <==> project)
  {
    BlockedPart(Listed(worker, WorkerId), Listed(stage, Stage));
    BlockedPart(Listed(worker, WorkerId) + Listed(stage, Stage), Listed(doctrine, Doctrine));
    BlockedPart(Listed(worker, WorkerId) + Listed(stage, Stage) + Listed(doctrine, Doctrine), Listed(project, Project));
  }

  ghost predicate Answering(store: Store, scopes: Scopes)
  {
    && Answers(store, Pause.Target("worker_id", scopes.worker)) && Answers(store, Pause.Target("stage", scopes.stage))
    && Answers(store, Pause.Target("doctrine", scopes.doctrine))
    && Answers(store, Pause.Target("project", scopes.project))
  }

  lemma AllAnswer(store: Store, scopes: Scopes)
    requires forall axis :: Answers(store, ScopeTarget(scopes, axis))
    ensures Answering(store, scopes)
  {
    assert Answers(store, ScopeTarget(scopes, WorkerId)) && Answers(store, ScopeTarget(scopes, Stage));
    assert Answers(store, ScopeTarget(scopes, Doctrine)) && Answers(store, ScopeTarget(scopes, Project));
  }

  /** The blocked scopes spelled out: worker, stage, doctrine, project, each by its own value and cap. */
  lemma BlockedSpelledOut(d: Decision, store: Store, scopes: Scopes, caps: Caps, estimated: real)
    requires Faithful(d, store, scopes, caps, estimated)
    ensures Answering(store, scopes)
    ensures d.blocked == Listed(Refused(store, "worker_id", scopes.worker, caps.worker, estimated), WorkerId)
                         + Listed(Refused(store, "stage", scopes.stage, caps.stage, estimated), Stage)
                         + Listed(Refused(store, "doctrine", scopes.doctrine, caps.doctrine, estimated), Doctrine)
                         + Listed(Refused(store, "project", scopes.project, caps.project, estimated), Project)
  {
    AllAnswer(store, scopes);
    RefusedBlocks(store, scopes, caps, estimated);
    ListIs(d.blocked,
           Refused(store, "worker_id", scopes.worker, caps.worker, estimated),
           Refused(store, "stage", scopes.stage, caps.stage, estimated),
           Refused(store, "doctrine", scopes.doctrine, caps.doctrine, estimated),
           Refused(store, "project", scopes.project, caps.project, estimated));
  }

  lemma ListIs(blocked: seq<Axis>, worker: bool, stage: bool, doctrine: bool, project: bool)
    requires Ascending(blocked) && (WorkerId in blocked <==> worker) && (Stage in blocked <==> stage)
    requires (Doctrine in blocked <==> doctrine) && (Project in blocked <==> project)
    ensures blocked == Listed(worker, WorkerId) + Listed(stage, Stage) + Listed(doctrine, Doctrine)
                       + Listed(project, Project)
  {
    var all := Listed(worker, WorkerId) + Listed(stage, Stage) + Listed(doctrine, Doctrine) + Listed(project, Project);
    ListedOrder(worker, stage, doctrine, project);
    RestrictionOrdered();
    forall axis: Axis
      ensures axis in blocked <==> axis in all
    {
      match axis
      case Project =>
      case Doctrine =>
      case Stage =>
      case WorkerId =>
    }
    Ordering.AscendingUnique(blocked, all, MoreRestrictive());
  }

  lemma RefusedBlocks(store: Store, scopes: Scopes, caps: Caps, estimated: real)
    requires Answering(store, scopes) && forall axis :: Answers(store, ScopeTarget(scopes, axis))
    ensures Blocks(store, scopes, caps, estimated, WorkerId)
            <==> Refused(store, "worker_id", scopes.worker, caps.worker, estimated)
    ensures Blocks(store, scopes, caps, estimated, Stage)
            <==> Refused(store, "stage", scopes.stage, caps.stage, estimated)
    ensures Blocks(store, scopes, caps, estimated, Doctrine)
            <==> Refused(store, "doctrine", scopes.doctrine, caps.doctrine, estimated)
    ensures Blocks(store, scopes, caps, estimated, Project)
            <==> Refused(store, "project", scopes.project, caps.project, estimated)
  {
  }

  lemma RemainingSpelledOut(d: Decision, store: Store, scopes: Scopes, caps: Caps, estimated: real)
    requires Faithful(d, store, scopes, caps, estimated)
    ensures Answering(store, scopes) && d.remaining.Keys == {Project, Doctrine, Stage, WorkerId}
    ensures d.remaining[Project] == LeftOver(store, "project", scopes.project, caps.project, estimated)
    ensures d.remaining[Doctrine] == LeftOver(store, "doctrine", scopes.doctrine, caps.doctrine, estimated)
    ensures d.remaining[Stage] == LeftOver(store, "stage", scopes.stage, caps.stage, estimated)
    ensures d.remaining[WorkerId] == LeftOver(store, "worker_id", scopes.worker, caps.worker, estimated)
  {
    AllAnswer(store, scopes);
    RemainingIs(store, scopes, caps, estimated);
  }

  lemma RemainingIs(store: Store, scopes: Scopes, caps: Caps, estimated: real)
    requires Answering(store, scopes) && forall axis :: Answers(store, ScopeTarget(scopes, axis))
    ensures Remaining(store, scopes, caps, estimated, Project)
            == LeftOver(store, "project", scopes.project, caps.project, estimated)
    ensures Remaining(store, scopes, caps, estimated, Doctrine)
            == LeftOver(store, "doctrine", scopes.doctrine, caps.doctrine, estimated)
    ensures Remaining(store, scopes, caps, estimated, Stage)
            == LeftOver(store, "stage", scopes.stage, caps.stage, estimated)
    ensures Remaining(store, scopes, caps, estimated, WorkerId)
            == LeftOver(store, "worker_id", scopes.worker, caps.worker, estimated)
  {
  }

  /** The four scopes of the gate are the four that an operator can pause. */
  lemma ScopesArePausable(scope: string)
    ensures Pause.ValidScope(scope) <==> exists axis :: scope == Name(axis)
  {
    if Pause.ValidScope(scope) {
      assert scope == Name(Project) || scope == Name(Doctrine) || scope == Name(Stage) || scope == Name(WorkerId);
    }
  }

  lemma SameRemaining(a: map<Axis, real>, b: map<Axis, real>)
    requires forall axis :: axis in a && axis in b && a[axis] == b[axis]
    ensures a == b
  {
  }

  /** The decision is determined by the store's answers, whatever order the blocked scopes were collected in. */
  lemma DecisionDetermined(d: Decision, d': Decision, store: Store, scopes: Scopes, caps: Caps, estimated: real)
    requires Faithful(d, store, scopes, caps, estimated) && Faithful(d', store, scopes, caps, estimated)
    ensures d == d'
  {
    SameRemaining(d.remaining, d'.remaining);
    assert forall axis :: axis in d.blocked <==> axis in d'.blocked;
    RestrictionOrdered();
    Ordering.AscendingUnique(d.blocked, d'.blocked, MoreRestrictive());
  }

  lemma RestrictionOrdered()
    ensures Ordering.StrictOrder(MoreRestrictive())
  {
  }

  /** Right after an undisturbed scheduler pass a call is allowed exactly when every scope has room left and no scope
      is paused by the operators' last word on it. */
  lemma AllowedAfterPass(d: Decision, store: Store, scopes: Scopes, caps: Caps, estimated: real,
                         events: seq<Pause.Event>, order: seq<Pause.Target>, now: int)
    requires Faithful(d, store, scopes, caps, estimated)
    requires Pause.TicksBy(events, now) && Pause.AfterEpoch(events) && Pause.Lists(order, Pause.Run(events).rows)
    requires forall t :: store.row(t) == Answered(t in Pause.Run(events + Pause.Pass(order, now)).rows)
    ensures d.allowed <==> forall axis ::
                             d.remaining[axis] >= 0.0 && !Pause.InForce(events, ScopeTarget(scopes, axis), now)
  {
    forall axis: Axis
      ensures Blocks(store, scopes, caps, estimated, axis)
              <==> d.remaining[axis] < 0.0 || Pause.InForce(events, ScopeTarget(scopes, axis), now)
    {
      Pause.RawFlagAfterPass(events, order, now, ScopeTarget(scopes, axis));
    }
  }

  // ----- When the decision is right -----

  /** The gate's answers are those of the rows after a run. */
  ghost predicate ReadsRun(store: Store, events: seq<Pause.Event>)
  {
    forall target :: store.row(target) == Answered(target in Pause.Run(events).rows)
  }

  /** The scope has room left, and its row is one whose deadline has passed and that no pass has cleared yet. */
  predicate HeldByStaleRow(store: Store, scopes: Scopes, caps: Caps, estimated: real, events: seq<Pause.Event>, t: int,
                           axis: Axis)
    requires Answers(store, ScopeTarget(scopes, axis))
  {
    var rows, target := Pause.Run(events).rows, ScopeTarget(scopes, axis);
    Remaining(store, scopes, caps, estimated, axis) >= 0.0 && target in rows && Pause.Stale(rows[target], t)
  }

  /** A scope should block a call: it has no room left, or the operators' last word on it is a pause in force. */
  predicate ShouldBlock(store: Store, scopes: Scopes, caps: Caps, estimated: real, events: seq<Pause.Event>, t: int,
                        axis: Axis)
    requires Answers(store, ScopeTarget(scopes, axis))
  {
    || Remaining(store, scopes, caps, estimated, axis) < 0.0
    || Pause.InForce(events, ScopeTarget(scopes, axis), t)
  }

  lemma BlocksRightlyExactlyWhen(store: Store, scopes: Scopes, caps: Caps, estimated: real, events: seq<Pause.Event>,
                                 t: int, axis: Axis)
    requires Answers(store, ScopeTarget(scopes, axis)) && ReadsRun(store, events) && Pause.TicksBy(events, t)
    ensures Blocks(store, scopes, caps, estimated, axis)
            <==> ShouldBlock(store, scopes, caps, estimated, events, t, axis)
                 || HeldByStaleRow(store, scopes, caps, estimated, events, t, axis)
    ensures !(ShouldBlock(store, scopes, caps, estimated, events, t, axis)
              && HeldByStaleRow(store, scopes, caps, estimated, events, t, axis))
  {
    Pause.RawFlagRightExactlyWhen(events, ScopeTarget(scopes, axis), t);
    Pause.AnswersFromHistory(events, ScopeTarget(scopes, axis), t);
  }

  /** At any moment of any run, the gate lists exactly the scopes that should block if and only if no otherwise open
      scope is held by a stale row. */
  lemma BlockedRightExactlyWhen(d: Decision, store: Store, scopes: Scopes, caps: Caps, estimated: real,
                                events: seq<Pause.Event>, t: int)
    requires Faithful(d, store, scopes, caps, estimated)
    requires ReadsRun(store, events) && Pause.TicksBy(events, t)
    ensures (forall axis :: axis in d.blocked <==> ShouldBlock(store, scopes, caps, estimated, events, t, axis))
            <==> forall axis :: !HeldByStaleRow(store, scopes, caps, estimated, events, t, axis)
  {
    forall axis: Axis
      ensures axis in d.blocked
              <==> ShouldBlock(store, scopes, caps, estimated, events, t, axis)
                   || HeldByStaleRow(store, scopes, caps, estimated, events, t, axis)
      ensures !(ShouldBlock(store, scopes, caps, estimated, events, t, axis)
                && HeldByStaleRow(store, scopes, caps, estimated, events, t, axis))
    {
      BlocksRightlyExactlyWhen(store, scopes, caps, estimated, events, t, axis);
    }
  }

  /** And a call is allowed exactly when it should be, unless stale rows are all that is in its way. */
  lemma AllowedRightExactlyWhen(d: Decision, store: Store, scopes: Scopes, caps: Caps, estimated: real,
                                events: seq<Pause.Event>, t: int)
    requires Faithful(d, store, scopes, caps, estimated)
    requires ReadsRun(store, events) && Pause.TicksBy(events, t)
    ensures (d.allowed <==> forall axis :: !ShouldBlock(store, scopes, caps, estimated, events, t, axis))
            <==> (exists axis :: ShouldBlock(store, scopes, caps, estimated, events, t, axis))
                 || forall axis :: !HeldByStaleRow(store, scopes, caps, estimated, events, t, axis)
  {
    forall axis: Axis
      ensures Blocks(store, scopes, caps, estimated, axis)
              <==> ShouldBlock(store, scopes, caps, estimated, events, t, axis)
                   || HeldByStaleRow(store, scopes, caps, estimated, events, t, axis)
    {
      BlocksRightlyExactlyWhen(store, scopes, caps, estimated, events, t, axis);
    }
  }

  const FOUR := Scopes("p", "d", "s", "w")

  const ROOMY := Caps(1.0, 1.0, 1.0, 1.0)

  /** Nothing spent, and the one row of a pause that is over. */
  function AfterBrief(): Store
  {
    Store(_ => Answered(0.0), (target: Pause.Target) => Answered(target in Pause.Run(Pause.BRIEF).rows))
  }

  /** A run after which the gate refuses a call that nothing should block. */
  lemma StaleRowBlocks(d: Decision)
    requires Faithful(d, AfterBrief(), FOUR, ROOMY, 0.5)
    ensures ReadsRun(AfterBrief(), Pause.BRIEF) && Pause.TicksBy(Pause.BRIEF, 10)
    ensures forall axis :: !ShouldBlock(AfterBrief(), FOUR, ROOMY, 0.5, Pause.BRIEF, 10, axis)
    ensures !d.allowed && d.blocked == [Project]
  {
    Pause.RawFlagCanBeStale();
    assert ScopeTarget(FOUR, Project) == Pause.PROJECT;
    forall axis: Axis
      ensures Blocks(AfterBrief(), FOUR, ROOMY, 0.5, axis) <==> axis == Project
      ensures !Pause.InForce(Pause.BRIEF, ScopeTarget(FOUR, axis), 10)
    {
      assert axis != Project ==> ScopeTarget(FOUR, axis).value != Pause.PROJECT.value;
      Pause.AnswersFromHistory(Pause.BRIEF, ScopeTarget(FOUR, axis), 10);
    }
    RestrictionOrdered();
    Ordering.AscendingUnique(d.blocked, [Project], MoreRestrictive());
  }
}
