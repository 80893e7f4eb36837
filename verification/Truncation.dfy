/** The token estimators, the static/volatile split, and the graceful truncation guard. */
module Truncation {
  import opened AugmentTypes

  // ----- Estimates -----

  function SummaryChars(summaries: seq<CommunitySummary>): nat
  {
    if summaries == [] then 0
    else SummaryChars(summaries[..|summaries| - 1]) + summaries[|summaries| - 1].tokenCount * 4 + 20
  }

  function StaticTokens(meta: ProjectMeta, summaries: seq<CommunitySummary>): nat
  {
    (30 + |meta.projectId| + |meta.doctrine| + |meta.stage| + SummaryChars(summaries)) / 4
  }

  /** What ProjectMeta alone is estimated at. */
  function MetaTokens(meta: ProjectMeta): nat { StaticTokens(meta, []) }

  function FusedChars(fused: seq<FusedResult>): nat
  {
    if fused == [] then 0
    else
      var last := fused[|fused| - 1];
      FusedChars(fused[..|fused| - 1]) + |last.title| + |last.snippet| + 30
  }

  /** Characters of a list of names, each counted with extra more. */
  function NameChars(names: seq<string>, extra: nat): nat
  {
    if names == [] then 0 else NameChars(names[..|names| - 1], extra) + |names[|names| - 1]| + extra
  }

  function VolatileTokens(fused: seq<FusedResult>, callers: seq<string>, callees: seq<string>): nat
  {
    (FusedChars(fused) + NameChars(callers, 5) + NameChars(callees, 5)) / 4
  }

  function SummaryTokens(s: CommunitySummary): nat
  {
    var tokens := (|s.clusterId| + |s.topic| + NameChars(s.files, 1) + NameChars(s.symbols, 1)) / 4;
    if tokens == 0 then 1 else tokens
  }

  method EstimateNames(names: seq<string>, extra: nat) returns (chars: nat)
    ensures chars == NameChars(names, extra)
  {
    chars := 0;
    for i := 0 to |names|
      invariant chars == NameChars(names[..i], extra)
    {
      assert names[..i + 1][..i] == names[..i];
      chars := chars + |names[i]| + extra;
    }
    assert names[..|names|] == names;
  }

  method EstimateStaticTokens(meta: ProjectMeta, summaries: seq<CommunitySummary>) returns (tokens: nat)
    ensures tokens == StaticTokens(meta, summaries)
  {
    var chars := 30;
    chars := chars + |meta.projectId| + |meta.doctrine| + |meta.stage|;
    for i := 0 to |summaries|
      invariant chars == 30 + |meta.projectId| + |meta.doctrine| + |meta.stage| + SummaryChars(summaries[..i])
    {
      assert summaries[..i + 1][..i] == summaries[..i];
      chars := chars + summaries[i].tokenCount * 4;
      chars := chars + 20;
    }
    assert summaries[..|summaries|] == summaries;
    tokens := chars / 4;
  }

  method EstimateVolatileTokens(fused: seq<FusedResult>, callers: seq<string>, callees: seq<string>)
    returns (tokens: nat)
    ensures tokens == VolatileTokens(fused, callers, callees)
  {
    var chars := 0;
    for i := 0 to |fused|
      invariant chars == FusedChars(fused[..i])
    {
      assert fused[..i + 1][..i] == fused[..i];
      chars := chars + |fused[i].title| + |fused[i].snippet| + 30;
    }
    assert fused[..|fused|] == fused;
    var callerChars := EstimateNames(callers, 5);
    var calleeChars := EstimateNames(callees, 5);
    tokens := (chars + callerChars + calleeChars) / 4;
  }

  method EstimateSummaryTokens(s: CommunitySummary) returns (tokens: nat)
    ensures tokens == SummaryTokens(s)
  {
    var fileChars := EstimateNames(s.files, 1);
    var symbolChars := EstimateNames(s.symbols, 1);
    tokens := (|s.clusterId| + |s.topic| + fileChars + symbolChars) / 4;
    if tokens == 0 {
      return 1;
    }
  }

  /** Four characters make a token: thirty for ProjectMeta and for every fused result beside their text, four for every
      token of a summary and twenty beside, five beside every caller and callee. */
  lemma OneOfEach(meta: ProjectMeta, s: CommunitySummary, f: FusedResult, caller: string, callee: string)
    ensures StaticTokens(meta, [s])
            == (30 + |meta.projectId| + |meta.doctrine| + |meta.stage| + 4 * s.tokenCount + 20) / 4
    ensures VolatileTokens([f], [caller], [callee])
            == (|f.title| + |f.snippet| + 30 + |caller| + 5 + |callee| + 5) / 4
  {
    assert SummaryChars([s]) == 4 * s.tokenCount + 20;
    assert FusedChars([f]) == |f.title| + |f.snippet| + 30;
    assert NameChars([caller], 5) == |caller| + 5 && NameChars([callee], 5) == |callee| + 5;
  }

  /** Both halves carry the estimate of what they hold. */
  ghost predicate Estimated(st: StaticContext, vo: VolatileContext)
  {
    st.tokens == StaticTokens(st.meta, st.summaries) && vo.tokens == VolatileTokens(vo.fused, vo.callers, vo.callees)
  }

  method Split(summaries: seq<CommunitySummary>, fused: seq<FusedResult>, meta: ProjectMeta, callers: seq<string>,
               callees: seq<string>) returns (st: StaticContext, vo: VolatileContext)
    ensures Estimated(st, vo)
    ensures st.meta == meta && st.summaries == summaries
    ensures vo.fused == fused && vo.callers == callers && vo.callees == callees
  {
    var staticTokens := EstimateStaticTokens(meta, summaries);
    st := StaticContext(meta, summaries, staticTokens);
    var volatileTokens := EstimateVolatileTokens(fused, callers, callees);
    vo := VolatileContext(fused, callers, callees, volatileTokens);
  }

  // ----- What the guard computes, phase by phase -----

  const MAX_SYMBOLS_PER_SUMMARY: nat := 5

  /** Phase one: drop fused results from the tail while the total is over. */
  function FitFused(vo: VolatileContext, staticTokens: nat, maxTokens: nat): VolatileContext
    decreases |vo.fused|
  {
    if staticTokens + vo.tokens > maxTokens && vo.fused != [] then
      var shorter := vo.fused[..|vo.fused| - 1];
      var fewer := vo.(fused := shorter, tokens := VolatileTokens(shorter, vo.callers, vo.callees));
      FitFused(fewer, staticTokens, maxTokens)
    else vo
  }

  /** Between phases: callers and callees go when the static half alone is over. */
  function DropCallers(vo: VolatileContext, staticTokens: nat, maxTokens: nat): VolatileContext
  {
    if vo.fused == [] && staticTokens > maxTokens then VolatileContext([], [], [], 0) else vo
  }

  function FirstFew(names: seq<string>): seq<string>
  {
    if |names| > MAX_SYMBOLS_PER_SUMMARY then names[..MAX_SYMBOLS_PER_SUMMARY] else names
  }

  predicate TooLong(s: CommunitySummary)
  {
    |s.symbols| > MAX_SYMBOLS_PER_SUMMARY || |s.files| > MAX_SYMBOLS_PER_SUMMARY
  }

  /** One summary trimmed. Once some summary was trimmed, every later one is estimated anew. */
  function TrimOne(s: CommunitySummary, trimmedBefore: bool): CommunitySummary
  {
    var t := s.(symbols := FirstFew(s.symbols), files := FirstFew(s.files));
    if trimmedBefore || TooLong(s) then t.(tokenCount := SummaryTokens(t)) else t
  }

  predicate AnyTooLong(summaries: seq<CommunitySummary>)
  {
    summaries != [] && (TooLong(summaries[|summaries| - 1]) || AnyTooLong(summaries[..|summaries| - 1]))
  }

  /** Phase two: trim the symbol and file lists of every summary. */
  function TrimAll(summaries: seq<CommunitySummary>): seq<CommunitySummary>
  {
    seq(|summaries|, i requires 0 <= i < |summaries| => TrimOne(summaries[i], AnyTooLong(summaries[..i])))
  }

  function Trimmed(st: StaticContext): StaticContext
  {
    if AnyTooLong(st.summaries) then
      StaticContext(st.meta, TrimAll(st.summaries), StaticTokens(st.meta, TrimAll(st.summaries)))
    else st
  }

  /** Phase three: drop summaries from the tail while the total is over. */
  function FitSummaries(st: StaticContext, volatileTokens: nat, maxTokens: nat): StaticContext
    decreases |st.summaries|
  {
    if st.tokens + volatileTokens > maxTokens && st.summaries != [] then
      var shorter := st.summaries[..|st.summaries| - 1];
      FitSummaries(StaticContext(st.meta, shorter, StaticTokens(st.meta, shorter)), volatileTokens, maxTokens)
    else st
  }

  function Kept(st: StaticContext, vo: VolatileContext, maxTokens: int): (StaticContext, VolatileContext)
  {
    if maxTokens <= 0 then
      (StaticContext(st.meta, [], MetaTokens(st.meta)), VolatileContext([], [], [], 0))
    else if st.tokens + vo.tokens <= maxTokens then (st, vo)
    else
      var v := DropCallers(FitFused(vo, st.tokens, maxTokens), st.tokens, maxTokens);
      var s := if st.tokens + v.tokens > maxTokens then Trimmed(st) else st;
      (FitSummaries(s, v.tokens, maxTokens), v)
  }

  // ----- What the guard is to return, without its phases -----

  /** What cutting the lists leaves of summary i: its first five symbols and files, and, from the first summary with a
      longer list on, an estimate of its own. */
  ghost predicate CutToFive(t: CommunitySummary, all: seq<CommunitySummary>, i: nat)
    requires i < |all|
  {
    var s := all[i];
    && t.clusterId == s.clusterId && t.topic == s.topic && t.noteIds == s.noteIds
    && t.symbols == (if |s.symbols| < 5 then s.symbols else s.symbols[..5])
    && t.files == (if |s.files| < 5 then s.files else s.files[..5])
    && t.tokenCount == (if exists j :: 0 <= j <= i && (|all[j].symbols| > 5 || |all[j].files| > 5) then SummaryTokens(t)
                        else s.tokenCount)
  }

  ghost predicate AllCut(kept: seq<CommunitySummary>, all: seq<CommunitySummary>)
  {
    |kept| <= |all| && forall i :: 0 <= i < |kept| ==> CutToFive(kept[i], all, i)
  }

  /** The longest prefix of fused results that fits stays; callers and callees stay unless no fused result is left and
      the static half alone is over. */
  ghost predicate GuardedVolatile(st: StaticContext, vo: VolatileContext, maxTokens: int, v: VolatileContext)
  {
    && v.fused <= vo.fused && v.tokens == VolatileTokens(v.fused, v.callers, v.callees)
    && (v.fused == [] || FusedEnough(st, vo, maxTokens, v))
    && (forall k :: |v.fused| < k <= |vo.fused| ==>
          st.tokens + VolatileTokens(vo.fused[..k], vo.callers, vo.callees) > maxTokens)
    && (var dropped := v.fused == [] && st.tokens > maxTokens;
        && v.callers == (if dropped then [] else vo.callers)
        && v.callees == (if dropped then [] else vo.callees))
  }

  /** Without a positive limit nothing but ProjectMeta stays. With one, the summaries stay whole if cutting the fused
      results is enough; else their lists are cut, and the longest prefix that then fits stays. */
  ghost predicate Guarded(st: StaticContext, vo: VolatileContext, maxTokens: int, s: StaticContext, v: VolatileContext)
  {
    && s.meta == st.meta && Estimated(s, v)
    && if maxTokens <= 0 then s.summaries == [] && v.fused == [] && v.callers == [] && v.callees == []
       else
         && GuardedVolatile(st, vo, maxTokens, v)
         && if FusedEnough(st, vo, maxTokens, v) then s.summaries == st.summaries
            else LongestCut(st, maxTokens, v.tokens, s)
  }

  /** The total after the fused results were cut is within the limit. */
  ghost predicate FusedEnough(st: StaticContext, vo: VolatileContext, maxTokens: int, v: VolatileContext)
  {
    st.tokens + VolatileTokens(v.fused, vo.callers, vo.callees) <= maxTokens
  }

  ghost predicate LongestCut(st: StaticContext, maxTokens: int, volatileTokens: nat, s: StaticContext)
  {
    && AllCut(s.summaries, st.summaries)
    && (s.summaries == [] || StaticTokens(st.meta, s.summaries) + volatileTokens <= maxTokens)
    && (forall longer :: AllCut(longer, st.summaries) && |longer| > |s.summaries| ==>
          StaticTokens(st.meta, longer) + volatileTokens > maxTokens)
  }

  lemma TooLongUpTo(all: seq<CommunitySummary>, i: nat)
    requires i < |all|
    ensures AnyTooLong(all[..i]) || TooLong(all[i])
            <==> exists j :: 0 <= j <= i && (|all[j].symbols| > 5 || |all[j].files| > 5)
  {
    NothingTooLong(all[..i]);
    assert forall j :: 0 <= j < i ==> all[..i][j] == all[j];
    assert forall j :: 0 <= j < |all| ==> (TooLong(all[j]) <==> |all[j].symbols| > 5 || |all[j].files| > 5);
  }

  /** Cutting is determined. */
  lemma CutIsTrimmed(t: CommunitySummary, all: seq<CommunitySummary>, i: nat)
    requires i < |all|
    ensures CutToFive(t, all, i) <==> t == TrimAll(all)[i]
  {
    TooLongUpTo(all, i);
    var s := all[i];
    assert |s.symbols| == 5 ==> s.symbols[..5] == s.symbols;
    assert |s.files| == 5 ==> s.files[..5] == s.files;
  }

  lemma AllCutIsPrefix(kept: seq<CommunitySummary>, all: seq<CommunitySummary>)
    ensures AllCut(kept, all) <==> |kept| <= |all| && kept == TrimAll(all)[..|kept|]
  {
    if |kept| <= |all| {
      forall i | 0 <= i < |kept|
        ensures CutToFive(kept[i], all, i) <==> kept[i] == TrimAll(all)[i]
      {
        CutIsTrimmed(kept[i], all, i);
      }
    }
  }

  lemma TrimmedSummaries(st: StaticContext)
    requires st.tokens == StaticTokens(st.meta, st.summaries)
    ensures Trimmed(st) == StaticContext(st.meta, TrimAll(st.summaries), StaticTokens(st.meta, TrimAll(st.summaries)))
  {
    if !AnyTooLong(st.summaries) {
      NothingTrimmed(st.summaries);
    }
  }

  lemma PhaseThreeIsLongestCut(st: StaticContext, volatileTokens: nat, maxTokens: nat)
    requires st.tokens == StaticTokens(st.meta, st.summaries)
    ensures var s := FitSummaries(Trimmed(st), volatileTokens, maxTokens);
            && s.meta == st.meta && s.tokens == StaticTokens(s.meta, s.summaries)
            && LongestCut(st, maxTokens, volatileTokens, s)
  {
    TrimmedSummaries(st);
    FitSummariesKeepsLongest(Trimmed(st), volatileTokens, maxTokens);
    var s := FitSummaries(Trimmed(st), volatileTokens, maxTokens);
    AllCutIsPrefix(s.summaries, st.summaries);
    forall longer | AllCut(longer, st.summaries) && |longer| > |s.summaries|
      ensures StaticTokens(st.meta, longer) + volatileTokens > maxTokens
    {
      AllCutIsPrefix(longer, st.summaries);
    }
  }

  lemma PhaseOneIsGuarded(st: StaticContext, vo: VolatileContext, maxTokens: nat)
    requires Estimated(st, vo)
    ensures var v := DropCallers(FitFused(vo, st.tokens, maxTokens), st.tokens, maxTokens);
            && GuardedVolatile(st, vo, maxTokens, v)
            && (st.tokens + v.tokens <= maxTokens <==> FusedEnough(st, vo, maxTokens, v))
  {
    FitFusedKeepsLongest(vo, st.tokens, maxTokens);
  }

  lemma WholeIsGuarded(st: StaticContext, vo: VolatileContext, maxTokens: nat)
    requires Estimated(st, vo) && st.tokens + vo.tokens <= maxTokens
    ensures maxTokens > 0 ==> Guarded(st, vo, maxTokens, st, vo)
  {
  }

  lemma CutIsGuarded(st: StaticContext, vo: VolatileContext, maxTokens: nat, v: VolatileContext, s: StaticContext)
    requires maxTokens > 0 && Estimated(st, vo) && GuardedVolatile(st, vo, maxTokens, v)
    requires s.meta == st.meta && s.tokens == StaticTokens(s.meta, s.summaries)
    requires if FusedEnough(st, vo, maxTokens, v) then s == st else LongestCut(st, maxTokens, v.tokens, s)
    ensures Guarded(st, vo, maxTokens, s, v)
  {
  }

  lemma NothingMoreToDrop(st: StaticContext, volatileTokens: nat, maxTokens: nat)
    requires st.tokens + volatileTokens <= maxTokens
    ensures FitSummaries(st, volatileTokens, maxTokens) == st
  {
  }

  /** The phases return what the guard is to return. */
  lemma KeptIsGuarded(st: StaticContext, vo: VolatileContext, maxTokens: int)
    requires Estimated(st, vo)
    ensures Guarded(st, vo, maxTokens, Kept(st, vo, maxTokens).0, Kept(st, vo, maxTokens).1)
  {
    if maxTokens > 0 && st.tokens + vo.tokens <= maxTokens {
      WholeIsGuarded(st, vo, maxTokens);
    } else if maxTokens > 0 {
      PhaseOneIsGuarded(st, vo, maxTokens);
      var v := DropCallers(FitFused(vo, st.tokens, maxTokens), st.tokens, maxTokens);
      if st.tokens + v.tokens <= maxTokens {
        NothingMoreToDrop(st, v.tokens, maxTokens);
      } else {
        PhaseThreeIsLongestCut(st, v.tokens, maxTokens);
      }
      CutIsGuarded(st, vo, maxTokens, v, Kept(st, vo, maxTokens).0);
    }
  }

  lemma LongestCutUnique(st: StaticContext, maxTokens: int, volatileTokens: nat, a: StaticContext, b: StaticContext)
    requires LongestCut(st, maxTokens, volatileTokens, a) && LongestCut(st, maxTokens, volatileTokens, b)
    ensures a.summaries == b.summaries
  {
    AllCutIsPrefix(a.summaries, st.summaries);
    AllCutIsPrefix(b.summaries, st.summaries);
  }

  lemma PrefixLengths(xs: seq<FusedResult>, ys: seq<FusedResult>, all: seq<FusedResult>)
    requires xs <= all && ys <= all && |xs| == |ys|
    ensures xs == ys
  {
  }

  /** There is only one result to return. */
  lemma GuardDetermined(st: StaticContext, vo: VolatileContext, maxTokens: int, s: StaticContext, v: VolatileContext,
                        s': StaticContext, v': VolatileContext)
    requires Guarded(st, vo, maxTokens, s, v) && Guarded(st, vo, maxTokens, s', v')
    ensures s == s' && v == v'
  {
    if maxTokens > 0 {
      assert v.fused == vo.fused[..|v.fused|] && v'.fused == vo.fused[..|v'.fused|];
      assert |v.fused| == |v'.fused|;
      PrefixLengths(v.fused, v'.fused, vo.fused);
      if !FusedEnough(st, vo, maxTokens, v) {
        LongestCutUnique(st, maxTokens, v.tokens, s, s');
      }
    }
  }

  // ----- The imperative guard -----

  method Apply(st: StaticContext, vo: VolatileContext, maxTokens: int)
    returns (newStatic: StaticContext, newVolatile: VolatileContext, truncated: bool)
    ensures (newStatic, newVolatile) == Kept(st, vo, maxTokens)
    ensures Estimated(st, vo) ==> Guarded(st, vo, maxTokens, newStatic, newVolatile)
    ensures truncated <==> newStatic.summaries != st.summaries || newVolatile.fused != vo.fused
                           || newVolatile.callers != vo.callers || newVolatile.callees != vo.callees
  {
    newStatic, newVolatile, truncated := Phases(st, vo, maxTokens);
    if Estimated(st, vo) {
      KeptIsGuarded(st, vo, maxTokens);
    }
  }

  method Phases(st: StaticContext, vo: VolatileContext, maxTokens: int)
    returns (newStatic: StaticContext, newVolatile: VolatileContext, truncated: bool)
    ensures (newStatic, newVolatile) == Kept(st, vo, maxTokens)
    ensures truncated <==> newStatic.summaries != st.summaries || newVolatile.fused != vo.fused
                           || newVolatile.callers != vo.callers || newVolatile.callees != vo.callees
  {
    var current := st.tokens + vo.tokens;
    if current <= maxTokens && maxTokens > 0 {
      return st, vo, false;
    }
    newStatic, newVolatile := st, vo;

    if maxTokens <= 0 {
      newStatic, newVolatile, truncated := KeepMeta(st, vo);
      return;
    }

    newVolatile, truncated := DropFused(newVolatile, newStatic.tokens, maxTokens);

    if |newVolatile.fused| == 0 && newStatic.tokens > maxTokens {
      var namesDropped;
      newVolatile, namesDropped := DropNames(newVolatile);
      truncated := truncated || namesDropped;
    }

    if newStatic.tokens + newVolatile.tokens > maxTokens {
      var didTrim;
      newStatic, didTrim := Trim(newStatic);
      truncated := truncated || didTrim;
    }

    ghost var before := newStatic.summaries;
    var dropped;
    newStatic, dropped := DropSummaries(newStatic, newVolatile.tokens, maxTokens);
    truncated := truncated || dropped;
    assert newStatic.summaries == before[..|newStatic.summaries|];
    TrimChanges(st.summaries);
  }

  /** Without a positive limit only ProjectMeta stays. */
  method KeepMeta(st: StaticContext, vo: VolatileContext)
    returns (newStatic: StaticContext, newVolatile: VolatileContext, truncated: bool)
    ensures newStatic == StaticContext(st.meta, [], MetaTokens(st.meta))
    ensures newVolatile == VolatileContext([], [], [], 0)
    ensures truncated <==> st.summaries != [] || vo.fused != [] || vo.callers != [] || vo.callees != []
  {
    truncated := false;
    newStatic, newVolatile := st, vo;
    if |newStatic.summaries| > 0 {
      newStatic := newStatic.(summaries := []);
      truncated := true;
    }
    if |newVolatile.fused| > 0 || |newVolatile.callers| > 0 || |newVolatile.callees| > 0 {
      newVolatile := newVolatile.(fused := [], callers := [], callees := []);
      truncated := true;
    }
    var metaTokens := EstimateStaticTokens(newStatic.meta, []);
    newStatic := newStatic.(tokens := metaTokens);
    newVolatile := newVolatile.(tokens := 0);
  }

  method DropFused(vo: VolatileContext, staticTokens: nat, maxTokens: nat)
    returns (newVolatile: VolatileContext, dropped: bool)
    ensures newVolatile == FitFused(vo, staticTokens, maxTokens)
    ensures newVolatile.callers == vo.callers && newVolatile.callees == vo.callees
    ensures dropped <==> newVolatile.fused != vo.fused
  {
    newVolatile, dropped := vo, false;
    while staticTokens + newVolatile.tokens > maxTokens && |newVolatile.fused| > 0
      invariant FitFused(newVolatile, staticTokens, maxTokens) == FitFused(vo, staticTokens, maxTokens)
      invariant |newVolatile.fused| <= |vo.fused|
      invariant newVolatile.callers == vo.callers && newVolatile.callees == vo.callees
      invariant if dropped then |newVolatile.fused| < |vo.fused| else newVolatile == vo
      decreases |newVolatile.fused|
    {
      var shorter := newVolatile.fused[..|newVolatile.fused| - 1];
      var tokens := EstimateVolatileTokens(shorter, newVolatile.callers, newVolatile.callees);
      newVolatile := newVolatile.(fused := shorter, tokens := tokens);
      dropped := true;
    }
  }

  method DropNames(vo: VolatileContext) returns (newVolatile: VolatileContext, dropped: bool)
    ensures newVolatile == VolatileContext(vo.fused, [], [], 0)
    ensures dropped <==> vo.callers != [] || vo.callees != []
  {
    newVolatile, dropped := vo, false;
    if |newVolatile.callers| > 0 {
      newVolatile := newVolatile.(callers := []);
      dropped := true;
    }
    if |newVolatile.callees| > 0 {
      newVolatile := newVolatile.(callees := []);
      dropped := true;
    }
    newVolatile := newVolatile.(tokens := 0);
  }

  method DropSummaries(st: StaticContext, volatileTokens: nat, maxTokens: nat)
    returns (newStatic: StaticContext, dropped: bool)
    ensures newStatic == FitSummaries(st, volatileTokens, maxTokens)
    ensures newStatic.summaries <= st.summaries && (dropped <==> newStatic.summaries != st.summaries)
  {
    newStatic, dropped := st, false;
    while newStatic.tokens + volatileTokens > maxTokens && |newStatic.summaries| > 0
      invariant FitSummaries(newStatic, volatileTokens, maxTokens) == FitSummaries(st, volatileTokens, maxTokens)
      invariant newStatic.meta == st.meta && newStatic.summaries <= st.summaries
      invariant if dropped then |newStatic.summaries| < |st.summaries| else newStatic == st
      decreases |newStatic.summaries|
    {
      var shorter := newStatic.summaries[..|newStatic.summaries| - 1];
      var tokens := EstimateStaticTokens(newStatic.meta, shorter);
      newStatic := StaticContext(newStatic.meta, shorter, tokens);
      dropped := true;
    }
  }

  method TrimSummary(s: CommunitySummary, trimmedBefore: bool) returns (t: CommunitySummary, didTrim: bool)
    ensures t == TrimOne(s, trimmedBefore) && (didTrim <==> trimmedBefore || TooLong(s))
  {
    t, didTrim := s, trimmedBefore;
    if |t.symbols| > MAX_SYMBOLS_PER_SUMMARY {
      t := t.(symbols := t.symbols[..MAX_SYMBOLS_PER_SUMMARY]);
      didTrim := true;
    }
    if |t.files| > MAX_SYMBOLS_PER_SUMMARY {
      t := t.(files := t.files[..MAX_SYMBOLS_PER_SUMMARY]);
      didTrim := true;
    }
    if didTrim {
      var tokens := EstimateSummaryTokens(t);
      t := t.(tokenCount := tokens);
    }
  }

  /** The first n summaries trimmed, one after the other. */
  ghost function PartTrimmed(all: seq<CommunitySummary>, n: nat): (r: seq<CommunitySummary>)
    requires n <= |all|
    ensures |r| == |all|
  {
    if n == 0 then all
    else PartTrimmed(all, n - 1)[n - 1 := TrimOne(all[n - 1], AnyTooLong(all[..n - 1]))]
  }

  lemma {:induction false} PartTrimmedAt(all: seq<CommunitySummary>, n: nat, i: nat)
    requires n <= |all| && i < |all|
    ensures PartTrimmed(all, n)[i] == if i < n then TrimAll(all)[i] else all[i]
  {
    if n > 0 {
      PartTrimmedAt(all, n - 1, i);
    }
  }

  lemma AllTrimmed(all: seq<CommunitySummary>)
    ensures PartTrimmed(all, |all|) == TrimAll(all)
  {
    forall i | 0 <= i < |all|
      ensures PartTrimmed(all, |all|)[i] == TrimAll(all)[i]
    {
      PartTrimmedAt(all, |all|, i);
    }
  }

  lemma OneMoreTooLong(all: seq<CommunitySummary>, i: nat)
    requires i < |all|
    ensures AnyTooLong(all[..i + 1]) <==> AnyTooLong(all[..i]) || TooLong(all[i])
  {
    assert all[..i + 1][..i] == all[..i];
  }

  method TrimEach(all: seq<CommunitySummary>) returns (summaries: seq<CommunitySummary>, didTrim: bool)
    ensures summaries == TrimAll(all) && (didTrim <==> AnyTooLong(all))
  {
    summaries, didTrim := all, false;
    for i := 0 to |all|
      invariant summaries == PartTrimmed(all, i)
      invariant didTrim <==> AnyTooLong(all[..i])
    {
      PartTrimmedAt(all, i, i);
      OneMoreTooLong(all, i);
      var s;
      s, didTrim := TrimSummary(summaries[i], didTrim);
      summaries := summaries[i := s];
    }
    assert all[..|all|] == all;
    AllTrimmed(all);
  }

  /** The in-place pass over the summaries; didTrim stays set once some list was cut. */
  method Trim(st: StaticContext) returns (newStatic: StaticContext, didTrim: bool)
    ensures newStatic == Trimmed(st) && (didTrim <==> AnyTooLong(st.summaries))
  {
    var summaries;
    summaries, didTrim := TrimEach(st.summaries);
    newStatic := st;
    if didTrim {
      var tokens := EstimateStaticTokens(st.meta, summaries);
      newStatic := StaticContext(st.meta, summaries, tokens);
    } else {
      NothingTrimmed(st.summaries);
      newStatic := newStatic.(summaries := summaries);
    }
  }

  lemma NothingTrimmed(all: seq<CommunitySummary>)
    requires !AnyTooLong(all)
    ensures TrimAll(all) == all
  {
    forall i | 0 <= i < |all|
      ensures !TooLong(all[i]) && !AnyTooLong(all[..i])
    {
      NothingTooLong(all);
      NothingTooLong(all[..i]);
    }
  }

  lemma {:induction false} NothingTooLong(summaries: seq<CommunitySummary>)
    ensures AnyTooLong(summaries) <==> exists i :: 0 <= i < |summaries| && TooLong(summaries[i])
  {
    if summaries != [] {
      var front := summaries[..|summaries| - 1];
      NothingTooLong(front);
      assert forall i :: 0 <= i < |front| ==> summaries[i] == front[i];
    }
  }

  /** Trimming changes something at and only at a list that was too long. */
  lemma TrimChanges(summaries: seq<CommunitySummary>)
    ensures AnyTooLong(summaries) ==> forall k :: 0 <= k <= |summaries| ==> TrimAll(summaries)[..k] != summaries
  {
    NothingTooLong(summaries);
    if i :| 0 <= i < |summaries| && TooLong(summaries[i]) {
      var t := TrimAll(summaries)[i];
      assert |t.symbols| < |summaries[i].symbols| || |t.files| < |summaries[i].files|;
    }
  }

  // ----- What the guard guarantees -----

  function Max(x: int, y: int): int { if x < y then y else x }

  lemma Prefixes<T>(xs: seq<T>)
    requires xs != []
    ensures xs[..|xs|] == xs && forall k :: 0 <= k < |xs| ==> xs[..|xs| - 1][..k] == xs[..k]
  {
  }

  lemma {:induction false} FitFusedKeepsLongest(vo: VolatileContext, staticTokens: nat, maxTokens: nat)
    requires vo.tokens == VolatileTokens(vo.fused, vo.callers, vo.callees)
    ensures var v := FitFused(vo, staticTokens, maxTokens);
            && v.fused <= vo.fused && v.callers == vo.callers && v.callees == vo.callees
            && v.tokens == VolatileTokens(v.fused, vo.callers, vo.callees)
            && (staticTokens + v.tokens <= maxTokens || v.fused == [])
            && forall k :: |v.fused| < k <= |vo.fused| ==>
                 staticTokens + VolatileTokens(vo.fused[..k], vo.callers, vo.callees) > maxTokens
    decreases |vo.fused|
  {
    if staticTokens + vo.tokens > maxTokens && vo.fused != [] {
      var shorter := vo.fused[..|vo.fused| - 1];
      var vo' := vo.(fused := shorter, tokens := VolatileTokens(shorter, vo.callers, vo.callees));
      FitFusedKeepsLongest(vo', staticTokens, maxTokens);
      Prefixes(vo.fused);
    }
  }

  lemma LongerOverToo(meta: ProjectMeta, all: seq<CommunitySummary>, front: seq<CommunitySummary>, n: nat,
                      volatileTokens: nat, maxTokens: nat)
    requires all != [] && front == all[..|all| - 1] && StaticTokens(meta, all) + volatileTokens > maxTokens
    requires forall k :: n < k < |all| ==> StaticTokens(meta, front[..k]) + volatileTokens > maxTokens
    ensures forall k :: n < k <= |all| ==> StaticTokens(meta, all[..k]) + volatileTokens > maxTokens
  {
    Prefixes(all);
  }

  lemma {:induction false} FitSummariesKeepsLongest(st: StaticContext, volatileTokens: nat, maxTokens: nat)
    requires st.tokens == StaticTokens(st.meta, st.summaries)
    ensures var s := FitSummaries(st, volatileTokens, maxTokens);
            && s.meta == st.meta && s.summaries <= st.summaries && s.tokens == StaticTokens(s.meta, s.summaries)
            && (s.tokens + volatileTokens <= maxTokens || s.summaries == [])
            && forall k :: |s.summaries| < k <= |st.summaries| ==>
                 StaticTokens(st.meta, st.summaries[..k]) + volatileTokens > maxTokens
    decreases |st.summaries|
  {
    if st.tokens + volatileTokens > maxTokens && st.summaries != [] {
      var shorter := st.summaries[..|st.summaries| - 1];
      var fewer := StaticContext(st.meta, shorter, StaticTokens(st.meta, shorter));
      FitSummariesKeepsLongest(fewer, volatileTokens, maxTokens);
      var s := FitSummaries(fewer, volatileTokens, maxTokens);
      LongerOverToo(st.meta, st.summaries, shorter, |s.summaries|, volatileTokens, maxTokens);
    }
  }

  /** What is left of a summary: its identity whole, its lists cut at the end. */
  ghost predicate CutFrom(t: CommunitySummary, s: CommunitySummary)
  {
    && t.clusterId == s.clusterId && t.topic == s.topic && t.noteIds == s.noteIds
    && t.files <= s.files && t.symbols <= s.symbols
  }

  lemma TrimmedCuts(st: StaticContext)
    requires st.tokens == StaticTokens(st.meta, st.summaries)
    ensures var t := Trimmed(st);
            && t.meta == st.meta && t.tokens == StaticTokens(t.meta, t.summaries) && |t.summaries| == |st.summaries|
            && forall i :: 0 <= i < |t.summaries| ==> CutFrom(t.summaries[i], st.summaries[i])
  {
  }

  /** Whatever the guard returns is a cut-down copy: ProjectMeta untouched, fused results and summaries kept from the
      front, and the estimates still those of the content. */
  lemma KeepsPrefixes(st: StaticContext, vo: VolatileContext, maxTokens: int)
    requires Estimated(st, vo)
    ensures var (s, v) := Kept(st, vo, maxTokens);
            && s.meta == st.meta && Estimated(s, v)
            && v.fused <= vo.fused
            && |s.summaries| <= |st.summaries|
            && forall i :: 0 <= i < |s.summaries| ==> CutFrom(s.summaries[i], st.summaries[i])
  {
    if maxTokens > 0 && st.tokens + vo.tokens > maxTokens {
      FitFusedKeepsLongest(vo, st.tokens, maxTokens);
      var v := DropCallers(FitFused(vo, st.tokens, maxTokens), st.tokens, maxTokens);
      TrimmedCuts(st);
      var t := if st.tokens + v.tokens > maxTokens then Trimmed(st) else st;
      FitSummariesKeepsLongest(t, v.tokens, maxTokens);
    }
  }

  /** The total fits the limit, or comes down to what is never dropped: ProjectMeta, plus callers and callees when
      ProjectMeta and the summaries fit without them. */
  lemma FitsOrIsMinimal(st: StaticContext, vo: VolatileContext, maxTokens: int)
    requires Estimated(st, vo)
    ensures var (s, v) := Kept(st, vo, maxTokens);
            s.tokens + v.tokens <= Max(maxTokens, MetaTokens(st.meta) + VolatileTokens([], vo.callers, vo.callees))
  {
    if maxTokens > 0 && st.tokens + vo.tokens > maxTokens {
      FitFusedKeepsLongest(vo, st.tokens, maxTokens);
      var v := DropCallers(FitFused(vo, st.tokens, maxTokens), st.tokens, maxTokens);
      var t := if st.tokens + v.tokens > maxTokens then Trimmed(st) else st;
      FitSummariesKeepsLongest(t, v.tokens, maxTokens);
    }
  }

  /** Exactly when the result meets a positive limit: ProjectMeta must fit, together with callers and callees unless
      the static half was over the limit by itself, for only then are they dropped. */
  lemma FitsExactlyWhen(st: StaticContext, vo: VolatileContext, maxTokens: int)
    requires Estimated(st, vo) && maxTokens > 0
    ensures var (s, v) := Kept(st, vo, maxTokens);
            s.tokens + v.tokens <= maxTokens <==>
              MetaTokens(st.meta) + (if st.tokens > maxTokens then 0 else VolatileTokens([], vo.callers, vo.callees))
                <= maxTokens
  {
    if st.tokens + vo.tokens > maxTokens {
      FitFusedKeepsLongest(vo, st.tokens, maxTokens);
      var v := DropCallers(FitFused(vo, st.tokens, maxTokens), st.tokens, maxTokens);
      var t := if st.tokens + v.tokens > maxTokens then Trimmed(st) else st;
      FitSummariesKeepsLongest(t, v.tokens, maxTokens);
    }
  }

  /** Fused results go first and no earlier than needed: the longest fitting prefix stays, and as long as one result
      stays no summary is touched. */
  lemma FusedGoFirst(st: StaticContext, vo: VolatileContext, maxTokens: int)
    requires Estimated(st, vo) && maxTokens > 0
    ensures var (s, v) := Kept(st, vo, maxTokens);
            && (forall k :: |v.fused| < k <= |vo.fused| ==>
                  st.tokens + VolatileTokens(vo.fused[..k], vo.callers, vo.callees) > maxTokens)
            && (v.fused != [] ==> s == st && v.callers == vo.callers && v.callees == vo.callees)
  {
    if st.tokens + vo.tokens > maxTokens {
      FitFusedKeepsLongest(vo, st.tokens, maxTokens);
    }
  }

  /** With callers, a limit that ProjectMeta meets can still be exceeded: they are kept when the static half fits. */
  lemma CallersCanOverrun()
    ensures exists st, vo, maxTokens: nat ::
              && Estimated(st, vo) && MetaTokens(st.meta) <= maxTokens
              && Kept(st, vo, maxTokens).0.tokens + Kept(st, vo, maxTokens).1.tokens > maxTokens
  {
    var meta := ProjectMeta("p", "default", "");
    var st := StaticContext(meta, [], MetaTokens(meta));
    var vo := VolatileContext([], ["caller"], [], VolatileTokens([], ["caller"], []));
    assert MetaTokens(meta) == 9;
    assert NameChars(["caller"], 5) == 11;
    assert Kept(st, vo, 9) == (st, vo);
  }

  function Name(n: nat): string { seq(n, _ => 's') }

  lemma {:induction false} SameNames(names: seq<string>, name: string, extra: nat)
    requires forall i :: 0 <= i < |names| ==> names[i] == name
    ensures NameChars(names, extra) == |names| * (|name| + extra)
  {
    if names != [] {
      SameNames(names[..|names| - 1], name, extra);
    }
  }

  /** Cutting lists can save a summary: with a sixth symbol it is over the limit, with five it is not. */
  lemma CuttingCanSave()
    ensures var meta, symbol := ProjectMeta("p", "default", ""), Name(79);
            var six := CommunitySummary("k", "code", [], [symbol, symbol, symbol, symbol, symbol, symbol], [], 121);
            var five := six.(symbols := [symbol, symbol, symbol, symbol, symbol], tokenCount := 101);
            Kept(StaticContext(meta, [six], 135), VolatileContext([], [], [], 0), 120)
            == (StaticContext(meta, [five], 115), VolatileContext([], [], [], 0))
  {
    var meta, symbol := ProjectMeta("p", "default", ""), Name(79);
    var symbols := [symbol, symbol, symbol, symbol, symbol, symbol];
    var six := CommunitySummary("k", "code", [], symbols, [], 121);
    assert symbols[..5] == [symbol, symbol, symbol, symbol, symbol];
    assert AnyTooLong([six]);
    var five := TrimOne(six, false);
    assert five.symbols == [symbol, symbol, symbol, symbol, symbol];
    SameNames(five.symbols, symbol, 1);
    assert TrimAll([six]) == [five];
    assert SummaryChars([five]) == 424;
  }
}
