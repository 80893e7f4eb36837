/** Transitions of an ADR: one parses the file, checks the move, rewrites the file, and then reports to the audit sink,
    which may fail after the file was rewritten. */
module Lifecycle {
  import opened Document
  import opened Text
  import Runs

  predicate IsValidTransition(from: Status, to: Status)
  {
    if from == to then false
    else if from.Reserved? || to.Reserved? then false
    else
      match from
      case Proposed => to.Accepted? || to.Rejected?
      case Accepted => to.Superseded? || to.Deprecated?
      case _ => false
  }

  datatype Move = Accept | Reject | Supersede(newId: string) | Deprecate

  /** A request with what its surroundings answer: whether the context is cancelled, today's date, the time of the
      event, and whether the sink takes it. */
  datatype Request = Request(move: Move, operator: string, reason: string,
                             cancelled: bool, today: string, at: int, sinkOk: bool)

  datatype AuditEvent = AuditEvent(id: string, from: Status, to: Status, operator: string, reason: string, at: int)

  datatype File = File(content: string, log: seq<AuditEvent>)

  datatype Result = Done | BadNewId | Cancelled | EmptyReason | ParseFailed | ReservedSource | InvalidMove | EmitFailed

  function Target(move: Move): Status
  {
    match move
    case Accept => Accepted
    case Reject => Rejected
    case Supersede(_) => Superseded
    case Deprecate => Deprecated
  }

  function SupersededBy(move: Move): string { if move.Supersede? then move.newId else "" }

  predicate IsAdrId(s: string)
  {
    |s| == 8 && s[..4] == "ADR-" && forall i :: 4 <= i < 8 ==> Digit(s[i])
  }

  lemma AdrIdExactlyWhen(s: string)
    ensures IsAdrId(s) <==>
              exists a, b, c, d :: Digit(a) && Digit(b) && Digit(c) && Digit(d) && s == "ADR-" + [a, b, c, d]
  {
    if IsAdrId(s) {
      assert s == "ADR-" + [s[4], s[5], s[6], s[7]];
    }
  }

  /** Why a request is turned away, or Done. */
  function Verdict(parsed: Parsed, r: Request): Result
  {
    if r.move.Supersede? && !IsAdrId(r.move.newId) then BadNewId
    else if r.cancelled then Cancelled
    else if r.reason == "" then EmptyReason
    else if !parsed.Ok? then ParseFailed
    else if parsed.adr.fm.status.Reserved? then ReservedSource
    else if !IsValidTransition(parsed.adr.fm.status, Target(r.move)) then InvalidMove
    else Done
  }

  /** The frontmatter after a move: three fields may change. */
  function Moved(fm: Frontmatter, r: Request): Frontmatter
  {
    fm.(status := Target(r.move), date := r.today,
        supersededBy := if SupersededBy(r.move) != "" then SupersededBy(r.move) else fm.supersededBy)
  }

  function EventFor(fm: Frontmatter, r: Request): AuditEvent
  {
    AuditEvent(fm.id, fm.status, Target(r.move), r.operator, r.reason, r.at)
  }

  function After(format: Format, f: File, r: Request): File
  {
    var parsed := format.parse(f.content);
    if !Verdict(parsed, r).Done? then f
    else
      File(format.compose(Moved(parsed.adr.fm, r), parsed.adr.body),
           if r.sinkOk then f.log + [EventFor(parsed.adr.fm, r)] else f.log)
  }

  class AdrFile {
    var content: string
    var log: seq<AuditEvent>

    constructor (text: string)
      ensures View() == File(text, [])
    {
      content, log := text, [];
    }

    ghost function View(): File
      reads this
    {
      File(content, log)
    }

    method ApplyTransition(codec: Codec, r: Request) returns (result: Result)
      requires r.move.Supersede? ==> IsAdrId(r.move.newId)
      modifies this
      ensures View() == After(TextFormat(codec), old(View()), r)
      ensures result == var v := Verdict(Parse(codec, old(content)), r); if v.Done? && !r.sinkOk then EmitFailed else v
    {
      if r.cancelled {
        return Cancelled;
      }
      if r.reason == "" {
        return EmptyReason;
      }
      var parsed := ParseLines(codec, Lines(content));
      if !parsed.Ok? {
        return ParseFailed;
      }
      var fm := parsed.adr.fm;
      var from := fm.status;
      if from == Reserved {
        return ReservedSource;
      }
      if !IsValidTransition(from, Target(r.move)) {
        return InvalidMove;
      }
      fm := fm.(status := Target(r.move), date := r.today);
      if SupersededBy(r.move) != "" {
        fm := fm.(supersededBy := SupersededBy(r.move));
      }
      content := "---\n" + codec.encode(fm) + "---\n" + parsed.adr.body;
      if !r.sinkOk {
        return EmitFailed;
      }
      log := log + [AuditEvent(fm.id, from, Target(r.move), r.operator, r.reason, r.at)];
      return Done;
    }

    method Transition(codec: Codec, r: Request) returns (result: Result)
      modifies this
      ensures View() == After(TextFormat(codec), old(View()), r)
      ensures result == var v := Verdict(Parse(codec, old(content)), r); if v.Done? && !r.sinkOk then EmitFailed else v
      ensures result.BadNewId? <==> r.move.Supersede? && !IsAdrId(r.move.newId)
      ensures result.Cancelled? <==> !result.BadNewId? && r.cancelled
      ensures result.EmptyReason? <==> !result.BadNewId? && !r.cancelled && r.reason == ""
      ensures result.Done? || result.EmitFailed? <==>
                var parsed := Parse(codec, old(content)); parsed.Ok? && Proper(parsed.adr.fm.status, r)
      ensures result.Done? ==> r.sinkOk
      ensures result.EmitFailed? ==> !r.sinkOk
    {
      ghost var parsed := Parse(codec, content);
      if parsed.Ok? {
        ProperIsDone(parsed, r);
      }
      if r.move.Supersede? && !IsAdrId(r.move.newId) {
        return BadNewId;
      }
      result := ApplyTransition(codec, r);
    }
  }

  function Stepper(format: Format): (File, Request) -> File { (f, r) => After(format, f, r) }

  function Run(format: Format, f: File, requests: seq<Request>): File { Runs.Fold(Stepper(format), f, requests) }

  // ----- The same run on frontmatter alone -----

  predicate Admits(fm: Frontmatter, r: Request) { Verdict(Ok(Adr(fm, "")), r).Done? }

  /** The frontmatter after a run. */
  function FmRun(fm: Frontmatter, requests: seq<Request>): Frontmatter
  {
    if requests == [] then fm
    else
      var before, r := FmRun(fm, requests[..|requests| - 1]), requests[|requests| - 1];
      if Admits(before, r) then Moved(before, r) else before
  }

  /** How many of the requests rewrote the file. */
  function Rewrites(fm: Frontmatter, requests: seq<Request>): nat
  {
    if requests == [] then 0
    else
      var front, r := requests[..|requests| - 1], requests[|requests| - 1];
      Rewrites(fm, front) + if Admits(FmRun(fm, front), r) then 1 else 0
  }

  function Reported(fm: Frontmatter, requests: seq<Request>): seq<AuditEvent>
  {
    if requests == [] then []
    else
      var front, r := requests[..|requests| - 1], requests[|requests| - 1];
      if Admits(FmRun(fm, front), r) && r.sinkOk then Reported(fm, front) + [EventFor(FmRun(fm, front), r)]
      else Reported(fm, front)
  }

  /** A body written and read k times. */
  function Worn(format: Format, body: string, k: nat): string
  {
    if k == 0 then body else format.norm(Worn(format, body, k - 1))
  }

  /** A readable file stays readable. What is read after a run is the frontmatter of the run and the body as worn by
      its rewrites; what was logged is what it reported; and a run that rewrites nothing leaves the file alone. */
  lemma {:induction false} RunReadsBack(format: Format, f: File, requests: seq<Request>, adr: Adr)
    requires RoundTrips(format) && format.parse(f.content) == Ok(adr)
    ensures var end := Run(format, f, requests);
            && format.parse(end.content)
               == Ok(Adr(FmRun(adr.fm, requests), Worn(format, adr.body, Rewrites(adr.fm, requests))))
            && end.log == f.log + Reported(adr.fm, requests)
            && (Rewrites(adr.fm, requests) == 0 ==> end.content == f.content)
  {
    if requests != [] {
      RunReadsBack(format, f, requests[..|requests| - 1], adr);
    }
  }

  lemma {:induction false} UnreadableStays(format: Format, f: File, requests: seq<Request>)
    requires !format.parse(f.content).Ok?
    ensures Run(format, f, requests) == f
  {
    if requests != [] {
      UnreadableStays(format, f, requests[..|requests| - 1]);
    }
  }

  /** Every move goes exactly one level down. */
  function Depth(status: Status): nat
  {
    match status
    case Accepted => 1
    case Rejected => 1
    case Superseded => 2
    case Deprecated => 2
    case _ => 0
  }

  /** All fields but the three a move may change. */
  predicate SameButStatus(a: Frontmatter, b: Frontmatter)
  {
    a == b.(status := a.status, date := a.date, supersededBy := a.supersededBy)
  }

  /** Every run keeps every field but three, and rewrites the file once for each level its status goes down, so at most
      twice. */
  lemma {:induction false} RunKeepsFields(fm: Frontmatter, requests: seq<Request>)
    ensures var end, k := FmRun(fm, requests), Rewrites(fm, requests);
            SameButStatus(end, fm) && Depth(end.status) == Depth(fm.status) + k && k <= 2
  {
    if requests != [] {
      RunKeepsFields(fm, requests[..|requests| - 1]);
    }
  }

  // ----- What a run makes of status, date and successor -----

  /** A request with a reason, in a context that was not cancelled, for a move from its proper status. */
  predicate Proper(status: Status, r: Request)
  {
    && !r.cancelled && r.reason != ""
    && match r.move
       case Accept => status.Proposed?
       case Reject => status.Proposed?
       case Supersede(newId) => status.Accepted? && IsAdrId(newId)
       case Deprecate => status.Accepted?
  }

  lemma ProperIsDone(parsed: Parsed, r: Request)
    requires parsed.Ok?
    ensures Verdict(parsed, r).Done? <==> Proper(parsed.adr.fm.status, r)
  {
    if r.move.Supersede? && IsAdrId(r.move.newId) {
      assert |r.move.newId| == 8;
    }
  }

  lemma AdmitsExactlyWhen(fm: Frontmatter, r: Request)
    ensures Admits(fm, r) <==> Proper(fm.status, r)
  {
    ProperIsDone(Ok(Adr(fm, "")), r);
  }

  /** The i-th request meets the document in a status proper for it. */
  ghost predicate Takes(format: Format, f: File, requests: seq<Request>, i: nat)
  {
    i < |requests| &&
    var parsed := format.parse(Run(format, f, requests[..i]).content);
    parsed.Ok? && Proper(parsed.adr.fm.status, requests[i])
  }

  ghost predicate TookNothing(format: Format, f: File, requests: seq<Request>)
  {
    forall i: nat :: !Takes(format, f, requests, i)
  }

  ghost predicate TookLast(format: Format, f: File, requests: seq<Request>, i: nat)
  {
    Takes(format, f, requests, i) && forall j: nat :: Takes(format, f, requests, j) ==> j <= i
  }

  /** The status is that of the last move taken, the date that of its day; without a move nothing changed. */
  ghost predicate LastTold(format: Format, f: File, requests: seq<Request>, before: Frontmatter, fm: Frontmatter)
  {
    && (TookNothing(format, f, requests) ==> fm == before)
    && (forall i: nat :: TookLast(format, f, requests, i) ==>
          && fm.date == requests[i].today
          && match requests[i].move
             case Accept => fm.status == Accepted
             case Reject => fm.status == Rejected
             case Supersede(_) => fm.status == Superseded
             case Deprecate => fm.status == Deprecated)
  }

  ghost predicate TookSupersede(format: Format, f: File, requests: seq<Request>, i: nat)
  {
    Takes(format, f, requests, i) && requests[i].move.Supersede?
  }

  /** The successor is the one of the superseding move taken; without one it is what it was. */
  ghost predicate SuccessorTold(format: Format, f: File, requests: seq<Request>, before: string, after: string)
  {
    && (forall i: nat :: TookSupersede(format, f, requests, i) ==> after == requests[i].move.newId)
    && ((forall i: nat :: !TookSupersede(format, f, requests, i)) ==> after == before)
  }

  lemma TakesInFront(format: Format, f: File, requests: seq<Request>, i: nat)
    requires requests != []
    ensures var n := |requests| - 1;
            Takes(format, f, requests, i) <==>
              if i < n then Takes(format, f, requests[..n], i) else i == n && Takes(format, f, requests, n)
  {
    var n := |requests| - 1;
    if i < n {
      assert requests[..n][..i] == requests[..i];
    }
  }

  lemma LastTaken(format: Format, f: File, requests: seq<Request>, adr: Adr)
    requires RoundTrips(format) && format.parse(f.content) == Ok(adr) && requests != []
    ensures var n := |requests| - 1;
            Takes(format, f, requests, n) <==> Admits(FmRun(adr.fm, requests[..n]), requests[n])
  {
    var n := |requests| - 1;
    RunReadsBack(format, f, requests[..n], adr);
    AdmitsExactlyWhen(FmRun(adr.fm, requests[..n]), requests[n]);
  }

  /** A superseded document takes no more requests. */
  lemma {:induction false} SupersedeIsLast(format: Format, f: File, requests: seq<Request>, adr: Adr, i: nat)
    requires RoundTrips(format) && format.parse(f.content) == Ok(adr)
    requires Takes(format, f, requests, i) && requests[i].move.Supersede?
    ensures FmRun(adr.fm, requests).status == Superseded && TookLast(format, f, requests, i)
  {
    var n := |requests| - 1;
    LastTaken(format, f, requests, adr);
    forall j: nat
      ensures Takes(format, f, requests, j) ==> j <= n
      ensures j < n ==> (Takes(format, f, requests, j) <==> Takes(format, f, requests[..n], j))
    {
      TakesInFront(format, f, requests, j);
    }
    if i < n {
      SupersedeIsLast(format, f, requests[..n], adr, i);
      AdmitsExactlyWhen(FmRun(adr.fm, requests[..n]), requests[n]);
    }
  }

  lemma NotTakenTellsSame(format: Format, f: File, requests: seq<Request>, before: Frontmatter, fm: Frontmatter)
    requires requests != [] && !Takes(format, f, requests, |requests| - 1)
    ensures var front := requests[..|requests| - 1];
            && (LastTold(format, f, front, before, fm) ==> LastTold(format, f, requests, before, fm))
            && (SuccessorTold(format, f, front, before.supersededBy, fm.supersededBy) ==>
                  SuccessorTold(format, f, requests, before.supersededBy, fm.supersededBy))
  {
    var front := requests[..|requests| - 1];
    forall j: nat
      ensures Takes(format, f, requests, j) <==> Takes(format, f, front, j)
    {
      TakesInFront(format, f, requests, j);
    }
    assert forall j: nat :: TookLast(format, f, requests, j) <==> TookLast(format, f, front, j);
    assert forall j: nat :: TookSupersede(format, f, requests, j) <==> TookSupersede(format, f, front, j);
  }

  lemma TakenTellsLast(format: Format, f: File, requests: seq<Request>, before: Frontmatter, fm: Frontmatter)
    requires requests != [] && Takes(format, f, requests, |requests| - 1)
    ensures LastTold(format, f, requests, before, Moved(fm, requests[|requests| - 1]))
  {
  }

  lemma TakenTellsSuccessor(format: Format, f: File, requests: seq<Request>, adr: Adr, fm: Frontmatter)
    requires RoundTrips(format) && format.parse(f.content) == Ok(adr)
    requires requests != [] && Takes(format, f, requests, |requests| - 1)
    requires SuccessorTold(format, f, requests[..|requests| - 1], adr.fm.supersededBy, fm.supersededBy)
    ensures var moved := Moved(fm, requests[|requests| - 1]);
            SuccessorTold(format, f, requests, adr.fm.supersededBy, moved.supersededBy)
  {
    var n := |requests| - 1;
    var after := Moved(fm, requests[n]).supersededBy;
    forall i: nat | TookSupersede(format, f, requests, i)
      ensures after == requests[i].move.newId
    {
      SupersedeIsLast(format, f, requests, adr, i);
      assert i == n;
      assert |requests[n].move.newId| == 8;
    }
    if forall i: nat :: !TookSupersede(format, f, requests, i) {
      assert !TookSupersede(format, f, requests, n);
      forall i: nat
        ensures !TookSupersede(format, f, requests[..n], i)
      {
        TakesInFront(format, f, requests, i);
        assert !TookSupersede(format, f, requests, i);
      }
    }
  }

  lemma {:induction false} RunTold(format: Format, f: File, requests: seq<Request>, adr: Adr)
    requires RoundTrips(format) && format.parse(f.content) == Ok(adr)
    ensures var fm := FmRun(adr.fm, requests);
            && LastTold(format, f, requests, adr.fm, fm)
            && SuccessorTold(format, f, requests, adr.fm.supersededBy, fm.supersededBy)
  {
    if requests != [] {
      var n := |requests| - 1;
      var fm := FmRun(adr.fm, requests[..n]);
      RunTold(format, f, requests[..n], adr);
      LastTaken(format, f, requests, adr);
      if Takes(format, f, requests, n) {
        TakenTellsLast(format, f, requests, adr.fm, fm);
        TakenTellsSuccessor(format, f, requests, adr, fm);
      } else {
        NotTakenTellsSame(format, f, requests, adr.fm, fm);
      }
    }
  }

  /** In every run the document read at the end has the status of the last move it took and the date of that day; it
      names the successor of the superseding move it took, and keeps what it named if it took none. */
  lemma RunSetsFields(format: Format, f: File, requests: seq<Request>, adr: Adr)
    requires RoundTrips(format) && format.parse(f.content) == Ok(adr)
    ensures var end := format.parse(Run(format, f, requests).content);
            && end.Ok? && LastTold(format, f, requests, adr.fm, end.adr.fm)
            && SuccessorTold(format, f, requests, adr.fm.supersededBy, end.adr.fm.supersededBy)
  {
    RunReadsBack(format, f, requests, adr);
    RunTold(format, f, requests, adr);
  }

  lemma {:induction false} CleanBodyNeverWears(format: Format, body: string, k: nat)
    requires format.norm(body) == body
    ensures Worn(format, body, k) == body
  {
    if k > 0 {
      CleanBodyNeverWears(format, body, k - 1);
    }
  }

  /** A body whose lines all end in a plain newline is kept to the letter by every run. */
  lemma RunKeepsBody(codec: Codec, f: File, requests: seq<Request>, adr: Adr)
    requires Faithful(codec) && Parse(codec, f.content) == Ok(adr)
    requires Terminated(adr.body) && NoLineCR(adr.body)
    ensures var end := Parse(codec, Run(TextFormat(codec), f, requests).content);
            end.Ok? && end.adr.body == adr.body && SameButStatus(end.adr.fm, adr.fm)
  {
    var format := TextFormat(codec);
    TextFormatRoundTrips(codec);
    BodyKeptExactlyWhen(adr.body);
    assert format.parse(f.content) == Ok(adr) && format.norm(adr.body) == adr.body;
    RunReadsBack(format, f, requests, adr);
    RunKeepsFields(adr.fm, requests);
    CleanBodyNeverWears(format, adr.body, Rewrites(adr.fm, requests));
  }

  // ----- What the audit log tells -----

  /** The events lead from one status to the other, each by a valid move. */
  predicate Chains(log: seq<AuditEvent>, from: Status, to: Status)
  {
    if log == [] then from == to
    else
      var last := log[|log| - 1];
      last.to == to && IsValidTransition(last.from, last.to) && Chains(log[..|log| - 1], from, last.from)
  }

  lemma {:induction false} ChainLength(log: seq<AuditEvent>, from: Status, to: Status)
    requires Chains(log, from, to)
    ensures Depth(to) == Depth(from) + |log|
  {
    if log != [] {
      ChainLength(log[..|log| - 1], from, log[|log| - 1].from);
    }
  }

  lemma {:induction false} FullReportChains(fm: Frontmatter, requests: seq<Request>)
    ensures |Reported(fm, requests)| <= Rewrites(fm, requests)
    ensures |Reported(fm, requests)| == Rewrites(fm, requests) ==>
              Chains(Reported(fm, requests), fm.status, FmRun(fm, requests).status)
  {
    if requests != [] {
      FullReportChains(fm, requests[..|requests| - 1]);
    }
  }

  /** Every request that moves the document finds the sink working. */
  predicate SinkHolds(fm: Frontmatter, requests: seq<Request>)
  {
    forall i :: 0 <= i < |requests| && Admits(FmRun(fm, requests[..i]), requests[i]) ==> requests[i].sinkOk
  }

  lemma SinkHoldsNext(fm: Frontmatter, requests: seq<Request>)
    requires requests != []
    ensures var front, r := requests[..|requests| - 1], requests[|requests| - 1];
            SinkHolds(fm, requests) <==> SinkHolds(fm, front) && (Admits(FmRun(fm, front), r) ==> r.sinkOk)
  {
    var n := |requests| - 1;
    assert forall i :: 0 <= i <= n ==> requests[..n][..i] == requests[..i];
  }

  /** Nothing goes unreported exactly when the sink holds. */
  lemma {:induction false} AllReportedExactlyWhen(fm: Frontmatter, requests: seq<Request>)
    ensures |Reported(fm, requests)| == Rewrites(fm, requests) <==> SinkHolds(fm, requests)
  {
    if requests != [] {
      var front := requests[..|requests| - 1];
      AllReportedExactlyWhen(fm, front);
      FullReportChains(fm, front);
      SinkHoldsNext(fm, requests);
    }
  }

  /** The log leads from the old status to the new one exactly when no request that moved the document met a failing
      sink. */
  lemma LogTellsAllExactlyWhen(fm: Frontmatter, requests: seq<Request>)
    ensures Chains(Reported(fm, requests), fm.status, FmRun(fm, requests).status) <==> SinkHolds(fm, requests)
  {
    AllReportedExactlyWhen(fm, requests);
    FullReportChains(fm, requests);
    RunKeepsFields(fm, requests);
    if Chains(Reported(fm, requests), fm.status, FmRun(fm, requests).status) {
      ChainLength(Reported(fm, requests), fm.status, FmRun(fm, requests).status);
    }
  }

  lemma OneMoreRequest(fm: Frontmatter, requests: seq<Request>, r: Request)
    ensures var before, all := FmRun(fm, requests), requests + [r];
            && FmRun(fm, all) == (if Admits(before, r) then Moved(before, r) else before)
            && Rewrites(fm, all) == Rewrites(fm, requests) + (if Admits(before, r) then 1 else 0)
            && Reported(fm, all)
               == (if Admits(before, r) && r.sinkOk then Reported(fm, requests) + [EventFor(before, r)]
                   else Reported(fm, requests))
  {
    assert (requests + [r])[..|requests|] == requests;
  }

  /** Accepted while the sink fails, then deprecated while it works: the file is rewritten twice, and the log begins
      with an accepted document. */
  lemma LogCanStartLate(fm: Frontmatter, accept: Request, deprecate: Request)
    requires fm.status.Proposed? && accept.move.Accept? && deprecate.move.Deprecate?
    requires accept.reason != "" && !accept.cancelled && !accept.sinkOk
    requires deprecate.reason != "" && !deprecate.cancelled && deprecate.sinkOk
    ensures var requests := [] + [accept] + [deprecate];
            && Rewrites(fm, requests) == 2 && FmRun(fm, requests).status == Deprecated
            && Reported(fm, requests)
               == [AuditEvent(fm.id, Accepted, Deprecated, deprecate.operator, deprecate.reason, deprecate.at)]
            && !SinkHolds(fm, requests) && !Chains(Reported(fm, requests), Proposed, Deprecated)
  {
    OneMoreRequest(fm, [], accept);
    OneMoreRequest(fm, [] + [accept], deprecate);
    LogTellsAllExactlyWhen(fm, [] + [accept] + [deprecate]);
    AllReportedExactlyWhen(fm, [] + [accept] + [deprecate]);
  }
}
