/** Citation ids and envelopes: which of those the augmentation run and the audit trail build pass validation. */
module Citation {
  import opened AugmentTypes
  import opened Text

  datatype Problem =
    | Fine | IdLength | IdPrefix | IdRune | NoType | NoSource | NoLane | NoAuditEvent
    | ConfidenceRange | NegativeScore | RankRange | NoProject | NoPayload

  datatype Envelope = Envelope(id: string, kind: string, source: string, lane: string, auditEventId: string,
                               confidence: real, score: real, rank: int, projectId: string, payload: string)

  predicate IdChar(c: char) { 'a' <= c <= 'z' || '0' <= c <= '9' }

  predicate Alnum(c: char) { IdChar(c) || 'A' <= c <= 'Z' }

  predicate IdText(s: string) { forall i :: 0 <= i < |s| ==> IdChar(s[i]) }

  predicate ValidId(id: string) { 4 <= |id| <= 18 && id[..2] == "c-" && IdText(id[2..]) }

  method ValidateId(id: string) returns (p: Problem)
    ensures p.Fine? <==> ValidId(id)
    ensures p.IdLength? <==> !(4 <= |id| <= 18)
    ensures p.IdPrefix? <==> 4 <= |id| <= 18 && id[..2] != "c-"
    ensures p.Fine? || p.IdLength? || p.IdPrefix? || p.IdRune?
  {
    if |id| < 4 || |id| > 18 {
      return IdLength;
    }
    if id[..2] != "c-" {
      return IdPrefix;
    }
    var i := 2;
    while i < |id|
      invariant 2 <= i <= |id| && forall j :: 0 <= j < i - 2 ==> IdChar(id[2..][j])
    {
      if !IdChar(id[i]) {
        assert id[2..][i - 2] == id[i];
        return IdRune;
      }
      i := i + 1;
    }
    return Fine;
  }

  predicate ValidEnvelope(e: Envelope)
  {
    && ValidId(e.id) && e.kind != "" && e.source != "" && e.lane != "" && e.auditEventId != ""
    && 0.0 <= e.confidence <= 1.0 && e.score >= 0.0 && e.rank >= -1 && e.projectId != "" && e.payload != ""
  }

  method Validate(e: Envelope) returns (p: Problem)
    ensures p.Fine? <==> ValidEnvelope(e)
  {
    p := ValidateId(e.id);
    if !p.Fine? {
      return;
    }
    if e.kind == "" {
      return NoType;
    }
    if e.source == "" {
      return NoSource;
    }
    if e.lane == "" {
      return NoLane;
    }
    if e.auditEventId == "" {
      return NoAuditEvent;
    }
    if e.confidence < 0.0 || e.confidence > 1.0 {
      return ConfidenceRange;
    }
    if e.score < 0.0 {
      return NegativeScore;
    }
    if e.rank < -1 {
      return RankRange;
    }
    if e.projectId == "" {
      return NoProject;
    }
    if e.payload == "" {
      return NoPayload;
    }
    return Fine;
  }

  // ----- Ids -----

  const CAPACITY: nat := 16
  const SUFFIX: nat := 4

  function Folded(c: char): char
    requires Alnum(c)
  {
    if 'A' <= c <= 'Z' then c + 32 as char else c
  }

  /** The letters and digits of a text, in lower case. */
  function Clean(s: string): (r: string)
    ensures IdText(r)
  {
    if s == "" then ""
    else
      var front, c := Clean(s[..|s| - 1]), s[|s| - 1];
      if Alnum(c) then front + [Folded(c)] else front
  }

  function First(s: string, n: nat): string { if |s| > n then s[..n] else s }

  predicate HasAlnum(s: string) { exists i :: 0 <= i < |s| && Alnum(s[i]) }

  lemma {:induction false} CleanEmptyExactlyWhen(s: string)
    ensures Clean(s) == "" <==> !HasAlnum(s)
  {
    if s != "" {
      var front := s[..|s| - 1];
      CleanEmptyExactlyWhen(front);
      assert HasAlnum(front) ==> HasAlnum(s) by {
        if HasAlnum(front) {
          var i :| 0 <= i < |front| && Alnum(front[i]);
          assert Alnum(s[i]);
        }
      }
      if HasAlnum(s) && !Alnum(s[|s| - 1]) {
        var i :| 0 <= i < |s| && Alnum(s[i]);
        assert Alnum(front[i]);
      }
    }
  }

  lemma {:induction false} CleanGrows(s: string, n: nat)
    requires n <= |s|
    ensures |Clean(s[..n])| <= |Clean(s)| && Clean(s)[..|Clean(s[..n])|] == Clean(s[..n])
  {
    if n == |s| {
      assert s[..n] == s;
    } else {
      CleanGrows(s[..|s| - 1], n);
      assert s[..|s| - 1][..n] == s[..n];
    }
  }

  /** The first sixteen letters and digits; the loop stops as soon as it has them. */
  method CollectClean(s: string) returns (clean: string)
    ensures clean == First(Clean(s), CAPACITY)
  {
    clean := "";
    var i := 0;
    while i < |s|
      invariant 0 <= i <= |s| && clean == Clean(s[..i]) && |clean| < CAPACITY
    {
      assert s[..i + 1][..i] == s[..i];
      CleanGrows(s, i + 1);
      if Alnum(s[i]) {
        clean := clean + [Folded(s[i])];
      }
      i := i + 1;
      if |clean| >= CAPACITY {
        assert |Clean(s)| == CAPACITY ==> Clean(s)[..CAPACITY] == Clean(s);
        return;
      }
    }
    assert s[..i] == s;
  }

  method ShouldHashSuffix(s: string, budget: nat) returns (hash: bool)
    ensures hash <==> |Clean(s)| > budget
  {
    var count := 0;
    var i := 0;
    while i < |s|
      invariant 0 <= i <= |s| && count == |Clean(s[..i])| <= budget
    {
      assert s[..i + 1][..i] == s[..i];
      CleanGrows(s, i + 1);
      if Alnum(s[i]) {
        count := count + 1;
      }
      i := i + 1;
      if count > budget {
        return true;
      }
    }
    assert s[..i] == s;
    return false;
  }

  function Zeros(n: nat): string { seq(n, _ => '0') }

  /** A number in base 36, cut or padded on the left to n characters. */
  function Suffix(base36: string, n: nat): (r: string)
    ensures |r| == n && (IdText(base36) ==> IdText(r))
  {
    if |base36| < n then Zeros(n - |base36|) + base36 else base36[..n]
  }

  function Decimal(n: nat): (r: string)
    ensures r != "" && IdText(r)
  {
    var digit := '0' + (n % 10) as char;
    if n < 10 then [digit] else Decimal(n / 10) + [digit]
  }

  function Power10(k: nat): nat { if k == 0 then 1 else 10 * Power10(k - 1) }

  lemma {:induction false} DecimalLength(n: nat, k: nat)
    requires k >= 1
    ensures |Decimal(n)| <= k <==> n < Power10(k)
  {
    if n >= 10 {
      if k == 1 {
        assert Power10(1) == 10 by {
          assert Power10(0) == 1;
        }
      } else {
        DecimalLength(n / 10, k - 1);
        assert n / 10 < Power10(k - 1) <==> n < 10 * Power10(k - 1);
      }
    } else {
      PowerAtLeast(k);
    }
  }

  lemma {:induction false} PowerAtLeast(k: nat)
    requires k >= 1
    ensures Power10(k) >= 10
  {
    if k > 1 {
      PowerAtLeast(k - 1);
    } else {
      assert Power10(0) == 1;
    }
  }

  method PaddedToTwo(s: string) returns (padded: string)
    ensures padded == if |s| == 0 then "00" else if |s| == 1 then s + "0" else s
  {
    padded := s;
    while |padded| < 2
      invariant |s| <= |padded| <= |s| + 2 && padded == s + Zeros(|padded| - |s|)
      invariant |s| >= 2 ==> padded == s
      invariant |s| < 2 ==> |padded| <= 2
      decreases 2 - |padded|
    {
      padded := padded + "0";
      assert padded == s + Zeros(|padded| - |s|);
    }
  }

  /** Up to sixteen letters and digits make the id, padded to two; of more the first twelve are kept, with four of the
      digest, and without any the position stands in. */
  predicate Identifies(id: string, noteId: string, index: nat, hash: string)
  {
    var clean := Clean(noteId);
    id == "c-" + if clean == "" then "idx" + Decimal(index)
                 else if |clean| <= 16 then clean + (if |clean| == 1 then "0" else "")
                 else clean[..12] + Suffix(hash, 4)
  }

  /** The id of the result at a position; hash is its note id's digest in base 36. */
  method MakeCitationId(noteId: string, index: nat, hash: string) returns (id: string)
    requires IdText(hash)
    ensures ValidId(id) <==> HasAlnum(noteId) || index < Power10(13)
    ensures Identifies(id, noteId, index, hash)
  {
    CleanEmptyExactlyWhen(noteId);
    var clean := CollectClean(noteId);
    var long := ShouldHashSuffix(noteId, CAPACITY);
    if |clean| == 0 {
      clean := "idx" + Decimal(index);
      DecimalLength(index, 13);
    } else if long {
      if |clean| > CAPACITY - SUFFIX {
        clean := clean[..CAPACITY - SUFFIX];
      }
      clean := clean + Suffix(hash, SUFFIX);
    }
    clean := PaddedToTwo(clean);
    id := "c-" + clean;
    assert id[2..] == clean;
    assert "idx" == ['i', 'd', 'x'];
  }

  // ----- Envelopes from audit events -----

  datatype AuditEventRow = AuditEventRow(id: string, projectId: string, kind: string, doctrine: string, payload: string)

  datatype Built = Built(envelope: Envelope) | Missing | Invalid(p: Problem)

  method SanitiseForCitationId(s: string) returns (out: string)
    ensures out == First(Clean(s), CAPACITY)
  {
    out := "";
    var i := 0;
    while i < |s|
      invariant 0 <= i <= |s| && out == Clean(s[..i])
    {
      assert s[..i + 1][..i] == s[..i];
      if IdChar(s[i]) {
        out := out + [s[i]];
      } else if 'A' <= s[i] <= 'Z' {
        out := out + [s[i] + 32 as char];
      }
      i := i + 1;
    }
    assert s[..i] == s;
    if |out| > CAPACITY {
      out := out[..CAPACITY];
    }
  }

  function AuditPayload(row: AuditEventRow): string
  {
    "[" + row.kind + "] " + row.id + " @ " + row.projectId + " (doctrine=" + row.doctrine + ")\n" + row.payload
  }

  /** An audit event gets an envelope exactly when it has an id and a project; the validation at the end never fails. */
  method EnvelopeFromAuditEvent(row: AuditEventRow) returns (r: Built)
    ensures r.Built? <==> row.id != "" && row.projectId != ""
    ensures !r.Invalid?
    ensures r.Built? ==>
              && ValidEnvelope(r.envelope) && r.envelope.auditEventId == row.id && r.envelope.projectId == row.projectId
              && r.envelope.rank == -1 && r.envelope.payload == AuditPayload(row)
              && (|Clean(row.id)| >= 2 ==> r.envelope.id == "c-" + First(Clean(row.id), CAPACITY))
  {
    if row.id == "" || row.projectId == "" {
      return Missing;
    }
    var body := SanitiseForCitationId(row.id);
    if body == "" {
      body := "0000";
    }
    if |body| < 2 {
      body := body + "00";
    }
    var id := "c-" + body;
    assert id[..2] == "c-" && id[2..] == body;
    var e := Envelope(id, "audit_event", "manual_override", "semantic", row.id, 1.0, 0.0, -1, row.projectId,
                      AuditPayload(row));
    var p := Validate(e);
    if !p.Fine? {
      return Invalid(p);
    }
    return Built(e);
  }

  // ----- Envelopes of a run -----

  function SourceFromLane(source: string): (r: string)
    ensures r != ""
  {
    if source == "kg" then "caronte_query"
    else if source == "graph" then "caronte_context"
    else if source == "fts" then "aggregator_fts"
    else if source == "vec" then "aggregator_vec"
    else if source == "temporal" then "temporal"
    else "manual_override"
  }

  function LaneFromSource(source: string): (r: string)
    ensures r != ""
  {
    if source == "kg" then "semantic"
    else if source == "graph" then "graph"
    else if source == "fts" then "lexical"
    else if source == "vec" then "rerank"
    else if source == "temporal" then "temporal"
    else "lexical"
  }

  function ClampConfidence(score: real): real { if score <= 0.0 then 0.0 else if score >= 1.0 then 1.0 else score }

  function ClampNonNegative(score: real): real { if score < 0.0 then 0.0 else score }

  /** What a result needs for its envelope to be valid. */
  predicate Citable(f: FusedResult, index: nat, projectId: string)
  {
    && (HasAlnum(f.noteId) || index < Power10(13))
    && (f.projectId != "" || projectId != "")
    && (f.title != "" || f.snippet != "" || f.noteId != "")
  }

  /** What an envelope says about its result. */
  predicate Cites(e: Envelope, f: FusedResult, index: nat, projectId: string, hash: string)
  {
    && Identifies(e.id, f.noteId, index, hash) && e.kind == "kg_node"
    && e.source == SourceFromLane(f.source) && e.lane == LaneFromSource(f.source) && e.rank == index
    && e.projectId == (if f.projectId != "" then f.projectId else projectId)
    && (f.anchor != "" ==> e.auditEventId == f.anchor)
    && (f.anchor == "" ==> e.auditEventId == "evt-unanchored-" + Decimal(index))
    && e.confidence == (if f.score < 0.0 then 0.0 else if f.score > 1.0 then 1.0 else f.score)
    && e.score == (if f.score < 0.0 then 0.0 else f.score)
    && e.payload == (if f.title != "" && f.snippet != "" then f.title + " | " + f.snippet
                     else if f.title == "" && f.snippet == "" then f.noteId
                     else f.title + f.snippet)
  }

  /** The envelope is about its result, and valid exactly when the result is citable. */
  predicate Cited(e: Envelope, f: FusedResult, index: nat, projectId: string, hash: string)
  {
    Cites(e, f, index, projectId, hash) && (ValidEnvelope(e) <==> Citable(f, index, projectId))
  }

  method AuditId(anchor: string, index: nat) returns (id: string)
    ensures id == if anchor != "" then anchor else "evt-unanchored-" + Decimal(index)
    ensures id != ""
  {
    id := anchor;
    if id == "" {
      id := "evt-unanchored-" + Decimal(index);
    }
  }

  method Payload(f: FusedResult) returns (payload: string)
    ensures payload == "" <==> f.title == "" && f.snippet == "" && f.noteId == ""
    ensures f.title != "" && f.snippet != "" ==> payload == f.title + " | " + f.snippet
    ensures (f.title == "") != (f.snippet == "") ==> payload == f.title + f.snippet
    ensures f.title == "" && f.snippet == "" ==> payload == f.noteId
  {
    payload := f.title;
    if f.snippet != "" {
      if payload != "" {
        payload := payload + " | ";
      }
      payload := payload + f.snippet;
    }
    if payload == "" {
      payload := f.noteId;
    }
  }

  lemma ValidWhenCitable(e: Envelope, f: FusedResult, index: nat, projectId: string, hash: string)
    requires Cites(e, f, index, projectId, hash) && e.auditEventId != ""
    requires ValidId(e.id) <==> HasAlnum(f.noteId) || index < Power10(13)
    ensures ValidEnvelope(e) <==> Citable(f, index, projectId)
  {
  }

  method Cite(f: FusedResult, index: nat, projectId: string, hash: string) returns (e: Envelope)
    requires IdText(hash)
    ensures Cited(e, f, index, projectId, hash)
  {
    var id := MakeCitationId(f.noteId, index, hash);
    var auditId := AuditId(f.anchor, index);
    var project := f.projectId;
    if project == "" {
      project := projectId;
    }
    var payload := Payload(f);
    e := Envelope(id, "kg_node", SourceFromLane(f.source), LaneFromSource(f.source), auditId,
                  ClampConfidence(f.score), ClampNonNegative(f.score), index, project, payload);
    assert Cites(e, f, index, projectId, hash);
    ValidWhenCitable(e, f, index, projectId, hash);
  }

  /** One envelope for each result, in order; each is valid exactly when its result is citable. */
  method BuildCitations(fused: seq<FusedResult>, projectId: string, hash: string -> string) returns (out: seq<Envelope>)
    requires forall noteId :: IdText(hash(noteId))
    ensures |out| == |fused|
    ensures forall i :: 0 <= i < |out| ==> Cited(out[i], fused[i], i, projectId, hash(fused[i].noteId))
  {
    out := [];
    while |out| < |fused|
      invariant |out| <= |fused|
      invariant forall i :: 0 <= i < |out| ==> Cited(out[i], fused[i], i, projectId, hash(fused[i].noteId))
      decreases |fused| - |out|
    {
      var f := fused[|out|];
      var e := Cite(f, |out|, projectId, hash(f.noteId));
      out := out + [e];
    }
  }
}
