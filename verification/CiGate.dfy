/** The release gate on recent commits: classification against quarantine patterns, and the three thresholds. Ratios
    are exact. */
module CiGate {
  import opened Bags

  datatype Status = Success | Failure | OtherStatus

  datatype Bucket = InSuccess | InInfra | InFlake | InReal | Unset

  datatype Commit = Commit(status: Status, bucket: Bucket, reason: string)

  /** The infrastructure patterns, and what compiling a quarantine entry gives. */
  datatype Patterns = Patterns(infra: seq<string -> bool>, compile: string -> Compiled)

  datatype Compiled = BadPattern | Pattern(matches: string -> bool)

  predicate Matched(patterns: seq<string -> bool>, reason: string)
  {
    exists i :: 0 <= i < |patterns| && patterns[i](reason)
  }

  /** An empty entry and one that does not compile match nothing. */
  predicate EntryHits(p: Patterns, entry: string, reason: string)
  {
    entry != "" && p.compile(entry).Pattern? && p.compile(entry).matches(reason)
  }

  predicate FlakeHit(p: Patterns, quarantine: seq<string>, reason: string)
  {
    exists i :: 0 <= i < |quarantine| && EntryHits(p, quarantine[i], reason)
  }

  function BucketOf(p: Patterns, quarantine: seq<string>, c: Commit): Bucket
  {
    if c.status.Success? then InSuccess
    else if !c.status.Failure? then InReal
    else if Matched(p.infra, c.reason) then InInfra
    else if FlakeHit(p, quarantine, c.reason) then InFlake
    else InReal
  }

  method Classify(p: Patterns, quarantine: seq<string>, c: Commit) returns (r: Commit)
    ensures r == c.(bucket := BucketOf(p, quarantine, c))
    ensures r.bucket.InSuccess? <==> c.status.Success?
    ensures r.bucket.InInfra? <==> c.status.Failure? && Matched(p.infra, c.reason)
    ensures r.bucket.InFlake? <==>
              && c.status.Failure? && !Matched(p.infra, c.reason)
              && exists entry :: entry in quarantine && EntryHits(p, entry, c.reason)
    ensures !r.bucket.Unset?
  {
    if c.status.Success? {
      return c.(bucket := InSuccess);
    }
    if !c.status.Failure? {
      return c.(bucket := InReal);
    }
    for i := 0 to |p.infra|
      invariant forall j :: 0 <= j < i ==> !p.infra[j](c.reason)
    {
      if p.infra[i](c.reason) {
        return c.(bucket := InInfra);
      }
    }
    for i := 0 to |quarantine|
      invariant forall j :: 0 <= j < i ==> !EntryHits(p, quarantine[j], c.reason)
    {
      if quarantine[i] == "" {
        continue;
      }
      var compiled := p.compile(quarantine[i]);
      if compiled.BadPattern? {
        continue;
      }
      if compiled.matches(c.reason) {
        assert EntryHits(p, quarantine[i], c.reason);
        return c.(bucket := InFlake);
      }
    }
    return c.(bucket := InReal);
  }

  // ----- The thresholds -----

  const MIN_SAMPLE := 30

  datatype Window = Window(size: int, minSuccess: int, maxReal: int)

  const DEFAULT_WINDOW := Window(50, 45, 2)

  datatype Verdict = Pass | SmallSample | TooManyReal | BadWindow | LowRatio

  datatype Tally = Tally(success: nat, real_: nat)

  predicate Succeeded(c: Commit) { c.status.Success? || c.bucket.InSuccess? }

  /** Infrastructure failures and flakes do not count at all. */
  predicate Excluded(c: Commit) { !Succeeded(c) && (c.bucket.InInfra? || c.bucket.InFlake?) }

  function Count(commits: seq<Commit>): Tally
  {
    if commits == [] then Tally(0, 0)
    else
      var before, c := Count(commits[..|commits| - 1]), commits[|commits| - 1];
      if Succeeded(c) then before.(success := before.success + 1)
      else if Excluded(c) then before
      else before.(real_ := before.real_ + 1)
  }

  function Judge(w: Window, t: Tally): Verdict
  {
    if t.success + t.real_ < MIN_SAMPLE then SmallSample
    else if t.real_ > w.maxReal then TooManyReal
    else if w.size <= 0 then BadWindow
    else if t.success as real / (t.success + t.real_) as real < w.minSuccess as real / w.size as real then LowRatio
    else Pass
  }

  method Evaluate(w: Window, commits: seq<Commit>) returns (v: Verdict)
    ensures v == Judge(w, Count(commits))
  {
    var success, realFail, infra, flake := 0, 0, 0, 0;
    var i := 0;
    while i < |commits|
      invariant 0 <= i <= |commits| && Count(commits[..i]) == Tally(success, realFail)
      invariant success >= 0 && realFail >= 0
    {
      var c := commits[i];
      assert commits[..i + 1][..i] == commits[..i];
      if c.status.Success? || c.bucket.InSuccess? {
        success := success + 1;
      } else if c.bucket.InInfra? {
        infra := infra + 1;
      } else if c.bucket.InFlake? {
        flake := flake + 1;
      } else {
        realFail := realFail + 1;
      }
      i := i + 1;
    }
    assert commits[..i] == commits;
    var denom := success + realFail;
    if denom < MIN_SAMPLE {
      return SmallSample;
    }
    if realFail > w.maxReal {
      return TooManyReal;
    }
    if w.size <= 0 {
      return BadWindow;
    }
    var ratio := success as real / denom as real;
    var threshold := w.minSuccess as real / w.size as real;
    if ratio < threshold {
      return LowRatio;
    }
    return Pass;
  }

  // ----- Neither the order nor the excluded commits matter -----

  lemma {:induction false} CountWithout(commits: seq<Commit>, i: nat)
    requires i < |commits|
    ensures Count(commits) == Plus(Count(Without(commits, i)), commits[i])
  {
    var n := |commits| - 1;
    if i < n {
      CountWithout(commits[..n], i);
      assert Without(commits, i)[..n - 1] == Without(commits[..n], i);
    } else {
      assert Without(commits, i) == commits[..n];
    }
  }

  function Plus(t: Tally, c: Commit): Tally
  {
    if Succeeded(c) then t.(success := t.success + 1) else if Excluded(c) then t else t.(real_ := t.real_ + 1)
  }

  /** The verdict depends on the bag of commits, not on their order. */
  lemma {:induction false} OrderDoesNotMatter(a: seq<Commit>, b: seq<Commit>)
    requires multiset(a) == multiset(b)
    ensures Count(a) == Count(b)
    decreases |a|
  {
    SameLength(a, b);
    if a != [] {
      var i := LastFound(a, b);
      OrderDoesNotMatter(a[..|a| - 1], Without(b, i));
      CountWithout(b, i);
    }
  }

  /** Any number of infrastructure failures and flakes more leaves the verdict as it is. */
  lemma {:induction false} ExcludedDoNotMatter(commits: seq<Commit>, more: seq<Commit>, w: Window)
    requires forall i :: 0 <= i < |more| ==>
               !more[i].status.Success? && (more[i].bucket.InInfra? || more[i].bucket.InFlake?)
    ensures Count(commits + more) == Count(commits) && Judge(w, Count(commits + more)) == Judge(w, Count(commits))
  {
    if more == [] {
      assert commits + more == commits;
    } else {
      var n := |more| - 1;
      ExcludedDoNotMatter(commits, more[..n], w);
      assert (commits + more)[..|commits| + n] == commits + more[..n];
    }
  }

  // ----- More quarantine -----

  function ClassifyAll(p: Patterns, quarantine: seq<string>, commits: seq<Commit>): seq<Commit>
  {
    seq(|commits|, i requires 0 <= i < |commits| => commits[i].(bucket := BucketOf(p, quarantine, commits[i])))
  }

  lemma {:induction false} MoreQuarantineFewerReal(p: Patterns, q: seq<string>, more: seq<string>, commits: seq<Commit>)
    ensures var t, t' := Count(ClassifyAll(p, q, commits)), Count(ClassifyAll(p, q + more, commits));
            t'.success == t.success && t'.real_ <= t.real_
  {
    if commits != [] {
      var front, c := commits[..|commits| - 1], commits[|commits| - 1];
      MoreQuarantineFewerReal(p, q, more, front);
      assert ClassifyAll(p, q, commits)[..|front|] == ClassifyAll(p, q, front);
      assert ClassifyAll(p, q + more, commits)[..|front|] == ClassifyAll(p, q + more, front);
      if FlakeHit(p, q, c.reason) {
        var i :| 0 <= i < |q| && EntryHits(p, q[i], c.reason);
        assert (q + more)[i] == q[i];
      }
    }
  }

  /** Dividing by less gives no less. */
  lemma RatioGrows(s: real, d: real, d': real)
    requires s >= 0.0 && 0.0 < d' <= d
    ensures s / d' >= s / d
  {
    var q, q' := s / d, s / d';
    assert q * d == s && q' * d' == s;
    if q' < q {
      Times(q - q', d', q * d' - q' * d');
      AtLeast(q, d, d');
    }
  }

  lemma Times(a: real, b: real, product: real)
    requires a > 0.0 && b > 0.0 && product == a * b
    ensures product > 0.0
  {
  }

  lemma AtLeast(q: real, d: real, d': real)
    requires q >= 0.0 && d >= d'
    ensures q * d >= q * d'
  {
  }

  /** Quarantining more turns a pass into a failure only by leaving too few commits to judge. */
  lemma QuarantineOnlyShrinksSample(w: Window, p: Patterns, q: seq<string>, more: seq<string>, commits: seq<Commit>)
    requires Judge(w, Count(ClassifyAll(p, q, commits))).Pass?
    ensures var v := Judge(w, Count(ClassifyAll(p, q + more, commits))); v.Pass? || v.SmallSample?
  {
    MoreQuarantineFewerReal(p, q, more, commits);
    var t, t' := Count(ClassifyAll(p, q, commits)), Count(ClassifyAll(p, q + more, commits));
    if t'.success + t'.real_ >= MIN_SAMPLE {
      RatioGrows(t.success as real, (t.success + t.real_) as real, (t'.success + t'.real_) as real);
    }
  }

  // ----- When the ratio gate can decide -----

  function Successes(n: nat): seq<Commit> { seq(n, _ => Commit(Success, InSuccess, "")) }

  function Failures(n: nat): seq<Commit> { seq(n, _ => Commit(Failure, InReal, "")) }

  lemma {:induction false} CountSample(s: nat, r: nat)
    ensures Count(Successes(s) + Failures(r)) == Tally(s, r)
  {
    var all := Successes(s) + Failures(r);
    if r > 0 {
      CountSample(s, r - 1);
      assert all[..|all| - 1] == Successes(s) + Failures(r - 1);
    } else if s > 0 {
      CountSample(s - 1, 0);
      assert all[..|all| - 1] == Successes(s - 1) + Failures(0);
    }
  }

  lemma CrossMultiply(s: int, d: int, m: int, w: int)
    requires d > 0 && w > 0
    ensures s as real / d as real < m as real / w as real <==> s * w < m * d
  {
    var a, b := s as real / d as real, m as real / w as real;
    assert a * d as real == s as real && b * w as real == m as real;
    assert (s * w) as real == a * d as real * w as real;
    assert (m * d) as real == b * w as real * d as real;
    var dw := d as real * w as real;
    Times(d as real, w as real, dw);
    if a < b {
      Times(b - a, dw, b * dw - a * dw);
    } else if b < a {
      Times(a - b, dw, a * dw - b * dw);
    }
  }

  lemma Monotone(a: int, b: int, c: int)
    requires a <= b && c >= 0
    ensures a * c <= b * c
  {
  }

  /** If the smallest sample with the most failures has the required share m out of w, every sample has it. */
  lemma WorstCase(s: int, r: int, most: int, m: int, w: int)
    requires 0 <= s && 0 <= r <= most <= MIN_SAMPLE <= s + r && w > 0
    requires MIN_SAMPLE * w - most * w >= MIN_SAMPLE * m
    ensures s * w >= m * (s + r)
  {
    Monotone(0, most, w);
    if m <= 0 {
      Monotone(0, s, w);
      Monotone(m, 0, s + r);
    } else {
      Monotone(MIN_SAMPLE - r, s, w - m);
      Monotone(r, most, w);
      Expand(s, r, m, w);
    }
  }

  lemma Expand(s: int, r: int, m: int, w: int)
    ensures (MIN_SAMPLE - r) * (w - m) == MIN_SAMPLE * w - MIN_SAMPLE * m - r * w + r * m
    ensures s * (w - m) == s * w - m * s && m * (s + r) == m * s + r * m
  {
  }

  /** The most real failures in the smallest sample that the first two gates let through. */
  function MostReal(w: Window): int { if w.maxReal < MIN_SAMPLE then w.maxReal else MIN_SAMPLE }

  /** No sample reaches the ratio gate, or the worst one that does has the required share of successes. */
  predicate RatioImplied(w: Window)
  {
    w.size <= 0 || w.maxReal < 0 || (MIN_SAMPLE - MostReal(w)) * w.size >= MIN_SAMPLE * w.minSuccess
  }

  lemma RatioGateIdle(w: Window, t: Tally)
    requires RatioImplied(w)
    ensures !Judge(w, t).LowRatio?
  {
    if t.success + t.real_ >= MIN_SAMPLE && t.real_ <= w.maxReal && w.size > 0 {
      if w.minSuccess <= 0 {
        Monotone(0, t.success, w.size);
        Monotone(w.minSuccess, 0, t.success + t.real_);
      } else {
        WorstCase(t.success, t.real_, w.maxReal, w.minSuccess, w.size);
      }
      CrossMultiply(t.success, t.success + t.real_, w.minSuccess, w.size);
    }
  }

  lemma RatioGateDecides(w: Window) returns (commits: seq<Commit>)
    requires !RatioImplied(w)
    ensures Judge(w, Count(commits)).LowRatio?
  {
    commits := Successes(MIN_SAMPLE - MostReal(w)) + Failures(MostReal(w));
    CountSample(MIN_SAMPLE - MostReal(w), MostReal(w));
    CrossMultiply(MIN_SAMPLE - MostReal(w), MIN_SAMPLE, w.minSuccess, w.size);
  }

  /** For every window, the ratio gate decides nothing that the other gates let through exactly when they already imply
      it. */
  lemma RatioGateIdleExactlyWhen(w: Window)
    ensures (forall commits :: !Judge(w, Count(commits)).LowRatio?) <==> RatioImplied(w)
  {
    if RatioImplied(w) {
      forall commits
        ensures !Judge(w, Count(commits)).LowRatio?
      {
        RatioGateIdle(w, Count(commits));
      }
    } else {
      var commits := RatioGateDecides(w);
    }
  }

  /** What a pass takes: thirty commits that count, no more real failures than allowed, and the required share of
      successes. */
  lemma PassExactlyWhen(w: Window, t: Tally)
    ensures Judge(w, t).Pass? <==>
              && t.success + t.real_ >= 30 && t.real_ <= w.maxReal && w.size > 0
              && t.success * w.size >= w.minSuccess * (t.success + t.real_)
    ensures Judge(w, t).SmallSample? <==> t.success + t.real_ < 30
  {
    if t.success + t.real_ >= 30 && w.size > 0 {
      CrossMultiply(t.success, t.success + t.real_, w.minSuccess, w.size);
    }
  }

  /** Every commit that is neither excluded nor a success counts as a real failure. */
  lemma {:induction false} EveryCommitCounted(commits: seq<Commit>)
    requires forall i :: 0 <= i < |commits| ==> !commits[i].bucket.InInfra? && !commits[i].bucket.InFlake?
    ensures Count(commits).success + Count(commits).real_ == |commits|
  {
    if commits != [] {
      EveryCommitCounted(commits[..|commits| - 1]);
    }
  }

  /** Under the default thresholds a pass takes thirty commits that count and at most two real failures. */
  lemma DefaultPassExactlyWhen(commits: seq<Commit>)
    ensures var t := Count(commits);
            Judge(DEFAULT_WINDOW, t).Pass? <==> t.success + t.real_ >= 30 && t.real_ <= 2
  {
    PassExactlyWhen(DEFAULT_WINDOW, Count(commits));
  }

  /** Under the default thresholds the ratio gate never decides. */
  lemma RatioGateIdleByDefault(commits: seq<Commit>)
    ensures !Judge(DEFAULT_WINDOW, Count(commits)).LowRatio?
  {
    RatioGateIdleExactlyWhen(DEFAULT_WINDOW);
  }
}
