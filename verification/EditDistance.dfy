/** The near-miss helper of the command line: the two-row Levenshtein loop, what its result means, and the
    choice of the suggested command. A string is a sequence of code points. */
module EditDistance {
  import opened Text

  // ----- The distance, by recursion on the last characters -----

  function Min(x: nat, y: nat): nat { if x < y then x else y }

  function Cost(x: char, y: char): nat { if x == y then 0 else 1 }

  function Init(s: string): string
    requires s != []
  {
    s[..|s| - 1]
  }

  function Last(s: string): char
    requires s != []
  {
    s[|s| - 1]
  }

  function Distance(a: string, b: string): nat
    decreases |a| + |b|
  {
    if a == [] then |b|
    else if b == [] then |a|
    else Min(Min(Distance(Init(a), b) + 1, Distance(a, Init(b)) + 1),
             Distance(Init(a), Init(b)) + Cost(Last(a), Last(b)))
  }

  /** row is the start of row i of the table: its k-th entry is the distance between the first i characters of a
      and the first k of b. */
  ghost predicate IsRow(row: seq<nat>, a: string, i: nat, b: string)
    requires i <= |a| && |row| <= |b| + 1
  {
    forall k :: 0 <= k < |row| ==> row[k] == Distance(a[..i], b[..k])
  }

  /** One more entry of row i from the row above and the entry on the left. */
  lemma CellFromNeighbours(a: string, b: string, i: nat, j: nat, above: seq<nat>, row: seq<nat>)
    requires 1 <= i <= |a| && 1 <= j <= |b| && |above| == |b| + 1 && |row| == j
    requires IsRow(above, a, i - 1, b) && IsRow(row, a, i, b)
    ensures IsRow(row + [Min(Min(above[j] + 1, row[j - 1] + 1), above[j - 1] + Cost(a[i - 1], b[j - 1]))], a, i, b)
  {
    assert Init(a[..i]) == a[..i - 1] && Init(b[..j]) == b[..j - 1];
  }

  // ----- The imperative form: two rows, overwritten and swapped -----

  method Cell(del: nat, ins: nat, sub: nat) returns (least: nat)
    ensures least == Min(Min(del, ins), sub)
  {
    least := del;
    if ins < least {
      least := ins;
    }
    if sub < least {
      least := sub;
    }
  }

  /** Overwrites curr with row i, from row i - 1 in prev. */
  method FillRow(prev: array<nat>, curr: array<nat>, a: string, i: nat, b: string)
    requires prev != curr && prev.Length == curr.Length == |b| + 1 && 1 <= i <= |a|
    requires IsRow(prev[..], a, i - 1, b)
    modifies curr
    ensures IsRow(curr[..], a, i, b)
  {
    ghost var above := prev[..];
    curr[0] := i;
    assert curr[..1] == [i];
    for j := 1 to |b| + 1
      invariant prev[..] == above
      invariant IsRow(curr[..j], a, i, b)
    {
      var cost := 1;
      if a[i - 1] == b[j - 1] {
        cost := 0;
      }
      var least := Cell(prev[j] + 1, curr[j - 1] + 1, prev[j - 1] + cost);
      CellFromNeighbours(a, b, i, j, above, curr[..j]);
      curr[j] := least;
      assert curr[..j + 1] == curr[..j] + [least];
    }
    assert curr[..] == curr[..|b| + 1];
  }

  method Levenshtein(a: string, b: string) returns (d: nat)
    ensures d == Distance(a, b)
  {
    var la, lb := |a|, |b|;
    if la == 0 {
      return lb;
    }
    if lb == 0 {
      return la;
    }
    var prev := new nat[lb + 1];
    var curr := new nat[lb + 1];
    for j := 0 to lb + 1
      invariant forall k :: 0 <= k < j ==> prev[k] == k
    {
      prev[j] := j;
    }
    assert IsRow(prev[..], a, 0, b);
    for i := 1 to la + 1
      invariant fresh(prev) && fresh(curr) && prev != curr && prev.Length == curr.Length == lb + 1
      invariant IsRow(prev[..], a, i - 1, b)
    {
      FillRow(prev, curr, a, i, b);
      prev, curr := curr, prev;
    }
    assert a[..la] == a && b[..lb] == b;
    d := prev[lb];
    assert d == prev[..][lb];
  }

  // ----- Metric laws -----

  lemma {:induction false} DistanceZeroIffEqual(a: string, b: string)
    ensures Distance(a, b) == 0 <==> a == b
    decreases |a| + |b|
  {
    if a != [] && b != [] {
      DistanceZeroIffEqual(Init(a), Init(b));
      assert a == Init(a) + [Last(a)] && b == Init(b) + [Last(b)];
    }
  }

  lemma {:induction false} DistanceSymmetric(a: string, b: string)
    ensures Distance(a, b) == Distance(b, a)
    decreases |a| + |b|
  {
    if a != [] && b != [] {
      DistanceSymmetric(Init(a), b);
      DistanceSymmetric(a, Init(b));
      DistanceSymmetric(Init(a), Init(b));
    }
  }

  /** Dropping the last character of either side changes the distance by at most one. */
  lemma DistanceInit(a: string, b: string)
    requires b != []
    ensures Distance(a, b) <= Distance(a, Init(b)) + 1
    ensures Distance(b, a) <= Distance(Init(b), a) + 1
  {
  }

  lemma {:induction false} DistanceTriangle(a: string, b: string, c: string)
    ensures Distance(a, c) <= Distance(a, b) + Distance(b, c)
    decreases |a| + |b| + |c|
  {
    if a == [] {
      LengthBound(b, c);
    } else if c == [] {
      LengthBound(b, a);
      DistanceSymmetric(a, b);
    } else if b == [] {
      DistanceAtMostBoth(a, c);
    } else {
      DistanceInit(c, a);
      DistanceInit(a, c);
      DistanceTriangle(Init(a), b, c);
      DistanceTriangle(a, b, Init(c));
      DistanceTriangle(a, Init(b), c);
      DistanceTriangle(Init(a), Init(b), c);
      DistanceTriangle(a, Init(b), Init(c));
      DistanceTriangle(Init(a), Init(b), Init(c));
    }
  }

  lemma {:induction false} LengthBound(b: string, c: string)
    ensures |c| <= |b| + Distance(b, c)
    decreases |b| + |c|
  {
    if b != [] && c != [] {
      LengthBound(Init(b), c);
      LengthBound(b, Init(c));
      LengthBound(Init(b), Init(c));
    }
  }

  lemma {:induction false} DistanceAtMostBoth(a: string, c: string)
    ensures Distance(a, c) <= |a| + |c|
    decreases |a|
  {
    if a != [] && c != [] {
      DistanceAtMostBoth(Init(a), c);
    }
  }

  // ----- What the number means: the fewest single-character edits -----

  /** One insertion, deletion or substitution at position i turns s into t. */
  ghost predicate EditAt(s: string, t: string, i: nat)
  {
    || (i <= |s| && |t| == |s| + 1 && t[..i] == s[..i] && t[i + 1..] == s[i..])
    || (i < |s| && |t| + 1 == |s| && t[..i] == s[..i] && t[i..] == s[i + 1..])
    || (i < |s| == |t| && t[..i] == s[..i] && t[i + 1..] == s[i + 1..])
  }

  ghost predicate Edit(s: string, t: string)
  {
    exists i: nat :: EditAt(s, t, i)
  }

  /** A chain of strings from a to b, each one edit from the one before. */
  ghost predicate Script(path: seq<string>, a: string, b: string)
  {
    path != [] && path[0] == a && path[|path| - 1] == b &&
    forall i :: 0 <= i < |path| - 1 ==> Edit(path[i], path[i + 1])
  }

  lemma {:induction false} CommonSuffix(x: string, y: string, z: string)
    ensures Distance(x + z, y + z) <= Distance(x, y)
    decreases |z|
  {
    if z == [] {
      assert x + z == x && y + z == y;
    } else {
      CommonSuffix(x, y, Init(z));
      assert Init(x + z) == x + Init(z) && Init(y + z) == y + Init(z);
    }
  }

  lemma OneMoreCharacter(p: string, q: string, rest: string)
    requires q != [] && Init(q) == p
    ensures Distance(p + rest, q + rest) <= 1 && Distance(q + rest, p + rest) <= 1
  {
    DistanceZeroIffEqual(p, p);
    DistanceInit(p, q);
    CommonSuffix(p, q, rest);
    DistanceSymmetric(p + rest, q + rest);
  }

  lemma OtherCharacter(q: string, r: string, rest: string)
    requires q != [] && r != [] && Init(q) == Init(r)
    ensures Distance(q + rest, r + rest) <= 1
  {
    DistanceZeroIffEqual(Init(q), Init(r));
    CommonSuffix(q, r, rest);
  }

  lemma EditCostsAtMostOne(s: string, t: string)
    requires Edit(s, t)
    ensures Distance(s, t) <= 1
  {
    var i: nat :| EditAt(s, t, i);
    var p := s[..i];
    assert i < |s| ==> Init(s[..i + 1]) == p;
    assert i < |t| ==> Init(t[..i + 1]) == t[..i];
    if |t| == |s| + 1 {
      assert s == p + s[i..] && t == t[..i + 1] + s[i..];
      OneMoreCharacter(p, t[..i + 1], s[i..]);
    } else if |t| + 1 == |s| {
      assert s == s[..i + 1] + t[i..] && t == p + t[i..];
      OneMoreCharacter(p, s[..i + 1], t[i..]);
    } else {
      assert s == s[..i + 1] + s[i + 1..] && t == t[..i + 1] + s[i + 1..];
      OtherCharacter(s[..i + 1], t[..i + 1], s[i + 1..]);
    }
  }

  /** No script is shorter than the distance. */
  lemma {:induction false} ScriptLowerBound(path: seq<string>, a: string, b: string)
    requires Script(path, a, b)
    ensures Distance(a, b) <= |path| - 1
    decreases |path|
  {
    if |path| == 1 {
      DistanceZeroIffEqual(a, b);
    } else {
      ScriptLowerBound(path[1..], path[1], b);
      EditCostsAtMostOne(a, path[1]);
      DistanceTriangle(a, path[1], b);
    }
  }

  /** Some script has exactly the distance's length. */
  lemma {:induction false} ShortestScript(a: string, b: string) returns (path: seq<string>)
    ensures Script(path, a, b) && |path| == Distance(a, b) + 1
    decreases |a| + |b|
  {
    if a == [] && b == [] {
      path := [a];
    } else if a == [] || (b != [] && Distance(a, b) == Distance(a, Init(b)) + 1) {
      var rest := ShortestScript(a, Init(b));
      assert EditAt(Init(b), b, |b| - 1);
      assert Edit(Init(b), b);
      path := rest + [b];
    } else if b == [] || Distance(a, b) == Distance(Init(a), b) + 1 {
      var rest := ShortestScript(Init(a), b);
      assert EditAt(a, Init(a), |a| - 1);
      path := Prepend(a, rest, Init(a), b);
    } else {
      var rest := ShortestScript(Init(a), Init(b));
      path := Extend(rest, a, b);
    }
  }

  /** A script for all but the last characters, and one replacement if those differ. */
  lemma Extend(rest: seq<string>, a: string, b: string) returns (path: seq<string>)
    requires a != [] && b != [] && Script(rest, Init(a), Init(b))
    ensures Script(path, a, b) && |path| == |rest| + Cost(Last(a), Last(b))
  {
    path := Lift(rest, Init(a), Init(b), Last(b));
    assert b == Init(b) + [Last(b)] && a == Init(a) + [Last(a)];
    if Last(a) != Last(b) {
      assert EditAt(a, Init(a) + [Last(b)], |a| - 1);
      path := Prepend(a, path, Init(a) + [Last(b)], b);
    }
  }

  lemma Prepend(a: string, rest: seq<string>, s: string, b: string) returns (path: seq<string>)
    requires Edit(a, s) && Script(rest, s, b)
    ensures Script(path, a, b) && |path| == |rest| + 1
  {
    path := [a] + rest;
    forall i | 0 <= i < |path| - 1
      ensures Edit(path[i], path[i + 1])
    {
      assert i > 0 ==> path[i] == rest[i - 1];
    }
  }

  /** Appending one character to every string of a script gives a script. */
  lemma {:induction false} Lift(path: seq<string>, a: string, b: string, c: char) returns (lifted: seq<string>)
    requires Script(path, a, b)
    ensures Script(lifted, a + [c], b + [c]) && |lifted| == |path|
  {
    lifted := seq(|path|, i requires 0 <= i < |path| => path[i] + [c]);
    forall k | 0 <= k < |path| - 1
      ensures Edit(lifted[k], lifted[k + 1])
    {
      var s, t := path[k], path[k + 1];
      assert Edit(s, t);
      var i: nat :| EditAt(s, t, i);
      assert EditAt(s + [c], t + [c], i);
    }
  }

  /** The distance is the least number of edits: n edits are enough exactly when n reaches it. */
  lemma DistanceIsFewestEdits(a: string, b: string, n: nat)
    ensures (exists path :: Script(path, a, b) && |path| - 1 <= n) <==> Distance(a, b) <= n
  {
    var shortest := ShortestScript(a, b);
    if path :| Script(path, a, b) && |path| - 1 <= n {
      ScriptLowerBound(path, a, b);
    }
  }

  // ----- Choosing the suggestion -----

  const SUGGEST_THRESHOLD: nat := 2

  datatype Command = Command(name: string, available: bool)

  function Lowered(s: string, lower: char -> char): string
  {
    seq(|s|, i requires 0 <= i < |s| => lower(s[i]))
  }

  predicate Eligible(c: Command, typed: string, lower: char -> char)
  {
    c.available &&
    (Distance(typed, c.name) <= SUGGEST_THRESHOLD || Lowered(typed, lower) <= Lowered(c.name, lower))
  }

  /** What is eligible: an available command that two edits make of what was typed, or that starts with it in lower
      case; a third edit is one too many. */
  lemma EligibleExactlyWhen(c: Command, typed: string, lower: char -> char)
    ensures Eligible(c, typed, lower) <==>
              && c.available
              && ((exists path :: Script(path, typed, c.name) && |path| <= 3)
                  || (|typed| <= |c.name| && forall i :: 0 <= i < |typed| ==> lower(typed[i]) == lower(c.name[i])))
  {
    DistanceIsFewestEdits(typed, c.name, 2);
    var low, name := Lowered(typed, lower), Lowered(c.name, lower);
    assert forall i :: 0 <= i < |low| ==> low[i] == lower(typed[i]);
    assert forall i :: 0 <= i < |name| ==> name[i] == lower(c.name[i]);
  }

  /** Nearer to what was typed, alphabetically first among equals. */
  predicate Better(x: string, y: string, typed: string)
  {
    Distance(typed, x) < Distance(typed, y) || (Distance(typed, x) == Distance(typed, y) && Less(x, y))
  }

  /** best names an eligible command that no eligible command beats; it is empty when there is none. */
  ghost predicate IsSuggestion(commands: seq<Command>, typed: string, lower: char -> char, best: string)
  {
    && (best == [] <==> forall c :: c in commands ==> !Eligible(c, typed, lower))
    && (best != [] ==> exists c :: c in commands && Eligible(c, typed, lower) && c.name == best)
    && forall c :: c in commands && Eligible(c, typed, lower) ==> !Better(c.name, best, typed)
  }

  /** The loop takes an empty name for having found nothing, so it needs names: either every eligible command has one,
      or some eligible command is nearer than the empty name. */
  ghost predicate NamesDecide(commands: seq<Command>, typed: string, lower: char -> char)
  {
    || (forall c :: c in commands && Eligible(c, typed, lower) ==> c.name != [])
    || (exists c :: c in commands && Eligible(c, typed, lower) && Distance(typed, c.name) < |typed|)
  }

  /** For all commands, empty names included: the best eligible command is found exactly when the names decide. */
  method Suggest(commands: seq<Command>, typed: string, lower: char -> char) returns (best: string)
    ensures IsSuggestion(commands, typed, lower, best) <==> NamesDecide(commands, typed, lower)
  {
    best := [];
    var bestDist := SUGGEST_THRESHOLD + 1;
    for i := 0 to |commands|
      invariant best != [] ==> bestDist == Distance(typed, best)
      invariant NamesOne(commands[..i], typed, lower, best)
      invariant NamesDecide(commands[..i], typed, lower) ==> IsSuggestion(commands[..i], typed, lower, best)
    {
      var c := commands[i];
      ghost var before := best;
      assert commands[..i + 1] == commands[..i] + [c];
      if c.available {
        var d := Levenshtein(typed, c.name);
        var isPrefix := Lowered(typed, lower) <= Lowered(c.name, lower);
        if d <= SUGGEST_THRESHOLD || isPrefix {
          if best == [] || d < bestDist || (d == bestDist && Less(c.name, best)) {
            best := c.name;
            bestDist := d;
          }
        }
      }
      OneMoreCommand(commands[..i], typed, lower, before, c, best);
    }
    assert commands[..|commands|] == commands;
    if IsSuggestion(commands, typed, lower, best) {
      NotDecided(commands, typed, lower, best);
    }
  }

  /** A name found is that of an eligible command. */
  ghost predicate NamesOne(commands: seq<Command>, typed: string, lower: char -> char, best: string)
  {
    best != [] ==> exists c :: c in commands && Eligible(c, typed, lower) && c.name == best
  }

  lemma OneMoreCommand(done: seq<Command>, typed: string, lower: char -> char, before: string, c: Command, best: string)
    requires NamesOne(done, typed, lower, before)
    requires NamesDecide(done, typed, lower) ==> IsSuggestion(done, typed, lower, before)
    requires best == if Eligible(c, typed, lower) && (before == [] || Better(c.name, before, typed)) then c.name
                     else before
    ensures NamesOne(done + [c], typed, lower, best)
    ensures NamesDecide(done + [c], typed, lower) ==> IsSuggestion(done + [c], typed, lower, best)
  {
    assert c in done + [c] && forall x :: x in done ==> x in done + [c];
    if !Eligible(c, typed, lower) {
      IneligibleChangesNothing(done, typed, lower, c, best);
    } else if NamesDecide(done + [c], typed, lower) {
      if !NamesDecide(done, typed, lower) {
        FirstNear(done, typed, lower, before, c);
      } else if c.name != [] {
        StillUnbeaten(done, typed, lower, before, c, best);
      } else {
        EmptyNameLoses(done, typed, lower, before, c);
      }
    }
  }

  lemma IneligibleChangesNothing(done: seq<Command>, typed: string, lower: char -> char, c: Command, best: string)
    requires !Eligible(c, typed, lower)
    ensures NamesDecide(done + [c], typed, lower) <==> NamesDecide(done, typed, lower)
    ensures IsSuggestion(done + [c], typed, lower, best) <==> IsSuggestion(done, typed, lower, best)
  {
    assert forall x :: x in done + [c] <==> x in done || x == c;
  }

  /** The first command nearer than the empty name is the best of all so far. */
  lemma FirstNear(done: seq<Command>, typed: string, lower: char -> char, before: string, c: Command)
    requires NamesOne(done, typed, lower, before) && Eligible(c, typed, lower)
    requires !NamesDecide(done, typed, lower) && NamesDecide(done + [c], typed, lower)
    ensures before == [] || Better(c.name, before, typed)
    ensures IsSuggestion(done + [c], typed, lower, c.name)
  {
    assert c in done + [c] && forall x :: x in done + [c] <==> x in done || x == c;
    assert Distance(typed, c.name) < |typed| == Distance(typed, []);
    LessTotal(c.name, c.name);
  }

  /** An empty name does not replace a nearer one. */
  lemma EmptyNameLoses(done: seq<Command>, typed: string, lower: char -> char, before: string, c: Command)
    requires IsSuggestion(done, typed, lower, before) && Eligible(c, typed, lower) && c.name == []
    requires NamesDecide(done + [c], typed, lower)
    ensures before != [] && !Better(c.name, before, typed)
    ensures IsSuggestion(done + [c], typed, lower, before)
  {
    assert c in done + [c] && forall x :: x in done + [c] <==> x in done || x == c;
    assert Distance(typed, c.name) == |typed|;
    var near :| near in done && Eligible(near, typed, lower) && Distance(typed, near.name) < |typed|;
    assert !Better(near.name, before, typed);
  }

  /** If the names do not decide, no answer is the best eligible command. */
  lemma NotDecided(commands: seq<Command>, typed: string, lower: char -> char, best: string)
    requires IsSuggestion(commands, typed, lower, best)
    ensures NamesDecide(commands, typed, lower)
  {
    if c :| c in commands && Eligible(c, typed, lower) && c.name == [] {
      assert Distance(typed, c.name) == |typed| && !Better(c.name, best, typed);
      assert best != [] && Less(c.name, best);
    }
  }

  lemma StillUnbeaten(done: seq<Command>, typed: string, lower: char -> char, before: string, c: Command, best: string)
    requires IsSuggestion(done, typed, lower, before) && Eligible(c, typed, lower) && c.name != []
    requires best == if before == [] || Better(c.name, before, typed) then c.name else before
    ensures IsSuggestion(done + [c], typed, lower, best)
  {
    LessTotal(c.name, c.name);
    LessTotal(c.name, before);
    forall x | x in done && Eligible(x, typed, lower)
      ensures !Better(x.name, best, typed)
    {
      if best == c.name && before != [] && Better(x.name, best, typed) && Less(x.name, c.name) && Less(c.name, before) {
        LessTransitive(x.name, c.name, before);
      }
    }
    assert c in done + [c];
    if best == before {
      var w :| w in done && Eligible(w, typed, lower) && w.name == best;
      assert w in done + [c];
    }
  }

  /** The suggestion depends only on which commands exist, not on their order. */
  lemma SuggestionIgnoresOrder(xs: seq<Command>, ys: seq<Command>, typed: string, lower: char -> char, x: string,
                               y: string)
    requires forall c :: c in xs <==> c in ys
    requires IsSuggestion(xs, typed, lower, x) && IsSuggestion(ys, typed, lower, y)
    ensures x == y
  {
    LessTotal(x, y);
  }
}
