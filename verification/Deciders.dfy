/** The list of deciders in a legacy header: bracketed remarks and quoted text taken out, cut at the word via, split at
    commas. */
module Deciders {
  import opened Text

  function Count(s: string, c: char): nat
  {
    if s == "" then 0 else (if s[0] == c then 1 else 0) + Count(s[1..], c)
  }

  lemma {:induction false} CountAppend(a: string, b: string, c: char)
    ensures Count(a + b, c) == Count(a, c) + Count(b, c)
  {
    if a == "" {
      assert a + b == b;
    } else {
      CountAppend(a[1..], b, c);
      assert (a + b)[1..] == a[1..] + b;
    }
  }

  lemma {:induction false} CountZero(s: string, c: char)
    ensures Count(s, c) == 0 <==> c !in s
  {
    if s != "" {
      CountZero(s[1..], c);
      assert s == [s[0]] + s[1..];
    }
  }

  lemma CountSkips(front: string, s: string, back: string, c: char)
    requires c !in front && c !in back
    ensures Count(front + s + back, c) == Count(s, c)
  {
    CountAppend(front + s, back, c);
    CountAppend(front, s, c);
    CountZero(front, c);
    CountZero(back, c);
  }

  lemma CountTrim(s: string, c: char)
    requires !Space(c)
    ensures Count(TrimSpace(s), c) == Count(s, c)
  {
    var front, back := TrimParts(s);
    CountSkips(front, TrimSpace(s), back, c);
  }

  function Cut(s: string, l: nat, r: nat): (t: string)
    requires l < r < |s|
    ensures |t| < |s|
  {
    s[..l] + s[r + 1..]
  }

  /** Taking out the piece between two marks takes out both of them. */
  lemma CountCut(s: string, l: nat, r: nat, c: char)
    requires l < r < |s| && s[l] == c && s[r] == c && c !in s[l + 1..r]
    ensures Count(Cut(s, l, r), c) == Count(s, c) - 2
  {
    assert s == s[..l] + ([c] + (s[l + 1..r] + ([c] + s[r + 1..])));
    CountAppend(s[..l], [c] + (s[l + 1..r] + ([c] + s[r + 1..])), c);
    CountAppend([c], s[l + 1..r] + ([c] + s[r + 1..]), c);
    CountAppend(s[l + 1..r], [c] + s[r + 1..], c);
    CountAppend([c], s[r + 1..], c);
    CountAppend(s[..l], s[r + 1..], c);
    CountZero(s[l + 1..r], c);
    assert Count([c], c) == 1;
  }

  /** The text without bracketed remarks, taken out from the left until a bracket closes before any opens, or none is
      left to open or to close. */
  function Unbracketed(s: string): string
    decreases |s|
  {
    var l, r := Index(s, '('), Index(s, ')');
    if 0 <= l < r then Unbracketed(TrimSpace(Cut(s, l, r))) else s
  }

  method StripBrackets(text: string) returns (s: string)
    ensures s == Unbracketed(text)
  {
    s := text;
    while '(' in s && ')' in s
      invariant Unbracketed(s) == Unbracketed(text)
      decreases |s|
    {
      var l, r := Index(s, '('), Index(s, ')');
      if r < l {
        break;
      }
      assert s[l] != s[r];
      s := TrimSpace(Cut(s, l, r));
    }
  }

  /** The backtick after the one at l, or -1. */
  function NextTick(s: string, l: nat): (r: int)
    requires l < |s|
    ensures r == -1 || l < r < |s|
    ensures r >= 0 ==> s[r] == '`' && '`' !in s[l + 1..r]
    ensures r == -1 ==> '`' !in s[l + 1..]
  {
    var d := Index(s[l + 1..], '`');
    if d < 0 then -1
    else
      assert s[l + 1..][..d] == s[l + 1..l + 1 + d];
      l + 1 + d
  }

  /** The text without anything between two backticks, taken out from the left pair by pair. */
  function Unquoted(s: string): string
    decreases |s|
  {
    var l := Index(s, '`');
    if l < 0 then s
    else
      var r := NextTick(s, l);
      if r < 0 then s else Unquoted(TrimSpace(Cut(s, l, r)))
  }

  method StripBackticks(text: string) returns (s: string)
    ensures s == Unquoted(text)
  {
    s := text;
    while '`' in s
      invariant Unquoted(s) == Unquoted(text)
      decreases |s|
    {
      var l := Index(s, '`');
      var r := NextTick(s, l);
      if r < 0 {
        break;
      }
      s := TrimSpace(Cut(s, l, r));
    }
  }

  /** Some bracket opens and a later one closes. */
  ghost predicate OpenBeforeClose(s: string)
  {
    exists i, j :: 0 <= i < j < |s| && s[i] == '(' && s[j] == ')'
  }

  /** One scan from the left, outside any remark. A closing bracket met here ends the removal, and what is left of it
      matters then. */
  ghost predicate Leftover(s: string)
  {
    if s == "" then false
    else if s[0] == ')' then OpenBeforeClose(s[1..])
    else if s[0] == '(' then LeftoverAfter(s[1..])
    else Leftover(s[1..])
  }

  /** The same scan inside a remark, which goes on after its closing bracket. */
  ghost predicate LeftoverAfter(s: string)
  {
    if s == "" then false
    else if s[0] == ')' then Leftover(s[1..])
    else LeftoverAfter(s[1..])
  }

  predicate BracketFree(s: string) { '(' !in s && ')' !in s }

  lemma SkipFront(front: string, s: string)
    requires BracketFree(front)
    ensures Leftover(front + s) <==> Leftover(s)
  {
    if front == "" {
      assert front + s == s;
    } else {
      assert (front + s)[1..] == front[1..] + s;
      assert forall c :: c in front[1..] ==> c in front;
      SkipFront(front[1..], s);
    }
  }

  lemma SkipRemark(inside: string, s: string)
    requires ')' !in inside
    ensures LeftoverAfter(inside + [')'] + s) <==> Leftover(s)
  {
    var whole := inside + [')'] + s;
    if inside == "" {
      assert whole[1..] == s;
    } else {
      assert whole[1..] == inside[1..] + [')'] + s;
      SkipRemark(inside[1..], s);
    }
  }

  lemma NeverClosed(s: string)
    requires ')' !in s
    ensures !LeftoverAfter(s) && !Leftover(s)
  {
    if s != "" {
      assert forall c :: c in s[1..] ==> c in s;
      NeverClosed(s[1..]);
    }
  }

  lemma OpenSkipsFront(front: string, s: string)
    requires '(' !in front
    ensures OpenBeforeClose(front + s) <==> OpenBeforeClose(s)
  {
    var n, whole := |front|, front + s;
    assert forall k :: 0 <= k < n ==> whole[k] == front[k] != '(';
    if OpenBeforeClose(s) {
      var i, j :| 0 <= i < j < |s| && s[i] == '(' && s[j] == ')';
      assert whole[n + i] == '(' && whole[n + j] == ')';
    }
    if OpenBeforeClose(whole) {
      var i, j :| 0 <= i < j < |whole| && whole[i] == '(' && whole[j] == ')';
      assert s[i - n] == '(' && s[j - n] == ')';
    }
  }

  lemma OpenSkipsBack(s: string, back: string)
    requires ')' !in back
    ensures OpenBeforeClose(s + back) <==> OpenBeforeClose(s)
  {
    var whole := s + back;
    assert forall k :: 0 <= k < |back| ==> back[k] != ')';
    assert forall k :: |s| <= k < |whole| ==> whole[k] == back[k - |s|];
    if OpenBeforeClose(s) {
      var i, j :| 0 <= i < j < |s| && s[i] == '(' && s[j] == ')';
      assert whole[i] == '(' && whole[j] == ')';
    }
    if OpenBeforeClose(whole) {
      var i, j :| 0 <= i < j < |whole| && whole[i] == '(' && whole[j] == ')';
      assert s[i] == '(' && s[j] == ')';
    }
  }

  lemma SkipBack(s: string, back: string)
    requires BracketFree(back)
    ensures Leftover(s + back) <==> Leftover(s)
    ensures LeftoverAfter(s + back) <==> LeftoverAfter(s)
  {
    if s == "" {
      assert s + back == back;
      NeverClosed(back);
    } else {
      assert (s + back)[1..] == s[1..] + back;
      SkipBack(s[1..], back);
      OpenSkipsBack(s[1..], back);
    }
  }

  lemma TrimKeepsLeftover(s: string)
    ensures Leftover(TrimSpace(s)) <==> Leftover(s)
  {
    var front, back := TrimParts(s);
    TrimPieces(s, front, TrimSpace(s), back);
  }

  lemma TrimPieces(s: string, front: string, middle: string, back: string)
    requires s == front + middle + back
    requires forall c :: c in front || c in back ==> Space(c)
    ensures Leftover(middle) <==> Leftover(s)
  {
    SkipFront(front, middle);
    SkipBack(front + middle, back);
  }

  lemma CutPieces(front: string, inside: string, rest: string)
    requires BracketFree(front) && ')' !in inside
    ensures Leftover(front + (['('] + (inside + [')'] + rest))) <==> Leftover(front + rest)
  {
    var tail := ['('] + (inside + [')'] + rest);
    SkipFront(front, tail);
    SkipFront(front, rest);
    assert tail[1..] == inside + [')'] + rest;
    SkipRemark(inside, rest);
  }

  lemma FreeBefore(s: string, n: nat)
    requires n <= |s| && forall i :: 0 <= i < n ==> s[i] != '(' && s[i] != ')'
    ensures BracketFree(s[..n])
  {
  }

  lemma NoneIn(s: string, from: nat, to: nat, c: char)
    requires from <= to <= |s| && forall i :: from <= i < to ==> s[i] != c
    ensures c !in s[from..to]
  {
  }

  /** Taking out a remark that is the first to open and the first to close does not change the scan. */
  lemma CutKeepsLeftover(s: string, l: nat, r: nat)
    requires l < r < |s| && s[l] == '(' && s[r] == ')'
    requires (forall i :: 0 <= i < l ==> s[i] != '(') && (forall i :: 0 <= i < r ==> s[i] != ')')
    ensures Leftover(Cut(s, l, r)) <==> Leftover(s)
  {
    FreeBefore(s, l);
    NoneIn(s, l + 1, r, ')');
    CutPieces(s[..l], s[l + 1..r], s[r + 1..]);
    Pieces(s, l, r);
  }

  lemma Pieces(s: string, l: nat, r: nat)
    requires l < r < |s|
    ensures s == s[..l] + ([s[l]] + (s[l + 1..r] + [s[r]] + s[r + 1..]))
  {
  }

  lemma StoppedPieces(front: string, rest: string)
    requires BracketFree(front)
    ensures OpenBeforeClose(front + ([')'] + rest)) <==> Leftover(front + ([')'] + rest))
  {
    var tail := [')'] + rest;
    SkipFront(front, tail);
    OpenSkipsFront(front, tail);
    OpenSkipsFront([')'], rest);
    assert tail[1..] == rest;
  }

  /** Where the removal stops, the scan says whether a remark is left. */
  lemma StoppedLeftover(s: string)
    requires var l, r := Index(s, '('), Index(s, ')'); !(0 <= l < r)
    ensures OpenBeforeClose(s) <==> Leftover(s)
  {
    var l, r := Index(s, '('), Index(s, ')');
    if r < 0 {
      NeverClosed(s);
      assert forall i :: 0 <= i < |s| ==> s[i] in s;
    } else {
      NotBefore(s, '(', r);
      NotBefore(s, ')', r);
      StoppedAt(s, r);
    }
  }

  lemma StoppedAt(s: string, r: nat)
    requires r < |s| && s[r] == ')' && forall i :: 0 <= i < r ==> s[i] != '(' && s[i] != ')'
    ensures OpenBeforeClose(s) <==> Leftover(s)
  {
    FreeBefore(s, r);
    StoppedPieces(s[..r], s[r + 1..]);
    assert s == s[..r] + ([')'] + s[r + 1..]);
  }

  lemma NotBefore(s: string, c: char, n: nat)
    requires n <= |s| && (Index(s, c) < 0 || Index(s, c) >= n)
    ensures forall i :: 0 <= i < n ==> s[i] != c
  {
    var k := Index(s, c);
    assert k >= 0 ==> forall i :: 0 <= i < k ==> s[i] == s[..k][i];
  }

  /** A remark is left in the text exactly when the scan meets a closing bracket outside any remark with a whole remark
      after it. */
  lemma {:induction false} RemarkLeftExactlyWhen(s: string)
    ensures OpenBeforeClose(Unbracketed(s)) <==> Leftover(s)
    decreases |s|
  {
    var l, r := Index(s, '('), Index(s, ')');
    if 0 <= l < r {
      NotBefore(s, '(', l);
      NotBefore(s, ')', r);
      CutKeepsLeftover(s, l, r);
      TrimKeepsLeftover(Cut(s, l, r));
      RemarkLeftExactlyWhen(TrimSpace(Cut(s, l, r)));
    } else {
      StoppedLeftover(s);
    }
  }

  /** A stray closing bracket keeps the remark after it from being removed. */
  lemma StrayBracketStops()
    ensures Unbracketed("a) (b)") == "a) (b)" && OpenBeforeClose("a) (b)")
  {
    var s := "a) (b)";
    assert s[1] == ')' && s[3] == '(' && s[5] == ')';
    assert ')' in s[..3] && '(' !in s[..3];
  }

  /** At most one backtick is left, and one exactly when their number was odd. */
  lemma {:induction false} BackticksPair(s: string)
    ensures Count(Unquoted(s), '`') == Count(s, '`') % 2
    decreases |s|
  {
    var l := Index(s, '`');
    if l < 0 {
      CountZero(s, '`');
    } else {
      var r := NextTick(s, l);
      if r < 0 {
        LastBacktick(s, l);
      } else {
        BackticksPair(TrimSpace(Cut(s, l, r)));
        TwoFewer(s, l, r);
        SameParity(Count(TrimSpace(Cut(s, l, r)), '`'), Count(s, '`'));
      }
    }
  }

  lemma TwoFewer(s: string, l: nat, r: nat)
    requires l < r < |s| && s[l] == '`' && s[r] == '`' && '`' !in s[l + 1..r]
    ensures Count(TrimSpace(Cut(s, l, r)), '`') == Count(s, '`') - 2
  {
    CountCut(s, l, r, '`');
    CountTrim(Cut(s, l, r), '`');
  }

  lemma SameParity(a: nat, b: nat)
    requires a + 2 == b
    ensures a % 2 == b % 2
  {
  }

  lemma Around(s: string, l: nat)
    requires l < |s|
    ensures s == s[..l] + [s[l]] + s[l + 1..]
  {
  }

  lemma CountOne(c: char)
    ensures Count([c], c) == 1
  {
    assert [c][1..] == "";
  }

  lemma LastBacktick(s: string, l: nat)
    requires l < |s| && s[l] == '`' && '`' !in s[..l] && '`' !in s[l + 1..]
    ensures Count(s, '`') == 1
  {
    CountSkips(s[..l], ['`'], s[l + 1..], '`');
    CountOne('`');
    Around(s, l);
  }

  function Lower(c: char): char { if 'A' <= c <= 'Z' then c + 32 as char else c }

  predicate StartsVia(s: string)
  {
    |s| >= 5 && s[0] == ' ' && Lower(s[1]) == 'v' && Lower(s[2]) == 'i' && Lower(s[3]) == 'a' && s[4] == ' '
  }

  /** Where the first word via is, or -1. */
  function ViaIndex(s: string): (r: int)
    ensures -1 <= r < |s|
    ensures r >= 0 ==> StartsVia(s[r..])
    ensures forall i :: 0 <= i < (if r < 0 then |s| else r) ==> !StartsVia(s[i..])
  {
    if s == "" then -1
    else if StartsVia(s) then
      assert s[0..] == s;
      0
    else
      var r := ViaIndex(s[1..]);
      assert forall i :: 0 < i <= |s| ==> s[i..] == s[1..][i - 1..];
      if r < 0 then -1 else r + 1
  }

  function BeforeVia(s: string): string { if ViaIndex(s) >= 0 then TrimSpace(s[..ViaIndex(s)]) else s }

  function NonEmpty(parts: seq<string>): seq<string>
  {
    if parts == [] then []
    else
      var t, front := TrimSpace(parts[|parts| - 1]), NonEmpty(parts[..|parts| - 1]);
      if t != "" then front + [t] else front
  }

  lemma NonEmptyNext(parts: seq<string>, i: nat)
    requires i < |parts|
    ensures var t, front := TrimSpace(parts[i]), NonEmpty(parts[..i]);
            NonEmpty(parts[..i + 1]) == if t != "" then front + [t] else front
  {
    assert parts[..i + 1][..i] == parts[..i];
  }

  method Collect(parts: seq<string>) returns (out: seq<string>)
    ensures out == NonEmpty(parts)
  {
    out := [];
    var i := 0;
    while i < |parts|
      invariant 0 <= i <= |parts| && out == NonEmpty(parts[..i])
    {
      NonEmptyNext(parts, i);
      var t := TrimSpace(parts[i]);
      if t != "" {
        out := out + [t];
      }
      i := i + 1;
    }
    assert parts[..i] == parts;
  }

  /** The names in a text. */
  function Parsed(text: string): seq<string> { NonEmpty(Split(BeforeVia(Unquoted(Unbracketed(text))), ',')) }

  /** Terminates on every text, whatever brackets and backticks it holds. */
  method ParseDeciders(text: string) returns (out: seq<string>)
    ensures out == Parsed(text)
    ensures forall i :: 0 <= i < |out| ==> Clean(out[i])
  {
    var s := StripBrackets(text);
    s := StripBackticks(s);
    if ViaIndex(s) >= 0 {
      s := TrimSpace(s[..ViaIndex(s)]);
    }
    out := Collect(Split(s, ','));
    NoSeparatorLeft(s, ',');
    DecidersClean(Split(s, ','));
  }

  predicate Clean(t: string) { t != "" && !Space(t[0]) && !Space(t[|t| - 1]) && ',' !in t }

  lemma PartClean(part: string)
    requires ',' !in part
    ensures TrimSpace(part) == "" || Clean(TrimSpace(part))
  {
    var front, back := TrimParts(part);
    assert forall c :: c in TrimSpace(part) ==> c in part;
  }

  /** Every decider is a trimmed, non-empty text without commas. */
  lemma {:induction false} DecidersClean(parts: seq<string>)
    requires forall i :: 0 <= i < |parts| ==> ',' !in parts[i]
    ensures forall i :: 0 <= i < |NonEmpty(parts)| ==> Clean(NonEmpty(parts)[i])
  {
    if parts != [] {
      DecidersClean(parts[..|parts| - 1]);
      PartClean(parts[|parts| - 1]);
    }
  }

  // ----- Names written plainly come back -----

  /** Nothing in the text that the parser takes out: no bracket, no backtick, no word via. */
  ghost predicate Plain(text: string)
  {
    BracketFree(text) && '`' !in text && forall i :: 0 <= i < |text| ==> !StartsVia(text[i..])
  }

  lemma PlainUntouched(text: string)
    requires Plain(text)
    ensures BeforeVia(Unquoted(Unbracketed(text))) == text
  {
  }

  lemma {:induction false} CleanKept(names: seq<string>)
    requires forall i :: 0 <= i < |names| ==> Clean(names[i])
    ensures NonEmpty(names) == names
  {
    if names != [] {
      var n := |names| - 1;
      CleanKept(names[..n]);
      TrimNothing(names[n]);
      KeptNext(names[..n], names[n]);
      assert names == names[..n] + [names[n]];
    }
  }

  lemma KeptNext(front: seq<string>, name: string)
    requires name != "" && TrimSpace(name) == name && NonEmpty(front) == front
    ensures NonEmpty(front + [name]) == front + [name]
  {
    assert (front + [name])[..|front|] == front;
  }

  /** Names joined by commas come back, in order, if nothing in them is taken out. */
  lemma NamesComeBack(names: seq<string>)
    requires forall i :: 0 <= i < |names| ==> Clean(names[i])
    requires Plain(Join(names, ','))
    ensures Parsed(Join(names, ',')) == names
  {
    PlainUntouched(Join(names, ','));
    if names == [] {
      assert Split("", ',') == [""];
    } else {
      SplitOfJoin(names, ',');
      CleanKept(names);
    }
  }

  /** One remark is taken out, with the space around what is left. */
  lemma OneRemarkOut(front: string, remark: string, back: string)
    requires BracketFree(front) && ')' !in remark && BracketFree(back)
    ensures Unbracketed(front + "(" + remark + ")" + back) == TrimSpace(front + back)
  {
    var s, l := front + "(" + remark + ")" + back, |front|;
    var r := l + 1 + |remark|;
    assert s[l] == '(' && s[r] == ')' && s[..l] == front && s[l + 1..r] == remark && s[r + 1..] == back;
    IndexAt(s, '(', l);
    NoneBeforeClose(s, front, remark, l);
    IndexAt(s, ')', r);
    TrimKeepsFree(front, back);
  }

  lemma NoneBeforeClose(s: string, front: string, remark: string, l: nat)
    requires l == |front| && l + 1 + |remark| <= |s| && s[..l] == front && s[l] == '('
    requires s[l + 1..l + 1 + |remark|] == remark && ')' !in front && ')' !in remark
    ensures ')' !in s[..l + 1 + |remark|]
  {
    assert s[..l + 1 + |remark|] == front + ['('] + remark;
  }

  lemma TrimKeepsFree(front: string, back: string)
    requires BracketFree(front) && BracketFree(back)
    ensures Unbracketed(TrimSpace(front + back)) == TrimSpace(front + back)
  {
    var before, after := TrimParts(front + back);
    assert forall c :: c in TrimSpace(front + back) ==> c in front + back;
  }

  lemma NextTickAt(s: string, l: nat, r: nat)
    requires l < r < |s| && s[r] == '`' && '`' !in s[l + 1..r]
    ensures NextTick(s, l) == r
  {
    var rest, d := s[l + 1..], r - l - 1;
    assert rest[..d] == s[l + 1..r] && rest[d] == '`';
    IndexAt(rest, '`', d);
  }

  lemma QuoteCut(s: string, l: nat, r: nat)
    requires l < r < |s| && s[l] == '`' && s[r] == '`' && '`' !in s[..l] && '`' !in s[l + 1..r]
    requires '`' !in Cut(s, l, r)
    ensures Unquoted(s) == TrimSpace(Cut(s, l, r))
  {
    IndexAt(s, '`', l);
    NextTickAt(s, l, r);
    var front, back := TrimParts(Cut(s, l, r));
    assert forall c :: c in TrimSpace(Cut(s, l, r)) ==> c in Cut(s, l, r);
  }

  /** So are two backticks with what stands between them. */
  lemma OneQuoteOut(front: string, quoted: string, back: string)
    requires '`' !in front && '`' !in quoted && '`' !in back
    ensures Unquoted(front + "`" + quoted + "`" + back) == TrimSpace(front + back)
  {
    var s, l := front + "`" + quoted + "`" + back, |front|;
    var r := l + 1 + |quoted|;
    assert s[..l] == front && s[l + 1..r] == quoted && s[r + 1..] == back;
    QuoteCut(s, l, r);
  }

  /** And everything from the first word via on. */
  lemma ViaCut(front: string, back: string)
    requires forall i :: 0 <= i < |front| ==> !StartsVia((front + " via " + back)[i..])
    ensures BeforeVia(front + " via " + back) == TrimSpace(front)
  {
    var s, n := front + " via " + back, |front|;
    assert s[n..] == " via " + back && StartsVia(s[n..]);
    var r := ViaIndex(s);
    assert r == n && s[..n] == front;
  }

  lemma RemarkAtEnd(text: string, remark: string)
    requires BracketFree(text) && ')' !in remark && TrimSpace(text) == text
    ensures Unbracketed(text + "(" + remark + ")") == text == Unbracketed(text)
  {
    assert text + "(" + remark + ")" == text + "(" + remark + ")" + "" && text + "" == text;
    OneRemarkOut(text, remark, "");
  }

  lemma SameFromThere(a: string, b: string)
    requires Unbracketed(a) == Unbracketed(b)
    ensures Parsed(a) == Parsed(b)
  {
  }

  /** Names with a remark at the end come back without it. */
  lemma RemarkedNamesComeBack(names: seq<string>, remark: string)
    requires names != [] && forall i :: 0 <= i < |names| ==> Clean(names[i])
    requires Plain(Join(names, ',')) && ')' !in remark
    ensures Parsed(Join(names, ',') + "(" + remark + ")") == names
  {
    JoinEnds(names);
    TrimNothing(Join(names, ','));
    RemarkAtEnd(Join(names, ','), remark);
    SameFromThere(Join(names, ',') + "(" + remark + ")", Join(names, ','));
    NamesComeBack(names);
  }

  lemma {:induction false} JoinEnds(names: seq<string>)
    requires names != [] && forall i :: 0 <= i < |names| ==> Clean(names[i])
    ensures var text := Join(names, ','); text != "" && !Space(text[0]) && !Space(text[|text| - 1])
  {
    if |names| > 1 {
      JoinEnds(names[1..]);
    }
  }
}
