/** Text operations that several components share; a string stands for its bytes, and white space is ASCII. */
module Text {
  predicate Space(c: char)
  {
    c == ' ' || c == '\t' || c == '\n' || c == '\r' || c == '\U{000B}' || c == '\U{000C}'
  }

  predicate Digit(c: char) { '0' <= c <= '9' }

  function TrimLeft(s: string): (r: string)
    ensures |r| <= |s| && r == s[|s| - |r|..] && (r != "" ==> !Space(r[0]))
    ensures forall i :: 0 <= i < |s| - |r| ==> Space(s[i])
  {
    if s != "" && Space(s[0]) then TrimLeft(s[1..]) else s
  }

  function TrimEnd(s: string): (r: string)
    ensures |r| <= |s| && r == s[..|r|] && (r != "" ==> !Space(r[|r| - 1]))
    ensures forall i :: |r| <= i < |s| ==> Space(s[i])
  {
    if s != "" && Space(s[|s| - 1]) then TrimEnd(s[..|s| - 1]) else s
  }

  function TrimSpace(s: string): (r: string)
    ensures |r| <= |s| && (r != "" ==> !Space(r[0]) && !Space(r[|r| - 1]))
  {
    TrimEnd(TrimLeft(s))
  }

  /** What trimming takes off at either end. */
  lemma TrimParts(s: string) returns (front: string, back: string)
    ensures s == front + TrimSpace(s) + back
    ensures forall c :: c in front || c in back ==> Space(c)
  {
    var l := TrimLeft(s);
    front, back := s[..|s| - |l|], l[|TrimEnd(l)|..];
    TrimmedEnds(s, front, l, TrimEnd(l), back);
  }

  lemma TrimmedEnds(s: string, front: string, l: string, r: string, back: string)
    requires |l| <= |s| && l == s[|s| - |l|..] && front == s[..|s| - |l|]
    requires |r| <= |l| && r == l[..|r|] && back == l[|r|..]
    ensures s == front + r + back
  {
  }

  /** The first position of a character, or -1. */
  function Index(s: string, c: char): (r: int)
    ensures -1 <= r < |s| && (r == -1 <==> c !in s)
    ensures r >= 0 ==> s[r] == c && c !in s[..r]
  {
    if s == "" then -1
    else if s[0] == c then 0
    else
      var r := Index(s[1..], c);
      assert s == [s[0]] + s[1..];
      if r == -1 then -1
      else
        assert s[..r + 1] == [s[0]] + s[1..][..r];
        r + 1
  }

  lemma {:induction false} IndexAt(s: string, c: char, n: nat)
    requires n < |s| && s[n] == c && c !in s[..n]
    ensures Index(s, c) == n
  {
    if n > 0 {
      assert s[..n][0] == s[0] && s[..n] == [s[0]] + s[1..][..n - 1];
      IndexAt(s[1..], c, n - 1);
    }
  }

  /** The last position of a character, or -1. */
  function LastIndex(s: string, c: char): (r: int)
    ensures -1 <= r < |s| && (r >= 0 ==> s[r] == c)
    ensures forall i :: r < i < |s| ==> s[i] != c
  {
    if s == "" then -1 else if s[|s| - 1] == c then |s| - 1 else LastIndex(s[..|s| - 1], c)
  }

  /** The pieces between separators: one more than there are separators. */
  function Split(s: string, sep: char): (parts: seq<string>)
    ensures parts != []
    decreases |s|
  {
    var n := Index(s, sep);
    if n < 0 then [s] else [s[..n]] + Split(s[n + 1..], sep)
  }

  lemma OnePartMore(head: string, rest: seq<string>, sep: char)
    requires sep !in head && forall i :: 0 <= i < |rest| ==> sep !in rest[i]
    ensures forall i :: 0 <= i < |[head] + rest| ==> sep !in ([head] + rest)[i]
  {
  }

  lemma {:induction false} NoSeparatorLeft(s: string, sep: char)
    ensures forall i :: 0 <= i < |Split(s, sep)| ==> sep !in Split(s, sep)[i]
    decreases |s|
  {
    var n := Index(s, sep);
    if n >= 0 {
      NoSeparatorLeft(s[n + 1..], sep);
      OnePartMore(s[..n], Split(s[n + 1..], sep), sep);
    }
  }

  function Join(parts: seq<string>, sep: char): string
  {
    if parts == [] then "" else if |parts| == 1 then parts[0] else parts[0] + [sep] + Join(parts[1..], sep)
  }

  lemma SplitFirst(head: string, sep: char, rest: string)
    requires sep !in head
    ensures Split(head, sep) == [head]
    ensures Split(head + [sep] + rest, sep) == [head] + Split(rest, sep)
  {
    var s, n := head + [sep] + rest, |head|;
    assert s[..n] == head && s[n + 1..] == rest;
    IndexAt(s, sep, n);
  }

  lemma JoinMore(head: string, rest: seq<string>, sep: char)
    requires rest != []
    ensures Join([head] + rest, sep) == head + [sep] + Join(rest, sep)
  {
    assert ([head] + rest)[1..] == rest;
  }

  /** Pieces without separators come back from what they were joined to. */
  lemma {:induction false} SplitOfJoin(parts: seq<string>, sep: char)
    requires parts != [] && forall i :: 0 <= i < |parts| ==> sep !in parts[i]
    ensures Split(Join(parts, sep), sep) == parts
  {
    if |parts| == 1 {
      SplitFirst(parts[0], sep, "");
    } else {
      SplitOfJoin(parts[1..], sep);
      SplitFirst(parts[0], sep, Join(parts[1..], sep));
      assert parts == [parts[0]] + parts[1..];
    }
  }

  /** And a text comes back from its pieces. */
  lemma {:induction false} JoinOfSplit(s: string, sep: char)
    ensures Join(Split(s, sep), sep) == s
    decreases |s|
  {
    var n := Index(s, sep);
    if n >= 0 {
      JoinOfSplit(s[n + 1..], sep);
      JoinMore(s[..n], Split(s[n + 1..], sep), sep);
      assert s == s[..n] + [sep] + s[n + 1..];
    }
  }

  lemma TrimNothing(s: string)
    requires s != "" ==> !Space(s[0]) && !Space(s[|s| - 1])
    ensures TrimSpace(s) == s
  {
  }

  /** The order of Go's strings. */
  predicate Less(s: string, t: string)
  {
    t != [] && (s == [] || s[0] < t[0] || (s[0] == t[0] && Less(s[1..], t[1..])))
  }

  lemma {:induction false} LessTotal(s: string, t: string)
    ensures s == t || Less(s, t) || Less(t, s)
    ensures !(Less(s, t) && Less(t, s))
    ensures !Less(s, s)
    decreases |s|
  {
    if s != [] && t != [] {
      LessTotal(s[1..], t[1..]);
      assert s == [s[0]] + s[1..] && t == [t[0]] + t[1..];
    } else if s != [] {
      LessTotal(s[1..], s[1..]);
    }
  }

  lemma {:induction false} LessTransitive(s: string, t: string, u: string)
    requires Less(s, t) && Less(t, u)
    ensures Less(s, u)
    decreases |s|
  {
    if s != [] && s[0] == t[0] == u[0] {
      LessTransitive(s[1..], t[1..], u[1..]);
    }
  }

  // ----- Pairs of texts as one text -----

  function Joined(a: string, sep: char, b: string): string { a + [sep] + b }

  /** One first part continues the other past a separator, and the second parts make up for it. */
  predicate Overlaps(a: string, b: string, sep: char, longer: string, shorter: string)
  {
    && |a| < |longer| && |b| > |shorter|
    && longer[..|a|] == a && longer[|a|] == sep
    && b == Joined(longer[|a| + 1..], sep, shorter)
  }

  lemma OverlapShares(a: string, b: string, sep: char, longer: string, shorter: string)
    requires |a| < |longer|
    ensures Joined(a, sep, b) == Joined(longer, sep, shorter) <==> Overlaps(a, b, sep, longer, shorter)
  {
    var k, n := Joined(longer, sep, shorter), |a|;
    assert longer == longer[..n] + [longer[n]] + longer[n + 1..];
    if Joined(a, sep, b) == k {
      assert a == k[..n] == longer[..n];
      assert longer[n] == k[n] == sep;
      assert b == k[n + 1..] == Joined(longer[n + 1..], sep, shorter);
    }
    if Overlaps(a, b, sep, longer, shorter) {
      assert Joined(a, sep, b) == longer[..n] + [longer[n]] + longer[n + 1..] + [sep] + shorter;
    }
  }

  /** Two different pairs are joined to one text exactly when one overlaps the other. */
  lemma JoinedCollideExactlyWhen(a1: string, b1: string, sep: char, a2: string, b2: string)
    requires (a1, b1) != (a2, b2)
    ensures Joined(a1, sep, b1) == Joined(a2, sep, b2)
            <==> Overlaps(a1, b1, sep, a2, b2) || Overlaps(a2, b2, sep, a1, b1)
  {
    if |a1| < |a2| {
      OverlapShares(a1, b1, sep, a2, b2);
    } else if |a2| < |a1| {
      OverlapShares(a2, b2, sep, a1, b1);
    } else {
      assert Joined(a1, sep, b1)[..|a1|] == a1 && Joined(a1, sep, b1)[|a1| + 1..] == b1;
      assert Joined(a2, sep, b2)[..|a2|] == a2 && Joined(a2, sep, b2)[|a2| + 1..] == b2;
    }
  }

  lemma SeparatorFreeApart(a1: string, b1: string, sep: char, a2: string, b2: string)
    requires sep !in a1 && sep !in a2
    ensures Joined(a1, sep, b1) == Joined(a2, sep, b2) <==> (a1, b1) == (a2, b2)
  {
    if (a1, b1) != (a2, b2) {
      JoinedCollideExactlyWhen(a1, b1, sep, a2, b2);
    }
  }
}
