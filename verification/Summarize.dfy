/** Structural summaries of search results: one cluster per path prefix, the best five of them, whatever order the maps
    are walked in. */
module Summarize {
  import opened AugmentTypes
  import opened Text
  import opened Ordering
  import Truncation

  const MAX_COMMUNITIES: nat := 5

  const UNCATEGORIZED := "uncategorized"

  // ----- From a title to a cluster -----

  /** Where the last " | " starts, or -1. */
  function LastBar(title: string): (r: int)
    ensures -1 <= r && (r >= 0 ==> r + 3 <= |title|)
  {
    if |title| < 3 then -1
    else if title[|title| - 3..] == " | " then |title| - 3
    else LastBar(title[..|title| - 1])
  }

  predicate AllDigits(s: string) { s != "" && forall i :: 0 <= i < |s| ==> Digit(s[i]) }

  /** A path without its line number. */
  function WithoutLine(path: string): string
  {
    var colon := LastIndex(path, ':');
    if colon > 0 && AllDigits(path[colon + 1..]) then path[..colon] else path
  }

  function PathOf(title: string): string
  {
    if LastBar(title) < 0 then "" else WithoutLine(TrimSpace(title[LastBar(title) + 3..]))
  }

  function SymbolOf(title: string): string
  {
    if LastBar(title) < 0 then TrimSpace(title) else TrimSpace(title[..LastBar(title)])
  }

  const BAR := " | "

  lemma {:induction false} LastBarAt(title: string, n: nat)
    requires n + 3 <= |title| && title[n..n + 3] == BAR && '|' !in title[n + 3..]
    ensures LastBar(title) == n
    decreases |title|
  {
    var m := |title|;
    if m > n + 3 {
      assert title[n + 3..][m - n - 4] == title[m - 1] != '|';
      assert title[m - 3..] != BAR by {
        if m > n + 4 {
          assert title[m - 2] == title[n + 3..][m - n - 5];
        } else {
          assert title[m - 2] == title[n..n + 3][2] == ' ';
        }
      }
      assert title[..m - 1][n..n + 3] == title[n..n + 3];
      assert title[..m - 1][n + 3..] == title[n + 3..][..m - n - 4];
      LastBarAt(title[..m - 1], n);
    }
  }

  lemma BarParts(symbol: string, place: string)
    requires '|' !in place
    ensures var title := symbol + BAR + place;
            PathOf(title) == WithoutLine(TrimSpace(place)) && SymbolOf(title) == TrimSpace(symbol)
  {
    var title, n := symbol + BAR + place, |symbol|;
    assert title[n..n + 3] == BAR && title[n + 3..] == place && title[..n] == symbol;
    LastBarAt(title, n);
  }

  lemma LineOff(path: string, line: string)
    requires path != "" && AllDigits(line)
    ensures WithoutLine(path + ":" + line) == path
  {
    var s, n := path + ":" + line, |path|;
    assert s[n] == ':' && s[..n] == path && s[n + 1..] == line;
    assert forall i :: n < i < |s| ==> s[i] == line[i - n - 1] != ':';
    assert LastIndex(s, ':') == n;
  }

  lemma PlaceTrimmed(path: string, line: string, place: string)
    requires path != "" && !Space(path[0]) && '|' !in path && AllDigits(line) && place == path + ":" + line
    ensures TrimSpace(place) == place && '|' !in place
  {
    assert place[0] == path[0] && place[|place| - 1] == line[|line| - 1];
    assert forall i :: 0 <= i < |line| ==> Digit(line[i]) && line[i] != '|';
    TrimNothing(place);
  }

  /** A title put together from a symbol, a path and a line number gives symbol and path back. */
  lemma TitleGivesBack(symbol: string, path: string, line: string)
    requires TrimSpace(symbol) == symbol && path != "" && !Space(path[0]) && '|' !in path && AllDigits(line)
    ensures var title := symbol + BAR + (path + ":" + line); PathOf(title) == path && SymbolOf(title) == symbol
  {
    var place := path + ":" + line;
    PlaceTrimmed(path, line, place);
    BarParts(symbol, place);
    LineOff(path, line);
  }

  lemma NoLine(path: string)
    requires ':' !in path
    ensures WithoutLine(path) == path
  {
  }

  /** A path without a colon is kept whole. */
  lemma PathWithoutLine(symbol: string, path: string)
    requires TrimSpace(symbol) == symbol && TrimSpace(path) == path && '|' !in path && ':' !in path
    ensures var title := symbol + BAR + path; PathOf(title) == path && SymbolOf(title) == symbol
  {
    BarParts(symbol, path);
    NoLine(path);
  }

  /** A title without a bar is all symbol. */
  lemma TitleWithoutPath(title: string)
    requires TrimSpace(title) == title && '|' !in title
    ensures PathOf(title) == "" && SymbolOf(title) == title
  {
    NoBar(title);
  }

  lemma {:induction false} NoBar(title: string)
    requires '|' !in title
    ensures LastBar(title) < 0
  {
    if |title| >= 3 {
      var end := title[|title| - 3..];
      assert end[1] == title[|title| - 2] && end[1] in title;
      assert forall c :: c in title[..|title| - 1] ==> c in title;
      NoBar(title[..|title| - 1]);
    }
  }

  /** Every index is in range for every path. */
  method PathClusterKey(path: string) returns (key: string)
    ensures key == ClusterKey(path)
  {
    if path == "" {
      return UNCATEGORIZED;
    }
    var parts := Split(path, '/');
    RootedParts(path);
    KeyFromParts(path);
    if parts[0] == "" {
      parts := parts[1..];
    }
    var depth := 2;
    if |parts| < depth {
      depth := |parts| - 1;
      if depth < 1 {
        depth := 1;
      }
    }
    return Join(parts[..depth], '/');
  }

  function Unrooted(path: string): string { if path != "" && path[0] == '/' then path[1..] else path }

  function UpToSeparator(path: string): string
  {
    if Index(path, '/') < 0 then path else path[..Index(path, '/')]
  }

  /** The path up to its second separator. */
  function FirstTwo(path: string): string
  {
    var n := Index(path, '/');
    if n < 0 then path else path[..n] + "/" + UpToSeparator(path[n + 1..])
  }

  /** A cluster is named by the first two components of the path, not counting a leading separator. */
  function ClusterKey(path: string): string
  {
    if path == "" then UNCATEGORIZED else FirstTwo(Unrooted(path))
  }

  lemma JoinTwo(parts: seq<string>)
    requires |parts| >= 2
    ensures Join(parts[..2], '/') == parts[0] + "/" + parts[1]
  {
    assert parts[..2][1..] == [parts[1]];
  }

  lemma FirstTwoParts(path: string)
    ensures var parts := Split(path, '/');
            FirstTwo(path) == if |parts| == 1 then Join(parts, '/') else Join(parts[..2], '/')
  {
    var n := Index(path, '/');
    if n >= 0 {
      JoinTwo(Split(path, '/'));
      assert Split(path[n + 1..], '/')[0] == UpToSeparator(path[n + 1..]);
    }
  }

  lemma SplitAt(path: string)
    ensures var parts, n := Split(path, '/'), Index(path, '/');
            if n < 0 then parts == [path]
            else parts[0] == path[..n] && parts[1..] == Split(path[n + 1..], '/') && |parts| > 1
  {
  }

  /** A leading separator makes an empty first part, and nothing else does. */
  lemma RootedParts(path: string)
    requires path != ""
    ensures var parts := Split(path, '/');
            && (path[0] == '/' <==> parts[0] == "")
            && (path[0] == '/' ==> |parts| > 1 && parts[1..] == Split(path[1..], '/'))
  {
    SplitAt(path);
  }

  lemma KeyFromParts(path: string)
    requires path != ""
    ensures var parts := Split(Unrooted(path), '/');
            ClusterKey(path) == Join(parts[..if |parts| < 2 then 1 else 2], '/')
  {
    var parts := Split(Unrooted(path), '/');
    FirstTwoParts(Unrooted(path));
    assert |parts| == 1 ==> parts[..1] == parts;
  }

  lemma SingleComponent(path: string, name: string)
    requires '/' !in name
    ensures FirstTwo(path) == name <==> path == name
  {
    var n := Index(path, '/');
    if n >= 0 {
      assert FirstTwo(path)[n] == '/' && path[n] == '/';
      assert n < |name| ==> name[n] in name;
    }
  }

  /** Results without a path share their cluster with exactly two paths. */
  lemma UncategorizedExactlyWhen(path: string)
    ensures ClusterKey(path) == UNCATEGORIZED <==> path == "" || path == UNCATEGORIZED || path == "/" + UNCATEGORIZED
  {
    SingleComponent(Unrooted(path), UNCATEGORIZED);
    if path != "" && path[0] == '/' {
      assert path == "/" + path[1..];
    }
    assert ("/" + UNCATEGORIZED)[1..] == UNCATEGORIZED;
  }

  // ----- The topic of a cluster -----

  /** In the order of their names, code, const, function and type. */
  datatype Kind = Code | Constant | Function | Type

  function KindName(k: Kind): string
  {
    match k
    case Code => "code"
    case Constant => "const"
    case Function => "function"
    case Type => "type"
  }

  function Rank(k: Kind): nat
  {
    match k
    case Code => 0
    case Constant => 1
    case Function => 2
    case Type => 3
  }

  lemma RanksFollowNames(a: Kind, b: Kind)
    ensures Rank(a) < Rank(b) <==> Less(KindName(a), KindName(b))
  {
    assert "code"[1..] == "ode" && "const"[1..] == "onst" && "ode"[1..] == "de" && "onst"[1..] == "nst";
    LessTotal(KindName(a), KindName(b));
  }

  predicate AllUpper(s: string)
  {
    && (forall i :: 0 <= i < |s| ==> !('a' <= s[i] <= 'z'))
    && (exists i :: 0 <= i < |s| && 'A' <= s[i] <= 'Z')
  }

  /** The part of a symbol after its first dot. */
  function Core(symbol: string): string
  {
    if Index(symbol, '.') >= 0 then symbol[Index(symbol, '.') + 1..] else symbol
  }

  function KindOf(core: string): Kind
    requires core != ""
  {
    if AllUpper(core) then Constant
    else if 'A' <= core[0] <= 'Z' then Type
    else if 'a' <= core[0] <= 'z' then Function
    else Code
  }

  predicate Upper(c: char) { 'A' <= c <= 'Z' }

  predicate Lower(c: char) { 'a' <= c <= 'z' }

  lemma AllUpperMeans(s: string)
    ensures AllUpper(s) <==> (exists c :: c in s && Upper(c)) && !exists c :: c in s && Lower(c)
  {
    if AllUpper(s) {
      var i :| 0 <= i < |s| && Upper(s[i]);
      assert s[i] in s;
      assert forall c :: c in s ==> !Lower(c);
    }
    if c :| c in s && Upper(c) && !exists d :: d in s && Lower(d) {
      var i :| 0 <= i < |s| && s[i] == c;
      assert forall j :: 0 <= j < |s| ==> s[j] in s && !Lower(s[j]);
    }
  }

  /** Constants are in capitals throughout; else the first letter tells types from functions. */
  lemma KindsTold(core: string)
    requires core != ""
    ensures KindOf(core).Constant? <==> (exists c :: c in core && Upper(c)) && !exists c :: c in core && Lower(c)
    ensures KindOf(core).Type? <==> Upper(core[0]) && exists c :: c in core && Lower(c)
    ensures KindOf(core).Function? <==> Lower(core[0])
  {
    AllUpperMeans(core);
    assert core[0] in core;
  }

  /** A method is of the kind of its own name. */
  lemma CoreOfMethod(receiver: string, name: string)
    ensures '.' !in receiver ==> Core(receiver + "." + name) == name
    ensures '.' !in name ==> Core(name) == name
  {
    if '.' !in receiver {
      var s, n := receiver + "." + name, |receiver|;
      assert s[..n] == receiver && s[n + 1..] == name;
      IndexAt(s, '.', n);
    }
  }

  predicate IsOfKind(symbol: string, k: Kind) { Core(symbol) != "" && KindOf(Core(symbol)) == k }

  function KindCount(symbols: seq<string>, k: Kind): nat
  {
    if symbols == [] then 0
    else KindCount(symbols[..|symbols| - 1], k) + if IsOfKind(symbols[|symbols| - 1], k) then 1 else 0
  }

  /** More symbols, or as many and the smaller name. */
  predicate Leads(symbols: seq<string>, a: Kind, b: Kind)
  {
    || KindCount(symbols, a) > KindCount(symbols, b)
    || (KindCount(symbols, a) == KindCount(symbols, b) && (a == b || Less(KindName(a), KindName(b))))
  }

  ghost predicate IsTopic(best: Kind, symbols: seq<string>)
  {
    forall k :: Leads(symbols, best, k)
  }

  ghost predicate Counted(counts: map<Kind, nat>, symbols: seq<string>)
  {
    forall k :: (k in counts <==> KindCount(symbols, k) > 0) && (k in counts ==> counts[k] == KindCount(symbols, k))
  }

  lemma KindCountAdd(symbols: seq<string>, symbol: string, k: Kind)
    ensures KindCount(symbols + [symbol], k) == KindCount(symbols, k) + if IsOfKind(symbol, k) then 1 else 0
  {
    assert (symbols + [symbol])[..|symbols|] == symbols;
  }

  method CountKinds(symbols: seq<string>) returns (counts: map<Kind, nat>)
    ensures Counted(counts, symbols)
  {
    counts := map[];
    var i := 0;
    while i < |symbols|
      invariant 0 <= i <= |symbols| && Counted(counts, symbols[..i])
    {
      var core := Core(symbols[i]);
      assert symbols[..i + 1] == symbols[..i] + [symbols[i]];
      forall k: Kind
        ensures KindCount(symbols[..i + 1], k) == KindCount(symbols[..i], k) + if IsOfKind(symbols[i], k) then 1 else 0
      {
        KindCountAdd(symbols[..i], symbols[i], k);
      }
      i := i + 1;
      if core == "" {
        continue;
      }
      var kind := KindOf(core);
      counts := counts[kind := (if kind in counts then counts[kind] else 0) + 1];
    }
    assert symbols[..i] == symbols;
  }

  /** The same by rank. */
  predicate RankLeads(symbols: seq<string>, a: Kind, b: Kind)
  {
    || KindCount(symbols, a) > KindCount(symbols, b)
    || (KindCount(symbols, a) == KindCount(symbols, b) && Rank(a) <= Rank(b))
  }

  lemma RankLeadsMeansLeads(symbols: seq<string>, best: Kind)
    requires forall k :: RankLeads(symbols, best, k)
    ensures IsTopic(best, symbols)
  {
    forall k: Kind
      ensures Leads(symbols, best, k)
    {
      assert RankLeads(symbols, best, k);
      RanksFollowNames(best, k);
    }
  }

  method InferTopic(symbols: seq<string>) returns (best: Kind)
    ensures IsTopic(best, symbols)
  {
    if |symbols| == 0 {
      assert forall k :: KindCount(symbols, k) == 0;
      RankLeadsMeansLeads(symbols, Code);
      return Code;
    }
    var counts := CountKinds(symbols);
    best := LargestCount(counts, symbols);
    RankLeadsMeansLeads(symbols, best);
  }

  method LargestCount(counts: map<Kind, nat>, ghost symbols: seq<string>) returns (best: Kind)
    requires Counted(counts, symbols)
    ensures forall k :: RankLeads(symbols, best, k)
  {
    best := Code;
    var bestCount, rest := 0, counts.Keys;
    while rest != {}
      invariant rest <= counts.Keys
      invariant bestCount == 0 ==> best == Code && rest == counts.Keys
      invariant bestCount > 0 ==> bestCount == KindCount(symbols, best)
      invariant forall k :: k in counts && k !in rest ==> RankLeads(symbols, best, k)
    {
      var k :| k in rest;
      var c := counts[k];
      ghost var was := best;
      assert k in counts && c == KindCount(symbols, k) > 0;
      RanksFollowNames(k, best);
      if c > bestCount || (c == bestCount && Less(KindName(k), KindName(best))) {
        best, bestCount := k, c;
      }
      assert RankLeads(symbols, best, k) && (rest != counts.Keys ==> RankLeads(symbols, best, was));
      rest := rest - {k};
    }
    forall k: Kind
      ensures RankLeads(symbols, best, k)
    {
      if k !in counts {
        assert KindCount(symbols, k) == 0;
        assert Rank(Code) <= Rank(k);
      }
    }
  }

  // ----- Grouping -----

  /** What the grouping looks at in a result. */
  datatype Hit = Hit(noteId: string, path: string, symbol: string, key: string, score: real)

  function HitOf(f: FusedResult): Hit
  {
    Hit(f.noteId, PathOf(f.title), SymbolOf(f.title), ClusterKey(PathOf(f.title)), f.score)
  }

  function Hits(fused: seq<FusedResult>): seq<Hit>
  {
    seq(|fused|, i requires 0 <= i < |fused| => HitOf(fused[i]))
  }

  datatype Cluster = Cluster(files: set<string>, symbols: set<string>, noteIds: seq<string>, score: real)

  const NOTHING := Cluster({}, {}, [], 0.0)

  function Added(c: Cluster, h: Hit): Cluster
  {
    Cluster(if h.path != "" then c.files + {h.path} else c.files,
            if h.symbol != "" then c.symbols + {h.symbol} else c.symbols,
            c.noteIds + [h.noteId], c.score + h.score)
  }

  /** What the results with one key amount to. */
  function Group(hits: seq<Hit>, key: string): Cluster
  {
    if hits == [] then NOTHING
    else
      var before, last := Group(hits[..|hits| - 1], key), hits[|hits| - 1];
      if last.key == key then Added(before, last) else before
  }

  function KeyScore(hits: seq<Hit>, key: string): real
  {
    if hits == [] then 0.0
    else KeyScore(hits[..|hits| - 1], key) + if hits[|hits| - 1].key == key then hits[|hits| - 1].score else 0.0
  }

  /** A group has the paths and the symbols of its results, those that are not empty, and the sum of their scores. */
  lemma {:induction false} GroupMeans(hits: seq<Hit>, key: string)
    ensures Group(hits, key).score == KeyScore(hits, key)
    ensures forall x :: x in Group(hits, key).files <==> x != "" && exists h :: h in hits && h.key == key && h.path == x
    ensures forall x ::
              x in Group(hits, key).symbols <==> x != "" && exists h :: h in hits && h.key == key && h.symbol == x
  {
    if hits != [] {
      var front, last := hits[..|hits| - 1], hits[|hits| - 1];
      GroupMeans(front, key);
      assert hits == front + [last];
      assert forall h :: h in hits <==> h in front || h == last;
    }
  }

  predicate HasKey(hits: seq<Hit>, key: string)
  {
    hits != [] && (hits[|hits| - 1].key == key || HasKey(hits[..|hits| - 1], key))
  }

  lemma {:induction false} NothingWithoutKey(hits: seq<Hit>, key: string)
    requires !HasKey(hits, key)
    ensures Group(hits, key) == NOTHING
  {
    if hits != [] {
      NothingWithoutKey(hits[..|hits| - 1], key);
    }
  }

  ghost predicate Grouped(clusters: map<string, Cluster>, hits: seq<Hit>)
  {
    forall key :: (key in clusters <==> HasKey(hits, key)) && (key in clusters ==> clusters[key] == Group(hits, key))
  }

  function Sofar(clusters: map<string, Cluster>, key: string): Cluster
  {
    if key in clusters then clusters[key] else NOTHING
  }

  lemma GroupAdd(hits: seq<Hit>, h: Hit, key: string)
    ensures HasKey(hits + [h], key) <==> HasKey(hits, key) || h.key == key
    ensures Group(hits + [h], key) == if h.key == key then Added(Group(hits, key), h) else Group(hits, key)
  {
    assert (hits + [h])[..|hits|] == hits;
  }

  lemma GroupedAdd(clusters: map<string, Cluster>, hits: seq<Hit>, h: Hit)
    requires Grouped(clusters, hits)
    ensures Grouped(clusters[h.key := Added(Sofar(clusters, h.key), h)], hits + [h])
  {
    forall key: string
      ensures HasKey(hits + [h], key) <==> HasKey(hits, key) || h.key == key
      ensures Group(hits + [h], key) == if h.key == key then Added(Group(hits, key), h) else Group(hits, key)
    {
      GroupAdd(hits, h, key);
    }
    if h.key !in clusters {
      NothingWithoutKey(hits, h.key);
    }
  }

  method Extract(f: FusedResult) returns (h: Hit)
    ensures h == HitOf(f)
  {
    var path, symbol := PathOf(f.title), SymbolOf(f.title);
    var key := PathClusterKey(path);
    return Hit(f.noteId, path, symbol, key, f.score);
  }

  method Absorb(clusters: map<string, Cluster>, h: Hit) returns (r: map<string, Cluster>)
    ensures r == clusters[h.key := Added(Sofar(clusters, h.key), h)]
  {
    var c := NOTHING;
    if h.key in clusters {
      c := clusters[h.key];
    }
    if h.path != "" {
      c := c.(files := c.files + {h.path});
    }
    if h.symbol != "" {
      c := c.(symbols := c.symbols + {h.symbol});
    }
    c := c.(noteIds := c.noteIds + [h.noteId], score := c.score + h.score);
    r := clusters[h.key := c];
  }

  lemma OneMore(hits: seq<Hit>, i: nat)
    requires i < |hits|
    ensures hits[..i + 1] == hits[..i] + [hits[i]]
  {
  }

  method GroupAll(fused: seq<FusedResult>) returns (clusters: map<string, Cluster>)
    ensures Grouped(clusters, Hits(fused))
  {
    clusters := map[];
    ghost var hits := Hits(fused);
    var i := 0;
    while i < |fused|
      invariant 0 <= i <= |fused| && Grouped(clusters, hits[..i])
    {
      var h := Extract(fused[i]);
      assert h == hits[i];
      OneMore(hits, i);
      GroupedAdd(clusters, hits[..i], h);
      clusters := Absorb(clusters, h);
      i := i + 1;
    }
    assert hits[..i] == hits;
  }

  // ----- Summaries -----

  function ByName(): (string, string) -> bool { (a, b) => Less(a, b) }

  lemma NamesOrdered()
    ensures StrictOrder(ByName())
  {
    forall a: string, b: string
      ensures a == b || Less(a, b) || Less(b, a)
      ensures Less(a, b) ==> a != b && !Less(b, a)
    {
      LessTotal(a, b);
    }
    forall a: string, b: string, c: string | Less(a, b) && Less(b, c)
      ensures Less(a, c)
    {
      LessTransitive(a, b, c);
    }
  }

  function Lengths(names: seq<string>): nat
  {
    if names == [] then 0 else Lengths(names[..|names| - 1]) + |names[|names| - 1]| + 1
  }

  function Tokens(key: string, files: seq<string>, symbols: seq<string>): nat
  {
    var tokens := (|key| + Lengths(files) + Lengths(symbols)) / 4;
    if tokens == 0 then 1 else tokens
  }

  lemma {:induction false} LengthsCount(names: seq<string>)
    ensures Lengths(names) == Truncation.NameChars(names, 1)
  {
    if names != [] {
      LengthsCount(names[..|names| - 1]);
    }
  }

  /** Estimating a summary anew, as the truncation guard does from the first summary it cuts on, counts the topic too:
      for a summary whose lists are not cut it never comes to less, and to two tokens more at most. */
  lemma EstimatedAnew(s: CommunitySummary, c: Cluster)
    requires Describes(s, c)
    ensures s.tokenCount <= Truncation.SummaryTokens(s) <= s.tokenCount + 2
  {
    LengthsCount(s.files);
    LengthsCount(s.symbols);
    var best :| IsTopic(best, s.symbols) && s.topic == KindName(best);
    assert |KindName(best)| <= 8;
  }

  method AddLengths(names: seq<string>, from: nat) returns (chars: nat)
    ensures chars == from + Lengths(names)
  {
    chars := from;
    var i := 0;
    while i < |names|
      invariant 0 <= i <= |names| && chars == from + Lengths(names[..i])
    {
      chars := chars + |names[i]| + 1;
      assert names[..i + 1][..i] == names[..i];
      i := i + 1;
    }
    assert names[..i] == names;
  }

  method EstimateTokens(key: string, files: seq<string>, symbols: seq<string>) returns (tokens: nat)
    ensures tokens == Tokens(key, files, symbols)
  {
    var chars := AddLengths(files, |key|);
    chars := AddLengths(symbols, chars);
    tokens := chars / 4;
    if tokens == 0 {
      tokens := 1;
    }
  }

  ghost predicate Describes(s: CommunitySummary, c: Cluster)
  {
    && s.noteIds == c.noteIds
    && Ascending(s.files, ByName()) && (forall x :: x in s.files <==> x in c.files)
    && Ascending(s.symbols, ByName()) && (forall x :: x in s.symbols <==> x in c.symbols)
    && (exists best :: IsTopic(best, s.symbols) && s.topic == KindName(best))
    && s.tokenCount == Tokens(s.clusterId, s.files, s.symbols)
  }

  lemma DescriptionUnique(s: CommunitySummary, t: CommunitySummary, c: Cluster)
    requires Describes(s, c) && Describes(t, c) && s.clusterId == t.clusterId
    ensures s == t
  {
    NamesOrdered();
    AscendingUnique(s.files, t.files, ByName());
    AscendingUnique(s.symbols, t.symbols, ByName());
    var a :| IsTopic(a, s.symbols) && s.topic == KindName(a);
    var b :| IsTopic(b, t.symbols) && t.topic == KindName(b);
    assert Leads(s.symbols, a, b) && Leads(s.symbols, b, a);
    LessTotal(KindName(a), KindName(b));
  }

  method Describe(key: string, c: Cluster) returns (s: CommunitySummary)
    ensures s.clusterId == key && Describes(s, c)
  {
    NamesOrdered();
    var files := Sorted(c.files, ByName());
    var symbols := Sorted(c.symbols, ByName());
    var topic := InferTopic(symbols);
    var tokens := EstimateTokens(key, files, symbols);
    return CommunitySummary(key, KindName(topic), files, symbols, c.noteIds, tokens);
  }

  // ----- Ranking and the cap -----

  /** Higher score first, and the smaller id between equal scores. */
  function Ranked(score: string -> real): (string, string) -> bool
  {
    (a, b) => score(a) > score(b) || (score(a) == score(b) && Less(a, b))
  }

  function GroupScore(hits: seq<Hit>): string -> real { key => Group(hits, key).score }

  function ClusterScore(clusters: map<string, Cluster>): string -> real { key => Sofar(clusters, key).score }

  function Better(hits: seq<Hit>): (string, string) -> bool { Ranked(GroupScore(hits)) }

  lemma RankedOrdered(score: string -> real)
    ensures StrictOrder(Ranked(score))
  {
    var before := Ranked(score);
    forall a: string, b: string
      ensures a == b || before(a, b) || before(b, a)
      ensures before(a, b) ==> a != b && !before(b, a)
    {
      LessTotal(a, b);
    }
    forall a: string, b: string, c: string | before(a, b) && before(b, c)
      ensures before(a, c)
    {
      if Less(a, b) && Less(b, c) {
        LessTransitive(a, b, c);
      }
    }
  }

  lemma BetterOrdered(hits: seq<Hit>)
    ensures StrictOrder(Better(hits))
  {
    RankedOrdered(GroupScore(hits));
  }

  function Ids(out: seq<CommunitySummary>): seq<string>
  {
    seq(|out|, i requires 0 <= i < |out| => out[i].clusterId)
  }

  /** The best ids: ascending in rank, all of them or five, and none left out that is better than one taken. */
  ghost predicate Top(ids: seq<string>, hits: seq<Hit>)
  {
    && |ids| <= MAX_COMMUNITIES && Ascending(ids, Better(hits))
    && (forall id :: id in ids ==> HasKey(hits, id))
    && (forall id :: HasKey(hits, id) && id !in ids ==>
          |ids| == MAX_COMMUNITIES && forall i :: 0 <= i < |ids| ==> Better(hits)(ids[i], id))
  }

  ghost predicate IsDigest(out: seq<CommunitySummary>, hits: seq<Hit>)
  {
    && Top(Ids(out), hits)
    && (forall i :: 0 <= i < |out| ==> Describes(out[i], Group(hits, out[i].clusterId)))
  }

  /** The first five of an ascending list. */
  method Capped(ids: seq<string>, ghost hits: seq<Hit>) returns (kept: seq<string>)
    requires Ascending(ids, Better(hits)) && forall id :: id in ids <==> HasKey(hits, id)
    ensures Top(kept, hits)
  {
    kept := if |ids| > MAX_COMMUNITIES then ids[..MAX_COMMUNITIES] else ids;
  }

  method DescribeAll(ids: seq<string>, clusters: map<string, Cluster>, ghost hits: seq<Hit>)
    returns (out: seq<CommunitySummary>)
    requires Grouped(clusters, hits) && forall id :: id in ids ==> HasKey(hits, id)
    ensures Ids(out) == ids
    ensures forall i :: 0 <= i < |out| ==> Describes(out[i], Group(hits, out[i].clusterId))
  {
    out := [];
    while |out| < |ids|
      invariant |out| <= |ids| && Ids(out) == ids[..|out|]
      invariant forall i :: 0 <= i < |out| ==> Describes(out[i], Group(hits, out[i].clusterId))
      decreases |ids| - |out|
    {
      var key := ids[|out|];
      assert key in ids;
      var s := Describe(key, clusters[key]);
      out := out + [s];
    }
  }

  lemma SameRanking(ids: seq<string>, clusters: map<string, Cluster>, hits: seq<Hit>)
    requires Grouped(clusters, hits) && Ascending(ids, Ranked(ClusterScore(clusters)))
    requires forall id :: id in ids <==> id in clusters
    ensures Ascending(ids, Better(hits)) && forall id :: id in ids <==> HasKey(hits, id)
  {
    forall i | 0 <= i < |ids|
      ensures GroupScore(hits)(ids[i]) == ClusterScore(clusters)(ids[i])
    {
      assert ids[i] in ids;
    }
  }

  method Summarize(fused: seq<FusedResult>) returns (out: seq<CommunitySummary>)
    ensures IsDigest(out, Hits(fused))
  {
    if |fused| == 0 {
      return [];
    }
    var clusters := GroupAll(fused);
    ghost var hits := Hits(fused);
    RankedOrdered(ClusterScore(clusters));
    var ids := Sorted(clusters.Keys, Ranked(ClusterScore(clusters)));
    SameRanking(ids, clusters, hits);
    var kept := Capped(ids, hits);
    out := DescribeAll(kept, clusters, hits);
  }

  lemma SamePlace(xs: seq<string>, ys: seq<string>, hits: seq<Hit>, i: nat)
    requires Top(xs, hits) && Top(ys, hits)
    requires i < |xs| && i <= |ys| && xs[..i] == ys[..i]
    ensures i < |ys| && !Better(hits)(xs[i], ys[i])
  {
    BetterOrdered(hits);
    var x := xs[i];
    assert x in xs;
    forall j | 0 <= j < i
      ensures j < |ys| && ys[j] != x
    {
      assert ys[j] == ys[..i][j] == xs[j] && Better(hits)(xs[j], x);
    }
    if j :| 0 <= j < |ys| && ys[j] == x {
      assert i <= j && (i < j ==> Better(hits)(ys[i], x));
    } else {
      assert x !in ys;
    }
  }

  lemma {:induction false} SameTop(xs: seq<string>, ys: seq<string>, hits: seq<Hit>, i: nat)
    requires Top(xs, hits) && Top(ys, hits)
    requires i <= |xs| && i <= |ys| && xs[..i] == ys[..i]
    ensures xs == ys
    decreases |xs| - i
  {
    if i < |xs| {
      SamePlace(xs, ys, hits, i);
      SamePlace(ys, xs, hits, i);
      BetterOrdered(hits);
      assert xs[i] == ys[i];
      assert xs[..i + 1] == xs[..i] + [xs[i]] && ys[..i + 1] == ys[..i] + [ys[i]];
      SameTop(xs, ys, hits, i + 1);
    } else if i < |ys| {
      SamePlace(ys, xs, hits, i);
    }
  }

  /** The digest is determined by the results, whatever order the maps are walked in. */
  lemma DigestUnique(a: seq<CommunitySummary>, b: seq<CommunitySummary>, hits: seq<Hit>)
    requires IsDigest(a, hits) && IsDigest(b, hits)
    ensures a == b
  {
    SameTop(Ids(a), Ids(b), hits, 0);
    forall i | 0 <= i < |a|
      ensures a[i] == b[i]
    {
      assert Ids(a)[i] == Ids(b)[i];
      DescriptionUnique(a[i], b[i], Group(hits, a[i].clusterId));
    }
  }

  // ----- The clusters partition the notes -----

  function NoteIds(hits: seq<Hit>): seq<string>
  {
    seq(|hits|, i requires 0 <= i < |hits| => hits[i].noteId)
  }

  /** The notes of several clusters together. */
  function Gathered(hits: seq<Hit>, keys: seq<string>): multiset<string>
  {
    if keys == [] then multiset{}
    else Gathered(hits, keys[..|keys| - 1]) + multiset(Group(hits, keys[|keys| - 1]).noteIds)
  }

  lemma AppendBag(bag: multiset<string>, notes: seq<string>, note: string)
    ensures bag + multiset(notes + [note]) == bag + multiset(notes) + multiset{note}
  {
  }

  lemma {:induction false} GatheredAdd(hits: seq<Hit>, h: Hit, keys: seq<string>)
    requires Distinct(keys)
    ensures Gathered(hits + [h], keys)
            == if h.key in keys then Gathered(hits, keys) + multiset{h.noteId} else Gathered(hits, keys)
  {
    if keys != [] {
      var front, last := keys[..|keys| - 1], keys[|keys| - 1];
      GatheredAdd(hits, h, front);
      GroupAdd(hits, h, last);
      InFront(keys, h.key);
      if h.key == last {
        LastIsNew(keys);
        AppendBag(Gathered(hits, front), Group(hits, last).noteIds, h.noteId);
      }
    }
  }

  lemma InFront(keys: seq<string>, key: string)
    requires keys != []
    ensures key in keys <==> key in keys[..|keys| - 1] || key == keys[|keys| - 1]
  {
    assert keys == keys[..|keys| - 1] + [keys[|keys| - 1]];
  }

  lemma LastIsNew(keys: seq<string>)
    requires Distinct(keys) && keys != []
    ensures keys[|keys| - 1] !in keys[..|keys| - 1]
  {
  }

  /** Taken together, the clusters hold every note exactly as often as the results do. */
  lemma {:induction false} ClustersPartitionNotes(hits: seq<Hit>, keys: seq<string>)
    requires Distinct(keys) && forall key :: HasKey(hits, key) ==> key in keys
    ensures Gathered(hits, keys) == multiset(NoteIds(hits))
  {
    if hits == [] {
      NothingGathered(keys);
    } else {
      var front, last := hits[..|hits| - 1], hits[|hits| - 1];
      ClustersPartitionNotes(front, keys);
      GatheredAdd(front, last, keys);
      NoteIdsLast(hits);
      assert hits == front + [last];
    }
  }

  lemma NoteIdsLast(hits: seq<Hit>)
    requires hits != []
    ensures multiset(NoteIds(hits)) == multiset(NoteIds(hits[..|hits| - 1])) + multiset{hits[|hits| - 1].noteId}
  {
    assert NoteIds(hits) == NoteIds(hits[..|hits| - 1]) + [hits[|hits| - 1].noteId];
  }

  lemma {:induction false} NothingGathered(keys: seq<string>)
    ensures Gathered([], keys) == multiset{}
  {
    if keys != [] {
      NothingGathered(keys[..|keys| - 1]);
    }
  }

  /** Within a cluster the notes keep the order of the results. */
  lemma {:induction false} NotesInOrder(hits: seq<Hit>, key: string) returns (at: seq<nat>)
    ensures |at| == |Group(hits, key).noteIds|
    ensures forall i :: 0 <= i < |at| ==>
              at[i] < |hits| && hits[at[i]].key == key && hits[at[i]].noteId == Group(hits, key).noteIds[i]
    ensures forall i, j :: 0 <= i < j < |at| ==> at[i] < at[j]
  {
    at := [];
    if hits != [] {
      at := NotesInOrder(hits[..|hits| - 1], key);
      if hits[|hits| - 1].key == key {
        at := at + [|hits| - 1];
      }
    }
  }

  // ----- How many clusters are reported -----

  lemma {:induction false} DistinctSize(xs: seq<string>)
    requires Distinct(xs)
    ensures |(set x | x in xs)| == |xs|
  {
    if xs != [] {
      var front, last := xs[..|xs| - 1], xs[|xs| - 1];
      DistinctSize(front);
      assert (set x | x in xs) == (set x | x in front) + {last} by {
        assert xs == front + [last];
      }
      assert last !in front;
    }
  }

  lemma AscendingDistinct(ids: seq<string>, hits: seq<Hit>)
    requires Ascending(ids, Better(hits))
    ensures Distinct(ids)
  {
    BetterOrdered(hits);
  }

  /** Every cluster is reported if there are five at most, and else exactly five. */
  lemma DigestSize(out: seq<CommunitySummary>, hits: seq<Hit>, keys: seq<string>)
    requires IsDigest(out, hits)
    requires Distinct(keys) && forall key :: key in keys <==> HasKey(hits, key)
    ensures |out| == if |keys| <= 5 then |keys| else 5
  {
    var ids := Ids(out);
    AscendingDistinct(ids, hits);
    DistinctSize(ids);
    DistinctSize(keys);
    assert forall x :: x in ids ==> x in keys;
    if x :| x in keys && x !in ids {
      OneMoreKey(ids, keys, x);
    } else {
      assert (set x | x in ids) == (set x | x in keys);
    }
  }

  lemma OneMoreKey(ids: seq<string>, keys: seq<string>, x: string)
    requires x in keys && x !in ids && forall y :: y in ids ==> y in keys
    ensures |(set y | y in ids)| < |(set y | y in keys)|
  {
    Subsets((set y | y in ids) + {x}, set y | y in keys);
  }

  lemma Subsets<T>(a: set<T>, b: set<T>)
    requires a <= b
    ensures |a| <= |b|
  {
    assert b == a + (b - a);
  }
}
