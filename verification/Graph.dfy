/** The relation graph of decision records: superseding edges, and one edge for each related pair however often and
    from whichever side it is named, sorted so that the result does not depend on the order of the files. */
module Graph {
  import opened Document
  import opened Wrappers
  import opened Bags
  import opened Text
  import opened Ordering

  datatype Kind = RelatesTo | Supersedes

  datatype Edge = Edge(from: string, to: string, kind: Kind)

  datatype Pair = Pair(lo: string, hi: string)

  /** By source, then kind (by name), then target. */
  predicate EdgeLess(a: Edge, b: Edge)
  {
    if a.from != b.from then Less(a.from, b.from)
    else if a.kind != b.kind then a.kind.RelatesTo?
    else Less(a.to, b.to)
  }

  function ByEdge(): (Edge, Edge) -> bool { (a, b) => EdgeLess(a, b) }

  lemma EdgesOrdered()
    ensures StrictOrder(ByEdge())
  {
    forall a: Edge, b: Edge
      ensures a == b || EdgeLess(a, b) || EdgeLess(b, a)
      ensures EdgeLess(a, b) ==> a != b && !EdgeLess(b, a)
    {
      LessTotal(a.from, b.from);
      LessTotal(a.to, b.to);
    }
    forall a: Edge, b: Edge, c: Edge | EdgeLess(a, b) && EdgeLess(b, c)
      ensures EdgeLess(a, c)
    {
      EdgeLessTransitive(a, b, c);
    }
  }

  lemma EdgeLessTransitive(a: Edge, b: Edge, c: Edge)
    requires EdgeLess(a, b) && EdgeLess(b, c)
    ensures EdgeLess(a, c)
  {
    LessTotal(a.from, b.from);
    if Less(a.from, b.from) && Less(b.from, c.from) {
      LessTransitive(a.from, b.from, c.from);
      LessTotal(a.from, c.from);
    }
    if Less(a.to, b.to) && Less(b.to, c.to) {
      LessTransitive(a.to, b.to, c.to);
    }
  }

  // ----- What the edges are -----

  function Sides(id: string, ref: string): Pair { if Less(ref, id) then Pair(ref, id) else Pair(id, ref) }

  function KeyOf(p: Pair): string { Joined(p.lo, '|', p.hi) }

  function RefPairs(id: string, refs: seq<string>): seq<Pair>
  {
    if refs == [] then [] else RefPairs(id, refs[..|refs| - 1]) + [Sides(id, refs[|refs| - 1])]
  }

  /** Every related pair, as often as it is named. */
  function Pairs(docs: seq<Frontmatter>): seq<Pair>
  {
    if docs == [] then []
    else
      var before, last := Pairs(docs[..|docs| - 1]), docs[|docs| - 1];
      if last.id == "" then before else before + RefPairs(last.id, last.relatesTo)
  }

  function SupersedeEdges(docs: seq<Frontmatter>): seq<Edge>
  {
    if docs == [] then []
    else
      var before, last := SupersedeEdges(docs[..|docs| - 1]), docs[|docs| - 1];
      if last.id != "" && last.supersededBy != "" then before + [Edge(last.id, last.supersededBy, Supersedes)]
      else before
  }

  function Keys(pairs: seq<Pair>): set<string>
  {
    if pairs == [] then {} else Keys(pairs[..|pairs| - 1]) + {KeyOf(pairs[|pairs| - 1])}
  }

  /** The pairs whose key had not been seen before. */
  function Fresh(pairs: seq<Pair>): seq<Pair>
  {
    if pairs == [] then []
    else
      var front, last := pairs[..|pairs| - 1], pairs[|pairs| - 1];
      if KeyOf(last) in Keys(front) then Fresh(front) else Fresh(front) + [last]
  }

  function EdgeOf(p: Pair): Edge { Edge(p.lo, p.hi, RelatesTo) }

  function EdgesOf(pairs: seq<Pair>): seq<Edge>
  {
    seq(|pairs|, i requires 0 <= i < |pairs| => EdgeOf(pairs[i]))
  }

  // ----- The loops -----

  /** The edges so far are those of the superseding links and of the fresh pairs. */
  ghost predicate Collected(edges: seq<Edge>, seen: set<string>, superseding: seq<Edge>, pairs: seq<Pair>)
  {
    seen == Keys(pairs) && multiset(edges) == multiset(superseding) + multiset(EdgesOf(Fresh(pairs)))
  }

  lemma PairCollected(edges: seq<Edge>, seen: set<string>, superseding: seq<Edge>, pairs: seq<Pair>, p: Pair)
    requires Collected(edges, seen, superseding, pairs)
    ensures KeyOf(p) in seen ==> Collected(edges, seen, superseding, pairs + [p])
    ensures KeyOf(p) !in seen ==> Collected(edges + [EdgeOf(p)], seen + {KeyOf(p)}, superseding, pairs + [p])
  {
    assert (pairs + [p])[..|pairs|] == pairs;
    assert EdgesOf(Fresh(pairs) + [p]) == EdgesOf(Fresh(pairs)) + [EdgeOf(p)];
  }

  method AddRelated(id: string, refs: seq<string>, edges: seq<Edge>, seen: set<string>,
                    ghost superseding: seq<Edge>, ghost pairs: seq<Pair>)
    returns (edges': seq<Edge>, seen': set<string>)
    requires Collected(edges, seen, superseding, pairs)
    ensures Collected(edges', seen', superseding, pairs + RefPairs(id, refs))
  {
    edges', seen' := edges, seen;
    assert pairs + RefPairs(id, refs[..0]) == pairs;
    for i := 0 to |refs|
      invariant Collected(edges', seen', superseding, pairs + RefPairs(id, refs[..i]))
    {
      var lo, hi := id, refs[i];
      if Less(hi, lo) {
        lo, hi := hi, lo;
      }
      var p := Pair(lo, hi);
      assert refs[..i + 1][..i] == refs[..i];
      assert pairs + RefPairs(id, refs[..i + 1]) == pairs + RefPairs(id, refs[..i]) + [p];
      PairCollected(edges', seen', superseding, pairs + RefPairs(id, refs[..i]), p);
      if KeyOf(p) in seen' {
        continue;
      }
      seen' := seen' + {KeyOf(p)};
      edges' := edges' + [Edge(lo, hi, RelatesTo)];
    }
    assert refs[..|refs|] == refs;
  }

  /** The edges of a corpus: sorted, every superseding link, and every fresh pair once. */
  ghost predicate IsEdgeList(edges: seq<Edge>, docs: seq<Frontmatter>)
  {
    && InOrder(edges, ByEdge())
    && multiset(edges) == multiset(SupersedeEdges(docs)) + multiset(EdgesOf(Fresh(Pairs(docs))))
  }

  method BuildEdges(docs: seq<Frontmatter>) returns (sorted: seq<Edge>)
    ensures IsEdgeList(sorted, docs)
  {
    var edges: seq<Edge>, seen: set<string> := [], {};
    for i := 0 to |docs|
      invariant Collected(edges, seen, SupersedeEdges(docs[..i]), Pairs(docs[..i]))
    {
      var fm := docs[i];
      assert docs[..i + 1][..i] == docs[..i];
      if fm.id == "" {
        continue;
      }
      if fm.supersededBy != "" {
        edges := edges + [Edge(fm.id, fm.supersededBy, Supersedes)];
      }
      edges, seen := AddRelated(fm.id, fm.relatesTo, edges, seen, SupersedeEdges(docs[..i + 1]), Pairs(docs[..i]));
    }
    assert docs[..|docs|] == docs;
    EdgesOrdered();
    sorted := SortedList(edges, ByEdge());
  }

  // ----- One edge for each related pair -----

  /** No two different pairs of the corpus share a key. */
  ghost predicate KeysApart(pairs: seq<Pair>)
  {
    forall p, q :: p in pairs && q in pairs && KeyOf(p) == KeyOf(q) ==> p == q
  }

  lemma {:induction false} KeysMean(pairs: seq<Pair>, key: string)
    ensures key in Keys(pairs) <==> exists p :: p in pairs && KeyOf(p) == key
  {
    if pairs != [] {
      var front, last := pairs[..|pairs| - 1], pairs[|pairs| - 1];
      KeysMean(front, key);
      assert pairs == front + [last];
    }
  }

  /** Of the pairs named, each is there exactly once. */
  lemma {:induction false} FreshMeans(pairs: seq<Pair>)
    requires KeysApart(pairs)
    ensures Distinct(Fresh(pairs)) && forall p :: p in Fresh(pairs) <==> p in pairs
  {
    if pairs != [] {
      var front, last := pairs[..|pairs| - 1], pairs[|pairs| - 1];
      assert pairs == front + [last];
      FreshMeans(front);
      KeysMean(front, KeyOf(last));
    }
  }

  lemma {:induction false} RefPairsMean(id: string, refs: seq<string>, p: Pair)
    ensures p in RefPairs(id, refs) <==> exists ref :: ref in refs && p == Sides(id, ref)
  {
    if refs != [] {
      var front, last := refs[..|refs| - 1], refs[|refs| - 1];
      RefPairsMean(id, front, p);
      assert refs == front + [last];
    }
  }

  predicate Names(fm: Frontmatter, p: Pair)
  {
    fm.id != "" && p in RefPairs(fm.id, fm.relatesTo)
  }

  lemma {:induction false} PairsMean(docs: seq<Frontmatter>, p: Pair)
    ensures p in Pairs(docs) <==> exists fm :: fm in docs && Names(fm, p)
  {
    if docs != [] {
      var front, last := docs[..|docs| - 1], docs[|docs| - 1];
      PairsMean(front, p);
      assert docs == front + [last];
      assert p in Pairs(docs) <==> p in Pairs(front) || Names(last, p);
      assert last in docs;
    }
  }

  function LinkOf(fm: Frontmatter): multiset<Edge>
  {
    if fm.id != "" && fm.supersededBy != "" then multiset{Edge(fm.id, fm.supersededBy, Supersedes)} else multiset{}
  }

  function Linker(): Frontmatter -> multiset<Edge> { (fm: Frontmatter) => LinkOf(fm) }

  lemma {:induction false} SupersedesGathered(docs: seq<Frontmatter>)
    ensures multiset(SupersedeEdges(docs)) == Gather(docs, Linker())
  {
    if docs != [] {
      SupersedesGathered(docs[..|docs| - 1]);
    }
  }

  lemma EdgesReordered(ps: seq<Pair>, qs: seq<Pair>)
    requires Distinct(ps) && Distinct(qs) && forall p :: p in ps <==> p in qs
    ensures multiset(EdgesOf(ps)) == multiset(EdgesOf(qs))
  {
    EdgesDistinct(ps);
    EdgesDistinct(qs);
    DistinctBags(EdgesOf(ps), EdgesOf(qs));
  }

  lemma EdgesDistinct(ps: seq<Pair>)
    requires Distinct(ps)
    ensures Distinct(EdgesOf(ps)) && forall e :: e in EdgesOf(ps) <==> e.kind.RelatesTo? && Pair(e.from, e.to) in ps
  {
    forall e: Edge | e.kind.RelatesTo? && Pair(e.from, e.to) in ps
      ensures e in EdgesOf(ps)
    {
      var i :| 0 <= i < |ps| && ps[i] == Pair(e.from, e.to);
      assert EdgesOf(ps)[i] == e;
    }
  }

  /** A related pair has exactly one edge, whichever side names it, and an unrelated pair has none. */
  lemma OneEdgePerPair(docs: seq<Frontmatter>, edges: seq<Edge>, p: Pair)
    requires IsEdgeList(edges, docs) && KeysApart(Pairs(docs))
    ensures multiset(edges)[EdgeOf(p)] == if exists fm :: fm in docs && Names(fm, p) then 1 else 0
  {
    PairsMean(docs, p);
    FreshMeans(Pairs(docs));
    EdgeCount(docs, edges, p);
  }

  /** Kept pairs never share a key, and are pairs that were named. */
  lemma {:induction false} FreshApart(pairs: seq<Pair>)
    ensures Distinct(Fresh(pairs)) && KeysApart(Fresh(pairs))
    ensures forall p :: p in Fresh(pairs) ==> p in pairs && KeyOf(p) in Keys(pairs)
  {
    if pairs != [] {
      var front, last := pairs[..|pairs| - 1], pairs[|pairs| - 1];
      assert pairs == front + [last];
      FreshApart(front);
    }
  }

  lemma EdgeCount(docs: seq<Frontmatter>, edges: seq<Edge>, p: Pair)
    requires IsEdgeList(edges, docs)
    ensures multiset(edges)[EdgeOf(p)] == if p in Fresh(Pairs(docs)) then 1 else 0
  {
    var once := Fresh(Pairs(docs));
    FreshApart(Pairs(docs));
    EdgesDistinct(once);
    OnceEach(EdgesOf(once), EdgeOf(p));
    OnlySupersedes(docs, EdgeOf(p));
  }

  /** Every related pair has exactly one edge, for any corpus, exactly when no two related pairs share a key. */
  lemma EveryPairHasEdgeExactlyWhen(docs: seq<Frontmatter>, edges: seq<Edge>)
    requires IsEdgeList(edges, docs)
    ensures (forall p :: p in Pairs(docs) ==> multiset(edges)[EdgeOf(p)] == 1) <==> KeysApart(Pairs(docs))
  {
    var pairs := Pairs(docs);
    forall p: Pair
      ensures multiset(edges)[EdgeOf(p)] == if p in Fresh(pairs) then 1 else 0
    {
      EdgeCount(docs, edges, p);
    }
    FreshApart(pairs);
    if KeysApart(pairs) {
      FreshMeans(pairs);
    }
  }

  lemma {:induction false} OnlySupersedes(docs: seq<Frontmatter>, e: Edge)
    requires e.kind.RelatesTo?
    ensures e !in multiset(SupersedeEdges(docs))
  {
    if docs != [] {
      OnlySupersedes(docs[..|docs| - 1], e);
    }
  }

  /** A pair reads the same from either side, with the smaller id first. */
  lemma SidesAgree(a: string, b: string)
    ensures Sides(a, b) == Sides(b, a) == (if Less(b, a) then Pair(b, a) else Pair(a, b))
    ensures !Less(Sides(a, b).hi, Sides(a, b).lo)
  {
    LessTotal(a, b);
  }

  lemma Unordered(docs: seq<Frontmatter>, p: Pair)
    requires Less(p.hi, p.lo)
    ensures p !in Pairs(docs)
  {
    PairsMean(docs, p);
    if fm :| fm in docs && Names(fm, p) {
      RefPairsMean(fm.id, fm.relatesTo, p);
      var ref :| ref in fm.relatesTo && p == Sides(fm.id, ref);
      LessTotal(fm.id, ref);
    }
  }

  /** Records that name each other, or of which one names the other, share a single edge, from the smaller id to the
      larger. */
  lemma MutualNamesShareOneEdge(docs: seq<Frontmatter>, edges: seq<Edge>, a: Frontmatter, ref: string)
    requires IsEdgeList(edges, docs) && KeysApart(Pairs(docs))
    requires a in docs && a.id != "" && ref in a.relatesTo
    ensures multiset(edges)[Edge(a.id, ref, RelatesTo)] == (if Less(ref, a.id) then 0 else 1)
    ensures a.id != ref ==> multiset(edges)[Edge(ref, a.id, RelatesTo)] == (if Less(ref, a.id) then 1 else 0)
  {
    var one, other := Pair(a.id, ref), Pair(ref, a.id);
    LessTotal(a.id, ref);
    RefPairsMean(a.id, a.relatesTo, one);
    RefPairsMean(a.id, a.relatesTo, other);
    assert Names(a, if Less(ref, a.id) then other else one);
    OneEdgePerPair(docs, edges, one);
    OneEdgePerPair(docs, edges, other);
    if a.id != ref {
      OnlyNamedWay(docs, if Less(ref, a.id) then one else other);
    }
    assert EdgeOf(one) == Edge(a.id, ref, RelatesTo) && EdgeOf(other) == Edge(ref, a.id, RelatesTo);
  }

  lemma OnlyNamedWay(docs: seq<Frontmatter>, p: Pair)
    requires Less(p.hi, p.lo)
    ensures !exists fm :: fm in docs && Names(fm, p)
  {
    Unordered(docs, p);
    PairsMean(docs, p);
  }

  /** How many records of an id name a successor. */
  function Successions(docs: seq<Frontmatter>, id: string, successor: string): nat
  {
    if docs == [] then 0
    else
      var last := docs[|docs| - 1];
      Successions(docs[..|docs| - 1], id, successor)
      + if last.id == id && last.supersededBy == successor then 1 else 0
  }

  /** A superseding edge stands for every record of that id that names the successor, and leads from it to the
      successor. */
  lemma SupersedingEdges(docs: seq<Frontmatter>, edges: seq<Edge>, id: string, successor: string)
    requires IsEdgeList(edges, docs) && id != "" && successor != ""
    ensures multiset(edges)[Edge(id, successor, Supersedes)] == Successions(docs, id, successor)
  {
    var e := Edge(id, successor, Supersedes);
    SupersededCount(docs, id, successor);
    assert e !in EdgesOf(Fresh(Pairs(docs)));
  }

  lemma {:induction false} SupersededCount(docs: seq<Frontmatter>, id: string, successor: string)
    requires id != "" && successor != ""
    ensures multiset(SupersedeEdges(docs))[Edge(id, successor, Supersedes)] == Successions(docs, id, successor)
  {
    if docs != [] {
      SupersededCount(docs[..|docs| - 1], id, successor);
    }
  }

  function KindName(kind: Kind): string { if kind.RelatesTo? then "relates-to" else "supersedes" }

  /** Edges from one id are ordered by the name of their kind. */
  lemma KindsByName(a: Edge, b: Edge)
    requires a.from == b.from && a.kind != b.kind
    ensures EdgeLess(a, b) <==> Less(KindName(a.kind), KindName(b.kind))
  {
    assert KindName(RelatesTo)[0] == 'r' && KindName(Supersedes)[0] == 's';
  }

  // ----- When the order of the files does not matter -----

  /** The first of the pairs with a key. */
  function FirstWith(pairs: seq<Pair>, key: string): Option<Pair>
  {
    if pairs == [] then None
    else
      var front, last := FirstWith(pairs[..|pairs| - 1], key), pairs[|pairs| - 1];
      if front.Some? then front else if KeyOf(last) == key then Some(last) else None
  }

  lemma {:induction false} FirstWithKey(pairs: seq<Pair>, key: string)
    ensures FirstWith(pairs, key).Some? <==> key in Keys(pairs)
    ensures FirstWith(pairs, key).Some? ==> KeyOf(FirstWith(pairs, key).value) == key
  {
    if pairs != [] {
      FirstWithKey(pairs[..|pairs| - 1], key);
    }
  }

  /** A pair is kept exactly when it is the first with its key. */
  lemma {:induction false} FreshIsFirst(pairs: seq<Pair>, p: Pair)
    ensures p in Fresh(pairs) <==> FirstWith(pairs, KeyOf(p)) == Some(p)
  {
    if pairs != [] {
      var front := pairs[..|pairs| - 1];
      FreshIsFirst(front, p);
      FirstWithKey(front, KeyOf(p));
    }
  }

  lemma {:induction false} FirstAppend(a: seq<Pair>, b: seq<Pair>, key: string)
    ensures FirstWith(a + b, key) == if FirstWith(a, key).Some? then FirstWith(a, key) else FirstWith(b, key)
  {
    if b == [] {
      assert a + b == a;
    } else {
      FirstAppend(a, b[..|b| - 1], key);
      assert (a + b)[..|a + b| - 1] == a + b[..|b| - 1];
    }
  }

  /** The first pair with a key that one record names. */
  function FileFirst(fm: Frontmatter, key: string): Option<Pair>
  {
    if fm.id == "" then None else FirstWith(RefPairs(fm.id, fm.relatesTo), key)
  }

  /** Whenever two records name pairs with one key, they name the same pair first. */
  ghost predicate FirstsAgree(docs: seq<Frontmatter>)
  {
    forall a, b, key :: a in docs && b in docs && FileFirst(a, key).Some? && FileFirst(b, key).Some? ==>
      FileFirst(a, key) == FileFirst(b, key)
  }

  lemma FirstOfLast(docs: seq<Frontmatter>, key: string)
    requires docs != []
    ensures var front := FirstWith(Pairs(docs[..|docs| - 1]), key);
            FirstWith(Pairs(docs), key) == if front.Some? then front else FileFirst(docs[|docs| - 1], key)
  {
    var last := docs[|docs| - 1];
    FirstAppend(Pairs(docs[..|docs| - 1]), RefPairs(last.id, last.relatesTo), key);
  }

  /** The first pair of a corpus is the one its records agree on. */
  lemma {:induction false} FirstAgreed(docs: seq<Frontmatter>, key: string, p: Pair)
    requires FirstsAgree(docs)
    ensures FirstWith(Pairs(docs), key) == Some(p) <==> exists fm :: fm in docs && FileFirst(fm, key) == Some(p)
    ensures FirstWith(Pairs(docs), key).None? ==> forall fm :: fm in docs ==> FileFirst(fm, key).None?
  {
    if docs != [] {
      var front, last := docs[..|docs| - 1], docs[|docs| - 1];
      assert docs == front + [last];
      FirstAgreed(front, key, p);
      if FirstWith(Pairs(front), key).Some? {
        FirstAgreed(front, key, FirstWith(Pairs(front), key).value);
      }
      FirstOfLast(docs, key);
      assert last in docs;
    }
  }

  lemma SameMembers<T>(xs: seq<T>, ys: seq<T>)
    requires multiset(xs) == multiset(ys)
    ensures forall x :: x in xs <==> x in ys
  {
    assert forall x :: x in xs <==> x in multiset(xs);
    assert forall x :: x in ys <==> x in multiset(ys);
  }

  lemma AgreeingOrderDoesNotMatter(xs: seq<Frontmatter>, ys: seq<Frontmatter>, a: seq<Edge>, b: seq<Edge>)
    requires multiset(xs) == multiset(ys) && FirstsAgree(xs)
    requires IsEdgeList(a, xs) && IsEdgeList(b, ys)
    ensures a == b
  {
    SameMembers(xs, ys);
    forall p: Pair
      ensures p in Fresh(Pairs(xs)) <==> p in Fresh(Pairs(ys))
    {
      FreshIsFirst(Pairs(xs), p);
      FreshIsFirst(Pairs(ys), p);
      FirstAgreed(xs, KeyOf(p), p);
      FirstAgreed(ys, KeyOf(p), p);
    }
    FreshApart(Pairs(xs));
    FreshApart(Pairs(ys));
    EdgesReordered(Fresh(Pairs(xs)), Fresh(Pairs(ys)));
    GatherReordered(xs, ys, Linker());
    SupersedesGathered(xs);
    SupersedesGathered(ys);
    EdgesOrdered();
    InOrderUnique(a, b, ByEdge());
  }

  /** The corpus with one record moved to the front, its edges, and the pair that this record decides. */
  lemma MovedFirst(docs: seq<Frontmatter>, i: nat, key: string) returns (xs: seq<Frontmatter>, edges: seq<Edge>)
    requires i < |docs| && FileFirst(docs[i], key).Some?
    ensures multiset(xs) == multiset(docs) && IsEdgeList(edges, xs)
    ensures FirstWith(Pairs(xs), key) == FileFirst(docs[i], key)
  {
    xs := [docs[i]] + Without(docs, i);
    Removed(docs, i);
    assert docs[i] in multiset(docs);
    FirstStays(docs[i], Without(docs, i), key);
    EdgesOrdered();
    edges := SortedExists(SupersedeEdges(xs) + EdgesOf(Fresh(Pairs(xs))), ByEdge());
  }

  lemma {:induction false} FirstStays(fm: Frontmatter, rest: seq<Frontmatter>, key: string)
    requires FileFirst(fm, key).Some?
    ensures FirstWith(Pairs([fm] + rest), key) == FileFirst(fm, key)
  {
    var docs := [fm] + rest;
    FirstOfLast(docs, key);
    if rest == [] {
      assert docs[..0] == [] && docs[|docs| - 1] == fm;
    } else {
      FirstStays(fm, rest[..|rest| - 1], key);
      assert docs[..|docs| - 1] == [fm] + rest[..|rest| - 1];
    }
  }

  /** The edge lists of all orders of a corpus are the same. */
  ghost predicate OrderFree(docs: seq<Frontmatter>)
  {
    forall xs, ys, x, y ::
      (multiset(xs) == multiset(docs) && multiset(ys) == multiset(docs) && IsEdgeList(x, xs) && IsEdgeList(y, ys))
      ==> x == y
  }

  /** The order in which the files are read does not matter, for any corpus, exactly when the records agree on the
      first pair for every key. */
  lemma OrderDoesNotMatterExactlyWhen(docs: seq<Frontmatter>)
    ensures OrderFree(docs) <==> FirstsAgree(docs)
  {
    if FirstsAgree(docs) {
      forall xs, ys, x, y | multiset(xs) == multiset(docs) && multiset(ys) == multiset(docs)
                            && IsEdgeList(x, xs) && IsEdgeList(y, ys)
        ensures x == y
      {
        SameMembers(xs, docs);
        AgreeingOrderDoesNotMatter(xs, ys, x, y);
      }
    } else {
      var a, b, key :| a in docs && b in docs && FileFirst(a, key).Some? && FileFirst(b, key).Some?
                       && FileFirst(a, key) != FileFirst(b, key);
      DisagreeingOrderMatters(docs, a, b, key);
    }
  }

  lemma DisagreeingOrderMatters(docs: seq<Frontmatter>, a: Frontmatter, b: Frontmatter, key: string)
    requires a in docs && b in docs && FileFirst(a, key).Some? && FileFirst(b, key).Some?
    requires FileFirst(a, key) != FileFirst(b, key)
    ensures !OrderFree(docs)
  {
    var i :| 0 <= i < |docs| && docs[i] == a;
    var j :| 0 <= j < |docs| && docs[j] == b;
    var xs, x := MovedFirst(docs, i, key);
    var ys, y := MovedFirst(docs, j, key);
    var p := FileFirst(a, key).value;
    FirstWithKey(Pairs(xs), key);
    FreshIsFirst(Pairs(xs), p);
    FreshIsFirst(Pairs(ys), p);
    EdgeCount(xs, x, p);
    EdgeCount(ys, y, p);
    assert multiset(x)[EdgeOf(p)] != multiset(y)[EdgeOf(p)];
  }

  lemma {:induction false} FirstNamed(pairs: seq<Pair>, key: string)
    ensures FirstWith(pairs, key).Some? ==> FirstWith(pairs, key).value in pairs
  {
    if pairs != [] {
      FirstNamed(pairs[..|pairs| - 1], key);
    }
  }

  /** In particular it does not matter if no two related pairs share a key. */
  lemma OrderDoesNotMatter(xs: seq<Frontmatter>, ys: seq<Frontmatter>, a: seq<Edge>, b: seq<Edge>)
    requires multiset(xs) == multiset(ys) && KeysApart(Pairs(xs))
    requires IsEdgeList(a, xs) && IsEdgeList(b, ys)
    ensures a == b
  {
    forall v, w, key | v in xs && w in xs && FileFirst(v, key).Some? && FileFirst(w, key).Some?
      ensures FileFirst(v, key) == FileFirst(w, key)
    {
      FirstNamedIn(xs, v, key);
      FirstNamedIn(xs, w, key);
    }
    AgreeingOrderDoesNotMatter(xs, ys, a, b);
  }

  lemma FirstNamedIn(docs: seq<Frontmatter>, fm: Frontmatter, key: string)
    requires fm in docs && FileFirst(fm, key).Some?
    ensures FileFirst(fm, key).value in Pairs(docs) && KeyOf(FileFirst(fm, key).value) == key
  {
    var pairs := RefPairs(fm.id, fm.relatesTo);
    FirstNamed(pairs, key);
    FirstWithKey(pairs, key);
    PairsMean(docs, FirstWith(pairs, key).value);
    assert Names(fm, FirstWith(pairs, key).value);
  }

  /** Ids without a vertical bar keep the keys apart. */
  lemma BarFreeApart(docs: seq<Frontmatter>)
    requires forall fm :: fm in docs ==> '|' !in fm.id && forall ref :: ref in fm.relatesTo ==> '|' !in ref
    ensures KeysApart(Pairs(docs))
  {
    forall p, q | p in Pairs(docs) && q in Pairs(docs) && KeyOf(p) == KeyOf(q)
      ensures p == q
    {
      BarFreePair(docs, p);
      BarFreePair(docs, q);
      SeparatorFreeApart(p.lo, p.hi, '|', q.lo, q.hi);
    }
  }

  lemma BarFreePair(docs: seq<Frontmatter>, p: Pair)
    requires forall fm :: fm in docs ==> '|' !in fm.id && forall ref :: ref in fm.relatesTo ==> '|' !in ref
    requires p in Pairs(docs)
    ensures '|' !in p.lo
  {
    PairsMean(docs, p);
    var fm :| fm in docs && Names(fm, p);
    RefPairsMean(fm.id, fm.relatesTo, p);
  }

  lemma FreshOfTwo(p: Pair, q: Pair)
    requires KeyOf(p) == KeyOf(q)
    ensures Fresh([p] + [q]) == [p]
  {
    assert [p][..0] == [] && ([p] + [q])[..1] == [p];
    assert Keys([p]) == {KeyOf(p)} && Fresh([p]) == [] + [p];
  }

  lemma TwoClashing(a: Frontmatter, b: Frontmatter, p: Pair, q: Pair)
    requires a.id != "" && b.id != "" && a.supersededBy == "" && b.supersededBy == ""
    requires RefPairs(a.id, a.relatesTo) == [p] && RefPairs(b.id, b.relatesTo) == [q] && KeyOf(p) == KeyOf(q)
    ensures SupersedeEdges([a, b]) == [] && Fresh(Pairs([a, b])) == [p]
  {
    assert [a, b][..1] == [a] && [a][..0] == [];
    assert Pairs([a]) == [] + [p] && SupersedeEdges([a]) == [];
    assert Pairs([a, b]) == [p] + [q];
    FreshOfTwo(p, q);
  }

  lemma OnlyEdge(edges: seq<Edge>, docs: seq<Frontmatter>, p: Pair)
    requires IsEdgeList(edges, docs) && SupersedeEdges(docs) == [] && Fresh(Pairs(docs)) == [p]
    ensures multiset(edges) == multiset{EdgeOf(p)}
  {
    assert EdgesOf([p]) == [EdgeOf(p)];
  }

  /** If two pairs share a key, the order of the files decides which of them gets an edge. */
  lemma ClashingInterfere(a: Frontmatter, b: Frontmatter, p: Pair, q: Pair)
    requires a.id != "" && b.id != "" && a.supersededBy == "" && b.supersededBy == ""
    requires RefPairs(a.id, a.relatesTo) == [p] && RefPairs(b.id, b.relatesTo) == [q] && KeyOf(p) == KeyOf(q) && p != q
    ensures forall x, y :: IsEdgeList(x, [a, b]) && IsEdgeList(y, [b, a]) ==> x != y
  {
    TwoClashing(a, b, p, q);
    TwoClashing(b, a, q, p);
    forall x, y | IsEdgeList(x, [a, b]) && IsEdgeList(y, [b, a])
      ensures x != y
    {
      OnlyEdge(x, [a, b], p);
      OnlyEdge(y, [b, a], q);
      assert EdgeOf(p) in multiset(x) && EdgeOf(p) !in multiset(y);
    }
  }

  /** So with a vertical bar in an id the edge list can depend on the order of the files. */
  lemma BarsInterfere(a: Frontmatter, b: Frontmatter)
    requires a.id == "a|b" && a.relatesTo == ["c"] && a.supersededBy == ""
    requires b.id == "a" && b.relatesTo == ["b|c"] && b.supersededBy == ""
    ensures forall x, y :: IsEdgeList(x, [a, b]) && IsEdgeList(y, [b, a]) ==> x != y
  {
    var p, q := Pair("a|b", "c"), Pair("a", "b|c");
    assert |p.lo| != |q.lo| && KeyOf(p) == KeyOf(q) == "a|b|c";
    OneRef(p.lo, p.hi);
    OneRef(q.lo, q.hi);
    ClashingInterfere(a, b, p, q);
  }

  lemma OneRef(id: string, ref: string)
    requires Less(id, ref)
    ensures RefPairs(id, [ref]) == [Pair(id, ref)]
  {
    assert [ref][..0] == [];
    LessTotal(id, ref);
  }
}
