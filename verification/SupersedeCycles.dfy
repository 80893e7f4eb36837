/** The superseded-by relation of a corpus of decision records, what a cycle of it is, and what a complete report of its
    cycles says. */
module SupersedeCycles {
  /** A record id, wrapped so that ids are compared whole. */
  datatype Id = Id(text: string)

  const NO_ID := Id("")

  datatype Adr = Adr(id: Id, supersededBy: Id, path: string)

  type Corpus = map<Id, Adr>

  // ----- The supersede relation, and what a cycle is -----

  predicate HasNext(g: Corpus, id: Id)
  {
    id in g && g[id].supersededBy != NO_ID && g[id].supersededBy in g
  }

  function Next(g: Corpus, id: Id): Id
    requires HasNext(g, id)
  {
    g[id].supersededBy
  }

  /** From a, exactly n superseded-by links inside the corpus lead to b. */
  ghost predicate Leads(g: Corpus, a: Id, n: nat, b: Id)
    decreases n
  {
    if n == 0 then a == b else HasNext(g, a) && Leads(g, Next(g, a), n - 1, b)
  }

  ghost predicate OnCycle(g: Corpus, id: Id)
  {
    exists n: nat :: n > 0 && Leads(g, id, n, id)
  }

  /** A cycle written against its links, the way the stack is popped: each entry's successor is the one before it,
      and the first entry's successor is the last. */
  ghost predicate IsCycle(g: Corpus, scc: seq<Id>)
  {
    && scc != []
    && (forall i, j :: 0 <= i < j < |scc| ==> scc[i] != scc[j])
    && (forall i :: 0 <= i < |scc| ==> HasNext(g, scc[i]))
    && (forall i, j :: 0 <= i < |scc| && j == i - 1 >= 0 ==> Next(g, scc[i]) == scc[j])
    && Next(g, scc[0]) == scc[|scc| - 1]
  }

  /** cycles lists every cycle of the corpus, each once. */
  ghost predicate Reports(g: Corpus, cycles: seq<seq<Id>>)
  {
    && (forall i :: 0 <= i < |cycles| ==> IsCycle(g, cycles[i]))
    && (forall i, j :: 0 <= i < j < |cycles| ==> Members(cycles[i]) !! Members(cycles[j]))
    && (forall x :: x in g && OnCycle(g, x) ==> exists i :: 0 <= i < |cycles| && x in cycles[i])
  }

  // ----- Walks -----

  lemma {:induction false} LeadsThrough(g: Corpus, a: Id, m: nat, b: Id, n: nat, c: Id)
    requires Leads(g, a, m, b) && Leads(g, b, n, c)
    ensures Leads(g, a, m + n, c)
    decreases m
  {
    if m > 0 {
      LeadsThrough(g, Next(g, a), m - 1, b, n, c);
    }
  }

  ghost predicate Closed(g: Corpus, s: set<Id>)
  {
    forall x {:trigger HasNext(g, x)} :: x in s && HasNext(g, x) ==> Next(g, x) in s
  }

  lemma {:induction false} ClosedKeepsWalks(g: Corpus, s: set<Id>, a: Id, n: nat, b: Id)
    requires Closed(g, s) && a in s && Leads(g, a, n, b)
    ensures b in s
    decreases n
  {
    if n > 0 {
      ClosedKeepsWalks(g, s, Next(g, a), n - 1, b);
    }
  }

  /** Inside a cycle, walking from the entry at position i comes to the one at position j <= i. */
  lemma {:induction false} CycleWalkDown(g: Corpus, scc: seq<Id>, i: nat, j: nat)
    requires IsCycle(g, scc) && j <= i < |scc|
    ensures Leads(g, scc[i], i - j, scc[j])
    decreases i - j
  {
    if j < i {
      CycleWalkDown(g, scc, i - 1, j);
    }
  }

  /** Any entry of a cycle leads to any other, in at least one link. */
  lemma CycleWalk(g: Corpus, scc: seq<Id>, i: nat, j: nat) returns (n: nat)
    requires IsCycle(g, scc) && i < |scc| && j < |scc|
    ensures n > 0 && Leads(g, scc[i], n, scc[j])
  {
    CycleWalkDown(g, scc, i, 0);
    CycleWalkDown(g, scc, |scc| - 1, j);
    n := i + 1 + (|scc| - 1 - j);
    assert Leads(g, scc[0], 1 + (|scc| - 1 - j), scc[j]);
    LeadsThrough(g, scc[i], i, scc[0], 1 + (|scc| - 1 - j), scc[j]);
  }

  lemma CycleMembersAreOnCycle(g: Corpus, scc: seq<Id>)
    requires IsCycle(g, scc)
    ensures forall x :: x in scc ==> x in g && OnCycle(g, x)
  {
    forall x | x in scc
      ensures x in g && OnCycle(g, x)
    {
      var i :| 0 <= i < |scc| && scc[i] == x;
      var n := CycleWalk(g, scc, i, i);
    }
  }

  function Members(scc: seq<Id>): set<Id> { set x | x in scc }

  lemma CycleIsClosed(g: Corpus, scc: seq<Id>)
    requires IsCycle(g, scc)
    ensures Closed(g, Members(scc))
  {
    forall z | z in scc && HasNext(g, z)
      ensures Next(g, z) in scc
    {
      var k :| 0 <= k < |scc| && scc[k] == z;
      assert k > 0 ==> Next(g, z) == scc[k - 1];
    }
  }

  /** Two listings of cycles that share a member have the same members. */
  lemma SharedMemberSameCycle(g: Corpus, p: seq<Id>, q: seq<Id>, x: Id)
    requires IsCycle(g, p) && IsCycle(g, q) && x in p && x in q
    ensures Members(p) <= Members(q)
  {
    forall y | y in p
      ensures y in q
    {
      var i :| 0 <= i < |p| && p[i] == x;
      var j :| 0 <= j < |p| && p[j] == y;
      var n := CycleWalk(g, p, i, j);
      CycleIsClosed(g, q);
      ClosedKeepsWalks(g, Members(q), x, n, y);
    }
  }

  // ----- Reports -----

  function NodeSets(cycles: seq<seq<Id>>): set<set<Id>>
  {
    if cycles == [] then {} else NodeSets(cycles[..|cycles| - 1]) + {Members(cycles[|cycles| - 1])}
  }

  lemma {:induction false} InNodeSets(p: seq<seq<Id>>, m: set<Id>)
    ensures m in NodeSets(p) <==> exists i :: 0 <= i < |p| && Members(p[i]) == m
  {
    if p != [] {
      var front := p[..|p| - 1];
      InNodeSets(front, m);
      if i :| 0 <= i < |p| && Members(p[i]) == m {
        assert i < |front| ==> front[i] == p[i];
      }
      if i :| 0 <= i < |front| && Members(front[i]) == m {
        assert front[i] == p[i];
      }
    }
  }

  /** What is reported depends on the corpus alone: the same node sets, and as many of them. */
  lemma ReportsAgree(g: Corpus, p: seq<seq<Id>>, q: seq<seq<Id>>)
    requires Reports(g, p) && Reports(g, q)
    ensures NodeSets(p) == NodeSets(q) && |p| == |q|
  {
    assert NodeSets(p) == NodeSets(q) by {
      ReportsWithin(g, p, q);
      ReportsWithin(g, q, p);
    }
    assert |NodeSets(p)| == |p| by {
      NodeSetCount(g, p);
    }
    assert |NodeSets(q)| == |q| by {
      NodeSetCount(g, q);
    }
  }

  lemma ReportsWithin(g: Corpus, p: seq<seq<Id>>, q: seq<seq<Id>>)
    requires Reports(g, p) && Reports(g, q)
    ensures NodeSets(p) <= NodeSets(q)
  {
    forall m | m in NodeSets(p)
      ensures m in NodeSets(q)
    {
      InNodeSets(p, m);
      var i :| 0 <= i < |p| && Members(p[i]) == m;
      var x := p[i][0];
      CycleMembersAreOnCycle(g, p[i]);
      assert x in p[i];
      var j :| 0 <= j < |q| && x in q[j];
      SharedMemberSameCycle(g, p[i], q[j], x);
      SharedMemberSameCycle(g, q[j], p[i], x);
      InNodeSets(q, m);
    }
  }

  lemma {:induction false} NodeSetCount(g: Corpus, p: seq<seq<Id>>)
    requires forall i :: 0 <= i < |p| ==> IsCycle(g, p[i])
    requires forall i, j :: 0 <= i < j < |p| ==> Members(p[i]) !! Members(p[j])
    ensures |NodeSets(p)| == |p|
  {
    if p != [] {
      var front, last := p[..|p| - 1], p[|p| - 1];
      NodeSetCount(g, front);
      InNodeSets(front, Members(last));
      forall i | 0 <= i < |front|
        ensures Members(front[i]) != Members(last)
      {
        assert Members(p[i]) !! Members(p[|p| - 1]);
        assert last[0] in Members(last);
      }
    }
  }
}
