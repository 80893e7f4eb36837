/** Whole-corpus checks over the decision records: unique ids, and no cycle among the superseded-by links. The
    cycle search is Tarjan's algorithm; the variables its closure mutates are one value, handed from call to call. */
module AdrValidator {
  import opened Bags
  import opened SupersedeCycles

  // ----- What is known of the records already taken off the stack -----

  ghost predicate Settled(g: Corpus, done: set<Id>, cycles: seq<seq<Id>>)
  {
    && done <= g.Keys
    && Closed(g, done)
    && (forall i {:trigger cycles[i]} :: 0 <= i < |cycles| ==> IsCycle(g, cycles[i]) && Members(cycles[i]) <= done)
    && (forall i, j {:trigger cycles[i], cycles[j]} :: 0 <= i < j < |cycles| ==>
          Members(cycles[i]) !! Members(cycles[j]))
    && (forall x {:trigger OnCycle(g, x)} :: x in done && OnCycle(g, x) ==>
          exists i :: 0 <= i < |cycles| && x in cycles[i])
  }

  /** A record whose successor, if any, is settled lies on no cycle and settles alone. */
  lemma SettleAlone(g: Corpus, done: set<Id>, cycles: seq<seq<Id>>, id: Id)
    requires Settled(g, done, cycles) && id in g && id !in done
    requires HasNext(g, id) ==> Next(g, id) in done
    ensures !OnCycle(g, id)
    ensures Settled(g, done + {id}, cycles)
  {
    if OnCycle(g, id) {
      var n: nat :| n > 0 && Leads(g, id, n, id);
      ClosedKeepsWalks(g, done, Next(g, id), n - 1, id);
      assert false;
    }
  }

  /** A cycle none of whose members is settled settles as one new group. */
  lemma SettleCycle(g: Corpus, done: set<Id>, cycles: seq<seq<Id>>, scc: seq<Id>)
    requires Settled(g, done, cycles) && IsCycle(g, scc)
    requires forall x :: x in scc ==> x !in done
    ensures Settled(g, done + Members(scc), cycles + [scc])
  {
    var cycles' := cycles + [scc];
    CycleIsClosed(g, scc);
    forall x | x in done + Members(scc) && OnCycle(g, x)
      ensures exists i :: 0 <= i < |cycles'| && x in cycles'[i]
    {
      if x in done {
        var i :| 0 <= i < |cycles| && x in cycles[i];
        assert x in cycles'[i];
      } else {
        assert x in cycles'[|cycles|];
      }
    }
    forall i, j | 0 <= i < j < |cycles'|
      ensures Members(cycles'[i]) !! Members(cycles'[j])
    {
      assert Members(cycles[i]) <= done;
    }
  }

  predicate Before(i: nat, j: nat) { i < j }

  /** The stack is a chain of links whose entries were numbered in that order; place says where each entry is. */
  ghost predicate Chain(g: Corpus, stack: seq<Id>, place: map<Id, nat>, indices: map<Id, nat>)
  {
    && (forall i :: 0 <= i < |stack| ==> stack[i] in place && place[stack[i]] == i)
    && (forall x :: x in place ==> place[x] < |stack| && stack[place[x]] == x && x in indices && x in g)
    && (forall i: nat, j: nat {:trigger Before(i, j)} :: Before(i, j) && j < |stack| ==>
          indices[stack[i]] < indices[stack[j]])
    && (forall x {:trigger HasNext(g, x)} :: x in place && place[x] + 1 < |stack| ==> HasNext(g, x))
    && (forall x {:trigger Next(g, x)} :: x in place && place[x] + 1 < |stack| ==>
          HasNext(g, x) && Next(g, x) == stack[place[x] + 1])
  }

  lemma ChainExtends(g: Corpus, stack: seq<Id>, place: map<Id, nat>, indices: map<Id, nat>, id: Id, index: nat)
    requires Chain(g, stack, place, indices) && id !in indices && id in g
    requires forall x :: x in indices ==> indices[x] < index
    requires stack != [] ==> HasNext(g, stack[|stack| - 1]) && Next(g, stack[|stack| - 1]) == id
    ensures Chain(g, stack + [id], place[id := |stack|], indices[id := index])
  {
  }

  /** The positions left when the stack is cut down to its first k entries. */
  ghost function Below(place: map<Id, nat>, k: nat): map<Id, nat>
  {
    map x | x in place && place[x] < k :: place[x]
  }

  function Reversed(s: seq<Id>): seq<Id>
  {
    seq(|s|, i requires 0 <= i < |s| => s[|s| - 1 - i])
  }

  /** When the last record of the stack links back to position k, popping down to k yields a cycle. */
  lemma PoppedCycle(g: Corpus, stack: seq<Id>, place: map<Id, nat>, indices: map<Id, nat>, k: nat)
    requires Chain(g, stack, place, indices) && k < |stack|
    requires HasNext(g, stack[|stack| - 1]) && Next(g, stack[|stack| - 1]) == stack[k]
    ensures IsCycle(g, Reversed(stack[k..]))
  {
    var scc := Reversed(stack[k..]);
    forall i | 0 <= i < |scc|
      ensures scc[i] == stack[|stack| - 1 - i] && place[scc[i]] == |stack| - 1 - i && HasNext(g, scc[i])
      ensures i > 0 ==> Next(g, scc[i]) == scc[i - 1]
    {
      assert i > 0 ==> scc[i - 1] == stack[|stack| - 1 - i + 1];
    }
  }

  lemma ChainBelow(g: Corpus, stack: seq<Id>, place: map<Id, nat>, indices: map<Id, nat>, k: nat)
    requires Chain(g, stack, place, indices) && k <= |stack|
    ensures Chain(g, stack[..k], Below(place, k), indices)
  {
  }

  lemma PoppedMembers(stack: seq<Id>, place: map<Id, nat>, k: nat)
    requires k <= |stack|
    requires forall i :: 0 <= i < |stack| ==> stack[i] in place && place[stack[i]] == i
    requires forall x :: x in place ==> place[x] < |stack| && stack[place[x]] == x
    ensures forall x :: x in Members(Reversed(stack[k..])) <==> x in place && place[x] >= k
  {
    var scc := Reversed(stack[k..]);
    assert forall i :: 0 <= i < |scc| ==> scc[i] == stack[|stack| - 1 - i];
    forall x | x in place && place[x] >= k
      ensures x in scc
    {
      assert scc[|stack| - 1 - place[x]] == x;
    }
  }

  lemma SplitStack(g: Corpus, stack: seq<Id>, place: map<Id, nat>, indices: map<Id, nat>, k: nat)
    requires Chain(g, stack, place, indices) && k <= |stack|
    ensures Chain(g, stack[..k], Below(place, k), indices)
    ensures forall x :: x in Members(Reversed(stack[k..])) <==> x in place && place[x] >= k
  {
    ChainBelow(g, stack, place, indices, k);
    PoppedMembers(stack, place, k);
  }

  /** The records of a group move from the stack to the settled ones. */
  lemma MovedOver(indices: map<Id, nat>, place: map<Id, nat>, done: set<Id>, group: set<Id>, k: nat)
    requires forall x :: x in indices <==> x in done || x in place
    requires forall x :: x in place ==> x !in done
    requires forall x :: x in group <==> x in place && place[x] >= k
    ensures forall x :: x in indices <==> x in done + group || x in Below(place, k)
    ensures forall x :: x in Below(place, k) ==> x !in done + group
  {
  }

  /** What lies on the stack from position k up settles as one group, provided it is alone or closes a loop; it is
      a cycle exactly when the search says so. */
  lemma GroupSettles(g: Corpus, stack: seq<Id>, place: map<Id, nat>, indices: map<Id, nat>, k: nat, done: set<Id>,
                     cycles: seq<seq<Id>>)
    requires Chain(g, stack, place, indices) && k < |stack| && (forall x :: x in place ==> x !in done) && NO_ID !in g
    requires Settled(g, done, cycles)
    requires
      || (|stack| == k + 1 && (HasNext(g, stack[k]) ==> Next(g, stack[k]) in done))
      || (HasNext(g, stack[|stack| - 1]) && Next(g, stack[|stack| - 1]) == stack[k])
    ensures var scc := Reversed(stack[k..]);
            Settled(g, done + Members(scc), if IsKept(g, scc) then cycles + [scc] else cycles)
  {
    var scc := Reversed(stack[k..]);
    SplitStack(g, stack, place, indices, k);
    if HasNext(g, stack[|stack| - 1]) && Next(g, stack[|stack| - 1]) == stack[k] {
      PoppedCycle(g, stack, place, indices, k);
      SettleCycle(g, done, cycles, scc);
    } else {
      assert scc == [stack[k]];
      SettleAlone(g, done, cycles, stack[k]);
      assert Members(scc) == {stack[k]};
    }
  }

  /** The groups the search keeps: those of several records, or of one that is its own successor. */
  predicate IsKept(g: Corpus, scc: seq<Id>)
  {
    |scc| > 1 || (|scc| == 1 && scc[0] in g && g[scc[0]].supersededBy == scc[0])
  }

  /** A lookup in the flag map, where an absent id counts as false. */
  predicate Flagged(flags: map<Id, bool>, id: Id)
  {
    id in flags && flags[id]
  }

  /** The variables that the recursive visit shares and updates. */
  datatype Scan = Scan(index: nat, stack: seq<Id>, onStack: map<Id, bool>, indices: map<Id, nat>,
                       lowlink: map<Id, nat>, cycles: seq<seq<Id>>)

  /** Numbers are given to records of the corpus, below the next number to give. */
  ghost predicate Numbered(g: Corpus, index: nat, indices: map<Id, nat>, lowlink: map<Id, nat>)
  {
    && NO_ID !in g
    && indices.Keys <= g.Keys
    && |indices| <= |g|
    && lowlink.Keys == indices.Keys
    && (forall x :: x in indices ==> indices[x] < index)
  }

  /** Every visited record is on the stack, and flagged, or settled. */
  ghost predicate Placed(onStack: map<Id, bool>, indices: map<Id, nat>, place: map<Id, nat>, done: set<Id>)
  {
    && (forall x :: Flagged(onStack, x) <==> x in place)
    && (forall x :: x in indices <==> x in done || x in place)
    && (forall x :: x in place ==> x !in done)
  }

  /** The search's state between two links. */
  ghost predicate Consistent(g: Corpus, s: Scan, place: map<Id, nat>, done: set<Id>)
  {
    && Numbered(g, s.index, s.indices, s.lowlink)
    && Placed(s.onStack, s.indices, place, done)
    && Chain(g, s.stack, place, s.indices)
    && Settled(g, done, s.cycles)
  }

  lemma SmallerMap(indices: map<Id, nat>, g: Corpus, id: Id)
    requires indices.Keys <= g.Keys && id in g && id !in indices
    ensures |indices| < |g|
    ensures |indices[id := 0]| == |indices| + 1
  {
    assert indices.Keys <= g.Keys - {id};
    SubsetSize(indices.Keys, g.Keys - {id});
    assert indices[id := 0].Keys == indices.Keys + {id};
  }

  lemma {:induction false} SubsetSize(a: set<Id>, b: set<Id>)
    requires a <= b
    ensures |a| <= |b|
    decreases a
  {
    if x :| x in a {
      SubsetSize(a - {x}, b - {x});
    }
  }

  function Entered(s: Scan, id: Id): Scan
  {
    s.(indices := s.indices[id := s.index], lowlink := s.lowlink[id := s.index], index := s.index + 1,
       stack := s.stack + [id], onStack := s.onStack[id := true])
  }

  lemma EnterNumbered(g: Corpus, index: nat, indices: map<Id, nat>, lowlink: map<Id, nat>, id: Id)
    requires Numbered(g, index, indices, lowlink) && id in g && id !in indices
    ensures Numbered(g, index + 1, indices[id := index], lowlink[id := index])
    ensures |indices[id := index]| == |indices| + 1
  {
    SmallerMap(indices, g, id);
    assert indices[id := index].Keys == indices[id := 0].Keys == indices.Keys + {id};
    assert |indices[id := index].Keys| == |indices.Keys| + 1;
  }

  lemma EnterPlaced(onStack: map<Id, bool>, indices: map<Id, nat>, place: map<Id, nat>, done: set<Id>, id: Id,
                    index: nat, position: nat)
    requires Placed(onStack, indices, place, done) && id !in indices
    ensures Placed(onStack[id := true], indices[id := index], place[id := position], done)
  {
  }

  lemma EnterKeeps(g: Corpus, s: Scan, place: map<Id, nat>, done: set<Id>, id: Id, s': Scan, place': map<Id, nat>)
    requires Consistent(g, s, place, done) && id in g && id !in s.indices
    requires s.stack != [] ==> HasNext(g, s.stack[|s.stack| - 1]) && Next(g, s.stack[|s.stack| - 1]) == id
    requires s' == Entered(s, id) && place' == place[id := |s.stack|]
    ensures Consistent(g, s', place', done) && |s'.indices| == |s.indices| + 1
  {
    ChainExtends(g, s.stack, place, s.indices, id, s.index);
    EnterNumbered(g, s.index, s.indices, s.lowlink, id);
    EnterPlaced(s.onStack, s.indices, place, done, id, s.index, |s.stack|);
  }

  /** What lies from position base up may come off the stack: one record leading nowhere new, or a closed loop. */
  ghost predicate Poppable(g: Corpus, stack: seq<Id>, base: nat, done: set<Id>)
  {
    base < |stack| &&
    ((|stack| == base + 1 && (HasNext(g, stack[base]) ==> Next(g, stack[base]) in done)) || LinksBack(g, stack, base))
  }

  /** The top of the stack links back to position back. */
  ghost predicate LinksBack(g: Corpus, stack: seq<Id>, back: nat)
  {
    back < |stack| && HasNext(g, stack[|stack| - 1]) && Next(g, stack[|stack| - 1]) == stack[back]
  }

  lemma StackPartPopped(g: Corpus, s: Scan, place: map<Id, nat>, done: set<Id>, base: nat)
    requires Chain(g, s.stack, place, s.indices) && base < |s.stack|
    requires forall x :: x in s.indices <==> x in done || x in place
    requires forall x :: x in place ==> x !in done
    ensures var done' := done + Members(Reversed(s.stack[base..]));
            && Chain(g, s.stack[..base], Below(place, base), s.indices)
            && (forall x :: x in s.indices <==> x in done' || x in Below(place, base))
            && (forall x :: x in Below(place, base) ==> x !in done')
  {
    SplitStack(g, s.stack, place, s.indices, base);
    MovedOver(s.indices, place, done, Members(Reversed(s.stack[base..])), base);
  }

  lemma PopPlaced(g: Corpus, s: Scan, place: map<Id, nat>, done: set<Id>, base: nat, onStack: map<Id, bool>)
    requires Chain(g, s.stack, place, s.indices) && Placed(s.onStack, s.indices, place, done) && base < |s.stack|
    requires forall x :: Flagged(onStack, x) <==> x in Below(place, base)
    ensures Placed(onStack, s.indices, Below(place, base), done + Members(Reversed(s.stack[base..])))
    ensures Chain(g, s.stack[..base], Below(place, base), s.indices)
  {
    StackPartPopped(g, s, place, done, base);
  }

  lemma PopSettles(g: Corpus, s: Scan, place: map<Id, nat>, done: set<Id>, base: nat)
    requires Consistent(g, s, place, done) && Poppable(g, s.stack, base, done)
    ensures var scc := Reversed(s.stack[base..]);
            Settled(g, done + Members(scc), if IsKept(g, scc) then s.cycles + [scc] else s.cycles)
  {
    GroupSettles(g, s.stack, place, s.indices, base, done, s.cycles);
  }

  lemma PopKeeps(g: Corpus, s: Scan, place: map<Id, nat>, done: set<Id>, base: nat, onStack: map<Id, bool>,
                 scc: seq<Id>, s': Scan)
    requires Consistent(g, s, place, done) && Poppable(g, s.stack, base, done) && scc == Reversed(s.stack[base..])
    requires forall x :: Flagged(onStack, x) <==> x in Below(place, base)
    requires s' == s.(stack := s.stack[..base], onStack := onStack,
                      cycles := if IsKept(g, scc) then s.cycles + [scc] else s.cycles)
    ensures Consistent(g, s', Below(place, base), done + Members(scc))
  {
    PopPlaced(g, s, place, done, base, onStack);
    PopSettles(g, s, place, done, base);
  }

  /** Where the link of the record at position base led: nowhere new, or on to a top that links back. */
  ghost predicate Followed(g: Corpus, stack: seq<Id>, base: nat, indices: map<Id, nat>, low: nat, done: set<Id>,
                           back: nat)
  {
    && base < |stack| && stack[base] in indices
    && ((|stack| == base + 1 && low == indices[stack[base]]
         && (HasNext(g, stack[base]) ==> Next(g, stack[base]) in done))
        || (back <= base && LinksBack(g, stack, back) && stack[back] in indices && low == indices[stack[back]]))
  }

  /** What a visit to id leaves behind: the stack as it was below position base, or a top that links back below it. */
  ghost predicate Visited(g: Corpus, stack: seq<Id>, base: nat, indices: map<Id, nat>, id: Id, low: nat, back: nat)
  {
    && base <= |stack| && id in indices
    && if |stack| == base then low == indices[id] else
         && stack[base] == id && back < base && LinksBack(g, stack, back)
         && stack[back] in indices && low == indices[stack[back]]
  }

  /** The low link tells whether the record at position base is where its group begins. */
  lemma LowLinkDecides(g: Corpus, stack: seq<Id>, place: map<Id, nat>, base: nat, indices: map<Id, nat>, low: nat,
                       done: set<Id>, back: nat)
    requires Chain(g, stack, place, indices) && Followed(g, stack, base, indices, low, done, back)
    ensures if low == indices[stack[base]] then Poppable(g, stack, base, done)
            else Visited(g, stack, base, indices, stack[base], low, back)
  {
    if LinksBack(g, stack, back) && back < base {
      assert Before(back, base);
      assert indices[stack[back]] < indices[stack[base]];
    }
  }

  /** Numbers once given stay, and so do the low links of all records but the one at hand. */
  ghost predicate Kept(indices: map<Id, nat>, lowlink: map<Id, nat>, indices': map<Id, nat>, lowlink': map<Id, nat>,
                       except: Id)
  {
    && (forall x :: x in indices ==> x in indices' && indices'[x] == indices[x])
    && (forall x :: x in lowlink && x != except ==> x in lowlink' && lowlink'[x] == lowlink[x])
  }

  lemma EnterThenFollow(s: Scan, id: Id, indices: map<Id, nat>, lowlink: map<Id, nat>)
    requires id !in s.indices && s.lowlink.Keys == s.indices.Keys
    requires Kept(Entered(s, id).indices, Entered(s, id).lowlink, indices, lowlink, id)
    ensures Kept(s.indices, s.lowlink, indices, lowlink, id)
  {
    forall x | x in s.indices
      ensures x in indices && indices[x] == s.indices[x] && x in lowlink && lowlink[x] == s.lowlink[x]
    {
      assert x in Entered(s, id).indices && x in Entered(s, id).lowlink && x != id;
    }
  }

  lemma VisitThenLower(s: Scan, id: Id, target: Id, indices: map<Id, nat>, lowlink: map<Id, nat>, low: nat)
    requires target !in s.lowlink
    requires Kept(s.indices, s.lowlink, indices, lowlink, target)
    ensures Kept(s.indices, s.lowlink, indices, lowlink, id)
    ensures Kept(s.indices, s.lowlink, indices, lowlink[id := low], id)
  {
  }

  lemma PrefixCut(base: seq<Id>, id: Id, stack: seq<Id>)
    requires base + [id] <= stack
    ensures stack[..|base|] == base && base <= stack && |base| < |stack| && stack[|base|] == id
  {
  }

  function Lower(x: nat, y: nat): nat { if x < y then x else y }

  /** The record id on top of the stack was followed by a visit to its successor. */
  lemma FollowedByVisit(g: Corpus, s: Scan, s': Scan, place: map<Id, nat>, done: set<Id>, id: Id, target: Id, back: nat)
    requires s.stack != [] && s.stack[|s.stack| - 1] == id && id in s.indices && id in s.lowlink
    requires s.lowlink[id] == s.indices[id] < s.index
    requires HasNext(g, id) && Next(g, id) == target && target != id
    requires Chain(g, s'.stack, place, s'.indices) && s.stack <= s'.stack && s'.lowlink.Keys == s'.indices.Keys
    requires target in s'.indices && s.index <= s'.indices[target] && (target in done || target in place)
    requires Kept(s.indices, s.lowlink, s'.indices, s'.lowlink, target)
    requires Visited(g, s'.stack, |s.stack|, s'.indices, target, s'.lowlink[target], back)
    ensures id in s'.indices
    ensures Followed(g, s'.stack, |s.stack| - 1, s'.indices, Lower(s'.lowlink[target], s'.lowlink[id]), done, back)
  {
    var base := |s.stack| - 1;
    assert s'.stack[base] == id;
    if |s'.stack| == base + 1 {
      assert target in place ==> Before(place[target], base);
    } else if back < base {
      assert Before(back, base);
    }
  }

  /** The record at position base links to one already on the stack. */
  lemma FollowedByLink(g: Corpus, s: Scan, place: map<Id, nat>, done: set<Id>, base: nat, target: Id)
    requires Consistent(g, s, place, done) && |s.stack| == base + 1 && s.stack[base] in s.indices
    requires HasNext(g, s.stack[base]) && Next(g, s.stack[base]) == target && target in place
    ensures target in s.indices
    ensures Followed(g, s.stack, base, s.indices,
                     if s.indices[target] < s.indices[s.stack[base]] then s.indices[target]
                     else s.indices[s.stack[base]], done, place[target])
  {
    assert place[target] < base ==> Before(place[target], base);
  }

  // ----- The search -----

  /** Visits id, whose predecessor is on top of the stack. Either id and all it leads to come off the stack again,
      or they stay because the last of them links back to the stack at position back. */
  method StrongConnect(g: Corpus, id: Id, s: Scan, ghost place: map<Id, nat>, ghost done: set<Id>)
    returns (s': Scan, ghost place': map<Id, nat>, ghost done': set<Id>, ghost back: nat)
    requires Consistent(g, s, place, done) && id in g && id !in s.indices
    requires s.stack != [] ==> HasNext(g, s.stack[|s.stack| - 1]) && Next(g, s.stack[|s.stack| - 1]) == id
    ensures Consistent(g, s', place', done')
    ensures id in s'.indices && s.index <= s'.indices[id]
    ensures Kept(s.indices, s.lowlink, s'.indices, s'.lowlink, id)
    ensures s.stack <= s'.stack
    ensures Visited(g, s'.stack, |s.stack|, s'.indices, id, s'.lowlink[id], back)
    decreases |g| - |s.indices|, 0
  {
    s', place' := Entered(s, id), place[id := |s.stack|];
    EnterKeeps(g, s, place, done, id, s', place');
    s', place', done', back := FollowLink(g, id, s', place', done);
    EnterThenFollow(s, id, s'.indices, s'.lowlink);
    PrefixCut(s.stack, id, s'.stack);
    s', place', done' := Finish(g, id, s', place', done', |s.stack|, back);
  }

  /** Decides by the low link whether the group of id is complete and, if so, takes it off the stack. */
  method Finish(g: Corpus, id: Id, s: Scan, ghost place: map<Id, nat>, ghost done: set<Id>, ghost base: nat,
                ghost back: nat)
    returns (s': Scan, ghost place': map<Id, nat>, ghost done': set<Id>)
    requires Consistent(g, s, place, done) && base < |s.stack| && s.stack[base] == id && id in s.indices
    requires Followed(g, s.stack, base, s.indices, s.lowlink[id], done, back)
    ensures Consistent(g, s', place', done')
    ensures s'.indices == s.indices && s'.lowlink == s.lowlink && s.stack[..base] <= s'.stack
    ensures Visited(g, s'.stack, base, s'.indices, id, s'.lowlink[id], back)
  {
    LowLinkDecides(g, s.stack, place, base, s.indices, s.lowlink[id], done, back);
    s', place', done' := s, place, done;
    if s.lowlink[id] == s.indices[id] {
      s', place', done' := PopGroup(g, id, s, place, done, base);
    }
  }

  /** Follows the link of id, the top of the stack. */
  method FollowLink(g: Corpus, id: Id, s: Scan, ghost place: map<Id, nat>, ghost done: set<Id>)
    returns (s': Scan, ghost place': map<Id, nat>, ghost done': set<Id>, ghost back: nat)
    requires Consistent(g, s, place, done) && s.stack != [] && s.stack[|s.stack| - 1] == id && id in s.indices
    requires s.lowlink[id] == s.indices[id]
    ensures Consistent(g, s', place', done')
    ensures s.stack <= s'.stack && id in s'.indices && s'.indices[id] == s.indices[id]
    ensures Kept(s.indices, s.lowlink, s'.indices, s'.lowlink, id)
    ensures Followed(g, s'.stack, |s.stack| - 1, s'.indices, s'.lowlink[id], done', back)
    decreases |g| - |s.indices|, 2
  {
    ghost var base := |s.stack| - 1;
    s', place', done', back := s, place, done, base;
    var a := g[id];
    if a.supersededBy != NO_ID {
      var target := a.supersededBy;
      if target in g {
        if target !in s.indices {
          s', place', done', back := VisitSuccessor(g, id, target, s, place, done);
        } else if target in s.onStack && s.onStack[target] {
          back := place[target];
          FollowedByLink(g, s, place, done, base, target);
          if s.indices[target] < s.lowlink[id] {
            s' := WithLowLink(g, id, s.indices[target], s, place, done);
          }
        }
      }
    }
  }

  method WithLowLink(g: Corpus, id: Id, low: nat, s: Scan, ghost place: map<Id, nat>, ghost done: set<Id>)
    returns (s': Scan)
    requires Consistent(g, s, place, done) && id in s.indices
    ensures Consistent(g, s', place, done) && s' == s.(lowlink := s.lowlink[id := low])
  {
    s' := s.(lowlink := s.lowlink[id := low]);
  }

  /** Visits the unvisited successor of id, the top of the stack, and takes over its low link when that is lower. */
  method VisitSuccessor(g: Corpus, id: Id, target: Id, s: Scan, ghost place: map<Id, nat>, ghost done: set<Id>)
    returns (s': Scan, ghost place': map<Id, nat>, ghost done': set<Id>, ghost back: nat)
    requires Consistent(g, s, place, done) && s.stack != [] && s.stack[|s.stack| - 1] == id && id in s.indices
    requires s.lowlink[id] == s.indices[id]
    requires HasNext(g, id) && Next(g, id) == target && target !in s.indices
    ensures Consistent(g, s', place', done')
    ensures s.stack <= s'.stack && id in s'.indices && s'.indices[id] == s.indices[id]
    ensures Kept(s.indices, s.lowlink, s'.indices, s'.lowlink, id)
    ensures Followed(g, s'.stack, |s.stack| - 1, s'.indices, s'.lowlink[id], done', back)
    decreases |g| - |s.indices|, 1
  {
    s', place', done', back := StrongConnect(g, target, s, place, done);
    FollowedByVisit(g, s, s', place', done', id, target, back);
    VisitThenLower(s, id, target, s'.indices, s'.lowlink, s'.lowlink[target]);
    if s'.lowlink[target] < s'.lowlink[id] {
      s' := WithLowLink(g, id, s'.lowlink[target], s', place', done');
    }
  }

  /** Takes everything from id up off the stack: id alone when it leads nowhere new, else one whole cycle. */
  method PopGroup(g: Corpus, id: Id, s: Scan, ghost place: map<Id, nat>, ghost done: set<Id>, ghost base: nat)
    returns (s': Scan, ghost place': map<Id, nat>, ghost done': set<Id>)
    requires Consistent(g, s, place, done) && base < |s.stack| && s.stack[base] == id
    requires Poppable(g, s.stack, base, done)
    ensures Consistent(g, s', place', done')
    ensures s'.stack == s.stack[..base] && s'.indices == s.indices && s'.lowlink == s.lowlink
  {
    var stack, onStack, scc := PopDownTo(id, s.stack, s.onStack, place, base);
    var isCycle := |scc| > 1;
    if !isCycle && |scc| == 1 {
      if g[scc[0]].supersededBy == scc[0] {
        isCycle := true;
      }
    }
    s' := s.(stack := stack, onStack := onStack, cycles := if isCycle then s.cycles + [scc] else s.cycles);
    place', done' := Below(place, base), done + Members(scc);
    PopKeeps(g, s, place, done, base, onStack, scc, s');
  }

  method PopDownTo(id: Id, stack: seq<Id>, onStack: map<Id, bool>, ghost place: map<Id, nat>, ghost base: nat)
    returns (stack': seq<Id>, onStack': map<Id, bool>, scc: seq<Id>)
    requires base < |stack| && stack[base] == id
    requires forall i :: 0 <= i < |stack| ==> stack[i] in place && place[stack[i]] == i
    requires forall x :: x in place ==> place[x] < |stack| && stack[place[x]] == x
    requires forall x :: Flagged(onStack, x) <==> x in place
    ensures stack' == stack[..base] && scc == Reversed(stack[base..])
    ensures forall x :: Flagged(onStack', x) <==> x in Below(place, base)
  {
    stack', onStack', scc := stack, onStack, [];
    while true
      invariant base < |stack'| <= |stack| && stack' == stack[..|stack'|]
      invariant scc == Reversed(stack[|stack'|..])
      invariant forall x :: Flagged(onStack', x) <==> x in place && place[x] < |stack'|
      decreases |stack'|
    {
      var w := stack'[|stack'| - 1];
      ghost var n := |stack'| - 1;
      OnePop(stack, onStack', place, n);
      assert w == stack[n];
      stack' := stack'[..|stack'| - 1];
      onStack' := onStack'[w := false];
      scc := scc + [w];
      if w == id {
        assert n == place[w] == base;
        break;
      }
    }
  }

  lemma OnePop(stack: seq<Id>, onStack: map<Id, bool>, place: map<Id, nat>, n: nat)
    requires n < |stack|
    requires forall i :: 0 <= i < |stack| ==> stack[i] in place && place[stack[i]] == i
    requires forall x :: x in place ==> place[x] < |stack| && stack[place[x]] == x
    requires forall x :: Flagged(onStack, x) <==> x in place && place[x] < n + 1
    ensures forall x :: Flagged(onStack[stack[n] := false], x) <==> x in place && place[x] < n
    ensures Reversed(stack[n..]) == Reversed(stack[n + 1..]) + [stack[n]]
  {
  }

  // ----- The corpus checks -----

  /** Records by id; of several with one id the last counts, and a record without id does not appear. */
  function ByID(adrs: seq<Adr>): Corpus
  {
    if adrs == [] then map[]
    else
      var last := adrs[|adrs| - 1];
      if last.id == NO_ID then ByID(adrs[..|adrs| - 1]) else ByID(adrs[..|adrs| - 1])[last.id := last]
  }

  lemma {:induction false} ByIDKeys(adrs: seq<Adr>)
    ensures NO_ID !in ByID(adrs)
    ensures forall x :: x in ByID(adrs) <==> x != NO_ID && exists i :: 0 <= i < |adrs| && adrs[i].id == x
  {
    if adrs != [] {
      var front := adrs[..|adrs| - 1];
      ByIDKeys(front);
      forall x | x != NO_ID
        ensures x in ByID(adrs) <==> exists i :: 0 <= i < |adrs| && adrs[i].id == x
      {
        if i :| 0 <= i < |adrs| && adrs[i].id == x {
          assert i < |front| ==> front[i].id == x;
        }
        if x in ByID(adrs) && x != adrs[|adrs| - 1].id {
          var i :| 0 <= i < |front| && front[i].id == x;
          assert adrs[i].id == x;
        }
      }
    }
  }

  method BuildCorpus(adrs: seq<Adr>) returns (g: Corpus)
    ensures g == ByID(adrs)
  {
    g := map[];
    for i := 0 to |adrs|
      invariant g == ByID(adrs[..i])
    {
      assert adrs[..i + 1][..i] == adrs[..i];
      if adrs[i].id != NO_ID {
        g := g[adrs[i].id := adrs[i]];
      }
    }
    assert adrs[..|adrs|] == adrs;
  }

  lemma NothingVisited(g: Corpus)
    requires NO_ID !in g
    ensures Consistent(g, Scan(0, [], map[], map[], map[], []), map[], {})
  {
  }

  /** A visit that starts from an empty stack leaves it empty. */
  method VisitRoot(g: Corpus, id: Id, s: Scan, ghost place: map<Id, nat>, ghost done: set<Id>)
    returns (s': Scan, ghost place': map<Id, nat>, ghost done': set<Id>)
    requires Consistent(g, s, place, done) && s.stack == [] && id in g && id !in s.indices
    ensures Consistent(g, s', place', done') && s'.stack == []
    ensures forall x :: x in s.indices || x == id ==> x in s'.indices
  {
    ghost var back;
    s', place', done', back := StrongConnect(g, id, s, place, done);
  }

  ghost predicate VisitedUpTo(adrs: seq<Adr>, n: nat, indices: map<Id, nat>)
    requires n <= |adrs|
  {
    forall k :: 0 <= k < n && adrs[k].id != NO_ID ==> adrs[k].id in indices
  }

  lemma OneMoreVisited(adrs: seq<Adr>, i: nat, before: map<Id, nat>, after: map<Id, nat>)
    requires i < |adrs| && VisitedUpTo(adrs, i, before)
    requires forall x :: x in before || x == adrs[i].id ==> x in after
    ensures VisitedUpTo(adrs, i + 1, after)
  {
  }

  lemma AllVisited(adrs: seq<Adr>, indices: map<Id, nat>)
    requires VisitedUpTo(adrs, |adrs|, indices)
    ensures forall x :: x in ByID(adrs) ==> x in indices
  {
    ByIDKeys(adrs);
  }

  method DetectSupersedeCycle(adrs: seq<Adr>) returns (cycles: seq<seq<Id>>)
    ensures Reports(ByID(adrs), cycles)
    ensures cycles != [] <==> exists id :: id in ByID(adrs) && OnCycle(ByID(adrs), id)
  {
    var g := BuildCorpus(adrs);
    ByIDKeys(adrs);
    var s := Scan(0, [], map[], map[], map[], []);
    ghost var place: map<Id, nat>, done: set<Id> := map[], {};
    NothingVisited(g);
    for i := 0 to |adrs|
      invariant Consistent(g, s, place, done) && s.stack == []
      invariant VisitedUpTo(adrs, i, s.indices)
    {
      var id := adrs[i].id;
      if id == NO_ID {
        continue;
      }
      if id !in s.indices {
        ghost var before := s.indices;
        s, place, done := VisitRoot(g, id, s, place, done);
        OneMoreVisited(adrs, i, before, s.indices);
      }
    }
    AllVisited(adrs, s.indices);
    SettledAllReports(g, s, place, done);
    cycles := s.cycles;
  }

  lemma SettledAllReports(g: Corpus, s: Scan, place: map<Id, nat>, done: set<Id>)
    requires Consistent(g, s, place, done) && s.stack == [] && forall x :: x in g ==> x in s.indices
    ensures Reports(g, s.cycles)
    ensures s.cycles != [] <==> exists id :: id in g && OnCycle(g, id)
  {
    if s.cycles != [] {
      CycleMembersAreOnCycle(g, s.cycles[0]);
      assert s.cycles[0][0] in s.cycles[0];
    }
  }

  ghost predicate UniqueIDs(adrs: seq<Adr>)
  {
    forall i, j :: 0 <= i < j < |adrs| && adrs[i].id != NO_ID ==> adrs[i].id != adrs[j].id
  }

  lemma {:induction false} ByIDFinds(adrs: seq<Adr>, i: nat)
    requires UniqueIDs(adrs) && i < |adrs| && adrs[i].id != NO_ID
    ensures adrs[i].id in ByID(adrs) && ByID(adrs)[adrs[i].id] == adrs[i]
  {
    if i < |adrs| - 1 {
      ByIDFinds(adrs[..|adrs| - 1], i);
    }
  }

  /** With unique ids, reordering the list changes nothing about the corpus, hence nothing about the report. */
  lemma OrderDoesNotMatter(xs: seq<Adr>, ys: seq<Adr>)
    requires multiset(xs) == multiset(ys) && UniqueIDs(xs)
    ensures ByID(xs) == ByID(ys)
  {
    ReorderedStaysUnique(xs, ys);
    CorpusWithin(xs, ys);
    CorpusWithin(ys, xs);
  }

  lemma ReorderedStaysUnique(xs: seq<Adr>, ys: seq<Adr>)
    requires multiset(xs) == multiset(ys) && UniqueIDs(xs)
    ensures UniqueIDs(ys)
  {
    forall i, j | 0 <= i < j < |ys| && ys[i].id != NO_ID
      ensures ys[i].id != ys[j].id
    {
      TwoPositions(ys, i, j);
      FoundTwice(xs, ys[i], ys[j]);
    }
  }

  lemma FoundTwice(xs: seq<Adr>, a: Adr, b: Adr)
    requires multiset{a} + multiset{b} <= multiset(xs)
    ensures exists k, m :: 0 <= k < |xs| && 0 <= m < |xs| && k != m && xs[k] == a && xs[m] == b
  {
    assert a in multiset(xs);
    var k :| 0 <= k < |xs| && xs[k] == a;
    Removed(xs, k);
    assert (multiset{a} + multiset{b})[b] <= multiset(xs)[b];
    assert b in multiset(Without(xs, k));
    var m :| 0 <= m < |Without(xs, k)| && Without(xs, k)[m] == b;
    var at := if m < k then m else m + 1;
    assert at != k && xs[at] == b;
  }

  lemma TwoPositions(ys: seq<Adr>, i: nat, j: nat)
    requires i < j < |ys|
    ensures multiset{ys[i]} + multiset{ys[j]} <= multiset(ys)
  {
    assert ys == ys[..i] + [ys[i]] + ys[i + 1..j] + [ys[j]] + ys[j + 1..];
  }

  lemma CorpusWithin(xs: seq<Adr>, ys: seq<Adr>)
    requires multiset(xs) == multiset(ys) && UniqueIDs(xs) && UniqueIDs(ys)
    ensures forall x :: x in ByID(xs) ==> x in ByID(ys) && ByID(xs)[x] == ByID(ys)[x]
  {
    ByIDKeys(xs);
    forall x | x in ByID(xs)
      ensures x in ByID(ys) && ByID(xs)[x] == ByID(ys)[x]
    {
      var i :| 0 <= i < |xs| && xs[i].id == x;
      ByIDFinds(xs, i);
      assert xs[i] in multiset(ys);
      var j :| 0 <= j < |ys| && ys[j] == xs[i];
      ByIDFinds(ys, j);
    }
  }

  datatype Verdict =
    | Valid
    | SchemaViolations(records: seq<Adr>)
    | IdCollision(id: Id, first: string, second: string)
    | SupersedeCycles(cycles: seq<seq<Id>>)

  /** The first repeated id, with the paths that claim it. */
  method CheckIDUniqueness(adrs: seq<Adr>) returns (v: Verdict)
    ensures UniqueIDs(adrs) ==> v == Valid
    ensures !UniqueIDs(adrs) ==>
              exists i, j :: 0 <= i < j < |adrs| && adrs[i].id == adrs[j].id != NO_ID && UniqueIDs(adrs[..j])
                && v == IdCollision(adrs[j].id, adrs[i].path, adrs[j].path)
  {
    var seen: map<Id, string> := map[];
    ghost var at: map<Id, nat> := map[];
    for k := 0 to |adrs|
      invariant UniqueIDs(adrs[..k])
      invariant seen.Keys == at.Keys
      invariant forall i :: 0 <= i < k && adrs[i].id != NO_ID ==> adrs[i].id in at
      invariant forall x :: x in at ==> at[x] < k && adrs[at[x]].id == x != NO_ID && adrs[at[x]].path == seen[x]
    {
      var id := adrs[k].id;
      if id == NO_ID {
        continue;
      }
      if id in seen {
        assert 0 <= at[id] < k < |adrs| && adrs[at[id]].id == adrs[k].id;
        return IdCollision(id, seen[id], adrs[k].path);
      }
      seen := seen[id := adrs[k].path];
      at := at[id := k];
    }
    assert adrs[..|adrs|] == adrs;
    v := Valid;
  }

  function Failing(adrs: seq<Adr>, schemaOk: Adr -> bool): seq<Adr>
  {
    if adrs == [] then []
    else Failing(adrs[..|adrs| - 1], schemaOk) + (if schemaOk(adrs[|adrs| - 1]) then [] else [adrs[|adrs| - 1]])
  }

  lemma {:induction false} FailingMeans(adrs: seq<Adr>, schemaOk: Adr -> bool)
    ensures forall a :: multiset(Failing(adrs, schemaOk))[a] == if schemaOk(a) then 0 else multiset(adrs)[a]
  {
    if adrs != [] {
      FailingMeans(adrs[..|adrs| - 1], schemaOk);
      assert adrs == adrs[..|adrs| - 1] + [adrs[|adrs| - 1]];
    }
  }

  /** The records that fail, each as often as it is listed, in their order. */
  method CheckSchema(adrs: seq<Adr>, schemaOk: Adr -> bool) returns (bad: seq<Adr>)
    ensures bad == Failing(adrs, schemaOk)
    ensures bad == [] <==> forall a :: a in adrs ==> schemaOk(a)
    ensures forall a :: multiset(bad)[a] == if schemaOk(a) then 0 else multiset(adrs)[a]
  {
    bad := [];
    for i := 0 to |adrs|
      invariant bad == Failing(adrs[..i], schemaOk)
      invariant bad == [] <==> forall k :: 0 <= k < i ==> schemaOk(adrs[k])
    {
      assert adrs[..i + 1][..i] == adrs[..i];
      if !schemaOk(adrs[i]) {
        bad := bad + [adrs[i]];
      }
    }
    assert adrs[..|adrs|] == adrs;
    FailingMeans(adrs, schemaOk);
  }

  /** The order of the checks: schema, then ids, then cycles. A list passes exactly when all three hold. */
  method ValidateAll(adrs: seq<Adr>, schemaOk: Adr -> bool) returns (v: Verdict)
    ensures v == Valid <==>
              && (forall a :: a in adrs ==> schemaOk(a))
              && UniqueIDs(adrs)
              && forall id :: id in ByID(adrs) ==> !OnCycle(ByID(adrs), id)
    ensures v.SchemaViolations? <==> exists a :: a in adrs && !schemaOk(a)
    ensures v.SchemaViolations? ==> v.records == Failing(adrs, schemaOk)
    ensures v.IdCollision? <==> (forall a :: a in adrs ==> schemaOk(a)) && !UniqueIDs(adrs)
    ensures v.IdCollision? ==>
              exists i, j :: 0 <= i < j < |adrs| && adrs[i].id == adrs[j].id != NO_ID && UniqueIDs(adrs[..j])
                && v == IdCollision(adrs[j].id, adrs[i].path, adrs[j].path)
    ensures v.SupersedeCycles? ==> Reports(ByID(adrs), v.cycles)
  {
    if |adrs| == 0 {
      return Valid;
    }
    var bad := CheckSchema(adrs, schemaOk);
    if |bad| > 0 {
      return SchemaViolations(bad);
    }
    v := CheckIDUniqueness(adrs);
    if v != Valid {
      return;
    }
    var cycles := DetectSupersedeCycle(adrs);
    if |cycles| > 0 {
      return SupersedeCycles(cycles);
    }
  }
}
