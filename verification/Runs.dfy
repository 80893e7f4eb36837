/** Runs of a step system: the state after a sequence of events. */
module Runs {
  function Fold<S, E>(step: (S, E) -> S, s: S, events: seq<E>): S
  {
    if events == [] then s else step(Fold(step, s, events[..|events| - 1]), events[|events| - 1])
  }

  lemma {:induction false} FoldAppend<S, E>(step: (S, E) -> S, s: S, events: seq<E>, more: seq<E>)
    ensures Fold(step, s, events + more) == Fold(step, Fold(step, s, events), more)
  {
    if more == [] {
      assert events + more == events;
    } else {
      var n := |more| - 1;
      FoldAppend(step, s, events, more[..n]);
      assert (events + more)[..|events| + n] == events + more[..n];
    }
  }

  lemma FoldOne<S, E>(step: (S, E) -> S, s: S, e: E)
    ensures Fold(step, s, [e]) == step(s, e)
  {
    assert [e][..0] == [];
  }

  lemma FoldSnoc<S, E>(step: (S, E) -> S, s: S, events: seq<E>, e: E)
    ensures Fold(step, s, events + [e]) == step(Fold(step, s, events), e)
  {
    assert (events + [e])[..|events|] == events;
  }
}
