/** The anomaly detector: outliers of one scope are stored once per run of equal samples, whatever happens on other
    scopes. Updates of one scope are serialised by its lock, so one update is one step. */
module Anomaly {
  import Welford
  import opened Text
  import Runs

  datatype Row = Row(scope: string, value: string, z: real, mean: real, std: real, size: nat)

  /** What is remembered for a scope: the last sample stored, if any. */
  datatype Last = Never | Stored(sample: real)

  /** An update with the store's answers: the window it reads, if it can, and whether an append would succeed. */
  datatype Call = Call(scope: string, value: string, sample: real, windowOk: bool, window: seq<real>, appendOk: bool)

  datatype Status = Fine | BadScope | WindowFailed | AppendFailed

  datatype Memory = Memory(states: map<string, Last>, rows: seq<Row>)

  datatype Settings = Settings(threshold: real, root: real -> real)

  function Key(scope: string, value: string): string { Joined(scope, ':', value) }

  function LastOf(states: map<string, Last>, key: string): Last
  {
    if key in states then states[key] else Never
  }

  function RowFor(c: Call, r: Welford.Reading): Row { Row(c.scope, c.value, r.z, r.mean, r.std, r.size) }

  /** The store's contents and the detector's memory after one update. */
  function AfterUpdate(s: Settings, d: Memory, c: Call): Memory
  {
    if c.scope == "" || c.value == "" then d
    else
      var key := Key(c.scope, c.value);
      var last := LastOf(d.states, key);
      var known := d.states[key := last];
      var r := Welford.Read(c.window, c.sample, s.threshold, s.root);
      if c.windowOk && r.triggered && last != Stored(c.sample) && c.appendOk then
        Memory(known[key := Stored(c.sample)], d.rows + [RowFor(c, r)])
      else
        Memory(known, d.rows)
  }

  class AnomalyDetector {
    const settings: Settings
    var states: map<string, Last>
    var rows: seq<Row>

    constructor (threshold: real, root: real -> real)
      requires threshold > 0.0
      ensures settings == Settings(threshold, root) && View() == Memory(map[], [])
    {
      settings := Settings(threshold, root);
      states, rows := map[], [];
    }

    ghost function View(): Memory
      reads this
    {
      Memory(states, rows)
    }

    method Update(c: Call) returns (result: Welford.Reading, status: Status)
      requires Welford.IsRoot(settings.root)
      modifies this
      ensures View() == AfterUpdate(settings, old(View()), c)
      ensures status == BadScope <==> c.scope == "" || c.value == ""
      ensures status == WindowFailed <==> c.scope != "" && c.value != "" && !c.windowOk
      ensures status == Fine || status == AppendFailed ==>
                && result == Welford.Read(c.window, c.sample, settings.threshold, settings.root)
                && result.mean == Welford.Mean(c.window) && result.std == Welford.Spread(c.window, settings.root)
                && result.size == |c.window|
      ensures var isNew := status == Fine && result.triggered
                            && LastOf(old(states), Key(c.scope, c.value)) != Stored(c.sample);
              rows == old(rows) + if !isNew then []
                                  else [Row(c.scope, c.value, result.z, result.mean, result.std, |c.window|)]
      ensures status == AppendFailed <==>
                c.scope != "" && c.value != "" && c.windowOk && !c.appendOk && result.triggered
                && LastOf(old(states), Key(c.scope, c.value)) != Stored(c.sample)
    {
      var nothing := Welford.Reading(0.0, 0.0, 0.0, 0, false);
      if c.scope == "" || c.value == "" {
        return nothing, BadScope;
      }
      var key := Key(c.scope, c.value);
      if key !in states {
        states := states[key := Never];
      }
      var last := states[key];
      assert states == old(states)[key := last];
      if !c.windowOk {
        return nothing, WindowFailed;
      }
      var mean, std := Welford.Welford(c.window, settings.root);
      var z := 0.0;
      if std > 0.0 {
        z := (c.sample - mean) / std;
      }
      result := Welford.Reading(z, mean, std, |c.window|, std > 0.0 && Welford.Abs(z) > settings.threshold);
      if result.triggered {
        if last == Stored(c.sample) {
          return result, Fine;
        }
        if !c.appendOk {
          return result, AppendFailed;
        }
        rows := rows + [RowFor(c, result)];
        states := states[key := Stored(c.sample)];
      }
      return result, Fine;
    }
  }

  function Stepper(s: Settings): (Memory, Call) -> Memory { (d, c) => AfterUpdate(s, d, c) }

  function Run(s: Settings, calls: seq<Call>): Memory { Runs.Fold(Stepper(s), Memory(map[], []), calls) }

  // ----- What is stored for a key -----

  function SampleOf(row: Row): real { row.mean + row.z * row.std }

  /** The samples behind the rows stored under a key, oldest first. */
  function Samples(rows: seq<Row>, key: string): seq<real>
  {
    if rows == [] then []
    else
      var last := rows[|rows| - 1];
      var before := Samples(rows[..|rows| - 1], key);
      if Key(last.scope, last.value) == key then before + [SampleOf(last)] else before
  }

  predicate Outlier(s: Settings, c: Call, key: string)
  {
    && c.scope != "" && c.value != "" && Key(c.scope, c.value) == key
    && c.windowOk && c.appendOk && Welford.Read(c.window, c.sample, s.threshold, s.root).triggered
  }

  /** The samples of the updates of a key that were outliers the store could take, oldest first. */
  function Outliers(s: Settings, calls: seq<Call>, key: string): seq<real>
  {
    if calls == [] then []
    else
      var c := calls[|calls| - 1];
      var before := Outliers(s, calls[..|calls| - 1], key);
      if Outlier(s, c, key) then before + [c.sample] else before
  }

  /** Every run of equal neighbours reduced to one. */
  function Collapse(xs: seq<real>): seq<real>
  {
    if xs == [] then []
    else
      var front, x := xs[..|xs| - 1], xs[|xs| - 1];
      if front != [] && front[|front| - 1] == x then Collapse(front) else Collapse(front) + [x]
  }

  function Newest(xs: seq<real>): Last { if xs == [] then Never else Stored(xs[|xs| - 1]) }

  lemma {:induction false} CollapseFacts(xs: seq<real>)
    ensures Newest(Collapse(xs)) == Newest(xs)
    ensures forall i :: 0 < i < |Collapse(xs)| ==> Collapse(xs)[i - 1] != Collapse(xs)[i]
  {
    if xs != [] {
      CollapseFacts(xs[..|xs| - 1]);
    }
  }

  lemma SamplesAppend(rows: seq<Row>, row: Row, key: string)
    ensures Samples(rows + [row], key)
            == if Key(row.scope, row.value) == key then Samples(rows, key) + [SampleOf(row)] else Samples(rows, key)
  {
    assert (rows + [row])[..|rows|] == rows;
  }

  /** What one update adds for a key. */
  lemma UpdateStores(s: Settings, d: Memory, c: Call, key: string)
    ensures Samples(AfterUpdate(s, d, c).rows, key)
            == if Outlier(s, c, key) && LastOf(d.states, key) != Stored(c.sample) then Samples(d.rows, key) + [c.sample]
               else Samples(d.rows, key)
    ensures LastOf(AfterUpdate(s, d, c).states, key)
            == if Outlier(s, c, key) then Stored(c.sample) else LastOf(d.states, key)
  {
    var r := Welford.Read(c.window, c.sample, s.threshold, s.root);
    SamplesAppend(d.rows, RowFor(c, r), key);
    if r.triggered {
      RowSample(s, c);
    }
  }

  /** The sample a row was raised for can be read off the row. */
  lemma RowSample(s: Settings, c: Call)
    requires Welford.Read(c.window, c.sample, s.threshold, s.root).triggered
    ensures SampleOf(RowFor(c, Welford.Read(c.window, c.sample, s.threshold, s.root))) == c.sample
  {
    var r := Welford.Read(c.window, c.sample, s.threshold, s.root);
    Welford.Divided(c.sample - r.mean, r.std);
  }

  lemma CollapseAppend(xs: seq<real>, x: real)
    ensures Collapse(xs + [x]) == if Newest(xs) == Stored(x) then Collapse(xs) else Collapse(xs) + [x]
  {
    assert (xs + [x])[..|xs|] == xs;
  }

  /** The rows of a key are exactly its outliers with every run of repeats stored once. */
  lemma {:induction false} RowsAreOutliersCollapsed(s: Settings, calls: seq<Call>, key: string)
    ensures Samples(Run(s, calls).rows, key) == Collapse(Outliers(s, calls, key))
    ensures LastOf(Run(s, calls).states, key) == Newest(Outliers(s, calls, key))
  {
    if calls != [] {
      var before, c := calls[..|calls| - 1], calls[|calls| - 1];
      RowsAreOutliersCollapsed(s, before, key);
      UpdateStores(s, Run(s, before), c, key);
      CollapseAppend(Outliers(s, before, key), c.sample);
    }
  }

  /** No two rows stored next to each other under a key come from the same sample. */
  lemma NoEqualNeighbours(s: Settings, calls: seq<Call>, key: string)
    ensures var xs := Samples(Run(s, calls).rows, key); forall i :: 0 < i < |xs| ==> xs[i - 1] != xs[i]
  {
    RowsAreOutliersCollapsed(s, calls, key);
    CollapseFacts(Outliers(s, calls, key));
  }

  lemma {:induction false} RunAppend(s: Settings, before: seq<Call>, c: Call)
    ensures Run(s, before + [c]) == AfterUpdate(s, Run(s, before), c)
  {
    Runs.FoldSnoc(Stepper(s), Memory(map[], []), before, c);
  }

  /** However often one sample is repeated under a key, with any updates of other keys in between, at most one row is
      stored for it. */
  lemma {:induction false} RepeatsStoredOnce(s: Settings, before: seq<Call>, more: seq<Call>, key: string, x: real)
    requires forall i :: 0 <= i < |more| && Key(more[i].scope, more[i].value) == key ==> more[i].sample == x
    ensures var d, d' := Run(s, before), Run(s, before + more);
            || (Samples(d'.rows, key) == Samples(d.rows, key) && LastOf(d'.states, key) == LastOf(d.states, key))
            || (Samples(d'.rows, key) == Samples(d.rows, key) + [x] && LastOf(d'.states, key) == Stored(x))
  {
    if more == [] {
      assert before + more == before;
    } else {
      var n := |more| - 1;
      RepeatsStoredOnce(s, before, more[..n], key, x);
      assert before + more == before + more[..n] + [more[n]];
      RunAppend(s, before + more[..n], more[n]);
      UpdateStores(s, Run(s, before + more[..n]), more[n], key);
    }
  }

  // ----- Scopes do not interfere -----

  function OnlyKey(calls: seq<Call>, key: string): seq<Call>
  {
    if calls == [] then []
    else
      var c := calls[|calls| - 1];
      var before := OnlyKey(calls[..|calls| - 1], key);
      if Key(c.scope, c.value) == key then before + [c] else before
  }

  lemma {:induction false} OutliersOfKey(s: Settings, calls: seq<Call>, key: string)
    ensures Outliers(s, OnlyKey(calls, key), key) == Outliers(s, calls, key)
  {
    if calls != [] {
      var before, c := calls[..|calls| - 1], calls[|calls| - 1];
      OutliersOfKey(s, before, key);
      if Key(c.scope, c.value) == key {
        assert OnlyKey(calls, key)[..|OnlyKey(before, key)|] == OnlyKey(before, key);
      }
    }
  }

  /** What is stored under a key, and remembered for it, is as if no other key had ever been updated. */
  lemma {:induction false} OtherKeysDoNotInterfere(s: Settings, calls: seq<Call>, key: string)
    ensures Samples(Run(s, calls).rows, key) == Samples(Run(s, OnlyKey(calls, key)).rows, key)
    ensures LastOf(Run(s, calls).states, key) == LastOf(Run(s, OnlyKey(calls, key)).states, key)
  {
    OutliersOfKey(s, calls, key);
    RowsAreOutliersCollapsed(s, calls, key);
    RowsAreOutliersCollapsed(s, OnlyKey(calls, key), key);
  }

  // ----- When two scopes share a key -----

  /** Two different scope and value pairs share a key exactly when one scope extends the other past a colon and the
      rest of the text agrees. */
  lemma KeysCollideExactlyWhen(s1: string, v1: string, s2: string, v2: string)
    requires (s1, v1) != (s2, v2)
    ensures Key(s1, v1) == Key(s2, v2) <==> Overlaps(s1, v1, ':', s2, v2) || Overlaps(s2, v2, ':', s1, v1)
  {
    JoinedCollideExactlyWhen(s1, v1, ':', s2, v2);
  }

  /** Between scopes without a colon, as all four scopes of the budget are, the key is the pair. */
  lemma ColonFreeScopesApart(s1: string, v1: string, s2: string, v2: string)
    requires ':' !in s1 && ':' !in s2
    ensures Key(s1, v1) == Key(s2, v2) <==> (s1, v1) == (s2, v2)
  {
    SeparatorFreeApart(s1, v1, ':', s2, v2);
  }

  lemma FirstOutlierStored(s: Settings, c: Call)
    requires Outlier(s, c, Key(c.scope, c.value))
    ensures |Run(s, [c]).rows| == 1 && LastOf(Run(s, [c]).states, Key(c.scope, c.value)) == Stored(c.sample)
  {
    assert [c] == [] + [c];
    RunAppend(s, [], c);
  }

  lemma SharedKeyHides(s: Settings, c1: Call, c2: Call)
    requires Key(c1.scope, c1.value) == Key(c2.scope, c2.value) && c1.sample == c2.sample
    requires Outlier(s, c1, Key(c1.scope, c1.value))
    ensures Run(s, [c1, c2]).rows == Run(s, [c1]).rows
  {
    assert [c1, c2] == [c1] + [c2];
    FirstOutlierStored(s, c1);
    RunAppend(s, [c1], c2);
  }

  /** With a colon in a scope two pairs can share what is remembered, and the outlier of one hides the same outlier of
      the other. */
  lemma ColonsInterfere(s: Settings)
    requires Welford.IsRoot(s.root) && s.threshold > 0.0
    ensures exists c1: Call, c2: Call ::
              && (c1.scope, c1.value) != (c2.scope, c2.value)
              && |Run(s, [c2]).rows| == 1 && |Run(s, [c1]).rows| == 1
              && Run(s, [c1, c2]).rows == Run(s, [c1]).rows
  {
    var x := 1.0 + 2.0 * s.threshold;
    var c1, c2 := Call("a", "b:c", x, true, [0.0, 2.0], true), Call("a:b", "c", x, true, [0.0, 2.0], true);
    assert c1.scope != c2.scope;
    OutlierOfTwo(s);
    assert Key(c1.scope, c1.value) == Key(c2.scope, c2.value) == "a:b:c";
    FirstOutlierStored(s, c1);
    FirstOutlierStored(s, c2);
    SharedKeyHides(s, c1, c2);
  }

  lemma OutlierOfTwo(s: Settings)
    requires Welford.IsRoot(s.root) && s.threshold > 0.0
    ensures Welford.Read([0.0, 2.0], 1.0 + 2.0 * s.threshold, s.threshold, s.root).triggered
  {
    var w, f, t := [0.0, 2.0], Welford.SquareFrom(1.0), s.threshold;
    assert w[..1] == [0.0] && w[..1][..0] == [];
    assert Welford.Total(w, Welford.Itself()) == 2.0;
    assert Welford.Total(w, f) == f(0.0) + f(2.0);
    Welford.TriggersExactlyWhen(w, 1.0 + 2.0 * t, t, s.root);
    Welford.Positive(t, t, Welford.Square(t));
    assert Welford.Square(2.0 * t) == 4.0 * Welford.Square(t);
  }
}
