/** The drop-oldest inbox of the main loop: one publisher, whose call is four separate channel operations, a concurrent
    consumer, and a close that may come at any moment. */
module Inbox {
  import Runs

  datatype Exit<R> = Consumed(rec: R) | Dropped(rec: R)

  /** Where the publisher is: between calls, or before the second, third or fourth channel operation of a call. */
  datatype Phase<R> = Idle | Sending(rec: R) | Making(rec: R) | Resending(rec: R)

  /** The channel's buffer, everything that left it, everything offered to it, and whether a call has been abandoned
      because the inbox was closed under it. */
  datatype State<R> = State(capacity: nat, buffer: seq<R>, closed: bool, phase: Phase<R>,
                            exits: seq<Exit<R>>, published: seq<R>, abandoned: bool)

  /** When several cases of a select are ready, the choice is the event's. */
  datatype Event<R> =
    | Begin(rec: R, cancelled: bool)
    | Send(takeClosed: bool)
    | Drop
    | Resend(takeClosed: bool)
    | Consume
    | Close

  function Abandon<R>(s: State<R>): State<R> { s.(phase := Idle, abandoned := true) }

  function Push<R>(s: State<R>, rec: R): State<R> { s.(buffer := s.buffer + [rec], phase := Idle) }

  function Step<R>(s: State<R>, e: Event<R>): State<R>
  {
    match e
    case Begin(rec, cancelled) =>
      if s.phase.Idle? && !cancelled && !s.closed then s.(phase := Sending(rec), published := s.published + [rec])
      else s
    case Send(takeClosed) =>
      if !s.phase.Sending? then s
      else
        var room := |s.buffer| < s.capacity;
        if s.closed && (takeClosed || !room) then Abandon(s)
        else if room then Push(s, s.phase.rec)
        else s.(phase := Making(s.phase.rec))
    case Drop =>
      if !s.phase.Making? then s
      else if s.buffer == [] then s.(phase := Resending(s.phase.rec))
      else s.(phase := Resending(s.phase.rec), buffer := s.buffer[1..], exits := s.exits + [Dropped(s.buffer[0])])
    case Resend(takeClosed) =>
      if !s.phase.Resending? then s
      else
        var room := |s.buffer| < s.capacity;
        if s.closed && (takeClosed || !room) then Abandon(s)
        else if room then Push(s, s.phase.rec)
        else s.(phase := Idle)
    case Consume =>
      if s.buffer == [] then s else s.(buffer := s.buffer[1..], exits := s.exits + [Consumed(s.buffer[0])])
    case Close => s.(closed := true)
  }

  function Start<R>(capacity: nat): State<R> { State(capacity, [], false, Idle, [], [], false) }

  function Stepper<R>(): (State<R>, Event<R>) -> State<R> { (s, e) => Step(s, e) }

  function Run<R>(capacity: nat, events: seq<Event<R>>): State<R> { Runs.Fold(Stepper(), Start(capacity), events) }

  function Left<R>(exits: seq<Exit<R>>): seq<R>
  {
    if exits == [] then [] else Left(exits[..|exits| - 1]) + [exits[|exits| - 1].rec]
  }

  function InHand<R>(s: State<R>): seq<R> { if s.phase.Idle? then [] else [s.phase.rec] }

  /** Nothing is lost, repeated or reordered: what left, what is buffered and what the publisher still holds is what
      was published; once a call has been abandoned its record, the last, is missing. */
  ghost predicate Sound<R>(s: State<R>)
  {
    && |s.buffer| <= s.capacity
    && (s.phase.Resending? ==> |s.buffer| < s.capacity)
    && (s.abandoned ==> s.closed && s.phase.Idle?)
    && (if s.abandoned then
          s.published != [] && Left(s.exits) + s.buffer == s.published[..|s.published| - 1]
        else
          Left(s.exits) + s.buffer + InHand(s) == s.published)
    && (s.phase.Idle? && !s.abandoned && s.buffer == [] && s.exits != [] ==> s.exits[|s.exits| - 1].Consumed?)
  }

  lemma LeftAppend<R>(exits: seq<Exit<R>>, e: Exit<R>)
    ensures Left(exits + [e]) == Left(exits) + [e.rec]
  {
    assert (exits + [e])[..|exits|] == exits;
  }

  /** The head of the buffer moves to the end of what left. */
  lemma HeadLeaves<R>(s: State<R>, exit: Exit<R>)
    requires s.buffer != [] && exit.rec == s.buffer[0]
    ensures Left(s.exits + [exit]) + s.buffer[1..] == Left(s.exits) + s.buffer
  {
    assert s.buffer == [s.buffer[0]] + s.buffer[1..];
    LeftAppend(s.exits, exit);
  }

  lemma BeginKeeps<R>(s: State<R>, rec: R, cancelled: bool)
    requires Sound(s)
    ensures Sound(Step(s, Begin(rec, cancelled)))
  {
  }

  /** The record in hand goes to the end of the buffer. */
  lemma PushKeeps<R>(s: State<R>)
    requires Sound(s) && !s.phase.Idle? && |s.buffer| < s.capacity
    ensures Sound(Push(s, s.phase.rec))
  {
    var rec := s.phase.rec;
    assert Left(s.exits) + (s.buffer + [rec]) == Left(s.exits) + s.buffer + [rec];
  }

  lemma AbandonKeeps<R>(s: State<R>)
    requires Sound(s) && !s.phase.Idle? && s.closed
    ensures Sound(Abandon(s))
  {
    var kept := Left(s.exits) + s.buffer;
    assert (kept + [s.phase.rec])[..|kept|] == kept;
  }

  lemma SendKeeps<R>(s: State<R>, takeClosed: bool)
    requires Sound(s)
    ensures Sound(Step(s, Send(takeClosed)))
  {
    if s.phase.Sending? {
      if s.closed {
        AbandonKeeps(s);
      }
      if |s.buffer| < s.capacity {
        PushKeeps(s);
      }
    }
  }

  lemma ResendKeeps<R>(s: State<R>, takeClosed: bool)
    requires Sound(s)
    ensures Sound(Step(s, Resend(takeClosed)))
  {
    if s.phase.Resending? {
      PushKeeps(s);
      if s.closed {
        AbandonKeeps(s);
      }
    }
  }

  lemma DropKeeps<R>(s: State<R>)
    requires Sound(s) && s.capacity >= 1
    ensures Sound(Step(s, Drop))
  {
    if s.phase.Making? && s.buffer != [] {
      HeadLeaves(s, Dropped(s.buffer[0]));
    }
  }

  lemma ConsumeKeeps<R>(s: State<R>)
    requires Sound(s)
    ensures Sound(Step(s, Consume))
  {
    if s.buffer != [] {
      HeadLeaves(s, Consumed(s.buffer[0]));
    }
  }

  lemma StepKeepsSound<R>(s: State<R>, e: Event<R>)
    requires Sound(s) && s.capacity >= 1
    ensures Sound(Step(s, e)) && Step(s, e).capacity == s.capacity
  {
    match e
    case Begin(rec, cancelled) => BeginKeeps(s, rec, cancelled);
    case Send(takeClosed) => SendKeeps(s, takeClosed);
    case Drop => DropKeeps(s);
    case Resend(takeClosed) => ResendKeeps(s, takeClosed);
    case Consume => ConsumeKeeps(s);
    case Close =>
  }

  lemma {:induction false} AlwaysSound<R>(capacity: nat, events: seq<Event<R>>)
    requires capacity >= 1
    ensures Sound(Run(capacity, events)) && Run(capacity, events).capacity == capacity
  {
    if events != [] {
      AlwaysSound(capacity, events[..|events| - 1]);
      StepKeepsSound(Run(capacity, events[..|events| - 1]), events[|events| - 1]);
    }
  }

  /** A call made while the inbox stays open ends with its record at the end of the buffer, never without it. */
  lemma PublishEnqueues<R>(capacity: nat, events: seq<Event<R>>, e: Event<R>)
    requires capacity >= 1
    requires var s := Run(capacity, events); !s.phase.Idle? && !s.closed && Step(s, e).phase.Idle?
    ensures var s := Run(capacity, events);
            Step(s, e).buffer == s.buffer + [s.phase.rec] && |Step(s, e).buffer| <= capacity
  {
    AlwaysSound(capacity, events);
  }

  /** Between calls, while open, the buffer is the newest stretch of what was published, and everything before it has
      left in order. */
  lemma BufferIsNewestStretch<R>(capacity: nat, events: seq<Event<R>>)
    requires capacity >= 1
    requires var s := Run(capacity, events); s.phase.Idle? && !s.closed
    ensures var s := Run(capacity, events);
            var k := |s.published| - |s.buffer|;
            && 0 <= k && s.buffer == s.published[k..] && Left(s.exits) == s.published[..k] && |s.buffer| <= capacity
            && (s.buffer == [] && s.published != [] ==>
                  s.exits != [] && s.exits[|s.exits| - 1] == Consumed(s.published[|s.published| - 1]))
  {
    var s := Run(capacity, events);
    AlwaysSound(capacity, events);
    assert s.published == Left(s.exits) + s.buffer;
  }

  function Taken<R>(exits: seq<Exit<R>>): seq<R>
  {
    if exits == [] then []
    else
      var last, before := exits[|exits| - 1], Taken(exits[..|exits| - 1]);
      if last.Consumed? then before + [last.rec] else before
  }

  /** An ascending list of positions at which one sequence is found in another. */
  ghost predicate FoundAt<R>(part: seq<R>, whole: seq<R>, at: seq<nat>)
  {
    && |at| == |part|
    && (forall i :: 0 <= i < |at| ==> at[i] < |whole| && whole[at[i]] == part[i])
    && (forall i, j :: 0 <= i < j < |at| ==> at[i] < at[j])
  }

  lemma FoundInMore<R>(part: seq<R>, whole: seq<R>, at: seq<nat>, rec: R)
    requires FoundAt(part, whole, at)
    ensures FoundAt(part, whole + [rec], at)
    ensures FoundAt(part + [rec], whole + [rec], at + [|whole|])
  {
  }

  lemma {:induction false} TakenInOrder<R>(exits: seq<Exit<R>>) returns (at: seq<nat>)
    ensures |Left(exits)| == |exits| && FoundAt(Taken(exits), Left(exits), at)
  {
    at := [];
    if exits != [] {
      var front, last := exits[..|exits| - 1], exits[|exits| - 1];
      at := TakenInOrder(front);
      FoundInMore(Taken(front), Left(front), at, last.rec);
      if last.Consumed? {
        at := at + [|front|];
      }
    }
  }

  /** What the consumer has received is, at every moment of every run, a subsequence of what was published, in order. */
  lemma ConsumedInOrder<R>(capacity: nat, events: seq<Event<R>>) returns (at: seq<nat>)
    requires capacity >= 1
    ensures FoundAt(Taken(Run(capacity, events).exits), Run(capacity, events).published, at)
  {
    var s := Run(capacity, events);
    AlwaysSound(capacity, events);
    at := TakenInOrder(s.exits);
    assert forall i :: 0 <= i < |Left(s.exits)| ==> Left(s.exits)[i] == s.published[i];
  }

  function Consumes<R>(n: nat): seq<Event<R>> { seq(n, _ => Consume) }

  lemma {:induction false} ConsumerDrains<R>(s: State<R>, n: nat)
    requires n <= |s.buffer|
    ensures var t := Runs.Fold(Stepper(), s, Consumes(n));
            t.buffer == s.buffer[n..] && Taken(t.exits) == Taken(s.exits) + s.buffer[..n]
  {
    if n > 0 {
      var m := n - 1;
      ConsumerDrains(s, m);
      assert Consumes<R>(n)[..m] == Consumes(m);
      ConsumeOne(Runs.Fold(Stepper(), s, Consumes(m)));
      assert s.buffer[..n] == s.buffer[..m] + [s.buffer[m]];
    }
  }

  lemma ConsumeOne<R>(s: State<R>)
    requires s.buffer != []
    ensures var t := Step(s, Consume); t.buffer == s.buffer[1..] && Taken(t.exits) == Taken(s.exits) + [s.buffer[0]]
  {
    assert (s.exits + [Consumed(s.buffer[0])])[..|s.exits|] == s.exits;
  }

  /** A consumer that keeps at it gets the whole buffer, in order, whatever else happened before. */
  lemma ConsumerGetsBuffer<R>(capacity: nat, events: seq<Event<R>>)
    ensures var s := Run(capacity, events);
            var t := Run(capacity, events + Consumes(|s.buffer|));
            t.buffer == [] && Taken(t.exits) == Taken(s.exits) + s.buffer
  {
    var s := Run(capacity, events);
    Runs.FoldAppend(Stepper(), Start(capacity), events, Consumes(|s.buffer|));
    ConsumerDrains(s, |s.buffer|);
    assert s.buffer[..|s.buffer|] == s.buffer;
  }

  /** Once it is closed nothing is published any more, whatever follows. */
  lemma {:induction false} NothingAfterClose<R>(capacity: nat, before: seq<Event<R>>, after: seq<Event<R>>)
    ensures var s := Run(capacity, before + [Close] + after);
            s.closed && s.published == Run(capacity, before).published
  {
    if after == [] {
      assert before + [Close] + after == before + [Close];
      Runs.FoldSnoc(Stepper(), Start(capacity), before, Close);
    } else {
      var n := |after| - 1;
      NothingAfterClose(capacity, before, after[..n]);
      assert before + [Close] + after == before + [Close] + after[..n] + [after[n]];
      Runs.FoldSnoc(Stepper(), Start(capacity), before + [Close] + after[..n], after[n]);
    }
  }

  // ----- A call that nothing interrupts -----

  class BackgroundInbox<R(==)> {
    const capacity: nat
    var buffer: seq<R>
    var closed: bool

    constructor (size: int, fallback: nat)
      requires fallback >= 1
      ensures capacity == (if size <= 0 then fallback else size) && capacity >= 1
      ensures buffer == [] && !closed
    {
      capacity := if size <= 0 then fallback else size;
      buffer, closed := [], false;
    }

    method Close()
      modifies this
      ensures closed && buffer == old(buffer)
    {
      closed := true;
    }

    /** The oldest record makes room for the newest. */
    method Publish(rec: R, cancelled: bool) returns (delivered: bool)
      requires 1 <= capacity && |buffer| <= capacity
      modifies this
      ensures closed == old(closed) && |buffer| <= capacity
      ensures delivered <==> !cancelled && !closed
      ensures buffer == if !delivered then old(buffer)
                        else if |old(buffer)| < capacity then old(buffer) + [rec]
                        else old(buffer)[1..] + [rec]
    {
      if cancelled || closed {
        return false;
      }
      if |buffer| < capacity {
        buffer := buffer + [rec];
        return true;
      }
      buffer := buffer[1..];
      buffer := buffer + [rec];
      return true;
    }
  }

  function Then<R>(s: State<R>, e1: Event<R>, e2: Event<R>, e3: Event<R>, e4: Event<R>): State<R>
  {
    Step(Step(Step(Step(s, e1), e2), e3), e4)
  }

  /** The four operations, run without interruption, are the call as a whole. */
  lemma UninterruptedPublish<R>(s: State<R>, rec: R, c1: bool, c2: bool)
    requires Sound(s) && s.capacity >= 1 && s.phase.Idle? && !s.closed
    ensures var t := Then(s, Begin(rec, false), Send(c1), Drop, Resend(c2));
            && t.phase.Idle?
            && t.buffer == (if |s.buffer| < s.capacity then s.buffer + [rec] else s.buffer[1..] + [rec])
            && t.exits == (if |s.buffer| < s.capacity then s.exits else s.exits + [Dropped(s.buffer[0])])
  {
  }
}
