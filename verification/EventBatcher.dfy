/** The bounded event channel and the loop that batches its events for the publisher. */
module EventBatcher {

  /** `open`: the sender exists. `running`: the batching loop has not exited. */
  datatype State<E> = State(
    queue: seq<E>, batch: seq<E>, handed: seq<seq<E>>, sent: nat, dropped: nat, open: bool, running: bool)

  /** What the sender is told: queued, dropped because the channel is full, or an error because the loop is gone. */
  datatype SendResult = Queued | DroppedFull | ChannelClosed

  datatype Step<E> = Send(e: E) | Receive | Tick | Close

  function Start<E>(): (s: State<E>) {
    State([], [], [], 0, 0, true, true)
  }

  function Flush<E>(s: State<E>): (r: State<E>) {
    if s.batch == [] then s else s.(batch := [], handed := s.handed + [s.batch])
  }

  /** One arm of the loop's select, or one call on the sender; a step that is not enabled changes nothing. */
  function Next<E>(capacity: nat, size: nat, s: State<E>, step: Step<E>): (r: State<E>) {
    match step
    case Send(e) =>
      if !s.open || !s.running then s
      else if |s.queue| < capacity then s.(queue := s.queue + [e], sent := s.sent + 1)
      else s.(dropped := s.dropped + 1)
    case Receive =>
      if !s.running then s
      else if s.queue != [] then
        var s' := s.(batch := s.batch + [s.queue[0]], queue := s.queue[1..]);
        if |s'.batch| >= size then Flush(s') else s'
      else if s.open then s
      else Flush(s).(running := false)
    case Tick => if s.running then Flush(s) else s
    case Close => s.(open := false)
  }

  function Run<E>(capacity: nat, size: nat, steps: seq<Step<E>>): (s: State<E>) {
    if steps == [] then Start()
    else Next(capacity, size, Run(capacity, size, steps[..|steps| - 1]), steps[|steps| - 1])
  }

  class EventBatcher<E(==)> {
    const capacity: nat
    const size: nat
    var queue: seq<E>
    var batch: seq<E>
    var handed: seq<seq<E>>
    var eventsSent: nat
    var eventsDropped: nat
    var open: bool
    var running: bool

    ghost function View(): State<E>
      reads this
    {
      State(queue, batch, handed, eventsSent, eventsDropped, open, running)
    }

    /** A channel of capacity zero is refused by the runtime. */
    constructor (size: nat, capacity: nat)
      requires capacity > 0
      ensures this.capacity == capacity && this.size == size && View() == Start()
    {
      this.capacity, this.size := capacity, size;
      queue, batch, handed, eventsSent, eventsDropped, open, running := [], [], [], 0, 0, true, true;
    }

    /** The sender exists, or nobody could call it; the receiving loop may be gone. */
    method SendEvent(e: E) returns (r: SendResult)
      requires open
      modifies this
      ensures View() == Next(capacity, size, old(View()), Send(e))
      ensures r == if !old(running) then ChannelClosed else if |old(queue)| < capacity then Queued else DroppedFull
    {
      if !running {
        return ChannelClosed;
      }
      if |queue| < capacity {
        queue := queue + [e];
        eventsSent := eventsSent + 1;
        return Queued;
      }
      eventsDropped := eventsDropped + 1;
      return DroppedFull;
    }

    method FlushBatch()
      modifies this`batch, this`handed
      ensures View() == Flush(old(View()))
    {
      if batch == [] {
        return;
      }
      handed := handed + [batch];
      batch := [];
    }

    method ReceiveEvent()
      modifies this
      ensures View() == Next(capacity, size, old(View()), Receive)
    {
      if !running {
        return;
      }
      if queue != [] {
        batch := batch + [queue[0]];
        queue := queue[1..];
        if |batch| >= size {
          FlushBatch();
        }
      } else if !open {
        FlushBatch();
        running := false;
      }
    }

    method FlushTimer()
      modifies this
      ensures View() == Next(capacity, size, old(View()), Tick)
    {
      if running && batch != [] {
        FlushBatch();
      }
    }

    /** The batching loop after the sender is gone: it drains the channel, flushes and exits. */
    method RunToEnd()
      requires !open && running
      modifies this
      ensures !running && queue == [] && batch == []
      ensures Flat(handed) == Flat(old(handed)) + old(batch) + old(queue)
      ensures eventsSent == old(eventsSent) && eventsDropped == old(eventsDropped)
    {
      ghost var all := Flat(handed) + batch + queue;
      while running
        invariant !open
        invariant Flat(handed) + batch + queue == all
        invariant !running ==> queue == [] && batch == []
        invariant eventsSent == old(eventsSent) && eventsDropped == old(eventsDropped)
        decreases running, |queue|
      {
        ghost var s := View();
        ReceiveEvent();
        NextConserves(capacity, size, s, Receive);
      }
    }
  }

  // ---------------------------------------------------------------- conservation over every interleaving

  function Flat<E>(batches: seq<seq<E>>): (r: seq<E>) {
    if batches == [] then [] else Flat(batches[..|batches| - 1]) + batches[|batches| - 1]
  }

  /** What was handed over, what is batched and what is queued. */
  function Held<E>(s: State<E>): (r: seq<E>) {
    Flat(s.handed) + s.batch + s.queue
  }

  /** The events a step puts into the channel. */
  function Taken<E>(capacity: nat, s: State<E>, step: Step<E>): (r: seq<E>) {
    if step.Send? && s.open && s.running && |s.queue| < capacity then [step.e] else []
  }

  function Accepted<E>(capacity: nat, size: nat, steps: seq<Step<E>>): (r: seq<E>) {
    if steps == [] then []
    else
      var before := steps[..|steps| - 1];
      Accepted(capacity, size, before) + Taken(capacity, Run(capacity, size, before), steps[|steps| - 1])
  }

  /** How many events were offered before the sender was dropped. */
  function Sends<E>(steps: seq<Step<E>>): (n: nat) {
    if steps == [] || steps[0].Close? then 0
    else Sends(steps[1..]) + if steps[0].Send? then 1 else 0
  }

  predicate Closed<E>(steps: seq<Step<E>>) {
    exists i | 0 <= i < |steps| :: steps[i].Close?
  }

  lemma {:induction false} SendsAppend<E>(steps: seq<Step<E>>, step: Step<E>)
    ensures Sends(steps + [step]) == Sends(steps) + if step.Send? && !Closed(steps) then 1 else 0
  {
    if steps == [] {
      assert (steps + [step])[1..] == [];
    } else {
      SendsAppend(steps[1..], step);
      assert (steps + [step])[1..] == steps[1..] + [step];
      assert steps[0].Close? ==> Closed(steps);
      assert !steps[0].Close? ==> (Closed(steps) <==> Closed(steps[1..])) by {
        if Closed(steps) && !steps[0].Close? {
          var i :| 0 <= i < |steps| && steps[i].Close?;
          assert steps[1..][i - 1].Close?;
        }
      }
    }
  }

  lemma FlushConserves<E>(s: State<E>)
    ensures Held(Flush(s)) == Held(s)
    ensures Flat(Flush(s).handed) == Flat(s.handed) + s.batch
  {
    if s.batch != [] {
      var handed := s.handed + [s.batch];
      assert handed[..|handed| - 1] == s.handed;
    }
  }

  lemma ShiftConserves<E>(s: State<E>)
    requires s.queue != []
    ensures Held(s.(batch := s.batch + [s.queue[0]], queue := s.queue[1..])) == Held(s)
  {
    hide Flat;
    var done := Flat(s.handed);
    assert (done + (s.batch + [s.queue[0]])) + s.queue[1..] == (done + s.batch) + s.queue;
  }

  lemma NextConserves<E>(capacity: nat, size: nat, s: State<E>, step: Step<E>)
    ensures Held(Next(capacity, size, s, step)) == Held(s) + Taken(capacity, s, step)
  {
    hide Flat;
    FlushConserves(s);
    match step {
      case Send(e) =>
        assert Flat(s.handed) + s.batch + (s.queue + [e]) == Held(s) + [e];
      case Receive =>
        if s.running && s.queue != [] {
          ShiftConserves(s);
          FlushConserves(s.(batch := s.batch + [s.queue[0]], queue := s.queue[1..]));
        }
      case _ =>
    }
  }

  function Limit(size: nat): (n: nat) {
    if size == 0 then 1 else size
  }

  ghost predicate Bounded<E>(capacity: nat, size: nat, s: State<E>) {
    && |s.queue| <= capacity
    && |s.batch| < Limit(size)
    && (forall i | 0 <= i < |s.handed| :: 0 < |s.handed[i]| <= Limit(size))
    && (!s.running ==> !s.open && s.queue == [] && s.batch == [])
  }

  /** Every event accepted is handed over, batched or queued, once and in order; every event offered is accepted or
      counted as dropped; batches are bounded; and once the loop has exited everything accepted has been handed over. */
  lemma {:induction false} BatcherTrace<E>(capacity: nat, size: nat, steps: seq<Step<E>>)
    ensures var s := Run(capacity, size, steps);
            && Held(s) == Accepted(capacity, size, steps)
            && s.sent == |Accepted(capacity, size, steps)|
            && s.sent + s.dropped == Sends(steps)
            && s.open == !Closed(steps)
            && Bounded(capacity, size, s)
            && (!s.running ==> Flat(s.handed) == Accepted(capacity, size, steps))
  {
    if steps != [] {
      hide Next, Held, Bounded, Flat, Taken, Closed, Sends;
      var before, step := steps[..|steps| - 1], steps[|steps| - 1];
      BatcherTrace(capacity, size, before);
      assert steps == before + [step];
      var s := Run(capacity, size, before);
      NextConserves(capacity, size, s, step);
      SendsAppend(before, step);
      NextBounded(capacity, size, s, step);
      ClosedAppend(before, step);
      NextCounts(capacity, size, s, step);
      StoppedHolds(capacity, size, Next(capacity, size, s, step));
    }
  }

  lemma ClosedAppend<E>(steps: seq<Step<E>>, step: Step<E>)
    ensures Closed(steps + [step]) <==> Closed(steps) || step.Close?
  {
    var all := steps + [step];
    assert all[|steps|] == step;
    assert forall i | 0 <= i < |steps| :: all[i] == steps[i];
  }

  lemma NextCounts<E>(capacity: nat, size: nat, s: State<E>, step: Step<E>)
    requires Bounded(capacity, size, s)
    ensures var s' := Next(capacity, size, s, step);
            && s'.open == (s.open && !step.Close?)
            && s'.sent == s.sent + |Taken(capacity, s, step)|
            && s'.sent + s'.dropped == s.sent + s.dropped + if step.Send? && s.open then 1 else 0
  {
  }

  lemma StoppedHolds<E>(capacity: nat, size: nat, s: State<E>)
    requires Bounded(capacity, size, s)
    ensures !s.running ==> Held(s) == Flat(s.handed)
  {
    hide Flat;
    if !s.running {
      assert Flat(s.handed) + [] + [] == Flat(s.handed);
    }
  }

  lemma NextBounded<E>(capacity: nat, size: nat, s: State<E>, step: Step<E>)
    requires Bounded(capacity, size, s)
    ensures Bounded(capacity, size, Next(capacity, size, s, step))
  {
  }

  /** After a tick on a running loop nothing is left batched, and what was has been handed over, as one batch. */
  lemma TickHandsOver<E>(capacity: nat, size: nat, steps: seq<Step<E>>)
    ensures var s, s' := Run(capacity, size, steps), Run(capacity, size, steps + [Tick]);
            && s'.queue == s.queue
            && (s.running ==> s'.batch == [] && Flat(s'.handed) == Flat(s.handed) + s.batch)
            && (s.running && s.batch != [] ==> s'.handed == s.handed + [s.batch])
            && (!s.running || s.batch == [] ==> s' == s)
  {
    hide Flat;
    assert (steps + [Tick])[..|steps|] == steps;
    FlushConserves(Run(capacity, size, steps));
    assert Flat(Run(capacity, size, steps).handed) + [] == Flat(Run(capacity, size, steps).handed);
  }

  /** A receive takes the oldest event of the queue, and hands the batch over exactly when the event fills it; on a drained
      channel whose sender is gone it hands over the rest and ends the loop. */
  lemma ReceiveTakes<E>(capacity: nat, size: nat, steps: seq<Step<E>>)
    requires Run(capacity, size, steps).running
    ensures var s, s' := Run(capacity, size, steps), Run(capacity, size, steps + [Receive]);
            && (s.queue != [] ==>
                  && s'.running && s.queue == [s.queue[0]] + s'.queue
                  && Flat(s'.handed) + s'.batch == Flat(s.handed) + s.batch + [s.queue[0]]
                  && (s'.handed != s.handed <==> |s.batch| + 1 >= size)
                  && (s'.handed != s.handed ==> s'.batch == [] && s'.handed == s.handed + [s.batch + [s.queue[0]]]))
            && (s'.running <==> s.queue != [] || s.open)
  {
    hide Flat, Flush;
    assert (steps + [Receive])[..|steps|] == steps;
    var s := Run(capacity, size, steps);
    hide Run;
    FlushHands(s);
    if s.queue != [] {
      var s1 := s.(batch := s.batch + [s.queue[0]], queue := s.queue[1..]);
      FlushHands(s1);
      assert Flat(s.handed) + s1.batch == Flat(s.handed) + s.batch + [s.queue[0]];
    }
  }

  lemma FlushHands<E>(s: State<E>)
    ensures var s' := Flush(s);
            && s' == s.(batch := [], handed := s'.handed)
            && Flat(s'.handed) + s'.batch == Flat(s.handed) + s.batch
            && (s.batch != [] ==> s'.handed == s.handed + [s.batch] != s.handed)
  {
    hide Flat;
    FlushConserves(s);
    assert |s.handed + [s.batch]| == |s.handed| + 1;
  }

  /** With the channel open, the event sent is accepted exactly when the queue has room; otherwise it is the one dropped and
      the older ones stay. */
  lemma FullDropsNewest<E>(capacity: nat, size: nat, steps: seq<Step<E>>, e: E)
    requires Run(capacity, size, steps).open
    ensures var s, s' := Run(capacity, size, steps), Run(capacity, size, steps + [Send(e)]);
            var before, after := Accepted(capacity, size, steps), Accepted(capacity, size, steps + [Send(e)]);
            && (after == before + [e] <==> |s.queue| < capacity)
            && (|s.queue| >= capacity ==> after == before && s'.queue == s.queue && s'.dropped == s.dropped + 1)
  {
    BatcherTrace(capacity, size, steps);
    assert (steps + [Send(e)])[..|steps|] == steps;
    var before := Accepted(capacity, size, steps);
    assert |before + [e]| == |before| + 1;
  }

  /** With room for one event, the first of two is kept. */
  lemma OldestKept<E>(a: E, b: E)
    ensures Accepted(1, 2, [Send(a), Send(b)]) == [a]
    ensures Run(1, 2, [Send(a), Send(b)]).queue == [a] && Run(1, 2, [Send(a), Send(b)]).dropped == 1
  {
    var one, two := [Send(a)], [Send(a), Send(b)];
    assert one[..0] == [] && two[..1] == one;
    assert Run(1, 2, one).queue == [a];
    assert Accepted(1, 2, one) == [a];
  }
}
