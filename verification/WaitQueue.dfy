/** The bounded FIFO queue of clients waiting for a connection. */
module WaitQueue {
  import opened WireBytes

  /** Names the oneshot channel of one waiter. */
  type Ticket = nat

  datatype Queue = Queue(waiting: seq<Ticket>, depth: int)

  const EMPTY := Queue([], 0)

  /** Each step runs under the queue's lock or is one atomic instruction, so a trace is any interleaving of callers. */
  datatype Op = Enqueue(t: Ticket) | NotifyOne | DropWaiter(t: Ticket)

  predicate Accepts(max: nat, q: Queue) {
    |q.waiting| < max
  }

  function Step(max: nat, q: Queue, op: Op): (r: Queue) {
    match op
    case Enqueue(t) => if Accepts(max, q) then Queue(q.waiting + [t], q.depth + 1) else q
    case NotifyOne => if q.waiting == [] then q else q.(waiting := q.waiting[1..])
    case DropWaiter(_) => q.(depth := q.depth - 1)
  }

  function Run(max: nat, ops: seq<Op>): (r: Queue) {
    if ops == [] then EMPTY else Step(max, Run(max, ops[..|ops| - 1]), ops[|ops| - 1])
  }

  class WaitQueue {
    const maxDepth: nat
    var depth: int
    var waiters: seq<Ticket>

    ghost function View(): Queue
      reads this
    {
      Queue(waiters, depth)
    }

    constructor (maxDepth: nat)
      ensures this.maxDepth == maxDepth && View() == EMPTY
    {
      this.maxDepth, depth, waiters := maxDepth, 0, [];
    }

    method Enqueue(t: Ticket) returns (accepted: bool)
      modifies this
      ensures View() == Step(maxDepth, old(View()), Op.Enqueue(t))
      ensures accepted == Accepts(maxDepth, old(View()))
    {
      if |waiters| >= maxDepth {
        return false;
      }
      waiters := waiters + [t];
      depth := depth + 1;
      return true;
    }

    method NotifyOne() returns (woken: Option<Ticket>)
      modifies this
      ensures View() == Step(maxDepth, old(View()), Op.NotifyOne)
      ensures woken == if old(waiters) == [] then None else Some(old(waiters)[0])
    {
      woken := None;
      if waiters != [] {
        woken := Some(waiters[0]);
        waiters := waiters[1..];
      }
    }

    method DropWaiter(t: Ticket)
      modifies this
      ensures View() == Step(maxDepth, old(View()), Op.DropWaiter(t))
    {
      depth := depth - 1;
    }
  }

  // ---------------------------------------------------------------- every interleaving

  /** The waiters whose enqueue succeeded, in order. */
  function Accepted(max: nat, ops: seq<Op>): (r: seq<Ticket>) {
    if ops == [] then []
    else
      var before := ops[..|ops| - 1];
      match ops[|ops| - 1]
      case Enqueue(t) => if Accepts(max, Run(max, before)) then Accepted(max, before) + [t] else Accepted(max, before)
      case _ => Accepted(max, before)
  }

  /** The senders notified, in order, whether or not anybody still listens. */
  function Woken(max: nat, ops: seq<Op>): (r: seq<Ticket>) {
    if ops == [] then []
    else
      var before := ops[..|ops| - 1];
      var q := Run(max, before);
      if ops[|ops| - 1].NotifyOne? && q.waiting != [] then Woken(max, before) + [q.waiting[0]] else Woken(max, before)
  }

  /** The waiters that exist: accepted and not yet dropped. */
  function Undropped(max: nat, ops: seq<Op>): (r: set<Ticket>) {
    if ops == [] then {}
    else
      var before := ops[..|ops| - 1];
      match ops[|ops| - 1]
      case Enqueue(t) => if Accepts(max, Run(max, before)) then Undropped(max, before) + {t} else Undropped(max, before)
      case NotifyOne => Undropped(max, before)
      case DropWaiter(t) => Undropped(max, before) - {t}
  }

  /** Ownership: each enqueue makes a new channel and a waiter is dropped once, after it exists. */
  predicate Owned(max: nat, ops: seq<Op>) {
    ops == [] ||
    var before := ops[..|ops| - 1];
    && Owned(max, before)
    && match ops[|ops| - 1]
       case Enqueue(t) => t !in Accepted(max, before) && t !in Undropped(max, before)
       case NotifyOne => true
       case DropWaiter(t) => t in Undropped(max, before)
  }

  /** Wakeups are in arrival order with nobody skipped, and the queue stays bounded. */
  lemma {:induction false} WakesInOrder(max: nat, ops: seq<Op>)
    ensures Woken(max, ops) + Run(max, ops).waiting == Accepted(max, ops)
    ensures |Run(max, ops).waiting| <= max
  {
    if ops != [] {
      var before := ops[..|ops| - 1];
      WakesInOrder(max, before);
      var q, w := Run(max, before), Woken(max, before);
      match ops[|ops| - 1] {
        case Enqueue(t) =>
          assert w + (q.waiting + [t]) == (w + q.waiting) + [t];
        case NotifyOne =>
          assert q.waiting != [] ==> (w + [q.waiting[0]]) + q.waiting[1..] == w + q.waiting;
        case DropWaiter(_) =>
      }
    }
  }

  /** The depth counts the waiters that exist. */
  lemma {:induction false} DepthCountsWaiters(max: nat, ops: seq<Op>)
    requires Owned(max, ops)
    ensures Run(max, ops).depth == |Undropped(max, ops)|
  {
    if ops != [] {
      var before := ops[..|ops| - 1];
      DepthCountsWaiters(max, before);
      var live := Undropped(max, before);
      match ops[|ops| - 1] {
        case Enqueue(t) => assert |live + {t}| == |live| + 1;
        case NotifyOne =>
        case DropWaiter(t) => assert |live - {t}| == |live| - 1;
      }
    }
  }

  /** No counter underflow, on any prefix of any run. */
  lemma DepthNeverNegative(max: nat, ops: seq<Op>, n: nat)
    requires Owned(max, ops) && n <= |ops|
    ensures Run(max, ops[..n]).depth >= 0
    decreases |ops| - n
  {
    OwnedPrefix(max, ops, n);
    DepthCountsWaiters(max, ops[..n]);
  }

  lemma {:induction false} OwnedPrefix(max: nat, ops: seq<Op>, n: nat)
    requires Owned(max, ops) && n <= |ops|
    ensures Owned(max, ops[..n])
  {
    if n == |ops| {
      assert ops[..n] == ops;
    } else {
      var before := ops[..|ops| - 1];
      OwnedPrefix(max, before, n);
      assert before[..n] == ops[..n];
    }
  }

  /** The reported depth may pass the bound: a woken waiter still counts while a new one takes its place. */
  lemma DepthMayExceedBound()
    ensures exists ops :: Owned(1, ops) && Run(1, ops).depth > 1
  {
    var a: seq<Op> := [Enqueue(0)];
    var b: seq<Op> := a + [NotifyOne];
    var c: seq<Op> := b + [Enqueue(1)];
    assert a[..0] == [] && b[..1] == a && c[..2] == b;
    assert Run(1, a) == Queue([0], 1) && Run(1, b) == Queue([], 1) && Run(1, c) == Queue([1], 2);
    assert Accepted(1, a) == [0] && Accepted(1, b) == [0] && Undropped(1, b) == {0};
    assert Owned(1, a) && Owned(1, b) && Owned(1, c);
  }

  // ---------------------------------------------------------------- waiters that gave up

  predicate Distinct(s: seq<Ticket>) { forall i, j | 0 <= i < j < |s| :: s[i] != s[j] }

  lemma {:induction false} AcceptedOnce(max: nat, ops: seq<Op>)
    requires Owned(max, ops)
    ensures Distinct(Accepted(max, ops))
  {
    if ops != [] {
      AcceptedOnce(max, ops[..|ops| - 1]);
    }
  }

  /** Accepted, not woken yet, and still there; or dropped before being woken. */
  ghost function Listening(max: nat, ops: seq<Op>): (r: set<Ticket>) {
    set t | t in Accepted(max, ops) && t !in Woken(max, ops) && t in Undropped(max, ops)
  }

  ghost function GaveUp(max: nat, ops: seq<Op>): (r: set<Ticket>) {
    set t | t in Accepted(max, ops) && t !in Woken(max, ops) && t !in Undropped(max, ops)
  }

  ghost function Members(s: seq<Ticket>): (r: set<Ticket>) { set t | t in s }

  lemma {:induction false} SizeOfDistinct(s: seq<Ticket>)
    requires Distinct(s)
    ensures |Members(s)| == |s|
  {
    if s != [] {
      var before, last := s[..|s| - 1], s[|s| - 1];
      SizeOfDistinct(before);
      assert last !in before;
      assert s == before + [last];
      assert Members(s) == Members(before) + {last};
    }
  }

  /** Over every interleaving, a waiter dropped before it is woken keeps its place: those in the queue are exactly the ones
      listening and the ones that gave up. */
  lemma DroppedKeepsPlace(max: nat, ops: seq<Op>)
    requires Owned(max, ops)
    ensures Members(Run(max, ops).waiting) == Listening(max, ops) + GaveUp(max, ops)
    ensures |Run(max, ops).waiting| == |Listening(max, ops)| + |GaveUp(max, ops)|
  {
    hide Run, Accepted, Woken, Undropped, Owned;
    WakesInOrder(max, ops);
    AcceptedOnce(max, ops);
    var w, q, all := Woken(max, ops), Run(max, ops).waiting, Accepted(max, ops);
    assert forall i | 0 <= i < |w| :: all[i] == w[i];
    assert forall i | 0 <= i < |q| :: all[|w| + i] == q[i];
    forall t
      ensures t in q <==> t in all && t !in w
    {
      if t in all && t !in w {
        var i :| 0 <= i < |all| && all[i] == t;
        assert q[i - |w|] == t;
      }
    }
    SizeOfDistinct(q);
    var a, b := Listening(max, ops), GaveUp(max, ops);
    assert a !! b;
    assert |a + b| == |a| + |b|;
  }

  /** A notification reaches somebody exactly when the waiter at the front has not given up; otherwise it is used up. */
  lemma NotifyReachesExactly(max: nat, ops: seq<Op>)
    requires Owned(max, ops)
    ensures var q := Run(max, ops).waiting;
            && (Listening(max, ops + [NotifyOne]) != Listening(max, ops) <==> q != [] && q[0] in Listening(max, ops))
            && (GaveUp(max, ops + [NotifyOne]) != GaveUp(max, ops) <==> q != [] && q[0] in GaveUp(max, ops))
            && (q != [] ==> q[0] in Listening(max, ops) || q[0] in GaveUp(max, ops))
  {
    var ops' := ops + [NotifyOne];
    assert ops'[..|ops|] == ops;
    DroppedKeepsPlace(max, ops);
    var q := Run(max, ops).waiting;
    hide Run, Undropped, Owned;
    if q != [] {
      assert q[0] in Members(q);
      assert Woken(max, ops') == Woken(max, ops) + [q[0]];
      assert Listening(max, ops') == Listening(max, ops) - {q[0]};
      assert GaveUp(max, ops') == GaveUp(max, ops) - {q[0]};
    } else {
      assert Listening(max, ops') == Listening(max, ops);
      assert GaveUp(max, ops') == GaveUp(max, ops);
    }
  }

  /** A client is turned away with fewer listening than the bound exactly when those that gave up fill the rest. */
  lemma TurnedAwayExactly(max: nat, ops: seq<Op>)
    requires Owned(max, ops)
    ensures !Accepts(max, Run(max, ops)) <==> |Listening(max, ops)| + |GaveUp(max, ops)| == max
    ensures !Accepts(max, Run(max, ops)) && |Listening(max, ops)| < max
       <==> |GaveUp(max, ops)| == max - |Listening(max, ops)| > 0
  {
    hide Run, Listening, GaveUp;
    DroppedKeepsPlace(max, ops);
    WakesInOrder(max, ops);
  }

  /** With room for one: a waiter that gave up keeps the next client out though nobody listens. */
  lemma GaveUpKeepsOut()
    ensures exists ops :: Owned(1, ops) && Listening(1, ops) == {} && !Accepts(1, Run(1, ops))
  {
    var a: seq<Op> := [Enqueue(0)];
    var b: seq<Op> := a + [DropWaiter(0)];
    assert a[..0] == [] && b[..1] == a;
    assert Run(1, a) == Queue([0], 1) && Run(1, b) == Queue([0], 0);
    assert Undropped(1, a) == {0} && Undropped(1, b) == {};
    assert Owned(1, a) && Owned(1, b);
    assert Listening(1, b) == {};
  }
}
