/** Whose question a backend's reply answers. A backend answers in the order it was asked, each request with one reply that
    ends in ReadyForQuery; nothing in a reply says whom it is for. */
module BackendReplies {

  /** A request of the pool (its health check or DISCARD ALL), or of the session seated in the given tenure. */
  datatype Asker = Pool | Tenure(number: nat)

  /** One backend connection: the replies still owed, in order; the present or last tenure and whether a session is seated;
      how many requests that tenure has made, which replies it got, and how many were owed when it began. */
  datatype Line = Line(owed: seq<Asker>, tenure: nat, seated: bool, asked: nat, got: seq<Asker>, stale: nat)

  /** The session asks, reads whole replies, or ends, which a timeout can bring about at any point. A recycle asks twice and
      reads after each until it sees a ReadyForQuery; a read can bring several replies at once, and then all are dropped. */
  datatype Step = Ask | Deliver(n: nat) | HandBack | Recycle(health: nat, discard: nat)

  const START := Line([], 0, true, 0, [], 0)

  predicate Enabled(l: Line, step: Step) {
    match step
    case Ask => l.seated
    case Deliver(n) => l.seated && 1 <= n <= |l.owed|
    case HandBack => l.seated
    case Recycle(health, discard) =>
      !l.seated && 1 <= health <= |l.owed| + 1 && 1 <= discard <= |l.owed| + 2 - health
  }

  /** What a recycle leaves owed: the health check's read takes `health` replies, the one for DISCARD ALL `discard`. */
  function Left(owed: seq<Asker>, health: nat, discard: nat): (r: seq<Asker>)
    requires health <= |owed| + 1 && discard <= |owed| + 2 - health
  {
    ((owed + [Pool])[health..] + [Pool])[discard..]
  }

  function Next(l: Line, step: Step): (r: Line)
    requires Enabled(l, step)
  {
    match step
    case Ask => l.(owed := l.owed + [Tenure(l.tenure)], asked := l.asked + 1)
    case Deliver(n) => l.(owed := l.owed[n..], got := l.got + l.owed[..n])
    case HandBack => l.(seated := false)
    case Recycle(health, discard) =>
      var left := Left(l.owed, health, discard);
      Line(left, l.tenure + 1, true, 0, [], |left|)
  }

  predicate Legal(steps: seq<Step>)
    decreases |steps|, 0
  {
    steps == [] || (Legal(steps[..|steps| - 1]) && Enabled(Run(steps[..|steps| - 1]), steps[|steps| - 1]))
  }

  function Run(steps: seq<Step>): (l: Line)
    requires Legal(steps)
    decreases |steps|, 1
  {
    if steps == [] then START else Next(Run(steps[..|steps| - 1]), steps[|steps| - 1])
  }

  // ---------------------------------------------------------------- every run

  function Repeat(a: Asker, n: nat): (r: seq<Asker>)
    ensures |r| == n
  {
    seq(n, _ => a)
  }

  /** Asked by the pool or in an earlier tenure. */
  ghost predicate Before(tenure: nat, a: Asker) { a.Pool? || a.number < tenure }

  /** What the tenure got and is still owed: first what was owed when it began, and then the replies to its own requests. */
  ghost predicate InOrder(l: Line) {
    exists earlier: seq<Asker> ::
      && |earlier| == l.stale && (forall i | 0 <= i < |earlier| :: Before(l.tenure, earlier[i]))
      && l.got + l.owed == earlier + Repeat(Tenure(l.tenure), l.asked)
  }

  lemma AskInOrder(l: Line)
    requires InOrder(l) && l.seated
    ensures InOrder(Next(l, Ask))
  {
    var earlier :| |earlier| == l.stale && (forall i | 0 <= i < |earlier| :: Before(l.tenure, earlier[i]))
                   && l.got + l.owed == earlier + Repeat(Tenure(l.tenure), l.asked);
    var l', own := Next(l, Ask), Tenure(l.tenure);
    assert l'.got + l'.owed == (l.got + l.owed) + [own];
    assert Repeat(own, l.asked) + [own] == Repeat(own, l.asked + 1);
    assert l'.got + l'.owed == earlier + Repeat(own, l'.asked);
  }

  /** Whatever is owed was asked by the pool or in a tenure so far, so it is all stale for the next one. */
  lemma OwedBefore(l: Line)
    requires InOrder(l)
    ensures forall i | 0 <= i < |l.owed| :: Before(l.tenure + 1, l.owed[i])
  {
    var earlier :| |earlier| == l.stale && (forall i | 0 <= i < |earlier| :: Before(l.tenure, earlier[i]))
                   && l.got + l.owed == earlier + Repeat(Tenure(l.tenure), l.asked);
    forall i | 0 <= i < |l.owed|
      ensures Before(l.tenure + 1, l.owed[i])
    {
      assert l.owed[i] == (l.got + l.owed)[|l.got| + i];
    }
  }

  lemma RecycleInOrder(l: Line, health: nat, discard: nat)
    requires InOrder(l) && Enabled(l, Recycle(health, discard))
    ensures InOrder(Next(l, Recycle(health, discard)))
  {
    OwedBefore(l);
    var l' := Next(l, Recycle(health, discard));
    var once := (l.owed + [Pool])[health..] + [Pool];
    assert forall i | 0 <= i < |once| :: Before(l'.tenure, once[i]);
    assert l'.got + l'.owed == l'.owed + Repeat(Tenure(l'.tenure), 0);
  }

  lemma {:induction false} RunInOrder(steps: seq<Step>)
    requires Legal(steps)
    ensures InOrder(Run(steps))
  {
    if steps == [] {
      var none: seq<Asker> := [];
      assert START.got + START.owed == none + Repeat(Tenure(0), 0);
    } else {
      RunInOrder(steps[..|steps| - 1]);
      var l, step := Run(steps[..|steps| - 1]), steps[|steps| - 1];
      match step {
        case Ask => AskInOrder(l);
        case Deliver(n) =>
          assert l.owed == l.owed[..n] + l.owed[n..];
          assert Next(l, step).got + Next(l, step).owed == l.got + l.owed;
        case HandBack => assert Next(l, step).got + Next(l, step).owed == l.got + l.owed;
        case Recycle(health, discard) => RecycleInOrder(l, health, discard);
      }
    }
  }

  /** On every run, for every reply delivered in the present tenure: it answers one of the tenure's own requests exactly if
      as many replies came before it as were owed when the tenure began; otherwise it answers the pool or an earlier
      tenure. So all are its own exactly if nothing was owed then, or nothing has been delivered yet. */
  lemma WhomRepliesAnswer(steps: seq<Step>)
    requires Legal(steps)
    ensures var l := Run(steps);
            && (forall i | 0 <= i < |l.got| ::
                  if i >= l.stale then l.got[i] == Tenure(l.tenure) else Before(l.tenure, l.got[i]))
            && ((forall i | 0 <= i < |l.got| :: l.got[i] == Tenure(l.tenure)) <==> l.stale == 0 || l.got == [])
  {
    hide Run;
    RunInOrder(steps);
    var l := Run(steps);
    var earlier :| |earlier| == l.stale && (forall i | 0 <= i < |earlier| :: Before(l.tenure, earlier[i]))
                   && l.got + l.owed == earlier + Repeat(Tenure(l.tenure), l.asked);
    assert forall i | 0 <= i < |l.got| :: l.got[i] == (l.got + l.owed)[i];
    if l.stale > 0 && l.got != [] {
      assert l.got[0] == earlier[0] && Before(l.tenure, l.got[0]);
    }
  }

  // ---------------------------------------------------------------- what a recycle can hand on

  /** The next tenure begins with what the two reads did not take of the replies owed at the hand-back and the pool's own
      two: as many as that, and first one of an earlier session exactly if the reads took fewer than were owed and the next
      in line is a session's. */
  lemma StaleExactly(l: Line, health: nat, discard: nat)
    requires Enabled(l, Recycle(health, discard))
    ensures var l' := Next(l, Recycle(health, discard));
            && l'.stale == |l.owed| + 2 - health - discard
            && (l'.owed != [] && l'.owed[0].Tenure? <==> health + discard < |l.owed| && l.owed[health + discard].Tenure?)
  {
    assert Left(l.owed, health, discard) == (l.owed + [Pool, Pool])[health + discard..];
  }

  /** However the replies fall into reads, the next session gets its own replies only, exactly if the last one had been
      given all of its own and of those before: a session that timed out has not. */
  lemma CleanExactly(l: Line)
    requires !l.seated
    ensures (forall health, discard | Enabled(l, Recycle(health, discard)) :: Next(l, Recycle(health, discard)).stale == 0)
       <==> l.owed == []
  {
    assert Enabled(l, Recycle(1, 1)) && Next(l, Recycle(1, 1)).stale == |l.owed|;
  }

  /** Requests left unanswered, a recycle, and the next session's first request. */
  function Late(requests: nat): (steps: seq<Step>) {
    seq(requests, _ => Ask) + [HandBack] + [Recycle(1, 1)] + [Ask] + [Deliver(1)]
  }

  lemma LegalOne(steps: seq<Step>, step: Step)
    requires Legal(steps) && Enabled(Run(steps), step)
    ensures Legal(steps + [step]) && Run(steps + [step]) == Next(Run(steps), step)
  {
    assert (steps + [step])[..|steps|] == steps;
  }

  lemma {:induction false} Asking(requests: nat)
    ensures var steps := seq(requests, _ => Ask);
            Legal(steps) && Run(steps) == Line(Repeat(Tenure(0), requests), 0, true, requests, [], 0)
  {
    var steps := seq(requests, _ => Ask);
    if requests > 0 {
      Asking(requests - 1);
      var before := seq(requests - 1, _ => Ask);
      LegalOne(before, Ask);
      assert before + [Ask] == steps;
      assert Repeat(Tenure(0), requests - 1) + [Tenure(0)] == Repeat(Tenure(0), requests);
    }
  }

  /** Its reply, when each of the pool's reads takes one: with one or two requests unanswered a reply meant for the pool,
      with more the reply to one of those requests. */
  lemma StaleReplyDelivered(requests: nat)
    requires requests > 0
    ensures var steps := Late(requests);
            && Legal(steps) && Run(steps).tenure == 1
            && Run(steps).got == [if requests <= 2 then Pool else Tenure(0)]
  {
    Asking(requests);
    var steps := seq(requests, _ => Ask);
    LegalOne(steps, HandBack);
    steps := steps + [HandBack];
    LegalOne(steps, Recycle(1, 1));
    steps := steps + [Recycle(1, 1)];
    var left := Left(Repeat(Tenure(0), requests), 1, 1);
    assert left == (Repeat(Tenure(0), requests) + [Pool, Pool])[2..];
    assert Run(steps) == Line(left, 1, true, 0, [], requests);
    LegalOne(steps, Ask);
    steps := steps + [Ask];
    LegalOne(steps, Deliver(1));
    assert Late(requests) == steps + [Deliver(1)];
  }
}
