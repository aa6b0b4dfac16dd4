/** Who holds each backend connection, over every interleaving of the pool manager's callers. */
module PoolOwnership {
  import opened WireBytes
  import opened PoolManager
  import WaitQueue

  /** Names one outstanding checked-out connection value. */
  type Handle = nat

  /** The manager, the connections its callers hold, and every physical connection in existence. */
  datatype System = System(m: Manager, out: map<Handle, Managed>, known: set<Conn>)

  datatype Step =
    | Begin(h: Handle, client: Client, needsSticky: bool, got: Option<Conn>, t: WaitQueue.Ticket)
    | Resumed(h: Handle, client: Client, got: Option<Conn>, t: WaitQueue.Ticket)
    | Expires(t: WaitQueue.Ticket)
    | GiveBack(h: Handle, now: Instant)
    | PinTo(h: Handle, client: Client, reason: Reason, now: Instant)
    | Drop(h: Handle)
    | UnpinClient(client: Client)
    | SweepClient(client: Client, now: Instant)
    | Pause
    | Resume
    | Discard(c: Conn)

  /** The pool hands out what is idle in it or opens a new connection. */
  predicate Poolable(s: System, got: Option<Conn>) {
    got.Some? ==> got.value in s.m.idle || got.value !in s.known
  }

  predicate Enabled(s: System, step: Step) {
    match step
    case Begin(h, _, _, got, _) => h !in s.out && Poolable(s, got)
    case Resumed(h, _, got, _) => h !in s.out && Poolable(s, got)
    case GiveBack(h, _) => h in s.out
    case PinTo(h, _, _, _) => h in s.out
    case Drop(h) => h in s.out
    case Discard(c) => c in s.m.idle
    case _ => true
  }

  function Handed(s: System, h: Handle, r: (Manager, Acquired)): (s': System) {
    if r.1.Got? then System(r.0, s.out[h := r.1.conn], s.known + {r.1.conn.conn}) else s.(m := r.0)
  }

  function Next(cfg: Config, s: System, step: Step): (s': System)
    requires Enabled(s, step)
  {
    match step
    case Begin(h, client, needsSticky, got, t) => Handed(s, h, Acquire(cfg, s.m, client, needsSticky, got, t))
    case Resumed(h, client, got, t) => Handed(s, h, Woken(cfg, s.m, client, got, t))
    case Expires(t) => s.(m := TimedOut(cfg, s.m, t).0)
    case GiveBack(h, now) => s.(m := Release(cfg, s.m, s.out[h], now), out := s.out - {h})
    case PinTo(h, client, reason, now) => s.(m := Pin(s.m, client, reason, s.out[h], now), out := s.out - {h})
    case Drop(h) => s.(m := s.m.(idle := s.m.idle + {s.out[h].conn}), out := s.out - {h})
    case UnpinClient(client) => s.(m := Unpin(cfg, s.m, client))
    case SweepClient(client, now) => s.(m := Expire(cfg, s.m, client, now))
    case Pause => s.(m := s.m.(accepting := false))
    case Resume => s.(m := Queued(cfg, s.m.(accepting := true), WaitQueue.NotifyOne))
    case Discard(c) => s.(m := s.m.(idle := s.m.idle - {c}), known := s.known - {c})
  }

  // ---------------------------------------------------------------- exactly one holder

  predicate Exclusive(s: System) {
    && s.m.idle <= s.known
    && (forall h | h in s.out :: s.out[h].conn in s.known && s.out[h].conn !in s.m.idle)
    && (forall k | k in s.m.sticky :: s.m.sticky[k].conn in s.known && s.m.sticky[k].conn !in s.m.idle)
    && (forall h, g | h in s.out && g in s.out && h != g :: s.out[h].conn != s.out[g].conn)
    && (forall k, l | k in s.m.sticky && l in s.m.sticky && k != l :: s.m.sticky[k].conn != s.m.sticky[l].conn)
    && (forall h, k | h in s.out && k in s.m.sticky :: s.out[h].conn != s.m.sticky[k].conn)
  }

  predicate HeldOut(s: System, c: Conn) {
    exists h | h in s.out :: s.out[h].conn == c
  }

  predicate HeldSticky(s: System, c: Conn) {
    exists k | k in s.m.sticky :: s.m.sticky[k].conn == c
  }

  predicate Covered(s: System) {
    forall c | c in s.known :: c in s.m.idle || HeldOut(s, c) || HeldSticky(s, c)
  }

  predicate BindingsFresh(m: Manager) {
    && (forall k | k in m.sticky :: m.sticky[k].binding < m.nextBinding)
    && (forall k, l | k in m.sticky && l in m.sticky && k != l :: m.sticky[k].binding != m.sticky[l].binding)
  }

  /** Each physical connection is in the pool, or in one checked-out value, or in one sticky entry; binding ids differ. */
  predicate Owned(s: System) {
    Exclusive(s) && Covered(s) && BindingsFresh(s.m)
  }

  /** Moving one connection `x` leaves the others where they were. */
  lemma CoveredBy(s: System, s': System, x: Conn)
    requires Covered(s)
    requires s'.known <= s.known + {x} && s.m.idle <= s'.m.idle + {x}
    requires forall h | h in s.out :: s.out[h].conn == x || (h in s'.out && s'.out[h].conn == s.out[h].conn)
    requires forall k | k in s.m.sticky ::
               s.m.sticky[k].conn == x || (k in s'.m.sticky && s'.m.sticky[k].conn == s.m.sticky[k].conn)
    requires x in s'.known ==> x in s'.m.idle || HeldOut(s', x) || HeldSticky(s', x)
    ensures Covered(s')
  {
  }

  lemma HandedOwned(s: System, h: Handle, r: (Manager, Acquired))
    requires Owned(s) && h !in s.out
    requires r.0.sticky == s.m.sticky && r.0.nextBinding == s.m.nextBinding
    requires r.1.Got? ==> r.0.idle == s.m.idle - {r.1.conn.conn} && Poolable(s, Some(r.1.conn.conn))
    requires !r.1.Got? ==> r.0.idle == s.m.idle
    ensures Owned(Handed(s, h, r))
  {
    var s' := Handed(s, h, r);
    if r.1.Got? {
      assert s'.out[h].conn == r.1.conn.conn;
    }
    CoveredBy(s, s', if r.1.Got? then r.1.conn.conn else 0);
  }

  lemma StickyTakenOwned(s: System, h: Handle, client: Client)
    requires Owned(s) && h !in s.out && client in s.m.sticky
    ensures var e := s.m.sticky[client];
            Owned(System(s.m.(sticky := s.m.sticky - {client}),
                         s.out[h := Managed(e.conn, client, true, Some(e.binding))], s.known + {e.conn}))
  {
    var e := s.m.sticky[client];
    var s' := System(s.m.(sticky := s.m.sticky - {client}),
                     s.out[h := Managed(e.conn, client, true, Some(e.binding))], s.known + {e.conn});
    assert s'.out[h].conn == e.conn;
    CoveredBy(s, s', e.conn);
    hide Covered, Exclusive;
    StickyTakenExclusive(s, h, client, s');
  }

  lemma StickyTakenExclusive(s: System, h: Handle, client: Client, s': System)
    requires Exclusive(s) && h !in s.out && client in s.m.sticky && s'.m == s.m.(sticky := s.m.sticky - {client})
    requires s'.out.Keys == s.out.Keys + {h} && s'.known == s.known + {s.m.sticky[client].conn}
    requires forall g | g in s'.out :: s'.out[g].conn == if g == h then s.m.sticky[client].conn else s.out[g].conn
    ensures Exclusive(s')
  {
  }

  lemma BeginOwned(cfg: Config, s: System, step: Step)
    requires Owned(s) && Enabled(s, step) && step.Begin?
    ensures Owned(Next(cfg, s, step))
  {
    hide WaitQueue.Step, WaitQueue.Accepts;
    var Begin(h, client, needsSticky, got, t) := step;
    if s.m.accepting && needsSticky && client in s.m.sticky {
      StickyTakenOwned(s, h, client);
    } else {
      hide Owned;
      HandedOwned(s, h, Acquire(cfg, s.m, client, needsSticky, got, t));
    }
  }

  /** Giving up a checked-out connection: to the pool, or to a new sticky entry of a client that has none. */
  lemma ReturnedOwned(s: System, h: Handle, s': System)
    requires Owned(s) && h in s.out && s'.out == s.out - {h} && s'.known == s.known
    requires s'.m.nextBinding == s.m.nextBinding && s'.m.idle == s.m.idle + {s.out[h].conn}
    requires s'.m.sticky.Keys == s.m.sticky.Keys
    requires forall k | k in s.m.sticky ::
               s'.m.sticky[k].conn == s.m.sticky[k].conn && s'.m.sticky[k].binding == s.m.sticky[k].binding
    ensures Owned(s')
  {
    CoveredBy(s, s', s.out[h].conn);
  }

  lemma BoundOwned(s: System, h: Handle, client: Client, reasons: seq<Reason>, now: Instant, q: WaitQueue.Queue)
    requires Owned(s) && h in s.out && client !in s.m.sticky
    ensures Owned(s.(m := Bound(s.m, client, s.out[h].conn, reasons, now).(queue := q), out := s.out - {h}))
  {
    var s' := s.(m := Bound(s.m, client, s.out[h].conn, reasons, now).(queue := q), out := s.out - {h});
    assert s'.m.sticky[client].conn == s.out[h].conn;
    CoveredBy(s, s', s.out[h].conn);
  }

  lemma UnboundOwned(s: System, client: Client, q: WaitQueue.Queue)
    requires Owned(s) && client in s.m.sticky
    ensures Owned(s.(m := Unbound(s.m, client).(queue := q)))
  {
    CoveredBy(s, s.(m := Unbound(s.m, client).(queue := q)), s.m.sticky[client].conn);
  }

  lemma GiveBackOwned(cfg: Config, s: System, h: Handle, now: Instant)
    requires Owned(s) && h in s.out
    ensures Owned(Next(cfg, s, GiveBack(h, now)))
  {
    var s', conn := Next(cfg, s, GiveBack(h, now)), s.out[h];
    if conn.pinned && conn.client !in s.m.sticky {
      BoundOwned(s, h, conn.client, [], now, s'.m.queue);
    } else {
      ReturnedOwned(s, h, s');
    }
  }

  lemma NextOwned(cfg: Config, s: System, step: Step)
    requires Owned(s) && Enabled(s, step)
    ensures Owned(Next(cfg, s, step))
  {
    hide Owned, WaitQueue.Step;
    var s' := Next(cfg, s, step);
    match step {
      case Begin(_, _, _, _, _) => BeginOwned(cfg, s, step);
      case Resumed(h, client, got, t) => HandedOwned(s, h, Woken(cfg, s.m, client, got, t));
      case GiveBack(h, now) => GiveBackOwned(cfg, s, h, now);
      case PinTo(h, client, reason, now) =>
        if client in s.m.sticky {
          ReturnedOwned(s, h, s');
        } else {
          BoundOwned(s, h, client, [reason], now, s.m.queue);
        }
      case Drop(h) => ReturnedOwned(s, h, s');
      case UnpinClient(client) =>
        if client in s.m.sticky {
          UnboundOwned(s, client, s'.m.queue);
        }
      case SweepClient(client, now) =>
        if s' != s {
          UnboundOwned(s, client, s.m.queue);
        }
      case Discard(c) => DiscardOwned(s, c);
      case _ => SamePlaces(s, s');
    }
  }

  lemma DiscardOwned(s: System, c: Conn)
    requires Owned(s) && c in s.m.idle
    ensures Owned(s.(m := s.m.(idle := s.m.idle - {c}), known := s.known - {c}))
  {
    CoveredBy(s, s.(m := s.m.(idle := s.m.idle - {c}), known := s.known - {c}), c);
  }

  lemma SamePlaces(s: System, s': System)
    requires Owned(s) && s'.out == s.out && s'.known == s.known
    requires s'.m.idle == s.m.idle && s'.m.sticky == s.m.sticky && s'.m.nextBinding == s.m.nextBinding
    ensures Owned(s')
  {
    CoveredBy(s, s', 0);
  }

  // ---------------------------------------------------------------- every reachable state

  const START := System(New(), map[], {})

  predicate LegalFrom(cfg: Config, s: System, steps: seq<Step>)
    decreases |steps|
  {
    steps == [] || (Enabled(s, steps[0]) && LegalFrom(cfg, Next(cfg, s, steps[0]), steps[1..]))
  }

  function RunFrom(cfg: Config, s: System, steps: seq<Step>): (s': System)
    requires LegalFrom(cfg, s, steps)
    decreases |steps|
  {
    if steps == [] then s else RunFrom(cfg, Next(cfg, s, steps[0]), steps[1..])
  }

  /** In every reachable state each connection has exactly one holder and binding ids are distinct and used up. */
  lemma OwnershipTrace(cfg: Config, steps: seq<Step>)
    requires LegalFrom(cfg, START, steps)
    ensures Owned(RunFrom(cfg, START, steps))
  {
    RunOwned(cfg, START, steps);
  }

  lemma {:induction false} RunOwned(cfg: Config, s: System, steps: seq<Step>)
    requires Owned(s) && LegalFrom(cfg, s, steps)
    ensures Owned(RunFrom(cfg, s, steps))
    decreases |steps|
  {
    hide Owned, Next;
    if steps != [] {
      NextOwned(cfg, s, steps[0]);
      RunOwned(cfg, Next(cfg, s, steps[0]), steps[1..]);
    }
  }

  // ---------------------------------------------------------------- sticky acquire and release

  /** A step of anybody that neither uses up handle `h` nor binds `client`. */
  predicate Spares(s: System, step: Step, h: Handle, client: Client) {
    match step
    case GiveBack(g, _) => g != h && (g in s.out ==> !(s.out[g].pinned && s.out[g].client == client))
    case PinTo(g, c, _, _) => g != h && c != client
    case Drop(g) => g != h
    case _ => true
  }

  predicate AllSpare(cfg: Config, s: System, steps: seq<Step>, h: Handle, client: Client)
    requires LegalFrom(cfg, s, steps)
    decreases |steps|
  {
    steps == [] || (Spares(s, steps[0], h, client) && AllSpare(cfg, Next(cfg, s, steps[0]), steps[1..], h, client))
  }

  lemma {:induction false} SparedRun(cfg: Config, s: System, steps: seq<Step>, h: Handle, client: Client)
    requires LegalFrom(cfg, s, steps) && AllSpare(cfg, s, steps, h, client)
    requires h in s.out && client !in s.m.sticky
    ensures var s' := RunFrom(cfg, s, steps);
            h in s'.out && s'.out[h] == s.out[h] && client !in s'.m.sticky
    decreases |steps|
  {
    if steps != [] {
      SparedRun(cfg, Next(cfg, s, steps[0]), steps[1..], h, client);
    }
  }

  /** Taking the sticky connection and giving it back, with anything in between, rebinds the same connection. */
  lemma StickyRestored(cfg: Config, s: System, h: Handle, client: Client, got: Option<Conn>, t: WaitQueue.Ticket,
                       steps: seq<Step>, now: Instant)
    requires s.m.accepting && client in s.m.sticky && Enabled(s, Begin(h, client, true, got, t))
    requires var s1 := Next(cfg, s, Begin(h, client, true, got, t));
             LegalFrom(cfg, s1, steps) && AllSpare(cfg, s1, steps, h, client)
    ensures var s2 := RunFrom(cfg, Next(cfg, s, Begin(h, client, true, got, t)), steps);
            && h in s2.out
            && var s3 := Next(cfg, s2, GiveBack(h, now));
            && client in s3.m.sticky && s3.m.sticky[client].conn == s.m.sticky[client].conn
            && s3.m.idle == s2.m.idle && s3.m.sticky - {client} == s2.m.sticky
  {
    SparedRun(cfg, Next(cfg, s, Begin(h, client, true, got, t)), steps, h, client);
  }

  /** A pinned connection given back becomes sticky again exactly when its client has not been bound meanwhile. */
  lemma RebindsExactly(cfg: Config, s: System, h: Handle, now: Instant)
    requires Owned(s) && h in s.out && s.out[h].pinned
    ensures var s' := Next(cfg, s, GiveBack(h, now));
            && (HeldSticky(s', s.out[h].conn) <==> s.out[h].client !in s.m.sticky)
            && (s.out[h].conn in s'.m.idle <==> s.out[h].client in s.m.sticky)
  {
    var s' := Next(cfg, s, GiveBack(h, now));
    if s.out[h].client !in s.m.sticky {
      assert s'.m.sticky[s.out[h].client].conn == s.out[h].conn;
    }
  }

  predicate Distinct(reasons: seq<Reason>) {
    forall i, j | 0 <= i < j < |reasons| :: reasons[i] != reasons[j]
  }

  predicate ReasonsDistinct(m: Manager) {
    forall k | k in m.sticky :: Distinct(m.sticky[k].reasons)
  }

  lemma NextReasons(cfg: Config, s: System, step: Step)
    requires ReasonsDistinct(s.m) && Enabled(s, step)
    ensures ReasonsDistinct(Next(cfg, s, step).m)
  {
    hide WaitQueue.Step;
  }

  /** In every reachable state no reason is listed twice for a client. */
  lemma {:induction false} ReasonsTrace(cfg: Config, s: System, steps: seq<Step>)
    requires ReasonsDistinct(s.m) && LegalFrom(cfg, s, steps)
    ensures ReasonsDistinct(RunFrom(cfg, s, steps).m)
    decreases |steps|
  {
    hide ReasonsDistinct, Next;
    if steps != [] {
      NextReasons(cfg, s, steps[0]);
      ReasonsTrace(cfg, Next(cfg, s, steps[0]), steps[1..]);
    }
  }

  /** Pinning keeps the reasons given before and adds this one; only the first pin binds the connection handed in. */
  lemma PinRecords(cfg: Config, s: System, h: Handle, client: Client, reason: Reason, now: Instant)
    requires Owned(s) && h in s.out
    ensures var s' := Next(cfg, s, PinTo(h, client, reason, now));
            && client in s'.m.sticky && reason in s'.m.sticky[client].reasons
            && (client in s.m.sticky ==> s.m.sticky[client].reasons <= s'.m.sticky[client].reasons)
            && (HeldSticky(s', s.out[h].conn) <==> client !in s.m.sticky)
            && (s.out[h].conn in s'.m.idle <==> client in s.m.sticky)
  {
    var s' := Next(cfg, s, PinTo(h, client, reason, now));
    if client !in s.m.sticky {
      assert s'.m.sticky[client].conn == s.out[h].conn;
    }
  }

  /** An acquire begun while paused is refused and changes nothing; only then is it refused as paused. */
  lemma PausedAcquire(cfg: Config, s: System, step: Step)
    requires step.Begin? && Enabled(s, step)
    ensures !s.m.accepting ==> Next(cfg, s, step) == s
    ensures !s.m.accepting <==>
              Acquire(cfg, s.m, step.client, step.needsSticky, step.got, step.t).1 == Failed(Paused)
  {
  }

  // ---------------------------------------------------------------- who gets a connection

  /** The caller holds `conn` for `client`, pinned or not, and nobody else's holding has changed. */
  predicate NowHolds(s: System, s': System, h: Handle, client: Client, conn: Conn, pinned: bool) {
    && s'.out.Keys == s.out.Keys + {h} && (forall g | g in s.out :: s'.out[g] == s.out[g])
    && s'.out[h].conn == conn && s'.out[h].client == client && s'.out[h].pinned == pinned
  }

  /** An acquire, from every state: the caller holds a connection afterwards exactly when the manager accepts and the client
      has the sticky entry it asks for or the pool has a connection; the sticky one leaves the map and comes pinned, the
      other leaves the pool. Otherwise the caller is parked at the back of the queue exactly when the manager accepts and
      the queue has room, and else nothing changes. */
  lemma AcquireHands(cfg: Config, s: System, step: Step)
    requires Enabled(s, step) && step.Begin?
    ensures var s' := Next(cfg, s, step);
            var Begin(h, client, needsSticky, got, t) := step;
            var sticky := needsSticky && client in s.m.sticky;
            && (h in s'.out <==> s.m.accepting && (sticky || got.Some?))
            && (s.m.accepting && sticky ==>
                  && NowHolds(s, s', h, client, s.m.sticky[client].conn, true)
                  && s'.out[h].binding == Some(s.m.sticky[client].binding)
                  && s'.m == s.m.(sticky := s.m.sticky - {client})
                  && (Owned(s) ==> s.m.sticky[client].conn !in s'.m.idle))
            && (s.m.accepting && !sticky && got.Some? ==>
                  && NowHolds(s, s', h, client, got.value, false) && s'.out[h].binding == None
                  && s'.m == s.m.(idle := s.m.idle - {got.value}))
            && (s'.m.queue.waiting == s.m.queue.waiting + [t] <==>
                  s.m.accepting && !sticky && got.None? && |s.m.queue.waiting| < cfg.queueDepth)
            && (h !in s'.out ==> s' == s.(m := s.m.(queue := s'.m.queue)))
            && (h !in s'.out && s'.m.queue.waiting != s.m.queue.waiting + [t] ==> s' == s)
  {
    var s' := Next(cfg, s, step);
    assert |s.m.queue.waiting + [step.t]| == |s.m.queue.waiting| + 1;
  }

  /** A parked acquire that was woken holds a connection exactly when the pool has one now, unpinned, for its client. */
  lemma ResumedHands(cfg: Config, s: System, step: Step)
    requires Enabled(s, step) && step.Resumed?
    ensures var s' := Next(cfg, s, step);
            var Resumed(h, client, got, _) := step;
            && (h in s'.out <==> got.Some?)
            && (got.Some? ==> NowHolds(s, s', h, client, got.value, false) && s'.out[h].binding == None)
            && (got.None? ==> s'.out == s.out)
            && s'.m == s.m.(queue := s.m.queue.(depth := s.m.queue.depth - 1),
                            idle := if got.Some? then s.m.idle - {got.value} else s.m.idle)
  {
  }

  // ---------------------------------------------------------------- who is woken

  /** The step makes a connection available, or lets acquires in again. */
  predicate Notifies(s: System, step: Step) {
    match step
    case GiveBack(_, _) => true
    case UnpinClient(client) => client in s.m.sticky
    case Resume => true
    case _ => false
  }

  /** The step parks its caller. */
  predicate Parks(cfg: Config, s: System, step: Step) {
    && step.Begin? && s.m.accepting && !(step.needsSticky && step.client in s.m.sticky) && step.got.None?
    && |s.m.queue.waiting| < cfg.queueDepth
  }

  /** From every state a connection given back, an unpin and a resume wake the waiter at the front, a parked caller goes to
      the back, and nothing else moves the queue; the depth follows those that park and those that go on. */
  lemma FrontWoken(cfg: Config, s: System, step: Step)
    requires Enabled(s, step)
    ensures var q, q' := s.m.queue.waiting, Next(cfg, s, step).m.queue.waiting;
            && (Notifies(s, step) && q != [] ==> q == [q[0]] + q')
            && (Notifies(s, step) && q == [] ==> q' == [])
            && (Parks(cfg, s, step) ==> q' == q + [step.t])
            && (!Notifies(s, step) && !Parks(cfg, s, step) ==> q' == q)
            && Next(cfg, s, step).m.queue.depth ==
                 s.m.queue.depth + (if Parks(cfg, s, step) then 1 else if step.Resumed? || step.Expires? then -1 else 0)
  {
  }

  // ---------------------------------------------------------------- which bindings the sweep ends

  /** The step uses the sticky entry of `client`: its pinned connection comes back, or it is pinned for a reason. */
  predicate Uses(s: System, step: Step, client: Client) {
    match step
    case GiveBack(h, _) => h in s.out && s.out[h].pinned && s.out[h].client == client
    case PinTo(_, c, _, _) => c == client
    case _ => false
  }

  /** The state after the first `k` steps. */
  function StateAt(cfg: Config, s: System, steps: seq<Step>, k: nat): (r: System)
    requires LegalFrom(cfg, s, steps) && k <= |steps|
    decreases k
  {
    if k == 0 then s else StateAt(cfg, Next(cfg, s, steps[0]), steps[1..], k - 1)
  }

  lemma {:induction false} StepAt(cfg: Config, s: System, steps: seq<Step>, k: nat)
    requires LegalFrom(cfg, s, steps) && k < |steps|
    ensures Enabled(StateAt(cfg, s, steps, k), steps[k])
    ensures StateAt(cfg, s, steps, k + 1) == Next(cfg, StateAt(cfg, s, steps, k), steps[k])
    decreases k
  {
    hide Enabled, Next;
    if k > 0 {
      StepAt(cfg, Next(cfg, s, steps[0]), steps[1..], k - 1);
    }
  }

  /** Step `j` of the first `k` is the last that uses the entry of `client`. */
  ghost predicate LastUse(cfg: Config, s: System, steps: seq<Step>, k: nat, j: nat, client: Client)
    requires LegalFrom(cfg, s, steps) && k <= |steps|
  {
    && j < k && (steps[j].GiveBack? || steps[j].PinTo?) && Uses(StateAt(cfg, s, steps, j), steps[j], client)
    && forall i | j < i < k :: !Uses(StateAt(cfg, s, steps, i), steps[i], client)
  }

  lemma UseRecorded(cfg: Config, s: System, step: Step, client: Client)
    requires Enabled(s, step) && client in Next(cfg, s, step).m.sticky
    ensures Uses(s, step, client) ==> step.GiveBack? || step.PinTo?
    ensures var s' := Next(cfg, s, step);
            if Uses(s, step, client) then s'.m.sticky[client].lastUsed == step.now
            else client in s.m.sticky && s'.m.sticky[client].lastUsed == s.m.sticky[client].lastUsed
  {
    hide WaitQueue.Step;
  }

  /** In every reachable state a sticky entry carries the time of the last step that used it. */
  lemma {:induction false} LastUsedTrace(cfg: Config, steps: seq<Step>, k: nat, client: Client)
    requires LegalFrom(cfg, START, steps) && k <= |steps| && client in StateAt(cfg, START, steps, k).m.sticky
    ensures exists j: nat :: LastUse(cfg, START, steps, k, j, client)
                     && StateAt(cfg, START, steps, k).m.sticky[client].lastUsed == steps[j].now
    decreases k
  {
    hide StateAt, LegalFrom, Next, Enabled, Uses;
    if k == 0 {
      StartsEmpty(cfg, steps);
    } else {
      var s := StateAt(cfg, START, steps, k - 1);
      StepAt(cfg, START, steps, k - 1);
      UseRecorded(cfg, s, steps[k - 1], client);
      if Uses(s, steps[k - 1], client) {
        assert LastUse(cfg, START, steps, k, k - 1, client);
      } else {
        LastUsedTrace(cfg, steps, k - 1, client);
        var j: nat :| LastUse(cfg, START, steps, k - 1, j, client) && s.m.sticky[client].lastUsed == steps[j].now;
        assert LastUse(cfg, START, steps, k, j, client);
      }
    }
  }

  lemma StartsEmpty(cfg: Config, steps: seq<Step>)
    requires LegalFrom(cfg, START, steps)
    ensures StateAt(cfg, START, steps, 0).m.sticky == map[]
  {
  }

  /** On every run the sweep ends the binding of a client exactly when sweeping is on and the last step that used the entry
      is longer ago than the threshold; its connection is then idle, and nothing else changes. */
  lemma SweepExactly(cfg: Config, steps: seq<Step>, client: Client, now: Instant, j: nat)
    requires LegalFrom(cfg, START, steps) && client in StateAt(cfg, START, steps, |steps|).m.sticky
    requires LastUse(cfg, START, steps, |steps|, j, client)
    ensures var s := StateAt(cfg, START, steps, |steps|);
            var s' := Next(cfg, s, SweepClient(client, now));
            && (client !in s'.m.sticky <==> cfg.idleUnpinSecs > 0 && now > steps[j].now + cfg.idleUnpinSecs * 1_000_000_000)
            && (client in s'.m.sticky ==> s' == s)
            && (client !in s'.m.sticky ==>
                  s' == s.(m := s.m.(sticky := s.m.sticky - {client}, idle := s.m.idle + {s.m.sticky[client].conn})))
  {
    hide StateAt, LegalFrom, Uses;
    LastUsedTrace(cfg, steps, |steps|, client);
    var i: nat :| LastUse(cfg, START, steps, |steps|, i, client)
             && StateAt(cfg, START, steps, |steps|).m.sticky[client].lastUsed == steps[i].now;
    assert i == j;
  }

  /** A whole sweep ends what sweeping each client in turn would: exactly the entries unused for longer than the threshold,
      whose connections are idle afterwards. */
  lemma SweptExactly(cfg: Config, m: Manager, now: Instant)
    ensures var m' := Swept(m, Expired(cfg, m.sticky, now));
            && (forall c :: c in m'.sticky <==>
                  c in m.sticky && !(cfg.idleUnpinSecs > 0 && now > m.sticky[c].lastUsed + cfg.idleUnpinSecs * 1_000_000_000))
            && (forall c | c in m'.sticky :: m'.sticky[c] == m.sticky[c])
            && (forall x :: x in m'.idle <==>
                  x in m.idle || exists c | c in m.sticky :: c !in m'.sticky && m.sticky[c].conn == x)
            && (forall c | c in m.sticky :: c in m'.sticky <==> c in Expire(cfg, m, c, now).sticky)
  {
  }
}
