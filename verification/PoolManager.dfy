/** The pool manager: who holds each backend connection, and the sticky bindings of pinned clients. */
module PoolManager {
  import opened WireBytes
  import WaitQueue

  /** Names one physical backend connection. */
  type Conn = nat
  type Client = nat
  type Reason = nat
  /** Nanoseconds on the monotonic clock. */
  type Instant = nat

  const NANOS_PER_SECOND := 1_000_000_000

  datatype Config = Config(queueDepth: nat, idleUnpinSecs: nat)

  datatype Sticky = Sticky(conn: Conn, reasons: seq<Reason>, lastUsed: Instant, binding: nat)

  /** A connection checked out by a client; passed by value, so using it up is giving it back. */
  datatype Managed = Managed(conn: Conn, client: Client, pinned: bool, binding: Option<nat>)

  datatype AcquireError = PoolError | QueueFull | WaitTimeout | Paused

  datatype Acquired = Got(conn: Managed) | Failed(error: AcquireError) | Waits

  /** `idle` stands for the connection pool: what is in it can be handed to anybody. */
  datatype Manager = Manager(
    idle: set<Conn>, sticky: map<Client, Sticky>, nextBinding: nat, accepting: bool, queue: WaitQueue.Queue)

  function New(): (m: Manager) {
    Manager({}, map[], 1, true, WaitQueue.EMPTY)
  }

  // ---------------------------------------------------------------- operations as functions

  function Queued(cfg: Config, m: Manager, op: WaitQueue.Op): (r: Manager) {
    m.(queue := WaitQueue.Step(cfg.queueDepth, m.queue, op))
  }

  /** `got` is what the pool returned: a connection, idle or newly opened, or an error. */
  function Acquire(cfg: Config, m: Manager, client: Client, needsSticky: bool, got: Option<Conn>, t: WaitQueue.Ticket): (r: (Manager, Acquired)) {
    if !m.accepting then (m, Failed(Paused))
    else if needsSticky && client in m.sticky then
      (m.(sticky := m.sticky - {client}),
       Got(Managed(m.sticky[client].conn, client, true, Some(m.sticky[client].binding))))
    else if got.Some? then
      (m.(idle := m.idle - {got.value}), Got(Managed(got.value, client, false, None)))
    else if !WaitQueue.Accepts(cfg.queueDepth, m.queue) then (m, Failed(QueueFull))
    else (Queued(cfg, m, WaitQueue.Enqueue(t)), Waits)
  }

  /** A parked acquire that was notified; the waiter is dropped on return. */
  function Woken(cfg: Config, m: Manager, client: Client, got: Option<Conn>, t: WaitQueue.Ticket): (r: (Manager, Acquired)) {
    var m' := Queued(cfg, m, WaitQueue.DropWaiter(t));
    if got.Some? then (m'.(idle := m.idle - {got.value}), Got(Managed(got.value, client, false, None)))
    else (m', Failed(PoolError))
  }

  function TimedOut(cfg: Config, m: Manager, t: WaitQueue.Ticket): (r: (Manager, Acquired)) {
    (Queued(cfg, m, WaitQueue.DropWaiter(t)), Failed(WaitTimeout))
  }

  function Bound(m: Manager, client: Client, conn: Conn, reasons: seq<Reason>, now: Instant): (r: Manager) {
    m.(sticky := m.sticky[client := Sticky(conn, reasons, now, m.nextBinding)], nextBinding := m.nextBinding + 1)
  }

  function Release(cfg: Config, m: Manager, conn: Managed, now: Instant): (r: Manager) {
    var m' :=
      if !conn.pinned then m.(idle := m.idle + {conn.conn})
      else if conn.client in m.sticky then
        m.(sticky := m.sticky[conn.client := m.sticky[conn.client].(lastUsed := now)], idle := m.idle + {conn.conn})
      else Bound(m, conn.client, conn.conn, [], now);
    Queued(cfg, m', WaitQueue.NotifyOne)
  }

  function Pin(m: Manager, client: Client, reason: Reason, conn: Managed, now: Instant): (r: Manager) {
    if client in m.sticky then
      var e := m.sticky[client];
      var reasons := if reason in e.reasons then e.reasons else e.reasons + [reason];
      m.(sticky := m.sticky[client := e.(reasons := reasons, lastUsed := now)], idle := m.idle + {conn.conn})
    else Bound(m, client, conn.conn, [reason], now)
  }

  function Unbound(m: Manager, client: Client): (r: Manager)
    requires client in m.sticky
  {
    m.(sticky := m.sticky - {client}, idle := m.idle + {m.sticky[client].conn})
  }

  function Unpin(cfg: Config, m: Manager, client: Client): (r: Manager) {
    if client !in m.sticky then m else Queued(cfg, Unbound(m, client), WaitQueue.NotifyOne)
  }

  predicate IdleTooLong(cfg: Config, e: Sticky, now: Instant) {
    now - e.lastUsed > cfg.idleUnpinSecs * NANOS_PER_SECOND
  }

  /** The part of the idle sweep that runs under the map's lock for one client, without its notification. */
  function Expire(cfg: Config, m: Manager, client: Client, now: Instant): (r: Manager) {
    if cfg.idleUnpinSecs > 0 && client in m.sticky && IdleTooLong(cfg, m.sticky[client], now) then Unbound(m, client) else m
  }

  function Expired(cfg: Config, sticky: map<Client, Sticky>, now: Instant): (r: set<Client>) {
    set c | c in sticky && cfg.idleUnpinSecs > 0 && IdleTooLong(cfg, sticky[c], now)
  }

  function ConnsOf(sticky: map<Client, Sticky>, clients: set<Client>): (r: set<Conn>) {
    set c | c in clients && c in sticky :: sticky[c].conn
  }

  function Swept(m: Manager, clients: set<Client>): (r: Manager) {
    m.(sticky := m.sticky - clients, idle := m.idle + ConnsOf(m.sticky, clients))
  }

  function Rest<T>(s: seq<T>, n: nat): (r: seq<T>) {
    if n <= |s| then s[n..] else []
  }

  // ---------------------------------------------------------------- the manager object

  class PoolManager {
    const cfg: Config
    const waitQueue: WaitQueue.WaitQueue
    var idle: set<Conn>
    var stickyMap: map<Client, Sticky>
    var nextBindingId: nat
    var accepting: bool

    ghost predicate Valid()
    {
      waitQueue.maxDepth == cfg.queueDepth
    }

    ghost function View(): Manager
      reads this, waitQueue
    {
      Manager(idle, stickyMap, nextBindingId, accepting, waitQueue.View())
    }

    constructor (cfg: Config)
      ensures Valid() && fresh(waitQueue) && this.cfg == cfg && View() == New()
    {
      this.cfg := cfg;
      waitQueue := new WaitQueue.WaitQueue(cfg.queueDepth);
      idle, stickyMap, nextBindingId, accepting := {}, map[], 1, true;
    }

    method Pause()
      modifies this
      ensures View() == old(View()).(accepting := false)
    {
      accepting := false;
    }

    method Resume()
      requires Valid()
      modifies this, waitQueue
      ensures View() == Queued(cfg, old(View()).(accepting := true), WaitQueue.NotifyOne)
    {
      accepting := true;
      var _ := waitQueue.NotifyOne();
    }

    method AcquireFor(client: Client, needsSticky: bool, got: Option<Conn>, t: WaitQueue.Ticket) returns (r: Acquired)
      requires Valid()
      modifies this, waitQueue
      ensures (View(), r) == Acquire(cfg, old(View()), client, needsSticky, got, t)
    {
      if !accepting {
        return Failed(Paused);
      }
      if needsSticky {
        var taken := GetSticky(client);
        if taken.Some? {
          return Got(taken.value);
        }
      }
      if got.Some? {
        idle := idle - {got.value};
        return Got(Managed(got.value, client, false, None));
      }
      var accepted := waitQueue.Enqueue(t);
      return if accepted then Waits else Failed(QueueFull);
    }

    /** A parked acquire goes on, notified or timed out; its waiter is dropped on return. */
    method FinishWait(client: Client, notified: bool, got: Option<Conn>, t: WaitQueue.Ticket) returns (r: Acquired)
      requires Valid()
      modifies this, waitQueue
      ensures (View(), r) == if notified then Woken(cfg, old(View()), client, got, t) else TimedOut(cfg, old(View()), t)
    {
      if !notified {
        r := Failed(WaitTimeout);
      } else if got.Some? {
        idle := idle - {got.value};
        r := Got(Managed(got.value, client, false, None));
      } else {
        r := Failed(PoolError);
      }
      waitQueue.DropWaiter(t);
    }

    method GetSticky(client: Client) returns (r: Option<Managed>)
      modifies this`stickyMap
      ensures client !in old(stickyMap) ==> r == None && stickyMap == old(stickyMap)
      ensures client in old(stickyMap) ==>
                && r == Some(Managed(old(stickyMap)[client].conn, client, true, Some(old(stickyMap)[client].binding)))
                && stickyMap == old(stickyMap) - {client}
    {
      if client !in stickyMap {
        return None;
      }
      var e := stickyMap[client];
      stickyMap := stickyMap - {client};
      return Some(Managed(e.conn, client, true, Some(e.binding)));
    }

    method ReleaseConn(conn: Managed, now: Instant)
      requires Valid()
      modifies this, waitQueue
      ensures View() == Release(cfg, old(View()), conn, now)
    {
      if conn.pinned {
        if conn.client in stickyMap {
          stickyMap := stickyMap[conn.client := stickyMap[conn.client].(lastUsed := now)];
          idle := idle + {conn.conn};
        } else {
          stickyMap := stickyMap[conn.client := Sticky(conn.conn, [], now, nextBindingId)];
          nextBindingId := nextBindingId + 1;
        }
      } else {
        idle := idle + {conn.conn};
      }
      var _ := waitQueue.NotifyOne();
    }

    method PinConn(client: Client, reason: Reason, conn: Managed, now: Instant)
      requires Valid()
      modifies this
      ensures View() == Pin(old(View()), client, reason, conn, now)
    {
      if client in stickyMap {
        var e := stickyMap[client];
        if reason !in e.reasons {
          e := e.(reasons := e.reasons + [reason]);
        }
        stickyMap := stickyMap[client := e.(lastUsed := now)];
        idle := idle + {conn.conn};
      } else {
        stickyMap := stickyMap[client := Sticky(conn.conn, [reason], now, nextBindingId)];
        nextBindingId := nextBindingId + 1;
      }
    }

    method UnpinClient(client: Client)
      requires Valid()
      modifies this, waitQueue
      ensures View() == Unpin(cfg, old(View()), client)
    {
      if client in stickyMap {
        idle := idle + {stickyMap[client].conn};
        stickyMap := stickyMap - {client};
        var _ := waitQueue.NotifyOne();
      }
    }

    /** Returns to the pool every sticky connection idle for too long, and wakes one waiter for each. */
    method CleanupIdle(now: Instant) returns (cleaned: nat)
      requires Valid()
      modifies this, waitQueue
      ensures View().(queue := old(waitQueue.View())) == Swept(old(View()), Expired(cfg, old(stickyMap), now))
      ensures cleaned == |Expired(cfg, old(stickyMap), now)|
      ensures waitQueue.waiters == Rest(old(waitQueue.waiters), cleaned) && waitQueue.depth == old(waitQueue.depth)
    {
      cleaned := 0;
      if cfg.idleUnpinSecs == 0 {
        assert Expired(cfg, stickyMap, now) == {};
        return;
      }
      var expired := set c | c in stickyMap && IdleTooLong(cfg, stickyMap[c], now);
      assert expired == Expired(cfg, stickyMap, now);
      var rest := expired;
      while rest != {}
        invariant rest <= expired
        invariant stickyMap == old(stickyMap) - (expired - rest)
        invariant idle == old(idle) + ConnsOf(old(stickyMap), expired - rest)
        invariant cleaned + |rest| == |expired|
        invariant nextBindingId == old(nextBindingId) && accepting == old(accepting)
        invariant waitQueue.View() == old(waitQueue.View())
        decreases |rest|
      {
        var c :| c in rest;
        ghost var done := expired - rest;
        rest := rest - {c};
        assert expired - rest == done + {c};
        idle := idle + {stickyMap[c].conn};
        stickyMap := stickyMap - {c};
        cleaned := cleaned + 1;
      }
      assert expired - rest == expired;
      NotifyMany(cleaned);
    }

    method NotifyMany(n: nat)
      modifies waitQueue
      ensures waitQueue.waiters == Rest(old(waitQueue.waiters), n) && waitQueue.depth == old(waitQueue.depth)
    {
      for i := 0 to n
        invariant waitQueue.waiters == Rest(old(waitQueue.waiters), i) && waitQueue.depth == old(waitQueue.depth)
      {
        var _ := waitQueue.NotifyOne();
      }
    }
  }
}
