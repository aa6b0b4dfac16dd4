/** `handle_with_managed_connection`: the loop's arms as methods that update the session's components in place. */
module ManagedHandler {
  import opened WireBytes
  import opened FrontendWire
  import opened Transaction
  import opened StatementCache
  import opened ModeEnforcer
  import opened ManagedSession
  import BackendScan
  import Conn = ConnectionState
  import Extractor

  /** Equal while running; of a session that has ended only its input and output remain. */
  ghost predicate Agrees(a: Session, b: Session) {
    a.running == b.running && a.log == b.log && (a.running ==> a == b)
  }

  class ManagedHandler {
    const cfg: Config
    const extractor: Extractor.MessageExtractor
    const connState: Conn.ConnectionState
    const txnTracker: TransactionTracker
    const stmtCache: PreparedStatementCache
    var armed: bool
    var running: bool
    var log: seq<Io>

    ghost predicate Valid() { stmtCache.max == cfg.maxPrepared }

    ghost function View(): Session
      reads this, extractor, connState, txnTracker, stmtCache
    {
      Session(extractor.View(), connState.View(), txnTracker.state, stmtCache.View(), armed, running, log)
    }

    constructor (cfg: Config)
      ensures Valid() && this.cfg == cfg && View() == Start(cfg)
      ensures fresh(extractor) && fresh(connState) && fresh(txnTracker) && fresh(stmtCache)
    {
      this.cfg := cfg;
      extractor := new Extractor.MessageExtractor();
      connState := new Conn.ConnectionState(cfg.maxPrepared);
      txnTracker := new TransactionTracker();
      stmtCache := new PreparedStatementCache(cfg.maxPrepared);
      armed, running, log := false, true, [];
    }

    /** The cache's part of one message. */
    method UpdateCache(m: Message)
      requires Valid()
      modifies stmtCache
      ensures stmtCache.View() == Cached(cfg, old(stmtCache.View()), m)
    {
      match m {
        case Parse(name, query, oids) =>
          stmtCache.InsertStatement(name, (query, oids));
          stmtCache.SetPending([], Pending(query, true));
        case Bind(portal, statement, _, _) =>
          var found := stmtCache.GetStatement(statement);
          var p := if found.Some? then Pending(found.value.0, false) else Pending(UnknownStatement(statement), true);
          stmtCache.SetPending(portal, p);
        case Query(query) =>
          stmtCache.SetPending([], Pending(query, false));
        case Close(kind, name) =>
          if kind == 83 {
            stmtCache.RemoveStatement(name);
          } else if kind == 80 {
            stmtCache.ClearPending(name);
          }
        case _ =>
      }
    }

    /** The tracker's part of one message. */
    method UpdateState(m: Message) returns (panicked: bool)
      modifies connState
      ensures panicked == Conn.Panics(Told(m))
      ensures !panicked ==> connState.View() == Conn.ApplyAll(old(connState.View()), Told(m))
    {
      panicked := false;
      match m {
        case Parse(name, query, oids) => panicked := connState.ApplyParseState(name, query, oids);
        case Query(query) => panicked := connState.ApplyQuery(query);
        case Close(kind, name) =>
          if kind == 83 {
            connState.RemovePreparedStatement(name);
            assert Told(m)[..0] == [];
          }
        case _ =>
      }
    }

    method HandleMessage(first: bool, m: Message) returns (flow: Flow)
      requires Valid()
      modifies this`log, connState, stmtCache
      ensures flow == OnMessage(cfg, old(View()), first, m).1
      ensures !flow.Crash? ==> View() == OnMessage(cfg, old(View()), first, m).0
      ensures flow.Crash? ==> log == old(log)
    {
      hide Validate, Told, Cached, Conn.ApplyAll, Conn.Panics;
      if m.Parse? || m.Query? {
        match Validate(Mode(cfg.strategy), m.query, InTxn(txnTracker.state)) {
          case ValidatePanics => return Crash;
          case Refused(message) => return Refuse(message);
          case Allowed =>
        }
      }
      if m.Terminate? && first {
        return Hangup;
      }
      UpdateCache(m);
      var panicked := UpdateState(m);
      if panicked {
        return Crash;
      }
      log := log + [Processed(m)];
      return Proceed;
    }

    /** The messages of one read in order, until one stops the rest. */
    method HandleMessages(ms: seq<Message>) returns (flow: Flow)
      requires Valid()
      modifies this`log, connState, stmtCache
      ensures flow == OnMessages(cfg, old(View()), ms, 0).1
      ensures !flow.Crash? ==> View() == OnMessages(cfg, old(View()), ms, 0).0
      ensures flow.Crash? ==> log == OnMessages(cfg, old(View()), ms, 0).0.log
    {
      hide OnMessage;
      ghost var start := View();
      for i := 0 to |ms|
        invariant OnMessages(cfg, start, ms, 0) == OnMessages(cfg, View(), ms, i)
      {
        ghost var before := View();
        flow := HandleMessage(i == 0, ms[i]);
        if flow != Proceed {
          CrashLog(cfg, before, i == 0, ms[i]);
          return;
        }
      }
      flow := Proceed;
    }

    method OnClientBytes(data: Bytes, w: Write)
      requires Valid() && running
      modifies this`log, this`running, this`armed, extractor, connState, stmtCache
      ensures Agrees(View(), Step(cfg, old(View()), ClientRead(data, w)))
    {
      hide OnMessages, Extractor.Extract, Rejection;
      log := log + [FromClient(data)];
      var messages := extractor.ExtractMessages(data);
      if messages.None? {
        running, log := false, log + [Broken];
        return;
      }
      var flow := HandleMessages(messages.value);
      match flow {
        case Crash =>
          running, log := false, log + [Broken];
          return;
        case Hangup =>
          running, log := false, log + [Done];
          return;
        case Proceed =>
          log := log + [ToBackend(Sent(data, w))];
        case Refuse(message) =>
          log := log + [Reply(Sent(Rejection(message, txnTracker.state), w))];
      }
      if w.Cut? {
        running, log := false, log + [Broken];
        return;
      }
      if cfg.timeoutEnabled && !armed && [] in stmtCache.pending {
        armed := true;
      }
    }

    /** Takes the pending execution the read completes, and disarms the deadline when none is left. */
    method Settle(data: Bytes) returns (panicked: bool)
      requires Valid()
      modifies this`armed, stmtCache
      ensures panicked == Completes(data).Overflow?
      ensures !panicked ==> View() == Settled(cfg, old(View()), Completes(data).value)
    {
      hide BackendScan.FindError, BackendScan.HasCompletion;
      var found := BackendScan.FindErrorFields(data);
      if found.Overflow? {
        return true;
      }
      if found.value.Some? && BackendScan.FullError(found.value.value).Some? {
        var _ := stmtCache.TakePending([]);
      } else {
        var complete := BackendScan.IsQueryComplete(data);
        if complete.Overflow? {
          return true;
        }
        if complete.value {
          var _ := stmtCache.TakePending([]);
        }
      }
      if cfg.timeoutEnabled && [] !in stmtCache.pending {
        armed := false;
      }
      panicked := false;
    }

    /** Follows the transaction status of the read and decides whether the backend is given back. */
    method TrackReady(data: Bytes) returns (panicked: bool, release: bool)
      modifies txnTracker
      ensures panicked == BackendScan.LastStatus(data, 0, None).Overflow?
      ensures !panicked ==>
                && txnTracker.state == TxnAfter(old(txnTracker.state), BackendScan.LastStatus(data, 0, None).value)
                && release == (InTxn(old(txnTracker.state)) && txnTracker.state.Idle?
                               && ShouldRelease(cfg.strategy, connState.View()))
    {
      hide BackendScan.LastStatus, Conn.Pinned;
      release := false;
      var scanned := BackendScan.ExtractReadyForQuery(data);
      if scanned.Overflow? {
        return true, false;
      }
      panicked := false;
      if scanned.value.Some? {
        var wasInTransaction := InTxn(txnTracker.state);
        txnTracker.UpdateFromReadyForQuery(scanned.value.value);
        release := wasInTransaction && txnTracker.state.Idle? && ShouldReleaseConnection();
      }
    }

    /** What a read does to the session before it is delivered. */
    method Absorb(data: Bytes) returns (panicked: bool, release: bool)
      requires Valid()
      modifies this`armed, txnTracker, stmtCache
      ensures panicked == (Completes(data).Overflow? || BackendScan.LastStatus(data, 0, None).Overflow?)
      ensures !panicked ==>
                && View() == Absorbed(cfg, old(View()), data)
                && release == (InTxn(old(View()).txn) && View().txn.Idle? && ShouldRelease(cfg.strategy, old(View()).conn))
    {
      hide Completes, BackendScan.LastStatus, ShouldRelease, TxnAfter, InTxn;
      release := false;
      panicked := Settle(data);
      if !panicked {
        panicked, release := TrackReady(data);
      }
    }

    method OnBackendBytes(data: Bytes, w: Write, next: Reacquired)
      requires Valid() && running
      modifies this`log, this`running, this`armed, txnTracker, stmtCache
      ensures Agrees(View(), OnBackendRead(cfg, old(View()), data, w, next))
    {
      hide Completes, BackendScan.LastStatus, ShouldRelease, Swapped, Absorbed, InTxn, Sent;
      ghost var s := View();
      log := log + [FromBackend(data)];
      var panicked, release := Absorb(data);
      BackendReadParts(cfg, s, data, w, next);
      if panicked {
        running, log := false, log + [Broken];
        return;
      }
      log := log + [ToClient(Sent(data, w))];
      if w.Cut? {
        running, log := false, log + [Broken];
      } else if release {
        Reacquire(next);
      }
    }

    predicate ShouldReleaseConnection()
      reads this, connState
      ensures ShouldReleaseConnection() <==> ShouldRelease(cfg.strategy, connState.View())
    {
      (cfg.strategy.TransactionPooling? || cfg.strategy.HybridPooling?) && !connState.IsPinned()
    }

    method Reacquire(next: Reacquired)
      requires Valid() && running
      modifies this`log, this`running
      ensures Agrees(View(), Swapped(old(View()), next))
    {
      log := log + [Released];
      match next {
        case Denied => running, log := false, log + [Broken];
        case Warm => log := log + [Acquired(false)];
        case Fresh(initialised) =>
          log := log + [Acquired(true)];
          if initialised {
            log := log + [Initialised];
          } else {
            running, log := false, log + [Broken];
          }
      }
    }

    method OnDeadlineExpired(w1: Write, w2: Write)
      requires Valid() && running && cfg.timeoutEnabled && armed
      modifies this`log, this`running, connState
      ensures Agrees(View(), Step(cfg, old(View()), Deadline(w1, w2)))
    {
      connState.MarkUnknownCommand();
      log := log + [Marked];
      log := log + [Reply(Sent(Cancellation(), w1))];
      log := log + [Reply(Sent(ReadyForQuery(txnTracker.state), w2))];
      running, log := false, log + [Done];
    }

    method OnGone(byClient: bool)
      requires Valid() && running
      modifies this`log, this`running
      ensures Agrees(View(), Step(cfg, old(View()), if byClient then ClientGone else BackendGone))
    {
      running, log := false, log + [Done];
    }

    /** The loop over whatever the select yields. */
    method Serve(events: seq<Event>)
      requires Valid() && View() == Start(cfg)
      modifies this, extractor, connState, txnTracker, stmtCache
      ensures Agrees(View(), Run(cfg, events))
    {
      hide Step;
      for i := 0 to |events|
        invariant Agrees(View(), Run(cfg, events[..i]))
      {
        assert events[..i + 1][..i] == events[..i];
        if running {
          Dispatch(events[i]);
        }
        Stopped(cfg, Run(cfg, events[..i]), events[i]);
      }
      assert events[..|events|] == events;
    }

    method Dispatch(e: Event)
      requires Valid() && running
      modifies this`log, this`running, this`armed, extractor, connState, txnTracker, stmtCache
      ensures Agrees(View(), Step(cfg, old(View()), e))
    {
      hide OnClientRead, OnBackendRead;
      match e {
        case ClientRead(data, w) => OnClientBytes(data, w);
        case BackendRead(data, w, next) => OnBackendBytes(data, w, next);
        case Deadline(w1, w2) =>
          if cfg.timeoutEnabled && armed {
            OnDeadlineExpired(w1, w2);
          }
        case ClientGone => OnGone(true);
        case BackendGone => OnGone(false);
      }
    }
  }

  lemma CrashLog(cfg: Config, s: Session, first: bool, m: Message)
    ensures !OnMessage(cfg, s, first, m).1.Proceed? ==> OnMessage(cfg, s, first, m).0 == s
  {
  }

  function Absorbed(cfg: Config, s: Session, data: Bytes): (r: Session)
    requires Completes(data).Value? && BackendScan.LastStatus(data, 0, None).Value?
  {
    Settled(cfg, s, Completes(data).value).(txn := TxnAfter(s.txn, BackendScan.LastStatus(data, 0, None).value))
  }

  /** A backend read is absorbed, delivered and, where it may, followed by a change of backend. */
  lemma BackendReadParts(cfg: Config, s: Session, data: Bytes, w: Write, next: Reacquired)
    ensures var s0 := Logged(s, FromBackend(data));
            OnBackendRead(cfg, s, data, w, next) ==
            if Completes(data).Overflow? || BackendScan.LastStatus(data, 0, None).Overflow? then Ended(s0, Broken)
            else
              var s1 := Absorbed(cfg, s0, data);
              var s2 := Logged(s1, ToClient(Sent(data, w)));
              if w.Cut? then Ended(s2, Broken)
              else if InTxn(s.txn) && s1.txn.Idle? && ShouldRelease(cfg.strategy, s.conn) then Swapped(s2, next)
              else s2
  {
  }

  lemma Stopped(cfg: Config, s: Session, e: Event)
    ensures !s.running ==> Step(cfg, s, e) == s
  {
  }
}
