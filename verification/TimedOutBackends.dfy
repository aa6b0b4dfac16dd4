/** What becomes of a backend whose query timed out: it is meant never to be reused. */
module TimedOutBackends {
  import opened WireBytes
  import opened FrontendWire
  import opened Transaction
  import opened ModeEnforcer
  import opened ManagedSession
  import opened ManagedRuns
  import opened SharedBackends
  import Conn = ConnectionState
  import Extractor
  import QueryReads
  import opened CommandDetector
  import opened TextOps

  // ---------------------------------------------------------------- a run, step by step

  lemma {:induction false} LegalPrefix(cfg: Config, s: System, steps: seq<Step>, k: nat)
    requires LegalFrom(cfg, s, steps) && k <= |steps|
    ensures LegalFrom(cfg, s, steps[..k])
    decreases |steps|
  {
    hide Enabled, Next;
    if k > 0 {
      LegalPrefix(cfg, Next(cfg, s, steps[0]), steps[1..], k - 1);
      assert steps[..k][1..] == steps[1..][..k - 1];
    }
  }

  /** The system after `k` steps of a run. */
  ghost function StateAt(cfg: Config, s: System, steps: seq<Step>, k: nat): (r: System)
    requires LegalFrom(cfg, s, steps) && k <= |steps|
  {
    LegalPrefix(cfg, s, steps, k);
    RunFrom(cfg, s, steps[..k])
  }

  lemma {:induction false} StepAt(cfg: Config, s: System, steps: seq<Step>, k: nat)
    requires LegalFrom(cfg, s, steps) && k < |steps|
    ensures Enabled(cfg, StateAt(cfg, s, steps, k), steps[k])
    ensures StateAt(cfg, s, steps, k + 1) == Next(cfg, StateAt(cfg, s, steps, k), steps[k])
    decreases |steps|
  {
    hide Enabled, Next;
    LegalPrefix(cfg, s, steps, k);
    LegalPrefix(cfg, s, steps, k + 1);
    assert steps[..k + 1][0] == steps[0];
    if k > 0 {
      var s' := Next(cfg, s, steps[0]);
      StepAt(cfg, s', steps[1..], k - 1);
      assert steps[..k][1..] == steps[1..][..k - 1] && steps[..k + 1][1..] == steps[1..][..k];
    } else {
      assert steps[..1][1..] == [] && steps[..0] == [];
      assert RunFrom(cfg, s, steps[..1]) == RunFrom(cfg, Next(cfg, s, steps[0]), []) == Next(cfg, s, steps[0]);
    }
  }

  lemma SoundAt(cfg: Config, steps: seq<Step>, k: nat)
    requires LegalFrom(cfg, EMPTY, steps) && k <= |steps|
    ensures Sound(StateAt(cfg, EMPTY, steps, k))
  {
    hide Sound;
    LegalPrefix(cfg, EMPTY, steps, k);
    assert Sound(EMPTY) by { EmptySound(); }
    RunSound(cfg, EMPTY, steps[..k]);
  }

  lemma EmptySound()
    ensures Sound(EMPTY)
  {
  }

  // ---------------------------------------------------------------- exactly when it is reused

  /** The session of this client gave up on a query. */
  predicate TimedOut(t: Tenant) { Marked in t.log }

  /** The step gives backend `b` to a client, new or in mid-session. */
  predicate Takes(step: Step, b: Backend) {
    (step.Connect? || (step.Emit? && step.io.Acquired?)) && step.b == b
  }

  /** The step ends the wait of an idle backend. */
  predicate Settles(step: Step, b: Backend) { Takes(step, b) || step == Destroy(b) }

  ghost predicate SeatedAt(s: System, b: Backend) {
    exists c | c in s.tenants :: s.tenants[c].seat == Some(b)
  }

  /** Idle, with the wire as it was left. */
  predicate Waiting(s: System, b: Backend, w: seq<Wire>) { b in s.idle && b in s.wires && s.wires[b] == w }

  /** Destroyed: not in the pool and nobody's. */
  ghost predicate Destroyed(s: System, b: Backend) { b in s.wires && b !in s.idle && !SeatedAt(s, b) }

  lemma IdleUnseated(s: System, b: Backend)
    requires Sound(s) && b in s.idle
    ensures !SeatedAt(s, b)
  {
    hide WireOk, TenureOf, Quiescent, HasStartup, HasRecorded;
    forall c | c in s.tenants
      ensures s.tenants[c].seat != Some(b)
    {
      assert SeatOk(s, c, s.tenants[c]);
    }
  }

  /** Writing to, or freeing, a seat other than `b`. */
  lemma EmittedElsewhere(s: System, c: Client, t: Tenant, io: Io, o: Backend, b: Backend)
    requires t.seat != Some(b) && (io.Acquired? ==> o != b) && b in s.wires
    ensures var s' := Emitted(s, c, t, io, o);
            && b in s'.wires && s'.wires[b] == s.wires[b] && (b in s'.idle <==> b in s.idle)
            && c in s'.tenants && s'.tenants[c].seat != Some(b)
            && forall d | d != c :: (d in s'.tenants <==> d in s.tenants) && (d in s.tenants ==> s'.tenants[d] == s.tenants[d])
  {
    hide Initialising;
  }

  lemma ElsewhereStep(cfg: Config, s: System, step: Step, b: Backend)
    requires Enabled(cfg, s, step) && b in s.wires && !SeatedAt(s, b) && !Settles(step, b)
    ensures var s' := Next(cfg, s, step);
            b in s'.wires && s'.wires[b] == s.wires[b] && (b in s'.idle <==> b in s.idle) && !SeatedAt(s', b)
  {
    hide Emitted, Possible, HasRecorded;
    if step.Emit? {
      EmittedElsewhere(s, step.c, s.tenants[step.c], step.io, step.b, b);
    }
  }

  lemma DestroyedStays(cfg: Config, s: System, step: Step, b: Backend)
    requires Enabled(cfg, s, step) && Destroyed(s, b)
    ensures Destroyed(Next(cfg, s, step), b)
  {
    hide Next, Possible, SeatedAt;
    ElsewhereStep(cfg, s, step, b);
  }

  /** A client that takes an idle backend gets it with only the pool's reset behind the last tenure. */
  lemma TakenAfterReset(cfg: Config, s: System, step: Step, b: Backend, w: seq<Wire>)
    requires Enabled(cfg, s, step) && Waiting(s, b, w) && HasRecorded(w) && Takes(step, b)
    ensures var s' := Next(cfg, s, step);
            SeatedAt(s', b) && step.c in s'.tenants && s'.tenants[step.c].seat == Some(b)
            && b in s'.wires && s'.wires[b] == w + [Wire.Reset]
  {
    hide Possible;
    assert HasRecorded(w + [Wire.Reset]);
    var s' := Next(cfg, s, step);
    assert s'.tenants[step.c].seat == Some(b);
  }

  /** A session that timed out hands `b` back with step `i`. */
  ghost predicate HandsBack(cfg: Config, steps: seq<Step>, i: nat, b: Backend)
    requires LegalFrom(cfg, EMPTY, steps)
  {
    && i < |steps| && steps[i].Emit? && steps[i].io.Done?
    && var s := StateAt(cfg, EMPTY, steps, i);
    && steps[i].c in s.tenants && TimedOut(s.tenants[steps[i].c]) && s.tenants[steps[i].c].seat == Some(b)
  }

  /** On every run the session that timed out hands its backend back to the pool like any other: idle, with its startup
      recorded and its wire as it was. */
  lemma TimedOutReturned(cfg: Config, steps: seq<Step>, i: nat, b: Backend)
    requires LegalFrom(cfg, EMPTY, steps) && HandsBack(cfg, steps, i, b)
    ensures var s := StateAt(cfg, EMPTY, steps, i);
            && b in s.wires && HasRecorded(s.wires[b])
            && Waiting(StateAt(cfg, EMPTY, steps, i + 1), b, s.wires[b])
  {
    hide StateAt, Possible, LegalFrom, HasRecorded, WireOk, Quiescent, HasStartup, SharedBackends.TenureOf;
    SoundAt(cfg, steps, i);
    StepAt(cfg, EMPTY, steps, i);
    var s, c := StateAt(cfg, EMPTY, steps, i), steps[i].c;
    PossibleFollows(cfg, s.tenants[c].log, Done);
    assert SeatOk(s, c, s.tenants[c]);
  }

  /** The first step after `i` that ends the wait of `b`. */
  predicate FirstSettles(steps: seq<Step>, i: nat, j: nat, b: Backend) {
    i < j < |steps| && Settles(steps[j], b) && forall m | i < m < j :: !Settles(steps[m], b)
  }

  /** Until then it waits. */
  lemma {:induction false} WaitsUntil(cfg: Config, steps: seq<Step>, i: nat, k: nat, b: Backend, w: seq<Wire>)
    requires LegalFrom(cfg, EMPTY, steps) && i < k <= |steps| && Waiting(StateAt(cfg, EMPTY, steps, i + 1), b, w)
    requires forall m | i < m < k :: !Settles(steps[m], b)
    ensures Waiting(StateAt(cfg, EMPTY, steps, k), b, w) && !SeatedAt(StateAt(cfg, EMPTY, steps, k), b)
    decreases k
  {
    hide StateAt, LegalFrom, Settles, Sound, Enabled, Next, SeatedAt;
    if k > i + 1 {
      WaitsUntil(cfg, steps, i, k - 1, b, w);
      StepAt(cfg, EMPTY, steps, k - 1);
      ElsewhereStep(cfg, StateAt(cfg, EMPTY, steps, k - 1), steps[k - 1], b);
    } else {
      SoundAt(cfg, steps, k);
      IdleUnseated(StateAt(cfg, EMPTY, steps, k), b);
    }
  }

  /** After a Destroy nobody ever gets it. */
  lemma {:induction false} GoneAfter(cfg: Config, steps: seq<Step>, j: nat, k: nat, b: Backend)
    requires LegalFrom(cfg, EMPTY, steps) && j < k <= |steps| && steps[j] == Destroy(b)
    requires b in StateAt(cfg, EMPTY, steps, j).wires && !SeatedAt(StateAt(cfg, EMPTY, steps, j), b)
    ensures Destroyed(StateAt(cfg, EMPTY, steps, k), b)
    decreases k
  {
    hide StateAt, LegalFrom, SeatedAt;
    StepAt(cfg, EMPTY, steps, k - 1);
    if k > j + 1 {
      hide Enabled, Next, Destroyed;
      GoneAfter(cfg, steps, j, k - 1, b);
      DestroyedStays(cfg, StateAt(cfg, EMPTY, steps, k - 1), steps[k - 1], b);
    } else {
      SameTenants(StateAt(cfg, EMPTY, steps, j), StateAt(cfg, EMPTY, steps, k), b);
    }
  }

  lemma SameTenants(s: System, s': System, b: Backend)
    requires s'.tenants == s.tenants
    ensures SeatedAt(s', b) <==> SeatedAt(s, b)
  {
  }

  /** Its fate, on every run in which a session that timed out hands backend `b` back, at every later point: until the
      first step that takes or destroys it, it is idle, nobody's, and sent nothing; if that step takes it, the taker, new
      or in mid-session, is seated at it behind a reset; if it destroys it, nobody is seated at it ever after. */
  lemma TimedOutFate(cfg: Config, steps: seq<Step>, i: nat, b: Backend, k: nat)
    requires LegalFrom(cfg, EMPTY, steps) && HandsBack(cfg, steps, i, b) && i < k <= |steps|
    ensures b in StateAt(cfg, EMPTY, steps, i).wires
    ensures var w, s := StateAt(cfg, EMPTY, steps, i).wires[b], StateAt(cfg, EMPTY, steps, k);
            && ((forall m | i < m < k :: !Settles(steps[m], b)) ==> Waiting(s, b, w) && !SeatedAt(s, b))
            && (FirstSettles(steps, i, k - 1, b) && Takes(steps[k - 1], b) ==>
                  && steps[k - 1].c in s.tenants && s.tenants[steps[k - 1].c].seat == Some(b)
                  && b in s.wires && s.wires[b] == w + [Wire.Reset])
            && (forall j: nat | FirstSettles(steps, i, j, b) && j < k && steps[j] == Destroy(b) :: !SeatedAt(s, b))
  {
    hide StateAt, LegalFrom, Settles, Sound, Enabled, Next, SeatedAt, HandsBack, HasRecorded, Destroyed, Waiting;
    TimedOutReturned(cfg, steps, i, b);
    var w := StateAt(cfg, EMPTY, steps, i).wires[b];
    if forall m | i < m < k :: !Settles(steps[m], b) {
      WaitsUntil(cfg, steps, i, k, b, w);
    }
    if FirstSettles(steps, i, k - 1, b) && Takes(steps[k - 1], b) {
      WaitsUntil(cfg, steps, i, k - 1, b, w);
      StepAt(cfg, EMPTY, steps, k - 1);
      TakenAfterReset(cfg, StateAt(cfg, EMPTY, steps, k - 1), steps[k - 1], b, w);
    }
    forall j: nat | FirstSettles(steps, i, j, b) && j < k && steps[j] == Destroy(b)
      ensures !SeatedAt(StateAt(cfg, EMPTY, steps, k), b)
    {
      GoneForGood(cfg, steps, i, j, k, b, w);
    }
  }

  lemma GoneForGood(cfg: Config, steps: seq<Step>, i: nat, j: nat, k: nat, b: Backend, w: seq<Wire>)
    requires LegalFrom(cfg, EMPTY, steps) && FirstSettles(steps, i, j, b) && j < k <= |steps| && steps[j] == Destroy(b)
    requires Waiting(StateAt(cfg, EMPTY, steps, i + 1), b, w)
    ensures !SeatedAt(StateAt(cfg, EMPTY, steps, k), b)
  {
    hide StateAt, LegalFrom, Settles, SeatedAt;
    WaitsUntil(cfg, steps, i, j, b, w);
    GoneAfter(cfg, steps, j, k, b);
  }

  /** So the backend is reused, by a client that connects or one that reacquires, exactly if the first step that ends its
      wait takes it. */
  lemma ReusedExactly(cfg: Config, steps: seq<Step>, i: nat, b: Backend)
    requires LegalFrom(cfg, EMPTY, steps) && HandsBack(cfg, steps, i, b)
    ensures (exists k | i < k <= |steps| :: SeatedAt(StateAt(cfg, EMPTY, steps, k), b))
       <==> (exists j: nat :: FirstSettles(steps, i, j, b) && Takes(steps[j], b))
  {
    hide StateAt, LegalFrom, Settles, HandsBack, Waiting, Takes;
    if j: nat :| FirstSettles(steps, i, j, b) && Takes(steps[j], b) {
      TimedOutFate(cfg, steps, i, b, j + 1);
      assert SeatedAt(StateAt(cfg, EMPTY, steps, j + 1), b);
    }
    if k :| i < k <= |steps| && SeatedAt(StateAt(cfg, EMPTY, steps, k), b) {
      hide SeatedAt;
      TimedOutFate(cfg, steps, i, b, k);
      var j := FirstOf(steps, i, k, b);
      SettlesMeans(steps[j], b);
    }
  }

  lemma SettlesMeans(step: Step, b: Backend)
    requires Settles(step, b)
    ensures Takes(step, b) || step == Destroy(b)
  {
  }

  lemma {:induction false} FirstOf(steps: seq<Step>, i: nat, k: nat, b: Backend) returns (j: nat)
    requires i < k <= |steps| && exists m | i < m < k :: Settles(steps[m], b)
    ensures FirstSettles(steps, i, j, b) && j < k
    decreases k
  {
    hide Settles;
    var m :| i < m < k && Settles(steps[m], b);
    if forall n | i < n < m :: !Settles(steps[n], b) {
      j := m;
    } else {
      j := FirstOf(steps, i, m, b);
    }
  }


  // ---------------------------------------------------------------- a run in which it is

  /** The query `X`, encoded. */
  function SlowQuery(): (b: Bytes) { QueryReads.Wired([[88]]) }

  lemma SlowQueryExtracted()
    ensures Extractor.Extract(Extractor.Fresh, SlowQuery()) == (Extractor.Fresh, Some([Query([88])]))
  {
    hide QueryReads.Wired, Extractor.Extract;
    QueryReads.TextFits([88]);
    QueryReads.WiredExtracted([[88]]);
    assert QueryReads.Queries([[88]]) == [Query([88])];
  }

  /** The message as the session processes it. */
  lemma SlowQueryProcessed(cfg: Config, s: Session)
    requires s.txn == Idle
    ensures var (s', f) := OnMessage(cfg, s, true, Query([88]));
            && f == Proceed && s'.log == s.log + [Processed(Query([88]))]
            && s'.armed == s.armed && s'.running == s.running && s'.txn == s.txn && [] in s'.cache.pending
  {
    hide Classify, Conn.Statements, Conn.ApplyAll, Validate, Conn.QueryEvents;
    UnknownQuery(Mode(cfg.strategy));
  }

  lemma UnknownQuery(mode: PoolingMode)
    ensures Conn.QueryEvents([88]) == [Conn.Executed(Unknown)]
    ensures Validate(mode, [88], false) == Allowed
  {
    hide Detect, KnownClean, Trim, SplitOn, NonBlank;
    Conn.XIsUnknown([88]);
    Conn.TrimFixed([88]);
    NoSeparator([88], SEMICOLON);
    Conn.OneStatement([88]);
  }

  /** What the session logs when the query is sent and the deadline passes. */
  function TimeoutLog(): (log: seq<Io>) {
    [FromClient(SlowQuery()), Processed(Query([88])), ToBackend(SlowQuery()), Marked, Reply(Cancellation()),
     Reply(ReadyForQuery(Idle)), Done]
  }

  function TimeoutEvents(): (es: seq<ManagedSession.Event>) { [ClientRead(SlowQuery(), Full), Deadline(Full, Full)] }

  lemma QueryRead(cfg: Config)
    requires cfg.timeoutEnabled
    ensures var s := OnClientRead(cfg, Start(cfg), SlowQuery(), Full);
            && s.log == TimeoutLog()[..3] && s.armed && s.running && s.txn == Idle
  {
    hide Extractor.Extract, SlowQuery, OnMessage, Rejection, Cancellation;
    SlowQueryExtracted();
    var s0 := Logged(Start(cfg), FromClient(SlowQuery()));
    SlowQueryProcessed(cfg, s0);
    var ms := [Query([88])];
    var s1 := OnMessage(cfg, s0, true, ms[0]).0;
    assert OnMessages(cfg, s0, ms, 0) == OnMessages(cfg, s1, ms, 1) == (s1, Proceed);
  }

  lemma TimeoutRun(cfg: Config)
    requires cfg.timeoutEnabled
    ensures Run(cfg, TimeoutEvents()).log == TimeoutLog()
  {
    hide OnClientRead, SlowQuery, Cancellation;
    QueryRead(cfg);
    var one := TimeoutEvents()[..1];
    assert one == [ClientRead(SlowQuery(), Full)] && one[..0] == [];
    assert Run(cfg, one) == OnClientRead(cfg, Start(cfg), SlowQuery(), Full);
  }

  // ---------------------------------------------------------------- the run of the system

  /** One client serving on backend 0, with what that backend was sent and what the session has logged. */
  function Alone(w: seq<Wire>, log: seq<Io>): (s: System) {
    System(map[0 := w], {}, map[0 := Tenant(Serving, log, Some(0))])
  }

  /** Entries that keep the seat. */
  predicate Staying(io: Io) {
    io.FromClient? || io.Processed? || io.ToBackend? || io.Marked? || io.Reply?
  }

  function Sends(w: seq<Wire>, io: Io): (r: seq<Wire>) { if io.ToBackend? then w + [Forward(0, io.data)] else w }

  function Emits(ios: seq<Io>): (steps: seq<Step>) {
    if ios == [] then [] else [Emit(0, ios[0], 0)] + Emits(ios[1..])
  }

  function AllSends(w: seq<Wire>, ios: seq<Io>): (r: seq<Wire>)
    decreases |ios|
  {
    if ios == [] then w else AllSends(Sends(w, ios[0]), ios[1..])
  }

  lemma EmitStays(cfg: Config, w: seq<Wire>, log: seq<Io>, io: Io)
    requires Staying(io) && Possible(cfg, log + [io])
    ensures Enabled(cfg, Alone(w, log), Emit(0, io, 0))
    ensures Next(cfg, Alone(w, log), Emit(0, io, 0)) == Alone(Sends(w, io), log + [io])
  {
    hide Possible;
  }

  lemma PossiblePrefix(cfg: Config, log: seq<Io>, more: seq<Io>)
    requires Possible(cfg, log + more)
    ensures Possible(cfg, log)
  {
    hide Run;
    var events :| log + more <= Run(cfg, events).log;
    assert log <= Run(cfg, events).log;
  }

  /** The steps are possible one after the other, and end there. */
  ghost predicate LeadsTo(cfg: Config, s: System, steps: seq<Step>, end: System) {
    LegalFrom(cfg, s, steps) && RunFrom(cfg, s, steps) == end
  }

  lemma Chain(cfg: Config, s: System, step: Step, steps: seq<Step>, end: System)
    requires Enabled(cfg, s, step) && LeadsTo(cfg, Next(cfg, s, step), steps, end)
    ensures LeadsTo(cfg, s, [step] + steps, end)
  {
    hide Enabled, Next;
    assert ([step] + steps)[1..] == steps;
  }

  lemma {:induction false} EmitsRun(cfg: Config, w: seq<Wire>, log: seq<Io>, ios: seq<Io>, rest: seq<Step>, end: System)
    requires (forall i | 0 <= i < |ios| :: Staying(ios[i])) && Possible(cfg, log + ios)
    requires LeadsTo(cfg, Alone(AllSends(w, ios), log + ios), rest, end)
    ensures LeadsTo(cfg, Alone(w, log), Emits(ios) + rest, end)
    decreases |ios|
  {
    hide Possible, Enabled, Next, Alone, Sends, Staying, LeadsTo;
    if ios == [] {
      assert log + ios == log && Emits(ios) + rest == rest;
    } else {
      var io, more := ios[0], ios[1..];
      assert (log + [io]) + more == log + ios;
      PossiblePrefix(cfg, log + [io], more);
      EmitStays(cfg, w, log, io);
      EmitsRun(cfg, Sends(w, io), log + [io], more, rest, end);
      Chain(cfg, Alone(w, log), Emit(0, io, 0), Emits(more) + rest, end);
      assert Emits(ios) + rest == [Emit(0, io, 0)] + (Emits(more) + rest);
    }
  }

  function Opened(): (steps: seq<Step>) { [Connect(0, 0), SendStartup(0), HandshakeDone(0)] }

  function ReuseSteps(): (steps: seq<Step>) {
    Opened() + (Emits(TimeoutLog()[..6]) + [Emit(0, Done, 0), Connect(1, 0)])
  }

  lemma OpenedRun(cfg: Config, rest: seq<Step>, end: System)
    requires LeadsTo(cfg, Alone([Startup(0), Recorded], []), rest, end)
    ensures LeadsTo(cfg, EMPTY, Opened() + rest, end)
  {
    hide LeadsTo;
    var s1 := Next(cfg, EMPTY, Connect(0, 0));
    var s2 := Next(cfg, s1, SendStartup(0));
    var s3 := Next(cfg, s2, HandshakeDone(0));
    assert s3.wires[0] == [Startup(0), Recorded];
    assert s3 == Alone([Startup(0), Recorded], []);
    Chain(cfg, s2, HandshakeDone(0), rest, end);
    Chain(cfg, s1, SendStartup(0), [HandshakeDone(0)] + rest, end);
    Chain(cfg, EMPTY, Connect(0, 0), [SendStartup(0)] + ([HandshakeDone(0)] + rest), end);
    assert Opened() + rest == [Connect(0, 0)] + ([SendStartup(0)] + ([HandshakeDone(0)] + rest));
  }

  /** The first client is gone and the second holds its backend. */
  function Reused(w: seq<Wire>, log: seq<Io>): (s: System) {
    System(map[0 := w + [Wire.Reset]], {},
           map[0 := Tenant(Gone, log + [Done], None), 1 := Tenant(Handshaking(false), [], Some(0))])
  }

  lemma LastSteps(cfg: Config, w: seq<Wire>, log: seq<Io>)
    requires Possible(cfg, log + [Done])
    ensures LeadsTo(cfg, Alone(w, log), [Emit(0, Done, 0), Connect(1, 0)], Reused(w, log))
  {
    hide Possible, LeadsTo;
    var s1 := Next(cfg, Alone(w, log), Emit(0, Done, 0));
    var s2 := Next(cfg, s1, Connect(1, 0));
    assert s2 == Reused(w, log);
    Arrived(cfg, s2);
    assert [Connect(1, 0)] + [] == [Connect(1, 0)];
    Chain(cfg, s1, Connect(1, 0), [], s2);
    Chain(cfg, Alone(w, log), Emit(0, Done, 0), [Connect(1, 0)], s2);
    assert [Emit(0, Done, 0)] + [Connect(1, 0)] == [Emit(0, Done, 0), Connect(1, 0)];
  }

  lemma Arrived(cfg: Config, s: System)
    ensures LeadsTo(cfg, s, [], s)
  {
  }

  /** With timeouts on there is a run in which the backend of a session that timed out is handed to another client. */
  lemma TimedOutReused(cfg: Config)
    requires cfg.timeoutEnabled
    ensures exists end: System ::
              && LeadsTo(cfg, EMPTY, ReuseSteps(), end)
              && 0 in end.tenants && TimedOut(end.tenants[0]) && 1 in end.tenants && end.tenants[1].seat == Some(0)
  {
    var log := TimeoutLog()[..6];
    TimeoutPossible(cfg, log);
    hide LeadsTo, TimeoutLog, Emits, Opened, AllSends, Possible, Alone;
    assert [] + log == log;
    var w: seq<Wire> := [Startup(0), Recorded];
    var end := Reused(AllSends(w, log), log);
    LastSteps(cfg, AllSends(w, log), log);
    EmitsRun(cfg, w, [], log, [Emit(0, Done, 0), Connect(1, 0)], end);
    OpenedRun(cfg, Emits(log) + [Emit(0, Done, 0), Connect(1, 0)], end);
    assert TimedOut(end.tenants[0]);
  }

  lemma TimeoutPossible(cfg: Config, log: seq<Io>)
    requires cfg.timeoutEnabled && log == TimeoutLog()[..6]
    ensures Possible(cfg, log) && Possible(cfg, log + [Done])
    ensures (forall i | 0 <= i < |log| :: Staying(log[i])) && Marked in log
  {
    hide Run, SlowQuery, Cancellation;
    TimeoutRun(cfg);
    assert log + [Done] == TimeoutLog();
    assert log + [Done] <= Run(cfg, TimeoutEvents()).log;
    PossiblePrefix(cfg, log, [Done]);
    assert log[3] == Marked;
  }
}
