/** What holds on every run of a managed session, stated on its input and output alone. */
module ManagedRuns {
  import opened WireBytes
  import opened FrontendWire
  import opened Transaction
  import opened ModeEnforcer
  import opened Recency
  import opened ManagedSession
  import BackendScan
  import Conn = ConnectionState
  import Extractor
  import opened CommandDetector

  // ---------------------------------------------------------------- reading a log

  /** A read is kept off the wire when its first parsed message is a Terminate or the enforcer refuses one of them. */
  predicate Suppressed(cfg: Config, txn: TxnState, ms: seq<Message>) {
    || (ms != [] && ms[0].Terminate?)
    || exists i | 0 <= i < |ms| :: Judged(cfg, txn, ms[i]).Refused?
  }

  /** What an observer of the log knows, computed from the reads and writes without the session's own state. */
  datatype Summary = Summary(
    extractor: Extractor.State,       // after the client reads
    chunks: seq<Bytes>,               // the client reads
    parsed: seq<Message>,             // every message of the client reads
    applied: seq<Message>,            // the messages applied to the tracker
    history: seq<Conn.Event>,         // what the tracker was told
    allKept: bool,                    // no read suppressed
    txn: TxnState,                    // after the backend reads
    kept: Bytes,                      // the bytes of the client reads not suppressed
    toBackend: Bytes,
    received: Bytes,                  // the bytes of the backend reads
    toClient: Bytes)

  function Nothing(): (r: Summary) {
    Summary(Extractor.Fresh, [], [], [], [], true, Idle, [], [], [], [])
  }

  /** The transaction state a backend read leaves. */
  function TxnSeen(txn: TxnState, data: Bytes): (r: TxnState) {
    match BackendScan.LastStatus(data, 0, None)
    case Overflow => txn
    case Value(status) => TxnAfter(txn, status)
  }

  function Observe(cfg: Config, o: Summary, io: Io): (r: Summary) {
    match io
    case FromClient(data) =>
      var (x, ms) := Extractor.Extract(o.extractor, data);
      var found := if ms.Some? then ms.value else [];
      var gone := ms.None? || Suppressed(cfg, o.txn, found);
      o.(extractor := x, chunks := o.chunks + [data], parsed := o.parsed + found,
         allKept := o.allKept && !gone, kept := if gone then o.kept else o.kept + data)
    case Processed(m) => o.(applied := o.applied + [m], history := o.history + Told(m))
    case Marked => o.(history := o.history + [Conn.Executed(Unknown)])
    case ToBackend(data) => o.(toBackend := o.toBackend + data)
    case FromBackend(data) => o.(received := o.received + data, txn := TxnSeen(o.txn, data))
    case ToClient(data) => o.(toClient := o.toClient + data)
    case _ => o
  }

  function Summarise(cfg: Config, log: seq<Io>): (r: Summary) {
    if log == [] then Nothing() else Observe(cfg, Summarise(cfg, log[..|log| - 1]), log[|log| - 1])
  }

  lemma SummariseOne(cfg: Config, log: seq<Io>, io: Io)
    ensures Summarise(cfg, log + [io]) == Observe(cfg, Summarise(cfg, log), io)
  {
    assert (log + [io])[..|log|] == log;
  }

  function Seen(cfg: Config, s: Session): (r: Summary) { Summarise(cfg, s.log) }

  // ---------------------------------------------------------------- the invariant of every run

  /** The session's fields are what its log says they should be. */
  ghost predicate Faithful(cfg: Config, s: Session) {
    var o := Seen(cfg, s);
    && s.extractor == o.extractor
    && s.txn == o.txn
    && s.conn == Conn.ApplyAll(Conn.Fresh(cfg.maxPrepared), o.history)
  }

  ghost predicate Transparent(o: Summary) {
    o.toBackend == o.kept && o.toClient == o.received && (o.allKept ==> o.applied == o.parsed)
  }

  /** Nothing reaches a backend or the client that the other side did not send, in order. */
  ghost predicate Honest(o: Summary) {
    o.toBackend <= o.kept && o.toClient <= o.received
  }

  ghost predicate Good(cfg: Config, s: Session) {
    && Honest(Seen(cfg, s))
    && (s.running ==> Faithful(cfg, s) && Transparent(Seen(cfg, s)))
  }

  /** A message that proceeds keeps the fields faithful and moves nothing on the wire. */
  lemma MessageFaithful(cfg: Config, s: Session, first: bool, m: Message)
    requires Faithful(cfg, s)
    ensures var (s', f) := OnMessage(cfg, s, first, m);
            && Faithful(cfg, s')
            && Seen(cfg, s') == (if f.Proceed? then Observe(cfg, Seen(cfg, s), Processed(m)) else Seen(cfg, s))
            && s'.running == s.running
  {
    hide Extractor.Extract, Cached, Told;
    SummariseOne(cfg, s.log, Processed(m));
    Conn.ApplyAllAppend(Conn.Fresh(cfg.maxPrepared), Seen(cfg, s).history, Told(m));
  }

  /** The messages from `i` on change nothing on the wire; if they proceed they are all applied. */
  lemma {:induction false} MessagesFaithful(cfg: Config, s: Session, ms: seq<Message>, i: nat)
    requires i <= |ms| && Faithful(cfg, s)
    ensures var (s', f) := OnMessages(cfg, s, ms, i);
            && Faithful(cfg, s')
            && SameWire(Seen(cfg, s), Seen(cfg, s'))
            && s'.running == s.running
            && (f.Proceed? ==> Seen(cfg, s').applied == Seen(cfg, s).applied + ms[i..])
    decreases |ms| - i
  {
    hide Judged, OnMessage, Faithful, Summarise, Told;
    if i < |ms| {
      MessageFaithful(cfg, s, i == 0, ms[i]);
      var (s', f) := OnMessage(cfg, s, i == 0, ms[i]);
      if f.Proceed? {
        MessagesFaithful(cfg, s', ms, i + 1);
        assert ms[i..] == [ms[i]] + ms[i + 1..];
        assert Seen(cfg, s').applied + ms[i + 1..] == Seen(cfg, s).applied + ms[i..];
      }
    }
  }

  /** Why a read is stopped: a leading Terminate, or the first message the enforcer refuses. */
  lemma {:induction false} FlowMeaning(cfg: Config, s: Session, ms: seq<Message>, i: nat)
    requires i <= |ms|
    ensures var f := OnMessages(cfg, s, ms, i).1;
            && (f.Hangup? <==> i == 0 && ms != [] && ms[0].Terminate?)
            && (f.Refuse? ==> exists k | i <= k < |ms| :: Judged(cfg, s.txn, ms[k]) == Refused(f.message))
            && (f.Proceed? ==> forall k | i <= k < |ms| :: !Judged(cfg, s.txn, ms[k]).Refused?)
    decreases |ms| - i
  {
    hide Judged, OnMessage;
    if i < |ms| {
      MessageFlow(cfg, s, i == 0, ms[i]);
      FlowMeaning(cfg, OnMessage(cfg, s, i == 0, ms[i]).0, ms, i + 1);
    }
  }

  lemma MessageFlow(cfg: Config, s: Session, first: bool, m: Message)
    ensures var (s', f) := OnMessage(cfg, s, first, m);
            && s'.txn == s.txn
            && (f.Hangup? <==> first && m.Terminate?)
            && (f.Refuse? ==> Judged(cfg, s.txn, m) == Refused(f.message))
            && (f.Proceed? ==> Judged(cfg, s.txn, m) == Allowed)
            && s'.log == if f.Proceed? then s.log + [Processed(m)] else s.log
  {
  }

  /** Two summaries that differ only in what was applied to the tracker. */
  predicate SameWire(a: Summary, b: Summary) {
    b == a.(applied := b.applied, history := b.history)
  }

  /** Log entries that end a session or belong to the pool say nothing about the streams. */
  lemma Quiet(cfg: Config, s: Session, io: Io)
    requires io.Done? || io.Broken? || io.Released? || io.Acquired? || io.Initialised? || io.Reply?
    ensures Seen(cfg, Logged(s, io)) == Seen(cfg, s)
  {
    SummariseOne(cfg, s.log, io);
  }

  lemma WrittenGood(cfg: Config, s: Session, io: Io, w: Write)
    requires s.running && Faithful(cfg, s) && (io.ToBackend? || io.Reply?)
    requires Honest(Observe(cfg, Seen(cfg, s), io))
    requires w.Full? ==> Transparent(Observe(cfg, Seen(cfg, s), io))
    ensures Good(cfg, Written(cfg, s, io, w))
  {
    SummariseOne(cfg, s.log, io);
    Quiet(cfg, Logged(s, io), Broken);
  }

  lemma ClientReadGood(cfg: Config, s: Session, data: Bytes, w: Write)
    requires s.running && Good(cfg, s)
    ensures Good(cfg, OnClientRead(cfg, s, data, w))
  {
    hide Extractor.Extract, OnMessages, Conn.ApplyAll, Judged, Summarise, Written, Rejection;
    var s0 := Logged(s, FromClient(data));
    var o := Observe(cfg, Seen(cfg, s), FromClient(data));
    SummariseOne(cfg, s.log, FromClient(data));
    Quiet(cfg, s0, Broken);
    var (x, ms) := Extractor.Extract(s.extractor, data);
    if ms.Some? {
      var s1 := s0.(extractor := x);
      MessagesFaithful(cfg, s1, ms.value, 0);
      FlowMeaning(cfg, s1, ms.value, 0);
      var (s2, flow) := OnMessages(cfg, s1, ms.value, 0);
      assert ms.value[0..] == ms.value;
      Quiet(cfg, s2, Done);
      Quiet(cfg, s2, Broken);
      match flow {
        case Proceed => WrittenGood(cfg, s2, ToBackend(Sent(data, w)), w);
        case Refuse(message) => WrittenGood(cfg, s2, Reply(Sent(Rejection(message, s2.txn), w)), w);
        case _ =>
      }
    }
  }

  lemma SwappedGood(cfg: Config, s: Session, next: Reacquired)
    requires s.running && Good(cfg, s)
    ensures Good(cfg, Swapped(s, next))
  {
    hide Summarise;
    var s' := Logged(s, Released);
    Quiet(cfg, s, Released);
    Quiet(cfg, s', Broken);
    Quiet(cfg, s', Acquired(false));
    Quiet(cfg, s', Acquired(true));
    Quiet(cfg, Logged(s', Acquired(true)), Initialised);
    Quiet(cfg, Logged(s', Acquired(true)), Broken);
  }

  lemma BackendReadGood(cfg: Config, s: Session, data: Bytes, w: Write, next: Reacquired)
    requires s.running && Good(cfg, s)
    ensures Good(cfg, OnBackendRead(cfg, s, data, w, next))
  {
    hide Summarise, Conn.ApplyAll, BackendScan.LastStatus, Completes, Swapped, Extractor.Extract;
    var s0 := Logged(s, FromBackend(data));
    SummariseOne(cfg, s.log, FromBackend(data));
    Quiet(cfg, s0, Broken);
    if Completes(data).Value? && BackendScan.LastStatus(data, 0, None).Value? {
      var s1 := Settled(cfg, s0, Completes(data).value).(txn := TxnSeen(s.txn, data));
      var s2 := Logged(s1, ToClient(Sent(data, w)));
      SummariseOne(cfg, s1.log, ToClient(Sent(data, w)));
      Quiet(cfg, s2, Broken);
      if w.Full? {
        assert Good(cfg, s2);
        SwappedGood(cfg, s2, next);
      }
    }
  }

  lemma DeadlineGood(cfg: Config, s: Session, w1: Write, w2: Write)
    requires s.running && Good(cfg, s)
    ensures Good(cfg, OnDeadline(cfg, s, w1, w2))
  {
    hide Summarise, Cancellation, Transaction.ReadyForQuery;
    SummariseOne(cfg, s.log, Marked);
    var s1 := Logged(s.(conn := s.conn.(unknown := true)), Marked);
    var a, b := Reply(Sent(Cancellation(), w1)), Reply(Sent(ReadyForQuery(s.txn), w2));
    Quiet(cfg, s1, a);
    Quiet(cfg, Logged(s1, a), b);
    Quiet(cfg, Logged(Logged(s1, a), b), Done);
  }

  lemma StepGood(cfg: Config, s: Session, e: Event)
    requires Good(cfg, s)
    ensures Good(cfg, Step(cfg, s, e))
  {
    hide Good, OnClientRead, OnBackendRead, OnDeadline;
    if s.running {
      match e {
        case ClientRead(data, w) => ClientReadGood(cfg, s, data, w);
        case BackendRead(data, w, next) => BackendReadGood(cfg, s, data, w, next);
        case Deadline(w1, w2) => DeadlineGood(cfg, s, w1, w2);
        case _ => DoneGood(cfg, s);
      }
    }
  }

  lemma DoneGood(cfg: Config, s: Session)
    requires Good(cfg, s)
    ensures Good(cfg, Ended(s, Done))
  {
    Quiet(cfg, s, Done);
  }

  lemma {:induction false} RunGood(cfg: Config, events: seq<Event>)
    ensures Good(cfg, Run(cfg, events))
  {
    if events != [] {
      hide Good, Step;
      RunGood(cfg, events[..|events| - 1]);
      StepGood(cfg, Run(cfg, events[..|events| - 1]), events[|events| - 1]);
    }
  }

  // ---------------------------------------------------------------- transparency

  /** At every point of every run the backends have received the client's reads in order with only the suppressed ones
      left out, and the client every backend read in order; a run that has failed in a write is at worst behind. */
  lemma RunTransparent(cfg: Config, events: seq<Event>)
    ensures var s := Run(cfg, events);
            var o := Summarise(cfg, s.log);
            && o.toBackend <= o.kept && o.toClient <= o.received
            && (s.running ==> o.toBackend == o.kept && o.toClient == o.received)
  {
    hide Run, Summarise;
    RunGood(cfg, events);
  }

  // ---------------------------------------------------------------- the shape of every log

  /** Release is allowed: pooling by transaction, the read ends a transaction, and nothing told pins. */
  ghost predicate MayRelease(cfg: Config, o: Summary, data: Bytes) {
    && (cfg.strategy.TransactionPooling? || cfg.strategy.HybridPooling?)
    && InTxn(o.txn) && TxnSeen(o.txn, data).Idle?
    && !Conn.Pinned(Conn.ApplyAll(Conn.Fresh(cfg.maxPrepared), o.history))
  }

  /** A reply is the refusal of a message the client sent, or the cancellation of a timed-out query. */
  ghost predicate ProxyBuilt(cfg: Config, o: Summary, b: Bytes) {
    || b <= Cancellation()
    || b <= ReadyForQuery(o.txn)
    || exists m | m in o.parsed :: Judged(cfg, o.txn, m).Refused? && b <= Rejection(Judged(cfg, o.txn, m).message, o.txn)
  }

  /** What each entry may follow. */
  ghost predicate Follows(cfg: Config, log: seq<Io>, io: Io) {
    var n := |log|;
    && (n > 0 && log[n - 1].Released? ==> io.Acquired? || io.Broken?)
    && (n > 0 && log[n - 1] == Acquired(true) ==> io.Initialised? || io.Broken?)
    && (n > 0 && log[n - 1].FromBackend? ==> io.ToClient? || io.Broken?)
    && match io
       case ToClient(data) => n > 0 && log[n - 1].FromBackend? && data <= log[n - 1].data
       case Released =>
         && n > 1 && log[n - 2].FromBackend? && log[n - 1] == ToClient(log[n - 2].data)
         && MayRelease(cfg, Summarise(cfg, log[..n - 2]), log[n - 2].data)
       case Acquired(_) => n > 0 && log[n - 1].Released?
       case Initialised => n > 0 && log[n - 1] == Acquired(true)
       case Reply(data) => ProxyBuilt(cfg, Summarise(cfg, log), data)
       case _ => true
  }

  ghost predicate WellLogged(cfg: Config, log: seq<Io>) {
    forall j | 0 <= j < |log| :: Follows(cfg, log[..j], log[j])
  }

  lemma LogOne(cfg: Config, log: seq<Io>, io: Io)
    requires WellLogged(cfg, log) && Follows(cfg, log, io)
    ensures WellLogged(cfg, log + [io])
  {
    var log' := log + [io];
    forall j | 0 <= j < |log'|
      ensures Follows(cfg, log'[..j], log'[j])
    {
      assert log'[..j] == if j < |log| then log[..j] else log;
    }
  }

  /** Between events: the last entry asks for nothing more. */
  predicate Resting(log: seq<Io>) {
    log == [] || (var last := log[|log| - 1]; !last.Released? && last != Acquired(true) && !last.FromBackend?)
  }

  ghost predicate Tidy(cfg: Config, log: seq<Io>) {
    WellLogged(cfg, log) && Resting(log)
  }

  /** Entries that carry no obligation of their own. */
  lemma LogPlain(cfg: Config, log: seq<Io>, io: Io)
    requires Tidy(cfg, log)
    requires io.Processed? || io.FromClient? || io.ToBackend? || io.Marked? || io.Done? || io.Broken?
    ensures Tidy(cfg, log + [io])
  {
    hide WellLogged, MayRelease, ProxyBuilt, Summarise;
    LogOne(cfg, log, io);
  }

  lemma {:induction false} MessagesLogged(cfg: Config, s: Session, ms: seq<Message>, i: nat)
    requires i <= |ms| && Tidy(cfg, s.log)
    ensures Tidy(cfg, OnMessages(cfg, s, ms, i).0.log)
    decreases |ms| - i
  {
    hide Tidy, OnMessage;
    if i < |ms| {
      MessageFlow(cfg, s, i == 0, ms[i]);
      LogPlain(cfg, s.log, Processed(ms[i]));
      MessagesLogged(cfg, OnMessage(cfg, s, i == 0, ms[i]).0, ms, i + 1);
    }
  }

  lemma WrittenTidy(cfg: Config, s: Session, io: Io, w: Write)
    requires Tidy(cfg, s.log) && (io.ToBackend? || (io.Reply? && ProxyBuilt(cfg, Seen(cfg, s), io.data)))
    ensures Tidy(cfg, Written(cfg, s, io, w).log)
  {
    hide WellLogged, Summarise, ProxyBuilt, MayRelease;
    LogOne(cfg, s.log, io);
    LogPlain(cfg, s.log + [io], Broken);
  }

  lemma ClientReadTidy(cfg: Config, s: Session, data: Bytes, w: Write)
    requires s.running && Good(cfg, s) && Tidy(cfg, s.log)
    ensures Tidy(cfg, OnClientRead(cfg, s, data, w).log)
  {
    hide Extractor.Extract, OnMessages, Conn.ApplyAll, Judged, Summarise, Written, Rejection, WellLogged;
    var s0 := Logged(s, FromClient(data));
    SummariseOne(cfg, s.log, FromClient(data));
    LogPlain(cfg, s.log, FromClient(data));
    LogPlain(cfg, s0.log, Broken);
    var (x, ms) := Extractor.Extract(s.extractor, data);
    if ms.Some? {
      var s1 := s0.(extractor := x);
      MessagesFaithful(cfg, s1, ms.value, 0);
      FlowMeaning(cfg, s1, ms.value, 0);
      MessagesLogged(cfg, s1, ms.value, 0);
      var (s2, flow) := OnMessages(cfg, s1, ms.value, 0);
      LogPlain(cfg, s2.log, Done);
      LogPlain(cfg, s2.log, Broken);
      match flow {
        case Proceed => WrittenTidy(cfg, s2, ToBackend(Sent(data, w)), w);
        case Refuse(message) =>
          var k :| 0 <= k < |ms.value| && Judged(cfg, s.txn, ms.value[k]) == Refused(message);
          assert ms.value[k] in Seen(cfg, s2).parsed;
          WrittenTidy(cfg, s2, Reply(Sent(Rejection(message, s2.txn), w)), w);
        case _ =>
      }
    }
  }

  lemma AfterReleased(cfg: Config, log: seq<Io>)
    requires WellLogged(cfg, log) && log != [] && log[|log| - 1].Released?
    ensures Tidy(cfg, log + [Broken]) && Tidy(cfg, log + [Acquired(false)]) && WellLogged(cfg, log + [Acquired(true)])
  {
    hide WellLogged, MayRelease, Summarise;
    LogOne(cfg, log, Broken);
    LogOne(cfg, log, Acquired(false));
    LogOne(cfg, log, Acquired(true));
  }

  lemma AfterNew(cfg: Config, log: seq<Io>)
    requires WellLogged(cfg, log) && log != [] && log[|log| - 1] == Acquired(true)
    ensures Tidy(cfg, log + [Broken]) && Tidy(cfg, log + [Initialised])
  {
    hide WellLogged, MayRelease, Summarise;
    LogOne(cfg, log, Broken);
    LogOne(cfg, log, Initialised);
  }

  lemma SwappedTidy(cfg: Config, s: Session, next: Reacquired)
    requires WellLogged(cfg, s.log) && Follows(cfg, s.log, Released)
    ensures Tidy(cfg, Swapped(s, next).log)
  {
    hide WellLogged, Tidy, Follows;
    LogOne(cfg, s.log, Released);
    AfterReleased(cfg, s.log + [Released]);
    AfterNew(cfg, s.log + [Released] + [Acquired(true)]);
  }

  lemma AfterBackendRead(cfg: Config, log: seq<Io>, data: Bytes, sent: Bytes)
    requires Tidy(cfg, log) && sent <= data
    ensures Tidy(cfg, log + [FromBackend(data)] + [Broken])
    ensures Tidy(cfg, log + [FromBackend(data)] + [ToClient(sent)])
  {
    hide WellLogged, MayRelease, Summarise;
    var log0 := log + [FromBackend(data)];
    LogOne(cfg, log, FromBackend(data));
    LogOne(cfg, log0, Broken);
    LogOne(cfg, log0, ToClient(sent));
  }

  lemma ReleaseFollows(cfg: Config, log: seq<Io>, data: Bytes)
    requires MayRelease(cfg, Summarise(cfg, log), data)
    ensures Follows(cfg, log + [FromBackend(data)] + [ToClient(data)], Released)
  {
    hide MayRelease, Summarise;
    var log' := log + [FromBackend(data)] + [ToClient(data)];
    assert log'[..|log'| - 2] == log;
  }

  lemma BackendReadTidy(cfg: Config, s: Session, data: Bytes, w: Write, next: Reacquired)
    requires s.running && Good(cfg, s) && Tidy(cfg, s.log)
    ensures Tidy(cfg, OnBackendRead(cfg, s, data, w, next).log)
  {
    hide Summarise, Conn.ApplyAll, BackendScan.LastStatus, Completes, Swapped, WellLogged, Resting, Follows;
    AfterBackendRead(cfg, s.log, data, Sent(data, w));
    if Completes(data).Value? && BackendScan.LastStatus(data, 0, None).Value? {
      var s1 := Settled(cfg, Logged(s, FromBackend(data)), Completes(data).value).(txn := TxnSeen(s.txn, data));
      var s2 := Logged(s1, ToClient(Sent(data, w)));
      LogPlain(cfg, s2.log, Broken);
      if w.Full? && InTxn(s.txn) && s1.txn.Idle? && ShouldRelease(cfg.strategy, s.conn) {
        ReleaseFollows(cfg, s.log, data);
        SwappedTidy(cfg, s2, next);
      }
    }
  }

  lemma DeadlineTidy(cfg: Config, s: Session, w1: Write, w2: Write)
    requires s.running && Good(cfg, s) && Tidy(cfg, s.log)
    ensures Tidy(cfg, OnDeadline(cfg, s, w1, w2).log)
  {
    hide Summarise, Cancellation, Transaction.ReadyForQuery, WellLogged;
    var a, b := Reply(Sent(Cancellation(), w1)), Reply(Sent(ReadyForQuery(s.txn), w2));
    var l := s.log + [Marked];
    SummariseOne(cfg, s.log, Marked);
    SummariseOne(cfg, l, a);
    LogPlain(cfg, s.log, Marked);
    LogOne(cfg, l, a);
    LogOne(cfg, l + [a], b);
    LogPlain(cfg, l + [a] + [b], Done);
  }

  lemma {:induction false} RunTidy(cfg: Config, events: seq<Event>)
    ensures Tidy(cfg, Run(cfg, events).log)
  {
    if events != [] {
      hide Good, Tidy, OnClientRead, OnBackendRead, OnDeadline;
      var before, e := events[..|events| - 1], events[|events| - 1];
      RunTidy(cfg, before);
      RunGood(cfg, before);
      var s := Run(cfg, before);
      if s.running {
        match e {
          case ClientRead(data, w) => ClientReadTidy(cfg, s, data, w);
          case BackendRead(data, w, next) => BackendReadTidy(cfg, s, data, w, next);
          case Deadline(w1, w2) => DeadlineTidy(cfg, s, w1, w2);
          case _ => LogPlain(cfg, s.log, Done);
        }
      }
    }
  }

  // ---------------------------------------------------------------- mid-session release

  /** Nothing other than a prepared statement is live, and none of those is retained. */
  ghost predicate LeavesNothing(cfg: Config, h: seq<Conn.Event>) {
    !Conn.OtherLive(h) && !Conn.SomeRetained(cfg.maxPrepared, h)
  }

  ghost predicate NothingLive(h: seq<Conn.Event>) {
    forall r: Conn.Resource :: !Conn.Live(h, r)
  }

  /** Every statement of unknown effect was followed by a DISCARD ALL. */
  ghost predicate UnknownDiscarded(h: seq<Conn.Event>) {
    forall i | 0 <= i < |h| && h[i] == Conn.Executed(Unknown) ::
      exists k | i < k < |h| :: h[k] == Conn.Executed(Stateful(DiscardAll))
  }

  lemma UnpinnedLeavesNothing(cfg: Config, h: seq<Conn.Event>)
    ensures !Conn.Pinned(Conn.ApplyAll(Conn.Fresh(cfg.maxPrepared), h)) <==> LeavesNothing(cfg, h)
    ensures LeavesNothing(cfg, h) ==> UnknownDiscarded(h)
    ensures LeavesNothing(cfg, h) && Conn.WithinBound(cfg.maxPrepared, h) ==> NothingLive(h)
  {
    hide Conn.Pinned, Conn.ApplyAll, Conn.WithinBound, Conn.SomeRetained, Conn.OtherLive;
    Conn.PinnedExactly(cfg.maxPrepared, h);
    if LeavesNothing(cfg, h) {
      UnknownNotLive(h);
    }
  }

  lemma UnknownNotLive(h: seq<Conn.Event>)
    requires !Conn.OtherLive(h)
    ensures UnknownDiscarded(h)
  {
    assert !Conn.Live(h, Conn.UnknownEffect);
    forall i | 0 <= i < |h| && h[i] == Conn.Executed(Unknown)
      ensures exists k | i < k < |h| :: h[k] == Conn.Executed(Stateful(DiscardAll))
    {
      assert Conn.Acquires(h[i], Conn.UnknownEffect);
      assert Conn.ReleasedAfter(h, i, Conn.UnknownEffect);
    }
  }

  lemma EndsTransaction(txn: TxnState, data: Bytes)
    requires InTxn(txn) && TxnSeen(txn, data).Idle?
    ensures BackendScan.LastStatus(data, 0, None) == BackendScan.Value(Some(73))
  {
    hide BackendScan.LastStatus;
  }

  /** On every run a backend is given back in mid-session only when pooling by transaction or hybrid, only by a backend
      read that ends a transaction and has just been delivered, and only when the messages applied to the tracker leave
      nothing: no statement of unknown effect since the last DISCARD ALL, no live resource other than a prepared statement
      and no prepared statement retained. What the backend itself was sent is the subject of `ReleasedBackends`. */
  lemma ReleaseSafe(cfg: Config, events: seq<Event>, j: nat)
    requires j < |Run(cfg, events).log| && Run(cfg, events).log[j].Released?
    ensures var log := Run(cfg, events).log;
            && (cfg.strategy.TransactionPooling? || cfg.strategy.HybridPooling?)
            && j > 1 && log[j - 2].FromBackend? && log[j - 1] == ToClient(log[j - 2].data)
            && InTxn(Summarise(cfg, log[..j - 2]).txn)
            && BackendScan.LastStatus(log[j - 2].data, 0, None) == BackendScan.Value(Some(73))
            && LeavesNothing(cfg, Summarise(cfg, log[..j - 2]).history)
            && UnknownDiscarded(Summarise(cfg, log[..j - 2]).history)
            && (Conn.WithinBound(cfg.maxPrepared, Summarise(cfg, log[..j - 2]).history) ==>
                  NothingLive(Summarise(cfg, log[..j - 2]).history))
  {
    hide Run, Summarise, Conn.Pinned, Conn.ApplyAll, LeavesNothing, UnknownDiscarded, TxnSeen, Conn.WithinBound, NothingLive;
    RunTidy(cfg, events);
    var log := Run(cfg, events).log;
    assert Follows(cfg, log[..j], log[j]);
    assert log[..j][..j - 2] == log[..j - 2];
    var o := Summarise(cfg, log[..j - 2]);
    EndsTransaction(o.txn, log[j - 2].data);
    UnpinnedLeavesNothing(cfg, o.history);
  }

  lemma SettledKeeps(cfg: Config, s: Session, completes: bool)
    ensures var s' := Settled(cfg, s, completes); s'.txn == s.txn && s'.conn == s.conn && s'.log == s.log
  {
  }

  /** And then it always is: a delivered read releases exactly when the log says it may. */
  lemma ReleaseExactly(cfg: Config, events: seq<Event>, data: Bytes, next: Reacquired)
    requires Run(cfg, events).running
    requires Completes(data).Value? && BackendScan.LastStatus(data, 0, None).Value?
    ensures var s := Run(cfg, events);
            var o, log := Summarise(cfg, s.log), Step(cfg, s, BackendRead(data, Full, next)).log;
            && s.log + [FromBackend(data), ToClient(data)] <= log
            && (MayRelease(cfg, o, data) <==> |log| > |s.log| + 2 && log[|s.log| + 2].Released?)
            && (MayRelease(cfg, o, data) <==>
                  && (cfg.strategy.TransactionPooling? || cfg.strategy.HybridPooling?)
                  && InTxn(o.txn) && TxnSeen(o.txn, data).Idle? && LeavesNothing(cfg, o.history))
  {
    hide Run, Summarise, Conn.Pinned, Conn.ApplyAll, Completes, BackendScan.LastStatus, Update, InTxn, Settled, LeavesNothing;
    RunGood(cfg, events);
    var s := Run(cfg, events);
    SettledKeeps(cfg, Logged(s, FromBackend(data)), Completes(data).value);
    assert s.log + [FromBackend(data)] + [ToClient(data)] == s.log + [FromBackend(data), ToClient(data)];
    UnpinnedLeavesNothing(cfg, Summarise(cfg, s.log).history);
  }

  // ---------------------------------------------------------------- the query deadline

  /** An execution pending on the unnamed portal has a deadline whenever timeouts are on. */
  ghost predicate Covered(cfg: Config, s: Session) {
    && (s.armed ==> cfg.timeoutEnabled)
    && (s.running && cfg.timeoutEnabled && [] in s.cache.pending ==> s.armed)
  }

  lemma MessageKeepsArmed(cfg: Config, s: Session, first: bool, m: Message)
    ensures OnMessage(cfg, s, first, m).0.armed == s.armed
  {
    hide Judged, Told, Cached, Conn.ApplyAll, Conn.Panics;
  }

  lemma {:induction false} MessagesKeepArmed(cfg: Config, s: Session, ms: seq<Message>, i: nat)
    requires i <= |ms|
    ensures OnMessages(cfg, s, ms, i).0.armed == s.armed
    decreases |ms| - i
  {
    hide OnMessage;
    if i < |ms| {
      MessageKeepsArmed(cfg, s, i == 0, ms[i]);
      MessagesKeepArmed(cfg, OnMessage(cfg, s, i == 0, ms[i]).0, ms, i + 1);
    }
  }

  lemma StepCovered(cfg: Config, s: Session, e: Event)
    requires Covered(cfg, s)
    ensures Covered(cfg, Step(cfg, s, e))
  {
    hide OnMessages, Extractor.Extract, Completes, BackendScan.LastStatus, Rejection, Cancellation;
    if s.running && e.ClientRead? {
      var (x, ms) := Extractor.Extract(s.extractor, e.data);
      if ms.Some? {
        MessagesKeepArmed(cfg, Logged(s, FromClient(e.data)).(extractor := x), ms.value, 0);
      }
    }
  }

  /** On every run no execution on the unnamed portal stays pending without a deadline. */
  lemma {:induction false} DeadlineCovers(cfg: Config, events: seq<Event>)
    ensures Covered(cfg, Run(cfg, events))
  {
    if events != [] {
      hide Step;
      DeadlineCovers(cfg, events[..|events| - 1]);
      StepCovered(cfg, Run(cfg, events[..|events| - 1]), events[|events| - 1]);
    }
  }

  // ---------------------------------------------------------------- what a Bind executes

  /** The text and types of the last Parse of `name` not closed since. */
  function LatestParse(ms: seq<Message>, name: Bytes): (r: Option<Conn.Statement>) {
    if ms == [] then None
    else
      var m := ms[|ms| - 1];
      if m.Parse? && m.name == name then Some((m.query, m.oids))
      else if m.Close? && m.kind == 83 && m.name == name then None
      else LatestParse(ms[..|ms| - 1], name)
  }

  function CacheOps(m: Message): (r: seq<CacheOp<Bytes, Conn.Statement>>) {
    match m
    case Parse(name, query, oids) => [Insert(name, (query, oids))]
    case Bind(_, statement, _, _) => [Get(statement)]
    case Close(kind, name) => if kind == 83 then [Drop(name)] else []
    case _ => []
  }

  function AllCacheOps(ms: seq<Message>): (r: seq<CacheOp<Bytes, Conn.Statement>>) {
    if ms == [] then [] else AllCacheOps(ms[..|ms| - 1]) + CacheOps(ms[|ms| - 1])
  }

  /** The cache holds what its bounded run over the applied messages holds. */
  ghost predicate CacheFaithful(cfg: Config, s: Session) {
    s.cache.statements == CacheRun(cfg.maxPrepared, AllCacheOps(Seen(cfg, s).applied)).bounded
  }

  lemma CacheOpsOne(ms: seq<Message>, m: Message, max: nat)
    ensures AllCacheOps(ms + [m]) == AllCacheOps(ms) + CacheOps(m)
    ensures var p := CacheRun(max, AllCacheOps(ms));
            CacheRun(max, AllCacheOps(ms + [m])) == if CacheOps(m) == [] then p else CacheStep(p, max, CacheOps(m)[0])
  {
    hide CacheStep;
    assert (ms + [m])[..|ms|] == ms;
    var ops := AllCacheOps(ms);
    assert CacheOps(m) != [] ==> (ops + CacheOps(m))[..|ops|] == ops;
    assert ops + [] == ops;
  }

  lemma MessageCache(cfg: Config, s: Session, first: bool, m: Message)
    requires CacheFaithful(cfg, s)
    ensures CacheFaithful(cfg, OnMessage(cfg, s, first, m).0)
  {
    hide CacheInsert, CacheGet, Remove, Judged, Conn.ApplyAll, Conn.Panics, Told, CacheRun, AllCacheOps, Summarise;
    SummariseOne(cfg, s.log, Processed(m));
    CacheOpsOne(Seen(cfg, s).applied, m, cfg.maxPrepared);
  }

  lemma {:induction false} MessagesCache(cfg: Config, s: Session, ms: seq<Message>, i: nat)
    requires i <= |ms| && CacheFaithful(cfg, s)
    ensures CacheFaithful(cfg, OnMessages(cfg, s, ms, i).0)
    decreases |ms| - i
  {
    hide OnMessage, CacheFaithful;
    if i < |ms| {
      MessageCache(cfg, s, i == 0, ms[i]);
      MessagesCache(cfg, OnMessage(cfg, s, i == 0, ms[i]).0, ms, i + 1);
    }
  }

  /** Steps other than messages leave the cached statements and the applied messages alone. */
  ghost predicate SameCache(cfg: Config, s: Session, s': Session) {
    s'.cache.statements == s.cache.statements && Seen(cfg, s').applied == Seen(cfg, s).applied
  }

  lemma LoggedCache(cfg: Config, s: Session, io: Io)
    requires !io.Processed?
    ensures SameCache(cfg, s, Logged(s, io))
  {
    hide Extractor.Extract;
    SummariseOne(cfg, s.log, io);
  }

  lemma ClientReadCache(cfg: Config, s: Session, data: Bytes, w: Write)
    requires CacheFaithful(cfg, s)
    ensures CacheFaithful(cfg, OnClientRead(cfg, s, data, w))
  {
    hide OnMessages, Extractor.Extract, Rejection, Summarise, CacheRun, AllCacheOps;
    var s0 := Logged(s, FromClient(data));
    LoggedCache(cfg, s, FromClient(data));
    LoggedCache(cfg, s0, Broken);
    var (x, ms) := Extractor.Extract(s.extractor, data);
    if ms.Some? {
      var s1 := s0.(extractor := x);
      MessagesCache(cfg, s1, ms.value, 0);
      var (s2, flow) := OnMessages(cfg, s1, ms.value, 0);
      LoggedCache(cfg, s2, Done);
      LoggedCache(cfg, s2, Broken);
      var io := if flow.Refuse? then Reply(Sent(Rejection(flow.message, s2.txn), w)) else ToBackend(Sent(data, w));
      LoggedCache(cfg, s2, io);
      LoggedCache(cfg, Logged(s2, io), Broken);
    }
  }

  lemma BackendReadCache(cfg: Config, s: Session, data: Bytes, w: Write, next: Reacquired)
    ensures SameCache(cfg, s, OnBackendRead(cfg, s, data, w, next))
  {
    hide Completes, BackendScan.LastStatus, ShouldRelease, Summarise;
    var s0 := Logged(s, FromBackend(data));
    LoggedCache(cfg, s, FromBackend(data));
    LoggedCache(cfg, s0, Broken);
    LoggedCache(cfg, s0, ToClient(Sent(data, w)));
    var s2 := Logged(s0, ToClient(Sent(data, w)));
    LoggedCache(cfg, s2, Broken);
    LoggedCache(cfg, s2, Released);
    var s3 := Logged(s2, Released);
    LoggedCache(cfg, s3, Broken);
    LoggedCache(cfg, s3, Acquired(false));
    LoggedCache(cfg, s3, Acquired(true));
    LoggedCache(cfg, Logged(s3, Acquired(true)), Initialised);
    LoggedCache(cfg, Logged(s3, Acquired(true)), Broken);
  }

  lemma DeadlineCache(cfg: Config, s: Session, w1: Write, w2: Write)
    ensures SameCache(cfg, s, OnDeadline(cfg, s, w1, w2))
  {
    hide Summarise, Cancellation, Transaction.ReadyForQuery;
    var a, b := Reply(Sent(Cancellation(), w1)), Reply(Sent(ReadyForQuery(s.txn), w2));
    LoggedCache(cfg, s, Marked);
    var s1 := Logged(s, Marked);
    LoggedCache(cfg, s1, a);
    LoggedCache(cfg, Logged(s1, a), b);
    LoggedCache(cfg, Logged(Logged(s1, a), b), Done);
  }

  lemma {:induction false} RunCache(cfg: Config, events: seq<Event>)
    ensures CacheFaithful(cfg, Run(cfg, events))
  {
    if events != [] {
      hide OnClientRead, OnBackendRead, OnDeadline, Summarise, CacheRun, AllCacheOps;
      var before, e := events[..|events| - 1], events[|events| - 1];
      RunCache(cfg, before);
      var s := Run(cfg, before);
      match e {
        case ClientRead(data, w) => ClientReadCache(cfg, s, data, w);
        case BackendRead(data, w, next) => BackendReadCache(cfg, s, data, w, next);
        case Deadline(w1, w2) => DeadlineCache(cfg, s, w1, w2);
        case _ => LoggedCache(cfg, s, Done);
      }
    }
  }

  function Lookup(values: map<Bytes, Conn.Statement>, name: Bytes): (r: Option<Conn.Statement>) {
    if name in values then Some(values[name]) else None
  }

  lemma LookupStep(p: Pair<Bytes, Conn.Statement>, max: nat, m: Message, name: Bytes)
    ensures var p' := if CacheOps(m) == [] then p else CacheStep(p, max, CacheOps(m)[0]);
            Lookup(p'.reference.values, name) ==
            if m.Parse? && m.name == name then Some((m.query, m.oids))
            else if m.Close? && m.kind == 83 && m.name == name then None
            else Lookup(p.reference.values, name)
  {
    hide CacheInsert, CacheGet, Remove, Touch, Without;
  }

  lemma NothingCached(max: nat, name: Bytes)
    ensures Lookup(CacheRun(max, AllCacheOps([])).reference.values, name) == None
  {
    assert AllCacheOps([]) == [];
  }

  lemma {:induction false} ReferenceIsLatest(max: nat, ms: seq<Message>, name: Bytes)
    ensures LatestParse(ms, name) == Lookup(CacheRun(max, AllCacheOps(ms)).reference.values, name)
  {
    if ms == [] {
      NothingCached(max, name);
    } else {
      hide CacheRun, AllCacheOps, CacheStep, CacheOps, Lookup;
      LookupStep(CacheRun(max, AllCacheOps(ms[..|ms| - 1])), max, ms[|ms| - 1], name);
      var before, m := ms[..|ms| - 1], ms[|ms| - 1];
      ReferenceIsLatest(max, before, name);
      assert before + [m] == ms;
      CacheOpsOne(before, m, max);
    }
  }

  /** On every run a Bind that finds its statement in the cache takes the text of the latest Parse of that name among the
      messages applied: eviction can lose a statement but never serve a stale one. */
  lemma BindResolves(cfg: Config, events: seq<Event>, name: Bytes)
    ensures var s := Run(cfg, events);
            var (_, found) := CacheGet(s.cache.statements, name);
            found.Some? ==> LatestParse(Summarise(cfg, s.log).applied, name) == found
  {
    hide Run, Summarise, CacheRun, AllCacheOps, LatestParse, NoDuplicates, IsSuffix, Names;
    RunCache(cfg, events);
    var ms := Summarise(cfg, Run(cfg, events).log).applied;
    CacheTrace(cfg.maxPrepared, AllCacheOps(ms));
    ReferenceIsLatest(cfg.maxPrepared, ms, name);
  }

  // ---------------------------------------------------------------- what a message does to the connection

  /** A Parse applies its text and leaves its name prepared, a Close of a statement takes it away, a Query applies its text;
      no other message tells the tracker anything. */
  lemma ToldMeans(s: Conn.State, m: Message)
    ensures var s' := Conn.ApplyAll(s, Told(m));
            && (m.Query? ==> s' == Conn.ApplyAll(s, Conn.QueryEvents(m.query)))
            && (m.Parse? ==>
                  && s' == Conn.Apply(Conn.ApplyAll(s, Conn.QueryEvents(m.query)), Conn.Prepared(m.name, (m.query, m.oids)))
                  && Conn.Holds(s', Conn.PreparedStatement(m.name)) && Conn.Pinned(s')
                  && (Conn.Panics(Told(m)) <==> Conn.Panics(Conn.QueryEvents(m.query))))
            && (m.Close? && m.kind == 83 ==>
                  && s' == s.(prepared := s'.prepared)
                  && (forall n :: n in s'.prepared.entries <==> n != m.name && n in s.prepared.entries))
            && (!m.Query? && !m.Parse? && !(m.Close? && m.kind == 83) ==> s' == s)
  {
    hide Conn.QueryEvents, Evict, Without;
    match m
    case Parse(name, query, oids) => ParseTold(s, name, query, oids);
    case Close(kind, name) =>
      assert kind == 83 ==> Told(m)[..0] == [];
    case _ =>
  }

  lemma ParseTold(s: Conn.State, name: Bytes, query: Bytes, oids: seq<nat>)
    ensures var s' := Conn.ApplyAll(s, Conn.ParseEvents(name, query, oids));
            && s' == Conn.Apply(Conn.ApplyAll(s, Conn.QueryEvents(query)), Conn.Prepared(name, (query, oids)))
            && Conn.Holds(s', Conn.PreparedStatement(name)) && Conn.Pinned(s')
            && (Conn.Panics(Conn.ParseEvents(name, query, oids)) <==> Conn.Panics(Conn.QueryEvents(query)))
  {
    hide Conn.QueryEvents, Evict, Without, Conn.Pinned;
    var es, p := Conn.QueryEvents(query), Conn.Prepared(name, (query, oids));
    var all := es + [p];
    assert all[..|all| - 1] == es;
    var s1 := Conn.ApplyAll(s, es);
    AddHolds(s1.prepared, s1.max, name, (query, oids), name);
    Conn.PanicsAppend(es, [p]);
    assert !Conn.Panics([p]);
    Conn.PinnedHolds(Conn.ApplyAll(s, all));
  }

  // ---------------------------------------------------------------- after a release

  /** On every run, once a read has released the backend: the session goes on exactly if it is given a warm backend or a new
      one whose startup succeeds, and only a new one is started up. */
  lemma ReacquireExactly(cfg: Config, events: seq<Event>, data: Bytes, next: Reacquired)
    requires Run(cfg, events).running
    requires Completes(data).Value? && BackendScan.LastStatus(data, 0, None).Value?
    requires MayRelease(cfg, Summarise(cfg, Run(cfg, events).log), data)
    ensures var s := Run(cfg, events);
            var s' := Step(cfg, s, BackendRead(data, Full, next));
            && (s'.running <==> next == Warm || next == ManagedSession.Fresh(true))
            && s'.log == s.log + [FromBackend(data), ToClient(data), Released] +
                         (if next.Denied? then [Broken]
                          else if next.Warm? then [Acquired(false)]
                          else [Acquired(true), if next.initialised then Initialised else Broken])
  {
    hide Run, Summarise, Conn.Pinned, Conn.ApplyAll, Completes, BackendScan.LastStatus, Update, InTxn, Settled;
    RunGood(cfg, events);
    var s := Run(cfg, events);
    SettledKeeps(cfg, Logged(s, FromBackend(data)), Completes(data).value);
    SettledRuns(cfg, Logged(s, FromBackend(data)), Completes(data).value);
  }

  lemma SettledRuns(cfg: Config, s: Session, completes: bool)
    ensures Settled(cfg, s, completes).running == s.running
  {
  }
}
