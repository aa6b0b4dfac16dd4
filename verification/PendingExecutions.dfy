/** Which executions are in flight, and when the query deadline is set: on every run, from the log alone. */
module PendingExecutions {
  import opened WireBytes
  import opened FrontendWire
  import opened StatementCache
  import opened Recency
  import opened ManagedSession
  import opened ManagedRuns
  import BackendScan
  import Conn = ConnectionState
  import Extractor

  // ---------------------------------------------------------------- reading the log

  /** A message applied that sets off an execution on portal `p`: Parse and Query on the unnamed one. */
  predicate Begins(io: Io, p: Bytes) {
    && io.Processed?
    && match io.message
       case Parse(_, _, _) => p == []
       case Query(_) => p == []
       case Bind(portal, _, _, _) => portal == p
       case _ => false
  }

  /** A read that ends the execution on the unnamed portal: whole frames lead to a CommandComplete or a ReadyForQuery, or the
      error search comes to an ErrorResponse with a severity or a message. */
  ghost predicate Finishing(data: Bytes) {
    BackendScan.CompletesIn(data) || exists f :: BackendScan.FindsIn(data, f) && (f.severity.Some? || f.message.Some?)
  }

  /** Entry `j` ends an execution on `p`: a Close of the portal, or such a read being delivered. */
  ghost predicate Finishes(log: seq<Io>, j: nat, p: Bytes) {
    && j < |log|
    && (|| log[j] == Processed(Close(80, p))
        || (p == [] && log[j].ToClient? && j > 0 && log[j - 1].FromBackend? && Finishing(log[j - 1].data)))
  }

  /** Entry `i` set off the execution that is in flight on `p`. */
  ghost predicate Underway(log: seq<Io>, i: nat, p: Bytes) {
    && i < |log| && Begins(log[i], p)
    && forall j | i < j < |log| :: !Begins(log[j], p) && !Finishes(log, j, p)
  }

  ghost predicate InFlight(log: seq<Io>, p: Bytes) { exists i: nat :: Underway(log, i, p) }

  /** Text and completeness of the execution a message sets off, after the entries `log`: a Bind takes the statement its name
      stands for in the cache the messages so far leave. */
  function Meant(cfg: Config, log: seq<Io>, m: Message): (r: Pending) {
    match m
    case Query(query) => Pending(query, false)
    case Parse(_, query, _) => Pending(query, true)
    case Bind(_, statement, _, _) =>
      var held := CacheRun(cfg.maxPrepared, AllCacheOps(Summarise(cfg, log).applied)).bounded.entries;
      if statement in held then Pending(held[statement].0, false) else Pending(Ascii("[unknown: ") + statement + Ascii("]"), true)
    case _ => Pending([], true)
  }

  /** The pending executions are those in flight. */
  ghost predicate PendingIs(cfg: Config, log: seq<Io>, pending: map<Bytes, Pending>) {
    && (forall p :: p in pending <==> InFlight(log, p))
    && (forall i: nat, p | Underway(log, i, p) :: Means(cfg, log, i, p, pending))
  }

  /** What is pending on `p` is the execution entry `i` set off. */
  ghost predicate Means(cfg: Config, log: seq<Io>, i: nat, p: Bytes, pending: map<Bytes, Pending>) {
    i < |log| && log[i].Processed? && p in pending && pending[p] == Meant(cfg, log[..i], log[i].message)
  }

  // ---------------------------------------------------------------- one entry

  lemma UnderwayOne(log: seq<Io>, io: Io, i: nat, p: Bytes)
    ensures Underway(log + [io], i, p) <==>
            if i == |log| then Begins(io, p)
            else Underway(log, i, p) && !Begins(io, p) && !Finishes(log + [io], |log|, p)
  {
    hide Begins, Finishing;
    var log' := log + [io];
    assert log'[|log|] == io;
    assert forall j | 0 <= j < |log| :: log'[j] == log[j];
    assert forall j | 0 <= j < |log| :: Finishes(log', j, p) <==> Finishes(log, j, p);
  }

  lemma InFlightOne(log: seq<Io>, io: Io, p: Bytes)
    ensures InFlight(log + [io], p) <==> Begins(io, p) || (InFlight(log, p) && !Finishes(log + [io], |log|, p))
  {
    hide Begins, Underway, Finishes;
    UnderwayOne(log, io, |log|, p);
    if i: nat :| Underway(log, i, p) {
      UnderwayOne(log, io, i, p);
      UnderwayWithin(log, i, p);
    }
    if i: nat :| Underway(log + [io], i, p) {
      UnderwayOne(log, io, i, p);
    }
  }

  lemma UnderwayWithin(log: seq<Io>, i: nat, p: Bytes)
    requires Underway(log, i, p)
    ensures i < |log| && log[i].Processed?
  {
  }

  /** What an entry makes of the pending executions. */
  ghost predicate Follows(cfg: Config, log: seq<Io>, io: Io, before: map<Bytes, Pending>, after: map<Bytes, Pending>, p: Bytes) {
    if Begins(io, p) then p in after && after[p] == Meant(cfg, log, io.message)
    else if Finishes(log + [io], |log|, p) then p !in after
    else (p in after <==> p in before) && (p in before ==> after[p] == before[p])
  }

  lemma PendingOne(cfg: Config, log: seq<Io>, io: Io, before: map<Bytes, Pending>, after: map<Bytes, Pending>)
    requires PendingIs(cfg, log, before) && forall p :: Follows(cfg, log, io, before, after, p)
    ensures PendingIs(cfg, log + [io], after)
  {
    hide Begins, Finishes, Underway, InFlight, Meant;
    var log' := log + [io];
    forall p
      ensures p in after <==> InFlight(log', p)
    {
      InFlightOne(log, io, p);
      assert Follows(cfg, log, io, before, after, p);
    }
    forall i: nat, p | Underway(log', i, p)
      ensures Means(cfg, log', i, p, after)
    {
      UnderwayOne(log, io, i, p);
      UnderwayWithin(log', i, p);
      assert Follows(cfg, log, io, before, after, p);
      if i < |log| {
        UnderwayWithin(log, i, p);
        assert log'[..i] == log[..i] && log'[i] == log[i];
        assert Means(cfg, log, i, p, before);
      } else {
        assert log'[..i] == log;
      }
    }
  }

  /** Entries that neither set off nor end an execution. */
  predicate Idle(log: seq<Io>, io: Io) {
    !io.Processed? && !(io.ToClient? && log != [] && log[|log| - 1].FromBackend?)
  }

  lemma PendingIdle(cfg: Config, log: seq<Io>, io: Io, pending: map<Bytes, Pending>)
    requires PendingIs(cfg, log, pending) && Idle(log, io)
    ensures PendingIs(cfg, log + [io], pending)
  {
    hide PendingIs, Finishing;
    assert forall p :: Follows(cfg, log, io, pending, pending, p);
    PendingOne(cfg, log, io, pending, pending);
  }

  // ---------------------------------------------------------------- completion

  lemma FinishingMeans(data: Bytes)
    requires Completes(data).Value?
    ensures Completes(data).value <==> Finishing(data)
  {
    hide BackendScan.FindsIn, BackendScan.CompletesIn, BackendScan.FindError, BackendScan.HasCompletion;
    BackendScan.CompletionFound(data, 0);
    if f :| BackendScan.FindsIn(data, f) && (f.severity.Some? || f.message.Some?) {
      BackendScan.SearchExactly(data, f);
    }
    var found := BackendScan.FindError(data).value;
    if found.Some? {
      BackendScan.SearchExactly(data, found.value);
    }
  }

  /** On reads cut at frame boundaries: any CommandComplete or ReadyForQuery ends the execution. */
  lemma FramesFinish(fs: seq<Frame>, tail: Bytes, i: nat)
    requires (forall j | 0 <= j < |fs| :: BackendScan.FitsI32(fs[j])) && i < |fs| && (fs[i].tag == 67 || fs[i].tag == 90)
    ensures Finishing(FramesBytes(fs) + tail)
  {
    hide FramesBytes, BackendScan.FindsIn, BackendScan.FitsI32;
    var pre, post := fs[..i], fs[i..];
    FramesSplit(fs, i);
    assert post[0] == fs[i];
    FrameFirst(post, tail);
    Regrouped(FramesBytes(pre), FramesBytes(post), tail);
    FinishAfter(FramesBytes(fs) + tail, pre, FramesBytes(post) + tail);
  }

  lemma Regrouped(a: Bytes, b: Bytes, c: Bytes)
    ensures (a + b) + c == a + (b + c)
  {
  }

  lemma FinishAfter(b: Bytes, fs: seq<Frame>, rest: Bytes)
    requires b == FramesBytes(fs) + rest && forall i | 0 <= i < |fs| :: BackendScan.FitsI32(fs[i])
    requires |rest| >= 5 && (rest[0] == 67 || rest[0] == 90)
    ensures Finishing(b)
  {
    hide FramesBytes, BackendScan.FindsIn, BackendScan.FitsI32;
    assert BackendScan.CompletesAfter(b, fs, rest);
  }

  lemma FrameFirst(fs: seq<Frame>, tail: Bytes)
    requires fs != []
    ensures var b := FramesBytes(fs) + tail; |b| >= 5 && b[0] == fs[0].tag
  {
    hide Be32;
  }

  lemma {:induction false} FramesSplit(fs: seq<Frame>, i: nat)
    requires i <= |fs|
    ensures FramesBytes(fs) == FramesBytes(fs[..i]) + FramesBytes(fs[i..])
  {
    hide FrameBytes;
    if i > 0 {
      FramesSplit(fs[1..], i - 1);
      assert fs[..i][1..] == fs[1..][..i - 1] && fs[1..][i - 1..] == fs[i..];
    } else {
      assert fs[0..] == fs;
    }
  }

  // ---------------------------------------------------------------- every step

  ghost predicate Kept(cfg: Config, s: Session) {
    PendingIs(cfg, s.log, s.cache.pending) && CacheFaithful(cfg, s)
  }

  lemma MessagePending(cfg: Config, s: Session, first: bool, m: Message)
    requires Kept(cfg, s)
    ensures Kept(cfg, OnMessage(cfg, s, first, m).0)
  {
    hide PendingIs, Judged, Told, Conn.ApplyAll, Conn.Panics, CacheRun, AllCacheOps, Summarise, CacheInsert, Remove, Finishing,
         CacheFaithful;
    MessageCache(cfg, s, first, m);
    var (s', f) := OnMessage(cfg, s, first, m);
    if f.Proceed? {
      MessageFollows(cfg, s, m);
      PendingOne(cfg, s.log, Processed(m), s.cache.pending, Cached(cfg, s.cache, m).pending);
    }
  }

  lemma MessageFollows(cfg: Config, s: Session, m: Message)
    requires CacheFaithful(cfg, s)
    ensures forall p :: Follows(cfg, s.log, Processed(m), s.cache.pending, Cached(cfg, s.cache, m).pending, p)
  {
    hide CacheRun, AllCacheOps, Summarise, CacheInsert, Remove, Finishing;
  }

  lemma {:induction false} MessagesPending(cfg: Config, s: Session, ms: seq<Message>, i: nat)
    requires i <= |ms| && Kept(cfg, s)
    ensures Kept(cfg, OnMessages(cfg, s, ms, i).0)
    decreases |ms| - i
  {
    hide OnMessage, Kept;
    if i < |ms| {
      MessagePending(cfg, s, i == 0, ms[i]);
      MessagesPending(cfg, OnMessage(cfg, s, i == 0, ms[i]).0, ms, i + 1);
    }
  }

  lemma LoggedPending(cfg: Config, s: Session, io: Io)
    requires PendingIs(cfg, s.log, s.cache.pending) && Idle(s.log, io)
    ensures PendingIs(cfg, Logged(s, io).log, Logged(s, io).cache.pending)
  {
    hide PendingIs;
    PendingIdle(cfg, s.log, io, s.cache.pending);
  }

  lemma ClientReadPending(cfg: Config, s: Session, data: Bytes, w: Write)
    requires Kept(cfg, s)
    ensures var s' := OnClientRead(cfg, s, data, w); PendingIs(cfg, s'.log, s'.cache.pending)
  {
    hide OnMessages, Extractor.Extract, Rejection, PendingIs, Summarise, CacheRun, AllCacheOps;
    var s0 := Logged(s, FromClient(data));
    LoggedPending(cfg, s, FromClient(data));
    LoggedPending(cfg, s0, Broken);
    LoggedCache(cfg, s, FromClient(data));
    var (x, ms) := Extractor.Extract(s.extractor, data);
    if ms.Some? {
      var s1 := s0.(extractor := x);
      MessagesPending(cfg, s1, ms.value, 0);
      var (s2, flow) := OnMessages(cfg, s1, ms.value, 0);
      LoggedPending(cfg, s2, Done);
      LoggedPending(cfg, s2, Broken);
      var io := if flow.Refuse? then Reply(Sent(Rejection(flow.message, s2.txn), w)) else ToBackend(Sent(data, w));
      LoggedPending(cfg, s2, io);
      LoggedPending(cfg, Logged(s2, io), Broken);
    }
  }

  /** A delivered read takes the execution on the unnamed portal exactly when it ends it. */
  lemma DeliveredPending(cfg: Config, log: seq<Io>, data: Bytes, sent: Bytes, pending: map<Bytes, Pending>)
    requires PendingIs(cfg, log, pending)
    ensures PendingIs(cfg, log + [FromBackend(data)] + [ToClient(sent)], if Finishing(data) then pending - {[]} else pending)
  {
    hide PendingIs, Finishing;
    PendingIdle(cfg, log, FromBackend(data), pending);
    var log' := log + [FromBackend(data)];
    var after := if Finishing(data) then pending - {[]} else pending;
    assert (log' + [ToClient(sent)])[|log'| - 1] == FromBackend(data);
    assert forall p :: Follows(cfg, log', ToClient(sent), pending, after, p);
    PendingOne(cfg, log', ToClient(sent), pending, after);
  }

  lemma SwappedPending(cfg: Config, s: Session, next: Reacquired)
    requires PendingIs(cfg, s.log, s.cache.pending)
    ensures var s' := Swapped(s, next); PendingIs(cfg, s'.log, s'.cache.pending)
  {
    hide PendingIs;
    LoggedPending(cfg, s, Released);
    var s3 := Logged(s, Released);
    LoggedPending(cfg, s3, Broken);
    LoggedPending(cfg, s3, Acquired(false));
    LoggedPending(cfg, s3, Acquired(true));
    LoggedPending(cfg, Logged(s3, Acquired(true)), Initialised);
    LoggedPending(cfg, Logged(s3, Acquired(true)), Broken);
  }

  lemma BackendReadPending(cfg: Config, s: Session, data: Bytes, w: Write, next: Reacquired)
    requires PendingIs(cfg, s.log, s.cache.pending)
    ensures var s' := OnBackendRead(cfg, s, data, w, next); PendingIs(cfg, s'.log, s'.cache.pending)
  {
    hide Completes, BackendScan.LastStatus, ShouldRelease, PendingIs, Swapped, Finishing;
    var s0 := Logged(s, FromBackend(data));
    LoggedPending(cfg, s, FromBackend(data));
    LoggedPending(cfg, s0, Broken);
    if Completes(data).Value? && BackendScan.LastStatus(data, 0, None).Value? {
      FinishingMeans(data);
      DeliveredPending(cfg, s.log, data, Sent(data, w), s.cache.pending);
      var s1 := Settled(cfg, s0, Completes(data).value).(txn := TxnSeen(s.txn, data));
      var s2 := Logged(s1, ToClient(Sent(data, w)));
      LoggedPending(cfg, s2, Broken);
      SwappedPending(cfg, s2, next);
    }
  }

  lemma DeadlinePending(cfg: Config, s: Session, w1: Write, w2: Write)
    requires PendingIs(cfg, s.log, s.cache.pending)
    ensures var s' := OnDeadline(cfg, s, w1, w2); PendingIs(cfg, s'.log, s'.cache.pending)
  {
    hide PendingIs, Cancellation, Transaction.ReadyForQuery;
    var a, b := Reply(Sent(Cancellation(), w1)), Reply(Sent(Transaction.ReadyForQuery(s.txn), w2));
    LoggedPending(cfg, s, Marked);
    LoggedPending(cfg, Logged(s, Marked), a);
    LoggedPending(cfg, Logged(Logged(s, Marked), a), b);
    LoggedPending(cfg, Logged(Logged(Logged(s, Marked), a), b), Done);
  }

  /** On every run, for every portal, from the log alone: an execution is pending exactly when a Parse or Query, on the
      unnamed portal, or a Bind to the portal was applied and since then neither was the portal closed nor, on the unnamed
      one, a read delivered that completes it; and what is pending is the execution the last such message set off. */
  lemma {:induction false} PendingExactly(cfg: Config, events: seq<Event>)
    ensures PendingIs(cfg, Run(cfg, events).log, Run(cfg, events).cache.pending)
  {
    if events == [] {
      NothingPending(cfg);
    } else {
      hide OnClientRead, OnBackendRead, OnDeadline, PendingIs, CacheFaithful;
      var before, e := events[..|events| - 1], events[|events| - 1];
      PendingExactly(cfg, before);
      RunCache(cfg, before);
      var s := Run(cfg, before);
      match e {
        case ClientRead(data, w) => ClientReadPending(cfg, s, data, w);
        case BackendRead(data, w, next) => BackendReadPending(cfg, s, data, w, next);
        case Deadline(w1, w2) => DeadlinePending(cfg, s, w1, w2);
        case _ => LoggedPending(cfg, s, Done);
      }
    }
  }

  lemma NothingPending(cfg: Config)
    ensures PendingIs(cfg, [], map[])
  {
  }

  // ---------------------------------------------------------------- the deadline

  /** The deadline is set: at the end of some client read an execution was in flight on the unnamed portal, and after every
      read delivered since then one still was. */
  ghost predicate DeadlineSet(log: seq<Io>) {
    exists k: nat :: SetAt(log, k)
  }

  ghost predicate SetAt(log: seq<Io>, k: nat) {
    && k < |log| && (log[k].ToBackend? || log[k].Reply?) && InFlight(log[..k], [])
    && forall j | k < j < |log| && log[j].ToClient? :: InFlight(log[..j + 1], [])
  }

  lemma SetAtOne(log: seq<Io>, io: Io, k: nat)
    ensures SetAt(log + [io], k) <==>
            if k == |log| then (io.ToBackend? || io.Reply?) && InFlight(log, [])
            else SetAt(log, k) && (io.ToClient? ==> InFlight(log + [io], []))
  {
    hide InFlight;
    var log' := log + [io];
    assert log'[|log|] == io && log'[..|log|] == log && log'[..|log'|] == log';
    assert forall j | 0 <= j < |log| :: log'[j] == log[j];
    assert forall j | 0 <= j <= |log| :: log'[..j] == log[..j];
  }

  lemma DeadlineSetOne(log: seq<Io>, io: Io)
    ensures DeadlineSet(log + [io]) <==>
            || ((io.ToBackend? || io.Reply?) && InFlight(log, []))
            || (DeadlineSet(log) && (io.ToClient? ==> InFlight(log + [io], [])))
  {
    hide InFlight, SetAt;
    SetAtOne(log, io, |log|);
    if k: nat :| SetAt(log, k) {
      SetAtOne(log, io, k);
      SetWithin(log, k);
    }
    if k: nat :| SetAt(log + [io], k) {
      SetAtOne(log, io, k);
    }
  }

  lemma SetWithin(log: seq<Io>, k: nat)
    requires SetAt(log, k)
    ensures k < |log|
  {
  }

  ghost predicate ArmedIs(cfg: Config, s: Session) {
    s.armed <==> cfg.timeoutEnabled && DeadlineSet(s.log)
  }

  /** Entries that do not touch the deadline. */
  lemma LoggedArmed(cfg: Config, s: Session, io: Io)
    requires ArmedIs(cfg, s) && !io.ToBackend? && !io.Reply? && !io.ToClient?
    ensures ArmedIs(cfg, Logged(s, io))
  {
    hide DeadlineSet, InFlight;
    DeadlineSetOne(s.log, io);
  }

  lemma {:induction false} MessagesArmed(cfg: Config, s: Session, ms: seq<Message>, i: nat)
    requires i <= |ms| && ArmedIs(cfg, s)
    ensures ArmedIs(cfg, OnMessages(cfg, s, ms, i).0)
    decreases |ms| - i
  {
    hide OnMessage, ArmedIs;
    if i < |ms| {
      MessageFlow(cfg, s, i == 0, ms[i]);
      MessageKeepsArmed(cfg, s, i == 0, ms[i]);
      LoggedArmed(cfg, s, Processed(ms[i]));
      SameArmed(cfg, OnMessage(cfg, s, i == 0, ms[i]).0, s);
      SameArmed(cfg, OnMessage(cfg, s, i == 0, ms[i]).0, Logged(s, Processed(ms[i])));
      MessagesArmed(cfg, OnMessage(cfg, s, i == 0, ms[i]).0, ms, i + 1);
    }
  }

  lemma SameArmed(cfg: Config, s: Session, t: Session)
    ensures s.armed == t.armed && s.log == t.log ==> (ArmedIs(cfg, s) <==> ArmedIs(cfg, t))
  {
  }

  lemma WrittenArmed(cfg: Config, s: Session, io: Io, w: Write)
    requires ArmedIs(cfg, s) && PendingIs(cfg, s.log, s.cache.pending) && (io.ToBackend? || io.Reply?)
    ensures var s' := Written(cfg, s, io, w); s'.running ==> ArmedIs(cfg, s')
  {
    hide DeadlineSet, InFlight;
    DeadlineSetOne(s.log, io);
  }

  lemma ClientReadArmed(cfg: Config, s: Session, data: Bytes, w: Write)
    requires Kept(cfg, s) && ArmedIs(cfg, s)
    ensures var s' := OnClientRead(cfg, s, data, w); s'.running ==> ArmedIs(cfg, s')
  {
    hide OnMessages, Extractor.Extract, Rejection, PendingIs, Summarise, CacheRun, AllCacheOps, ArmedIs, Written;
    var s0 := Logged(s, FromClient(data));
    LoggedPending(cfg, s, FromClient(data));
    LoggedCache(cfg, s, FromClient(data));
    LoggedArmed(cfg, s, FromClient(data));
    var (x, ms) := Extractor.Extract(s.extractor, data);
    if ms.Some? {
      var s1 := s0.(extractor := x);
      SameArmed(cfg, s1, s0);
      MessagesPending(cfg, s1, ms.value, 0);
      MessagesArmed(cfg, s1, ms.value, 0);
      var (s2, flow) := OnMessages(cfg, s1, ms.value, 0);
      WrittenArmed(cfg, s2, ToBackend(Sent(data, w)), w);
      if flow.Refuse? {
        WrittenArmed(cfg, s2, Reply(Sent(Rejection(flow.message, s2.txn), w)), w);
      }
    }
  }

  lemma DeliveredArmed(cfg: Config, s: Session, io: Io, completes: bool)
    requires ArmedIs(cfg, s) && io.ToClient?
    requires var s1 := Settled(cfg, s, completes); PendingIs(cfg, s1.log + [io], s1.cache.pending)
    ensures ArmedIs(cfg, Logged(Settled(cfg, s, completes), io))
  {
    hide DeadlineSet, InFlight;
    DeadlineSetOne(s.log, io);
  }

  lemma SwappedArmed(cfg: Config, s: Session, next: Reacquired)
    requires ArmedIs(cfg, s)
    ensures ArmedIs(cfg, Swapped(s, next)) || !Swapped(s, next).running
  {
    hide ArmedIs;
    LoggedArmed(cfg, s, Released);
    var s3 := Logged(s, Released);
    LoggedArmed(cfg, s3, Acquired(false));
    LoggedArmed(cfg, s3, Acquired(true));
    LoggedArmed(cfg, Logged(s3, Acquired(true)), Initialised);
  }

  lemma BackendReadArmed(cfg: Config, s: Session, data: Bytes, w: Write, next: Reacquired)
    requires PendingIs(cfg, s.log, s.cache.pending) && ArmedIs(cfg, s)
    ensures var s' := OnBackendRead(cfg, s, data, w, next); s'.running ==> ArmedIs(cfg, s')
  {
    hide Completes, BackendScan.LastStatus, ShouldRelease, PendingIs, Swapped, Finishing, ArmedIs;
    var s0 := Logged(s, FromBackend(data));
    LoggedArmed(cfg, s, FromBackend(data));
    if Completes(data).Value? && BackendScan.LastStatus(data, 0, None).Value? {
      FinishingMeans(data);
      DeliveredPending(cfg, s.log, data, Sent(data, w), s.cache.pending);
      DeliveredArmed(cfg, s0, ToClient(Sent(data, w)), Completes(data).value);
      var settled := Settled(cfg, s0, Completes(data).value);
      var s1 := settled.(txn := TxnSeen(s.txn, data));
      var s2 := Logged(s1, ToClient(Sent(data, w)));
      SameArmed(cfg, s2, Logged(settled, ToClient(Sent(data, w))));
      SwappedArmed(cfg, s2, next);
    }
  }

  /** On every run, from the log alone, whether the deadline is set. */
  lemma {:induction false} ArmedExactly(cfg: Config, events: seq<Event>)
    ensures Run(cfg, events).running ==> ArmedIs(cfg, Run(cfg, events))
  {
    if events != [] {
      hide OnClientRead, OnBackendRead, OnDeadline, PendingIs, CacheFaithful, ArmedIs;
      var before, e := events[..|events| - 1], events[|events| - 1];
      ArmedExactly(cfg, before);
      PendingExactly(cfg, before);
      RunCache(cfg, before);
      var s := Run(cfg, before);
      if s.running {
        match e {
          case ClientRead(data, w) => ClientReadArmed(cfg, s, data, w);
          case BackendRead(data, w, next) => BackendReadArmed(cfg, s, data, w, next);
          case Deadline(w1, w2) => DeadlineStops(cfg, s, w1, w2);
          case _ =>
        }
      }
    } else {
      StartArmed(cfg);
    }
  }

  lemma StartArmed(cfg: Config)
    ensures ArmedIs(cfg, Start(cfg))
  {
  }

  lemma DeadlineStops(cfg: Config, s: Session, w1: Write, w2: Write)
    ensures var s' := OnDeadline(cfg, s, w1, w2); if cfg.timeoutEnabled && s.armed then s' != s && !s'.running else s' == s
  {
    hide Cancellation, Transaction.ReadyForQuery;
    var s' := OnDeadline(cfg, s, w1, w2);
    assert cfg.timeoutEnabled && s.armed ==> |s'.log| > |s.log|;
  }

  /** On every run a deadline does something, and then ends the session, exactly when it is set. */
  lemma DeadlineExactly(cfg: Config, events: seq<Event>, w1: Write, w2: Write)
    requires Run(cfg, events).running
    ensures var s := Run(cfg, events);
            var s' := Step(cfg, s, Deadline(w1, w2));
            && (s' != s <==> cfg.timeoutEnabled && DeadlineSet(s.log))
            && (s'.running <==> s' == s)
  {
    hide Run, DeadlineSet, OnDeadline;
    ArmedExactly(cfg, events);
    DeadlineStops(cfg, Run(cfg, events), w1, w2);
  }

  /** Once a read that ends the execution has been delivered, and until the next message that sets one off, nothing is
      pending on the unnamed portal, the deadline is off, and its passing changes nothing. */
  lemma FinishedDisarms(cfg: Config, events: seq<Event>, j: nat, w1: Write, w2: Write)
    requires Run(cfg, events).running && 0 < j < |Run(cfg, events).log|
    requires var log := Run(cfg, events).log;
             && log[j - 1].FromBackend? && Finishing(log[j - 1].data) && log[j].ToClient?
             && forall m | j < m < |log| :: !Begins(log[m], [])
    ensures var s := Run(cfg, events);
            [] !in s.cache.pending && !s.armed && Step(cfg, s, Deadline(w1, w2)) == s
  {
    hide Run, OnDeadline, Finishing, Begins;
    var s := Run(cfg, events);
    PendingExactly(cfg, events);
    ArmedExactly(cfg, events);
    DeadlineStops(cfg, s, w1, w2);
    NotInFlight(s.log, j, |s.log|);
    assert s.log[..|s.log|] == s.log;
    NotSet(s.log, j);
  }

  lemma NotInFlight(log: seq<Io>, j: nat, n: nat)
    requires 0 < j < n <= |log| && log[j - 1].FromBackend? && Finishing(log[j - 1].data) && log[j].ToClient?
    requires forall m | j < m < |log| :: !Begins(log[m], [])
    ensures !InFlight(log[..n], [])
  {
    hide Finishing;
    var l := log[..n];
    assert Finishes(l, j, []);
    forall i: nat
      ensures !Underway(l, i, [])
    {
      if j < i < n {
        assert l[i] == log[i];
      }
    }
  }

  lemma NotSet(log: seq<Io>, j: nat)
    requires 0 < j < |log| && log[j - 1].FromBackend? && Finishing(log[j - 1].data) && log[j].ToClient?
    requires forall m | j < m < |log| :: !Begins(log[m], [])
    ensures !DeadlineSet(log)
  {
    hide Finishing, Begins, InFlight;
    if k: nat :| SetAt(log, k) {
      NotInFlight(log, j, j + 1);
      if k > j {
        NotInFlight(log, j, k);
      }
    }
  }
}
