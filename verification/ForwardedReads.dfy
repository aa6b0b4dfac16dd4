/** Which messages a backend gets: reads are forwarded or suppressed whole, while messages are applied one by one. */
module ForwardedReads {
  import opened WireBytes
  import opened FrontendWire
  import opened Transaction
  import opened ManagedSession
  import opened ManagedRuns
  import opened Recency
  import BackendScan
  import Conn = ConnectionState
  import Extractor

  // ---------------------------------------------------------------- what is applied, read by read

  /** A message applied to the tracker, and whether its read went on to the backend. */
  datatype Turn = Turn(message: Message, sent: bool)

  /** The messages of a read before the first the enforcer refuses. */
  function Due(cfg: Config, txn: TxnState, ms: seq<Message>): (r: seq<Message>) {
    if ms == [] || Judged(cfg, txn, ms[0]).Refused? then [] else [ms[0]] + Due(cfg, txn, ms[1..])
  }

  function Labelled(ms: seq<Message>, sent: bool): (ts: seq<Turn>)
    ensures |ts| == |ms|
  {
    seq(|ms|, i requires 0 <= i < |ms| => Turn(ms[i], sent))
  }

  predicate HangsUp(ms: seq<Message>) { ms != [] && ms[0].Terminate? }

  function ReadTurns(cfg: Config, o: Summary, data: Bytes): (ts: seq<Turn>) {
    var (_, ms) := Extractor.Extract(o.extractor, data);
    if ms.None? || HangsUp(ms.value) then []
    else Labelled(Due(cfg, o.txn, ms.value), !Suppressed(cfg, o.txn, ms.value))
  }

  /** What the client reads of a log amount to: from the reads alone, not from what the session did with them. */
  function Turns(cfg: Config, log: seq<Io>): (ts: seq<Turn>) {
    if log == [] then []
    else
      var before, last := log[..|log| - 1], log[|log| - 1];
      Turns(cfg, before) + if last.FromClient? then ReadTurns(cfg, Summarise(cfg, before), last.data) else []
  }

  /** The session on its present backend, since the last release: the messages, the bytes of the reads not suppressed, and
      the bytes written. */
  datatype Tenure = Tenure(turns: seq<Turn>, bytes: Bytes, written: Bytes)

  const NEWLY_SEATED := Tenure([], [], [])

  function Extended(cfg: Config, o: Summary, t: Tenure, io: Io): (r: Tenure) {
    match io
    case FromClient(data) =>
      var (_, ms) := Extractor.Extract(o.extractor, data);
      t.(turns := t.turns + ReadTurns(cfg, o, data),
         bytes := if ms.None? || Suppressed(cfg, o.txn, ms.value) then t.bytes else t.bytes + data)
    case ToBackend(data) => t.(written := t.written + data)
    case Released => NEWLY_SEATED
    case _ => t
  }

  function TenureOf(cfg: Config, log: seq<Io>): (t: Tenure) {
    if log == [] then NEWLY_SEATED
    else Extended(cfg, Summarise(cfg, log[..|log| - 1]), TenureOf(cfg, log[..|log| - 1]), log[|log| - 1])
  }

  function MessagesOf(ts: seq<Turn>): (ms: seq<Message>)
    ensures |ms| == |ts|
  {
    seq(|ts|, i requires 0 <= i < |ts| => ts[i].message)
  }

  /** The messages of the forwarded reads. */
  function SentOf(ts: seq<Turn>): (ms: seq<Message>) {
    if ts == [] then []
    else SentOf(ts[..|ts| - 1]) + if ts[|ts| - 1].sent then [ts[|ts| - 1].message] else []
  }

  function AllTold(ms: seq<Message>): (es: seq<Conn.Event>) {
    if ms == [] then [] else AllTold(ms[..|ms| - 1]) + Told(ms[|ms| - 1])
  }

  lemma {:induction false} AllToldAppend(a: seq<Message>, b: seq<Message>)
    ensures AllTold(a + b) == AllTold(a) + AllTold(b)
  {
    hide Told;
    if b == [] {
      assert a + b == a;
    } else {
      AllToldAppend(a, b[..|b| - 1]);
      assert (a + b)[..|a + b| - 1] == a + b[..|b| - 1];
    }
  }

  lemma {:induction false} SentAppend(a: seq<Turn>, b: seq<Turn>)
    ensures SentOf(a + b) == SentOf(a) + SentOf(b)
  {
    if b == [] {
      assert a + b == a;
    } else {
      SentAppend(a, b[..|b| - 1]);
      assert (a + b)[..|a + b| - 1] == a + b[..|b| - 1];
    }
  }

  lemma {:induction false} SentLabelled(ms: seq<Message>, sent: bool)
    ensures SentOf(Labelled(ms, sent)) == if sent then ms else []
  {
    if ms != [] {
      var before := ms[..|ms| - 1];
      SentLabelled(before, sent);
      assert Labelled(ms, sent)[..|ms| - 1] == Labelled(before, sent);
      assert ms == before + [ms[|ms| - 1]];
    }
  }

  lemma {:induction false} DueExactly(cfg: Config, txn: TxnState, ms: seq<Message>)
    ensures Due(cfg, txn, ms) == ms <==> forall k | 0 <= k < |ms| :: !Judged(cfg, txn, ms[k]).Refused?
  {
    hide Judged;
    if ms != [] {
      DueExactly(cfg, txn, ms[1..]);
      assert forall k | 0 < k < |ms| :: ms[k] == ms[1..][k - 1];
      if Due(cfg, txn, ms) == ms {
        assert Due(cfg, txn, ms)[1..] == ms[1..];
      } else {
        assert [ms[0]] + ms[1..] == ms;
      }
    }
  }

  lemma DueWhole(cfg: Config, txn: TxnState, ms: seq<Message>)
    requires !Suppressed(cfg, txn, ms)
    ensures Due(cfg, txn, ms) == ms
  {
    DueExactly(cfg, txn, ms);
  }

  // ---------------------------------------------------------------- on every run

  /** What the present backend's messages told the tracker is all it knows. */
  ghost predicate TrackerKnows(cfg: Config, s: Session) {
    s.conn == Conn.ApplyAll(Conn.Fresh(cfg.maxPrepared), AllTold(MessagesOf(TenureOf(cfg, s.log).turns)))
  }

  /** Between events the messages applied are those due, the tracker was told just them, it knows what it was told since
      the last release, and the present backend has the bytes of the reads not suppressed since then. */
  ghost predicate UpToDate(cfg: Config, s: Session) {
    var o, t := Seen(cfg, s), TenureOf(cfg, s.log);
    && o.applied == MessagesOf(Turns(cfg, s.log)) && o.history == AllTold(o.applied)
    && t.written == t.bytes
    && TrackerKnows(cfg, s)
  }

  /** `s'` differs from `s` in entries that are neither client reads nor messages. */
  ghost predicate SameTurns(cfg: Config, s: Session, s': Session) {
    && Turns(cfg, s'.log) == Turns(cfg, s.log) && s'.conn == s.conn
    && Seen(cfg, s').applied == Seen(cfg, s).applied && Seen(cfg, s').history == Seen(cfg, s).history
  }

  ghost predicate SameTenure(cfg: Config, s: Session, s': Session) {
    SameTurns(cfg, s, s') && TenureOf(cfg, s'.log) == TenureOf(cfg, s.log)
  }

  lemma TurnsOne(cfg: Config, log: seq<Io>, io: Io)
    ensures Turns(cfg, log + [io]) ==
            Turns(cfg, log) + if io.FromClient? then ReadTurns(cfg, Summarise(cfg, log), io.data) else []
    ensures TenureOf(cfg, log + [io]) == Extended(cfg, Summarise(cfg, log), TenureOf(cfg, log), io)
  {
    assert (log + [io])[..|log|] == log;
  }

  lemma LoggedTurns(cfg: Config, s: Session, io: Io)
    requires !io.FromClient? && !io.Processed? && !io.Marked?
    ensures SameTurns(cfg, s, Logged(s, io))
    ensures TenureOf(cfg, Logged(s, io).log) == Extended(cfg, Seen(cfg, s), TenureOf(cfg, s.log), io)
    ensures !io.Released? && !io.ToBackend? ==> SameTenure(cfg, s, Logged(s, io))
  {
    hide Turns, Summarise, TenureOf, Extractor.Extract;
    TurnsOne(cfg, s.log, io);
    SummariseOne(cfg, s.log, io);
  }

  lemma MessageTurns(cfg: Config, s: Session, first: bool, m: Message)
    ensures var (s', f) := OnMessage(cfg, s, first, m);
            && s'.txn == s.txn && s'.running == s.running
            && Turns(cfg, s'.log) == Turns(cfg, s.log) && TenureOf(cfg, s'.log) == TenureOf(cfg, s.log)
            && (f.Proceed? ==>
                  && Seen(cfg, s').applied == Seen(cfg, s).applied + [m]
                  && Seen(cfg, s').history == Seen(cfg, s).history + Told(m)
                  && s'.conn == Conn.ApplyAll(s.conn, Told(m)))
            && (f.Refuse? ==> s' == s)
            && (f.Refuse? ==> Judged(cfg, s.txn, m).Refused?) && (f.Proceed? ==> !Judged(cfg, s.txn, m).Refused?)
  {
    hide Turns, Summarise, Judged, Told, Cached, TenureOf, Conn.ApplyAll;
    TurnsOne(cfg, s.log, Processed(m));
    SummariseOne(cfg, s.log, Processed(m));
  }

  /** The messages from `i` on are applied up to the first refused. */
  lemma {:induction false} MessagesTurns(cfg: Config, s: Session, ms: seq<Message>, i: nat)
    requires i <= |ms|
    ensures var (s', f) := OnMessages(cfg, s, ms, i);
            var due := Due(cfg, s.txn, ms[i..]);
            && s'.txn == s.txn && s'.running == s.running
            && Turns(cfg, s'.log) == Turns(cfg, s.log) && TenureOf(cfg, s'.log) == TenureOf(cfg, s.log)
            && (f.Proceed? || f.Refuse? ==>
                  && Seen(cfg, s').applied == Seen(cfg, s).applied + due
                  && Seen(cfg, s').history == Seen(cfg, s).history + AllTold(due)
                  && s'.conn == Conn.ApplyAll(s.conn, AllTold(due)))
    decreases |ms| - i
  {
    hide Turns, TenureOf, Summarise, Judged, Told, OnMessage, AllTold, Conn.Apply;
    AllToldNone();
    if i < |ms| {
      MessageTurns(cfg, s, i == 0, ms[i]);
      var (s', f) := OnMessage(cfg, s, i == 0, ms[i]);
      assert ms[i..][0] == ms[i] && ms[i..][1..] == ms[i + 1..];
      if f.Proceed? {
        MessagesTurns(cfg, s', ms, i + 1);
        AllToldOne(ms[i]);
        var due := Due(cfg, s.txn, ms[i + 1..]);
        AllToldAppend([ms[i]], due);
        Conn.ApplyAllAppend(s.conn, Told(ms[i]), AllTold(due));
      }
    }
  }

  lemma AllToldNone()
    ensures AllTold([]) == []
  {
  }

  lemma AllToldOne(m: Message)
    ensures AllTold([m]) == Told(m)
  {
    hide Told;
    assert [m][..0] == [];
  }

  lemma MessagesOfAppend(a: seq<Turn>, ms: seq<Message>, sent: bool)
    ensures MessagesOf(a + Labelled(ms, sent)) == MessagesOf(a) + ms
  {
  }

  lemma WrittenTurns(cfg: Config, s: Session, io: Io, w: Write)
    requires io.ToBackend? || io.Reply?
    ensures var s' := Written(cfg, s, io, w);
            && SameTurns(cfg, s, s')
            && (s'.running ==> TenureOf(cfg, s'.log) == Extended(cfg, Seen(cfg, s), TenureOf(cfg, s.log), io))
  {
    hide Turns, Summarise, TenureOf, Extended;
    LoggedTurns(cfg, s, io);
    LoggedTurns(cfg, Logged(s, io), Broken);
  }

  /** A read's messages, told to a tracker that knows what it was told. */
  lemma KnowsMore(cfg: Config, before: Conn.State, turns: seq<Turn>, due: seq<Message>, sent: bool)
    requires before == Conn.ApplyAll(Conn.Fresh(cfg.maxPrepared), AllTold(MessagesOf(turns)))
    ensures Conn.ApplyAll(before, AllTold(due))
         == Conn.ApplyAll(Conn.Fresh(cfg.maxPrepared), AllTold(MessagesOf(turns + Labelled(due, sent))))
  {
    hide Conn.ApplyAll, AllTold;
    MessagesOfAppend(turns, due, sent);
    AllToldAppend(MessagesOf(turns), due);
    Conn.ApplyAllAppend(Conn.Fresh(cfg.maxPrepared), AllTold(MessagesOf(turns)), AllTold(due));
  }

  lemma ClientReadTurns(cfg: Config, s: Session, data: Bytes, w: Write)
    requires s.running && Good(cfg, s) && UpToDate(cfg, s)
    ensures var s' := OnClientRead(cfg, s, data, w); s'.running ==> UpToDate(cfg, s')
  {
    hide Turns, TenureOf, Summarise, Judged, Extractor.Extract, OnMessages, Rejection, Conn.ApplyAll, AllTold, Written, Due,
         Labelled, MessagesOf;
    var s0 := Logged(s, FromClient(data));
    TurnsOne(cfg, s.log, FromClient(data));
    SummariseOne(cfg, s.log, FromClient(data));
    var (x, ms) := Extractor.Extract(s.extractor, data);
    if ms.Some? {
      var s1 := s0.(extractor := x);
      MessagesTurns(cfg, s1, ms.value, 0);
      FlowMeaning(cfg, s1, ms.value, 0);
      assert ms.value[0..] == ms.value;
      var due, sent := Due(cfg, s.txn, ms.value), !Suppressed(cfg, s.txn, ms.value);
      MessagesOfAppend(Turns(cfg, s.log), due, sent);
      AllToldAppend(Seen(cfg, s).applied, due);
      KnowsMore(cfg, s.conn, TenureOf(cfg, s.log).turns, due, sent);
      var (s2, flow) := OnMessages(cfg, s1, ms.value, 0);
      if flow.Proceed? {
        WrittenTurns(cfg, s2, ToBackend(Sent(data, w)), w);
        WrittenFull(cfg, s2, ToBackend(Sent(data, w)), w);
      } else if flow.Refuse? {
        WrittenTurns(cfg, s2, Reply(Sent(Rejection(flow.message, s2.txn), w)), w);
      }
    }
  }

  lemma WrittenFull(cfg: Config, s: Session, io: Io, w: Write)
    ensures Written(cfg, s, io, w).running ==> w.Full?
  {
  }

  /** An unpinned tracker is as good as new. */
  lemma UnpinnedIsFresh(max: nat, h: seq<Conn.Event>)
    requires !Conn.Pinned(Conn.ApplyAll(Conn.Fresh(max), h))
    ensures Conn.ApplyAll(Conn.Fresh(max), h) == Conn.Fresh(max)
  {
    hide Conn.ApplyAll, Conn.Ops, TrackerRun, ReferenceRun, IsSuffix;
    var s := Conn.ApplyAll(Conn.Fresh(max), h);
    Conn.PreparedRun(max, h);
    TrackerTrace(AtLeastOne(max), Conn.Ops(h));
    ListedSize(s.prepared.entries, s.prepared.order);
  }

  lemma SwappedTurns(cfg: Config, s: Session, next: Reacquired)
    requires TrackerFresh(cfg, s)
    ensures var s' := Swapped(s, next);
            SameTurns(cfg, s, s') && TenureOf(cfg, s'.log) == NEWLY_SEATED && TrackerFresh(cfg, s')
  {
    hide Turns, TenureOf, Summarise, Conn.Fresh;
    LoggedTurns(cfg, s, Released);
    var s3 := Logged(s, Released);
    LoggedTurns(cfg, s3, Broken);
    LoggedTurns(cfg, s3, Acquired(false));
    LoggedTurns(cfg, s3, Acquired(true));
    LoggedTurns(cfg, Logged(s3, Acquired(true)), Initialised);
    LoggedTurns(cfg, Logged(s3, Acquired(true)), Broken);
  }

  ghost predicate TrackerFresh(cfg: Config, s: Session) { s.conn == Conn.Fresh(cfg.maxPrepared) }

  lemma NewlySeatedUpToDate(cfg: Config, s: Session, s': Session)
    requires UpToDate(cfg, s) && SameTurns(cfg, s, s') && TenureOf(cfg, s'.log) == NEWLY_SEATED && TrackerFresh(cfg, s')
    ensures UpToDate(cfg, s')
  {
    hide Turns, TenureOf, Summarise, Conn.Fresh;
    AllToldNone();
    assert MessagesOf([]) == [];
  }

  lemma BackendReadTurns(cfg: Config, s: Session, data: Bytes, w: Write, next: Reacquired)
    requires s.running && Good(cfg, s) && UpToDate(cfg, s)
    ensures UpToDate(cfg, OnBackendRead(cfg, s, data, w, next))
  {
    hide Completes, BackendScan.LastStatus, Summarise, Turns, TenureOf, Conn.ApplyAll, Conn.Pinned, UpToDate, Swapped,
         Conn.Fresh, Extractor.Extract;
    var s0 := Logged(s, FromBackend(data));
    LoggedTurns(cfg, s, FromBackend(data));
    LoggedTurns(cfg, s0, Broken);
    LoggedTurns(cfg, s0, ToClient(Sent(data, w)));
    var s2 := Logged(s0, ToClient(Sent(data, w)));
    LoggedTurns(cfg, s2, Broken);
    var s' := OnBackendRead(cfg, s, data, w, next);
    if SameTenure(cfg, s, s') {
      SameUpToDate(cfg, s, s');
    } else {
      var s1 := Settled(cfg, s0, Completes(data).value).(txn := TxnSeen(s.txn, data));
      var s3 := Logged(s1, ToClient(Sent(data, w)));
      assert s3.log == s2.log && s3.conn == s.conn && s' == Swapped(s3, next);
      assert TrackerFresh(cfg, s3) by { UnpinnedIsFresh(cfg.maxPrepared, Seen(cfg, s).history); }
      SwappedTurns(cfg, s3, next);
      NewlySeatedUpToDate(cfg, s, s');
    }
  }

  /** On every run, read by read: of a forwarded read every message is applied to the tracker, of a suppressed one those
      before the first refused; and the tracker knows what it was told since the last release. */
  lemma {:induction false} AppliedExactly(cfg: Config, events: seq<Event>)
    ensures Run(cfg, events).running ==> UpToDate(cfg, Run(cfg, events))
  {
    if events == [] {
      StartUpToDate(cfg);
    } else {
      hide OnClientRead, OnBackendRead, OnDeadline, UpToDate, Good;
      var before, e := events[..|events| - 1], events[|events| - 1];
      AppliedExactly(cfg, before);
      RunGood(cfg, before);
      var s := Run(cfg, before);
      if s.running {
        match e {
          case ClientRead(data, w) => ClientReadTurns(cfg, s, data, w);
          case BackendRead(data, w, next) => BackendReadTurns(cfg, s, data, w, next);
          case Deadline(w1, w2) => DeadlineEnds(cfg, s, w1, w2);
          case _ =>
        }
      }
    }
  }

  lemma SameUpToDate(cfg: Config, s: Session, s': Session)
    requires UpToDate(cfg, s) && SameTenure(cfg, s, s')
    ensures UpToDate(cfg, s')
  {
  }

  lemma DeadlineEnds(cfg: Config, s: Session, w1: Write, w2: Write)
    ensures var s' := OnDeadline(cfg, s, w1, w2); s' == s || !s'.running
  {
  }

  lemma StartUpToDate(cfg: Config)
    ensures UpToDate(cfg, Start(cfg))
  {
  }

  // ---------------------------------------------------------------- one parse of all reads

  lemma {:induction false} FeedOne(st: Extractor.State, chunks: seq<Bytes>, c: Bytes)
    ensures var (st1, out1) := Extractor.Feed(st, chunks);
            var (st2, out2) := Extractor.Extract(st1, c);
            Extractor.Feed(st, chunks + [c]) == (st2, out1 + if out2.Some? then out2.value else [])
    decreases |chunks|
  {
    hide Extractor.Extract;
    if chunks == [] {
      assert (chunks + [c])[1..] == [] && (chunks + [c])[0] == c;
      var (st1, out) := Extractor.Extract(st, c);
      var found := if out.Some? then out.value else [];
      assert found + [] == [] + found;
    } else {
      var (st1, out1) := Extractor.Extract(st, chunks[0]);
      FeedOne(st1, chunks[1..], c);
      assert (chunks + [c])[1..] == chunks[1..] + [c];
      var first := if out1.Some? then out1.value else [];
      var (st2, more) := Extractor.Feed(st1, chunks[1..]);
      var (_, out2) := Extractor.Extract(st2, c);
      var last := if out2.Some? then out2.value else [];
      assert first + (more + last) == (first + more) + last;
    }
  }

  lemma {:induction false} SummaryFeeds(cfg: Config, log: seq<Io>)
    ensures var o := Summarise(cfg, log);
            Extractor.Feed(Extractor.Fresh, o.chunks) == (o.extractor, o.parsed)
  {
    hide Extractor.Extract, Suppressed, TxnSeen;
    if log != [] {
      var before := log[..|log| - 1];
      SummaryFeeds(cfg, before);
      if log[|log| - 1].FromClient? {
        FeedOne(Extractor.Fresh, Summarise(cfg, before).chunks, log[|log| - 1].data);
      }
    }
  }

  lemma {:induction false} KeptIsAll(cfg: Config, log: seq<Io>)
    ensures var o := Summarise(cfg, log);
            o.allKept ==> o.kept == Extractor.Concat(o.chunks)
  {
    hide Extractor.Extract, Suppressed, TxnSeen;
    if log != [] {
      var before := log[..|log| - 1];
      KeptIsAll(cfg, before);
      if log[|log| - 1].FromClient? {
        ConcatOne(Summarise(cfg, before).chunks, log[|log| - 1].data);
      }
    }
  }

  lemma {:induction false} ConcatOne(chunks: seq<Bytes>, c: Bytes)
    ensures Extractor.Concat(chunks + [c]) == Extractor.Concat(chunks) + c
  {
    if chunks == [] {
      assert (chunks + [c])[1..] == [];
      assert Extractor.Concat([c]) == c + Extractor.Concat([]);
    } else {
      ConcatOne(chunks[1..], c);
      assert (chunks + [c])[1..] == chunks[1..] + [c];
    }
  }

  /** On every running session the messages applied to the tracker are those the reads make due, and the present backend
      has the bytes of the reads not suppressed since it was taken. While no read has been suppressed, the messages are
      those of one parse of all the client's bytes, however the reads cut them. */
  lemma TrackerSeesStream(cfg: Config, events: seq<Event>)
    ensures var s := Run(cfg, events);
            var o, t := Summarise(cfg, s.log), TenureOf(cfg, s.log);
            var whole := Extractor.Scan(Extractor.Concat(o.chunks));
            s.running ==>
              && o.applied == MessagesOf(Turns(cfg, s.log))
              && t.written == t.bytes
              && (o.allKept && whole.status.Ok? ==>
                    && o.applied == whole.messages
                    && s.extractor.buffer == whole.rest
                    && o.toBackend == Extractor.Concat(o.chunks))
  {
    hide Run, Summarise, Extractor.Scan, Turns, TenureOf, TrackerKnows;
    RunGood(cfg, events);
    AppliedExactly(cfg, events);
    var s := Run(cfg, events);
    var o := Summarise(cfg, s.log);
    SummaryFeeds(cfg, s.log);
    KeptIsAll(cfg, s.log);
    if Extractor.Scan(Extractor.Concat(o.chunks)).status.Ok? {
      Extractor.ChunkingIrrelevant(o.chunks);
    }
  }

  // ---------------------------------------------------------------- what the backend reads

  /** The backend is in step: parsing the bytes meant for it gives the messages of the reads forwarded to it, and leaves
      what the extractor holds. */
  ghost predicate InStep(cfg: Config, log: seq<Io>) {
    var o, t := Summarise(cfg, log), TenureOf(cfg, log);
    && !o.extractor.poisoned
    && Extractor.Scan(t.bytes) == Extractor.Scanned(SentOf(t.turns), o.extractor.buffer, Extractor.Ok)
  }

  /** An entry that keeps the backend in step: a suppressed read that leaves the extractor's buffer as it found it, a
      forwarded read without a malformed frame, a release at the end of a message. */
  ghost predicate Harmless(o: Summary, cfg: Config, io: Io) {
    match io
    case FromClient(data) =>
      var (x, ms) := Extractor.Extract(o.extractor, data);
      && ms.Some?
      && if Suppressed(cfg, o.txn, ms.value) then x.buffer == o.extractor.buffer
         else Extractor.Scan(o.extractor.buffer + data).status.Ok?
    case Released => o.extractor.buffer == []
    case _ => true
  }

  lemma HangupSuppressed(cfg: Config, txn: TxnState, ms: seq<Message>)
    requires HangsUp(ms)
    ensures Suppressed(cfg, txn, ms)
  {
  }

  lemma ReadKeepsStep(cfg: Config, log: seq<Io>, data: Bytes)
    requires InStep(cfg, log)
    ensures InStep(cfg, log + [FromClient(data)]) <==> Harmless(Summarise(cfg, log), cfg, FromClient(data))
  {
    hide Turns, TenureOf, Summarise, Extractor.Scan, Due, Suppressed, Labelled, SentOf;
    var o, t := Summarise(cfg, log), TenureOf(cfg, log);
    TurnsOne(cfg, log, FromClient(data));
    SummariseOne(cfg, log, FromClient(data));
    var (x, ms) := Extractor.Extract(o.extractor, data);
    if ms.Some? && HangsUp(ms.value) {
      HangupSuppressed(cfg, o.txn, ms.value);
      assert t.turns + [] == t.turns;
    } else if ms.Some? {
      var due, sent := Due(cfg, o.txn, ms.value), !Suppressed(cfg, o.txn, ms.value);
      SentAppend(t.turns, Labelled(due, sent));
      SentLabelled(due, sent);
      if sent {
        DueWhole(cfg, o.txn, ms.value);
        Extractor.ScanAppend(t.bytes, data);
      } else {
        assert SentOf(t.turns) + [] == SentOf(t.turns);
      }
    }
  }

  lemma EntryKeepsStep(cfg: Config, log: seq<Io>, io: Io)
    requires InStep(cfg, log)
    ensures InStep(cfg, log + [io]) <==> Harmless(Summarise(cfg, log), cfg, io)
  {
    if io.FromClient? {
      hide InStep, Harmless;
      ReadKeepsStep(cfg, log, io.data);
    } else {
      hide Turns, TenureOf, Summarise;
      TurnsOne(cfg, log, io);
      SummariseOne(cfg, log, io);
    }
  }

  ghost predicate AlwaysInStep(cfg: Config, log: seq<Io>) {
    forall n | 0 <= n <= |log| :: InStep(cfg, log[..n])
  }

  ghost predicate AllHarmless(cfg: Config, log: seq<Io>) {
    forall j | 0 <= j < |log| :: Harmless(Summarise(cfg, log[..j]), cfg, log[j])
  }

  /** On every log the backends are in step throughout exactly when every entry is harmless. */
  lemma {:induction false} InStepExactly(cfg: Config, log: seq<Io>)
    ensures AlwaysInStep(cfg, log) <==> AllHarmless(cfg, log)
  {
    hide InStep, Harmless, Summarise;
    assert log[..|log|] == log;
    if log == [] {
      StartInStep(cfg);
    } else {
      var before, io := log[..|log| - 1], log[|log| - 1];
      InStepExactly(cfg, before);
      assert before + [io] == log;
      assert forall n | 0 <= n <= |before| :: before[..n] == log[..n];
      assert AlwaysInStep(cfg, log) <==> AlwaysInStep(cfg, before) && InStep(cfg, log);
      assert AllHarmless(cfg, log) <==> AllHarmless(cfg, before) && Harmless(Summarise(cfg, before), cfg, io);
      if AlwaysInStep(cfg, before) {
        assert before[..|before|] == before;
        EntryKeepsStep(cfg, before, io);
      }
    }
  }

  lemma StartInStep(cfg: Config)
    ensures InStep(cfg, [])
  {
  }

  /** On every running session: one parse of what the present backend was written gives the messages of the reads
      forwarded to it, if nothing since the start was harmful. */
  lemma BackendInStep(cfg: Config, events: seq<Event>)
    requires Run(cfg, events).running && AllHarmless(cfg, Run(cfg, events).log)
    ensures var s := Run(cfg, events);
            var t := TenureOf(cfg, s.log);
            Extractor.Scan(t.written) == Extractor.Scanned(SentOf(t.turns), s.extractor.buffer, Extractor.Ok)
  {
    hide Run, Summarise, Extractor.Scan, TenureOf, Turns, AllHarmless, TrackerKnows;
    var log := Run(cfg, events).log;
    RunGood(cfg, events);
    AppliedExactly(cfg, events);
    InStepExactly(cfg, log);
    assert log[..|log|] == log;
    assert InStep(cfg, log[..|log|]);
  }
}
