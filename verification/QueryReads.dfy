/** Whole runs of a session in the client's own texts: what a suppressed read can leave behind. */
module QueryReads {
  import opened WireBytes
  import opened FrontendWire
  import opened TextOps
  import opened CommandDetector
  import opened Transaction
  import opened ModeEnforcer
  import opened ManagedSession
  import opened ManagedRuns
  import opened ForwardedReads
  import opened ReleasedBackends
  import opened TextLaws
  import EnforcedBatches
  import SessionCommands
  import BackendScan
  import Conn = ConnectionState
  import Extractor

  // ---------------------------------------------------------------- reads of queries

  function Items(qs: seq<Bytes>): (r: seq<Extractor.Item>)
    ensures |r| == |qs|
  {
    seq(|qs|, i requires 0 <= i < |qs| => Extractor.Known(Query(qs[i]), []))
  }

  function Queries(qs: seq<Bytes>): (ms: seq<Message>)
    ensures |ms| == |qs|
  {
    seq(|qs|, i requires 0 <= i < |qs| => Query(qs[i]))
  }

  /** Query messages one after the other. */
  function Wired(qs: seq<Bytes>): (b: Bytes) { Extractor.Encoded(Items(qs)) }

  predicate Sendable(qs: seq<Bytes>) {
    forall i | 0 <= i < |qs| :: Extractor.Fits(Extractor.Known(Query(qs[i]), []))
  }

  lemma {:induction false} SeenItems(qs: seq<Bytes>)
    ensures Extractor.Seen(Items(qs)) == Queries(qs)
  {
    if qs != [] {
      SeenItems(qs[1..]);
      assert Items(qs)[1..] == Items(qs[1..]);
      assert Queries(qs) == [Query(qs[0])] + Queries(qs[1..]);
    }
  }

  lemma WiredExtracted(qs: seq<Bytes>)
    requires Sendable(qs)
    ensures Extractor.Scan(Wired(qs)) == Extractor.Scanned(Queries(qs), [], Extractor.Ok)
    ensures Extractor.Extract(Extractor.Fresh, Wired(qs)) == (Extractor.Fresh, Some(Queries(qs)))
  {
    hide Extractor.Scan, Extractor.Encoded, Extractor.Fits;
    Extractor.ScanOfEncoded(Items(qs));
    SeenItems(qs);
    assert [] + Wired(qs) == Wired(qs);
  }

  /** Neither hangs up nor panics. */
  ghost predicate Calm(cfg: Config, txn: TxnState, m: Message) {
    !m.Terminate? && !Judged(cfg, txn, m).ValidatePanics? && !Conn.Panics(Told(m))
  }

  lemma {:induction false} CalmFlow(cfg: Config, s: Session, ms: seq<Message>, i: nat)
    requires i <= |ms| && forall k | 0 <= k < |ms| :: Calm(cfg, s.txn, ms[k])
    ensures var (s', f) := OnMessages(cfg, s, ms, i); (f.Proceed? || f.Refuse?) && s'.extractor == s.extractor
    decreases |ms| - i
  {
    hide Judged, Told, Conn.Panics, Cached, Conn.ApplyAll;
    if i < |ms| {
      assert Calm(cfg, s.txn, ms[i]);
      CalmFlow(cfg, OnMessage(cfg, s, i == 0, ms[i]).0, ms, i + 1);
    }
  }

  /** Between events: what the session will do next depends on. */
  ghost predicate At(cfg: Config, s: Session, x: Extractor.State, txn: TxnState, turns: seq<Turn>, bytes: Bytes) {
    && s.running && s.extractor == x && s.txn == txn
    && TenureOf(cfg, s.log).turns == turns && TenureOf(cfg, s.log).bytes == bytes
  }

  /** A client read that does not end the session. */
  lemma Reads(cfg: Config, s: Session, x: Extractor.State, txn: TxnState, turns: seq<Turn>, bytes: Bytes, data: Bytes,
              x': Extractor.State, ms: seq<Message>)
    requires Good(cfg, s) && At(cfg, s, x, txn, turns, bytes)
    requires Extractor.Extract(x, data) == (x', Some(ms)) && forall k | 0 <= k < |ms| :: Calm(cfg, txn, ms[k])
    ensures var sent := !Suppressed(cfg, txn, ms);
            At(cfg, OnClientRead(cfg, s, data, Full), x', txn, turns + Labelled(Due(cfg, txn, ms), sent),
               if sent then bytes + data else bytes)
  {
    hide Turns, TenureOf, Summarise, Judged, Extractor.Extract, OnMessages, Rejection, Conn.ApplyAll, Written, Due,
         Labelled, Suppressed;
    var s0 := Logged(s, FromClient(data));
    TurnsOne(cfg, s.log, FromClient(data));
    var s1 := s0.(extractor := x');
    MessagesTurns(cfg, s1, ms, 0);
    CalmFlow(cfg, s1, ms, 0);
    NoHangup(cfg, txn, ms);
    var (s2, flow) := OnMessages(cfg, s1, ms, 0);
    if flow.Proceed? {
      WritesOn(cfg, s2, ToBackend(Sent(data, Full)));
    } else {
      WritesOn(cfg, s2, Reply(Sent(Rejection(flow.message, s2.txn), Full)));
    }
  }

  lemma NoHangup(cfg: Config, txn: TxnState, ms: seq<Message>)
    requires forall k | 0 <= k < |ms| :: Calm(cfg, txn, ms[k])
    ensures !HangsUp(ms)
  {
    assert ms != [] ==> Calm(cfg, txn, ms[0]);
  }

  lemma WritesOn(cfg: Config, s: Session, io: Io)
    requires (io.ToBackend? || io.Reply?)
    ensures var s' := Written(cfg, s, io, Full);
            && s'.running == s.running && s'.extractor == s.extractor && s'.txn == s.txn
            && TenureOf(cfg, s'.log).turns == TenureOf(cfg, s.log).turns
            && TenureOf(cfg, s'.log).bytes == TenureOf(cfg, s.log).bytes
  {
    hide TenureOf, Summarise;
    TurnsOne(cfg, s.log, io);
  }

  lemma ReadyScans(st: TxnState)
    ensures Completes(ReadyForQuery(st)).Value?
    ensures BackendScan.LastStatus(ReadyForQuery(st), 0, None) == BackendScan.Value(Some(StatusByte(st)))
  {
    hide BackendScan.LastStatus, BackendScan.FindError, BackendScan.HasCompletion, FrameBytes;
    var f := Frame(BackendScan.READY_FOR_QUERY, [StatusByte(st)]);
    ReadyIsAFrame(st);
    ReadyRestores(st, st, []);
    assert [f][1..] == [];
    assert FramesBytes([f]) == FrameBytes(f) + [];
    assert FramesBytes([]) + ReadyForQuery(st) == ReadyForQuery(st);
    assert FramesBytes([f]) + [] == ReadyForQuery(st);
    BackendScan.FindErrorExactly([f], []);
    BackendScan.CompletionExactly([f], [], 0);
  }

  /** A ReadyForQuery that does not end a transaction. */
  lemma ReadyRead(cfg: Config, s: Session, x: Extractor.State, turns: seq<Turn>, bytes: Bytes, st: TxnState, next: Reacquired)
    requires At(cfg, s, x, Idle, turns, bytes)
    ensures At(cfg, OnBackendRead(cfg, s, ReadyForQuery(st), Full, next), x, st, turns, bytes)
  {
    hide TenureOf, Summarise, Completes, BackendScan.LastStatus, ReadyForQuery, Conn.Pinned;
    ReadyScans(st);
    var data := ReadyForQuery(st);
    TurnsOne(cfg, s.log, FromBackend(data));
    TurnsOne(cfg, s.log + [FromBackend(data)], ToClient(data));
  }

  // ---------------------------------------------------------------- five texts

  const LISTEN_A: Bytes := [76, 73, 83, 84, 69, 78, 32, 65]
  const DISCARD_ALL: Bytes := [68, 73, 83, 67, 65, 82, 68, 32, 65, 76, 76]
  const SET_A := EnforcedBatches.SET_A
  const BEGIN: Bytes := [66, 69, 71, 73, 78]
  const END: Bytes := [69, 78, 68]

  /** What a text of one statement comes to. */
  ghost predicate Means(q: Bytes, e: Conn.Event, refused: bool) {
    && Told(Query(q)) == [e] && e != Conn.Executed(ClassifyPanics)
    && (if refused then Validate(TransactionMode, q, false).Refused?
        else Validate(TransactionMode, q, false) == Validate(TransactionMode, q, true) == Allowed)
    && Extractor.Fits(Extractor.Known(Query(q), []))
  }

  lemma TextFits(q: Bytes)
    requires (forall i | 0 <= i < |q| :: 0 < q[i] < 128) && |q| < 100
    ensures Extractor.Fits(Extractor.Known(Query(q), []))
  {
    AsciiIsText(q);
  }

  lemma {:induction false} AsciiIsText(q: Bytes)
    requires forall i | 0 <= i < |q| :: 0 < q[i] < 128
    ensures Text(q)
  {
    if q != [] {
      AsciiIsText(q[1..]);
    }
  }

  /** A text the detector recognises. */
  lemma FoundMeans(q: Bytes, c: Command)
    requires Detect(q) == Found(c) && Bare(q) && (forall i | 0 <= i < |q| :: 0 < q[i] < 128) && |q| < 100
    requires c.Listen? || c.DiscardAll? || c.Set?
    ensures Means(q, Conn.Executed(Stateful(c)), c.Set?)
  {
    hide Detect, Conn.QueryEvents, Bare, Ascii, Extractor.Fits;
    SessionCommands.OneEvent(q, c);
    TextFits(q);
  }

  lemma ListenDetected()
    ensures Detect(LISTEN_A) == Found(Listen([65]))
  {
    hide Detect, Contains;
    var k, x: Bytes := [76, 73, 83, 84, 69, 78, 32], [65];
    assert Ascii("LISTEN ") == k && Upper(k) == k && k + x == LISTEN_A;
    assert Upper(k + x) == LISTEN_A && 67 !in LISTEN_A;
    Conn.LacksByte(LISTEN_A, "CREATE", 0);
    assert !SessionCommands.TableRule(LISTEN_A) && Bare(LISTEN_A) && Bare(x) && SessionCommands.Spells(k, "LISTEN ");
    hide Ascii, Upper, Bare, SessionCommands.TableRule, SessionCommands.Spells;
    SessionCommands.RecordsListen(k, x);
    SessionCommands.UntilExactly(x, []);
    assert x + [] == x;
    assert TrimByte(x, QUOTE) == x;
  }

  lemma DiscardDetected()
    ensures Detect(DISCARD_ALL) == Found(DiscardAll)
  {
    hide Detect, KnownClean, Ascii;
    Conn.DiscardBytes();
    Conn.DiscardIsDetected();
  }

  lemma TextsMean()
    ensures Means(LISTEN_A, Conn.Executed(Stateful(Listen([65]))), false)
    ensures Means(DISCARD_ALL, Conn.Executed(Stateful(DiscardAll)), false)
    ensures exists e :: Means(SET_A, e, true)
  {
    hide Detect, Means;
    ListenDetected();
    DiscardDetected();
    EnforcedBatches.SetIsSet();
    FoundMeans(LISTEN_A, Listen([65]));
    FoundMeans(DISCARD_ALL, DiscardAll);
    FoundMeans(SET_A, Detect(SET_A).command);
  }

  /** A text no rule claims. */
  lemma Unclaimed(t: Bytes)
    requires Trim(t) == t && Upper(t) == t && |t| >= 3 && 82 !in t && 80 !in t && (t[0] == 66 || t[0] == 69)
    ensures Detect(t) == NoCommand
  {
    hide Contains, ParseSet, ParseReset, ParseDropTable, ParseCreateTempTable, ParseDeallocate, ParseDeclareCursor,
         ParseUnlisten, ParseNotify, LockKey, Ascii, Upper, Trim, FirstWord;
    SessionCommands.FirstBytes(t);
    Conn.LacksByte(t, "CREATE", 1);
    Conn.LacksByte(t, "PG_ADVISORY_LOCK", 0);
    Conn.LacksByte(t, "PG_ADVISORY_UNLOCK", 0);
  }

  lemma CleanMeans(t: Bytes)
    requires Bare(t) && Upper(t) == t && |t| >= 3 && 82 !in t && 80 !in t && 83 !in t && (t[0] == 66 || t[0] == 69)
    requires StartsWithKeyword(t, Ascii("BEGIN")) || StartsWithKeyword(t, Ascii("END"))
    requires (forall i | 0 <= i < |t| :: 0 < t[i] < 128) && |t| < 100
    ensures Means(t, Conn.Executed(Clean), false)
  {
    hide Detect, Trim, Ascii, Upper, StartsWithKeyword, KnownClean, SplitOn, NonBlank, Extractor.Fits;
    SessionCommands.PlainTrims(t);
    Unclaimed(t);
    BeginsClean(t);
    NoSeparator(t, SEMICOLON);
    Conn.OneStatement(t);
    TextFits(t);
  }

  lemma BeginsClean(t: Bytes)
    requires TrimStart(t) == t && Upper(t) == t && 83 !in t
    requires StartsWithKeyword(t, Ascii("BEGIN")) || StartsWithKeyword(t, Ascii("END"))
    ensures KnownClean(t)
  {
    hide Contains, Ascii, Upper, StartsWithKeyword, TrimStart;
    Conn.LacksByte(t, "SET_CONFIG", 0);
  }

  lemma BeginEndMean()
    ensures Means(BEGIN, Conn.Executed(Clean), false) && Means(END, Conn.Executed(Clean), false)
  {
    hide Means;
    assert Ascii("BEGIN") == BEGIN && Ascii("END") == END;
    CleanMeans(BEGIN);
    CleanMeans(END);
  }

  // ---------------------------------------------------------------- reading them

  lemma {:induction false} DueOne(cfg: Config, txn: TxnState, m: Message, more: seq<Message>)
    requires !Judged(cfg, txn, m).Refused?
    ensures Due(cfg, txn, [m] + more) == [m] + Due(cfg, txn, more)
    ensures Due(cfg, txn, []) == []
  {
    assert ([m] + more)[1..] == more;
  }

  lemma MeansCalm(cfg: Config, txn: TxnState, q: Bytes, e: Conn.Event, refused: bool)
    requires cfg.strategy.TransactionPooling? && Means(q, e, refused) && (refused ==> txn == Idle)
    ensures Calm(cfg, txn, Query(q)) && Judged(cfg, txn, Query(q)).Refused? == refused
    ensures Extractor.Fits(Extractor.Known(Query(q), []))
  {
    hide Validate, Conn.QueryEvents, Extractor.Fits;
  }

  /** One query, let through. */
  lemma ReadsOne(cfg: Config, s: Session, txn: TxnState, turns: seq<Turn>, bytes: Bytes, q: Bytes, e: Conn.Event)
    requires cfg.strategy.TransactionPooling? && Good(cfg, s) && At(cfg, s, Extractor.Fresh, txn, turns, bytes)
    requires Means(q, e, false)
    ensures At(cfg, OnClientRead(cfg, s, Wired([q]), Full), Extractor.Fresh, txn, turns + [Turn(Query(q), true)],
               bytes + Wired([q]))
  {
    hide Means, At, Good, Calm, Judged, Wired, Extractor.Extract, OnClientRead, Extractor.Fits;
    MeansCalm(cfg, txn, q, e, false);
    var ms := [Query(q)];
    assert Queries([q]) == ms;
    WiredExtracted([q]);
    Reads(cfg, s, Extractor.Fresh, txn, turns, bytes, Wired([q]), Extractor.Fresh, ms);
    DueOne(cfg, txn, Query(q), []);
    assert ms + [] == ms;
    assert !Suppressed(cfg, txn, ms) by { assert Query(q) == ms[0]; }
    assert Labelled(ms, true) == [Turn(Query(q), true)];
  }

  /** Two queries in one read, of which the second is refused. */
  lemma ReadsTwo(cfg: Config, s: Session, turns: seq<Turn>, bytes: Bytes, q: Bytes, e: Conn.Event, q': Bytes, e': Conn.Event)
    requires cfg.strategy.TransactionPooling? && Good(cfg, s) && At(cfg, s, Extractor.Fresh, Idle, turns, bytes)
    requires Means(q, e, false) && Means(q', e', true)
    ensures At(cfg, OnClientRead(cfg, s, Wired([q, q']), Full), Extractor.Fresh, Idle, turns + [Turn(Query(q), false)], bytes)
  {
    hide Means, At, Good, Calm, Judged, Wired, Extractor.Extract, OnClientRead, Extractor.Fits;
    MeansCalm(cfg, Idle, q, e, false);
    MeansCalm(cfg, Idle, q', e', true);
    var ms := [Query(q), Query(q')];
    assert Queries([q, q']) == ms;
    WiredExtracted([q, q']);
    Reads(cfg, s, Extractor.Fresh, Idle, turns, bytes, Wired([q, q']), Extractor.Fresh, ms);
    DueOne(cfg, Idle, Query(q), [Query(q')]);
    assert [Query(q)] + [Query(q')] == ms;
    assert Due(cfg, Idle, ms) == [Query(q)];
    assert Suppressed(cfg, Idle, ms) by { assert Judged(cfg, Idle, ms[1]).Refused?; }
    assert Labelled([Query(q)], false) == [Turn(Query(q), false)];
  }

  lemma RunOne(cfg: Config, es: seq<Event>, e: Event)
    requires Run(cfg, es).running
    ensures Run(cfg, es + [e]) == Step(cfg, Run(cfg, es), e)
  {
    assert (es + [e])[..|es|] == es;
  }

  // ---------------------------------------------------------------- a DISCARD ALL that is never sent

  /** LISTEN A; then DISCARD ALL and a refused SET in one read; then a transaction up to its END. */
  function UnsentDiscard(): (es: seq<Event>) {
    [ClientRead(Wired([LISTEN_A]), Full)] + [ClientRead(Wired([DISCARD_ALL, SET_A]), Full)]
    + [ClientRead(Wired([BEGIN]), Full)] + [BackendRead(ReadyForQuery(InTransaction), Full, Warm)]
    + [ClientRead(Wired([END]), Full)]
  }

  function UnsentTurns(): (ts: seq<Turn>) {
    [] + [Turn(Query(LISTEN_A), true)] + [Turn(Query(DISCARD_ALL), false)] + [Turn(Query(BEGIN), true)]
    + [Turn(Query(END), true)]
  }

  lemma UnsentDiscardRuns(cfg: Config)
    requires cfg.strategy.TransactionPooling?
    ensures var s := Run(cfg, UnsentDiscard());
            exists bytes :: At(cfg, s, Extractor.Fresh, InTransaction, UnsentTurns(), bytes)
  {
    hide Wired, Means, At, Good, OnClientRead, OnBackendRead, Run, ReadyForQuery;
    TextsMean();
    BeginEndMean();
    var refused :| Means(SET_A, refused, true);
    var clean := Conn.Executed(Clean);
    var es: seq<Event>, ts: seq<Turn>, b: Bytes := [], [], [];
    assert At(cfg, Run(cfg, es), Extractor.Fresh, Idle, ts, b) by { AtStart(cfg); }
    AfterRead(cfg, es, Extractor.Fresh, Idle, ts, b, Wired([LISTEN_A]));
    ReadsOne(cfg, Run(cfg, es), Idle, ts, b, LISTEN_A, Conn.Executed(Stateful(Listen([65]))));
    es, ts, b := es + [ClientRead(Wired([LISTEN_A]), Full)], ts + [Turn(Query(LISTEN_A), true)], b + Wired([LISTEN_A]);
    AfterRead(cfg, es, Extractor.Fresh, Idle, ts, b, Wired([DISCARD_ALL, SET_A]));
    ReadsTwo(cfg, Run(cfg, es), ts, b, DISCARD_ALL, Conn.Executed(Stateful(DiscardAll)), SET_A, refused);
    es, ts := es + [ClientRead(Wired([DISCARD_ALL, SET_A]), Full)], ts + [Turn(Query(DISCARD_ALL), false)];
    AfterRead(cfg, es, Extractor.Fresh, Idle, ts, b, Wired([BEGIN]));
    ReadsOne(cfg, Run(cfg, es), Idle, ts, b, BEGIN, clean);
    es, ts, b := es + [ClientRead(Wired([BEGIN]), Full)], ts + [Turn(Query(BEGIN), true)], b + Wired([BEGIN]);
    AfterReady(cfg, es, Extractor.Fresh, ts, b, InTransaction, Warm);
    es := es + [BackendRead(ReadyForQuery(InTransaction), Full, Warm)];
    AfterRead(cfg, es, Extractor.Fresh, InTransaction, ts, b, Wired([END]));
    ReadsOne(cfg, Run(cfg, es), InTransaction, ts, b, END, clean);
    es, ts, b := es + [ClientRead(Wired([END]), Full)], ts + [Turn(Query(END), true)], b + Wired([END]);
    assert es == UnsentDiscard() && ts == UnsentTurns();
  }

  lemma AtStart(cfg: Config)
    ensures At(cfg, Run(cfg, []), Extractor.Fresh, Idle, [], [])
  {
  }

  lemma AfterRead(cfg: Config, es: seq<Event>, x: Extractor.State, txn: TxnState, ts: seq<Turn>, b: Bytes, data: Bytes)
    requires At(cfg, Run(cfg, es), x, txn, ts, b)
    ensures Good(cfg, Run(cfg, es))
    ensures Run(cfg, es + [ClientRead(data, Full)]) == OnClientRead(cfg, Run(cfg, es), data, Full)
  {
    hide Good, Run, OnClientRead, TenureOf;
    RunGood(cfg, es);
    RunOne(cfg, es, ClientRead(data, Full));
  }

  lemma AfterReady(cfg: Config, es: seq<Event>, x: Extractor.State, ts: seq<Turn>, b: Bytes, st: TxnState, next: Reacquired)
    requires At(cfg, Run(cfg, es), x, Idle, ts, b)
    ensures At(cfg, Run(cfg, es + [BackendRead(ReadyForQuery(st), Full, next)]), x, st, ts, b)
  {
    hide Run, OnBackendRead, TenureOf, ReadyForQuery;
    RunOne(cfg, es, BackendRead(ReadyForQuery(st), Full, next));
    ReadyRead(cfg, Run(cfg, es), x, ts, b, st, next);
  }

  /** What the tracker was told, and what the backend. */
  lemma UnsentMeans(max: nat)
    ensures !Conn.Pinned(Conn.ApplyAll(Conn.Fresh(max), AllTold(MessagesOf(UnsentTurns()))))
    ensures OnBackend(UnsentTurns(), Conn.Channel([65]))
  {
    hide Means, Told, Conn.Live;
    TextsMean();
    BeginEndMean();
    var listen, discard, clean := Conn.Executed(Stateful(Listen([65]))), Conn.Executed(Stateful(DiscardAll)), Conn.Executed(Clean);
    MeansTold(LISTEN_A, listen);
    MeansTold(DISCARD_ALL, discard);
    MeansTold(BEGIN, clean);
    MeansTold(END, clean);
    FourTold(LISTEN_A, listen, DISCARD_ALL, discard, BEGIN, END, clean);
    var told := [listen, discard, clean, clean];
    var sent := [listen, clean, clean];
    DiscardedLast(max, listen, clean);
    ListenLast(sent);
  }

  lemma MeansTold(q: Bytes, e: Conn.Event)
    requires Means(q, e, false)
    ensures Told(Query(q)) == [e]
  {
  }

  lemma FourTold(q: Bytes, e: Conn.Event, q': Bytes, e': Conn.Event, b: Bytes, c: Bytes, clean: Conn.Event)
    requires Told(Query(q)) == [e] && Told(Query(q')) == [e'] && Told(Query(b)) == Told(Query(c)) == [clean]
    ensures var ts := [] + [Turn(Query(q), true)] + [Turn(Query(q'), false)] + [Turn(Query(b), true)] + [Turn(Query(c), true)];
            && AllTold(MessagesOf(ts)) == [e, e', clean, clean]
            && AllTold(SentOf(ts)) == [e, clean, clean]
  {
    hide Told, AllTold;
    var ts := [] + [Turn(Query(q), true)] + [Turn(Query(q'), false)] + [Turn(Query(b), true)] + [Turn(Query(c), true)];
    assert ts[..3][..2] == ts[..2] && ts[..2][..1] == ts[..1] && ts[..1][..0] == [];
    assert SentOf(ts[..1]) == [Query(q)];
    assert SentOf(ts[..2]) == [Query(q)];
    assert SentOf(ts[..3]) == [Query(q), Query(b)];
    assert SentOf(ts) == [Query(q), Query(b)] + [Query(c)];
    assert MessagesOf(ts) == [Query(q)] + [Query(q')] + [Query(b)] + [Query(c)];
    AllToldOne(Query(q));
    AllToldOne(Query(q'));
    AllToldOne(Query(b));
    AllToldOne(Query(c));
    AllToldAppend([Query(q)], [Query(q')]);
    AllToldAppend([Query(q)] + [Query(q')], [Query(b)]);
    AllToldAppend([Query(q)] + [Query(q')] + [Query(b)], [Query(c)]);
    AllToldAppend([Query(q)], [Query(b)]);
    assert [Query(q)] + [Query(b)] == [Query(q), Query(b)];
    AllToldAppend([Query(q), Query(b)], [Query(c)]);
  }

  lemma DiscardedLast(max: nat, listen: Conn.Event, clean: Conn.Event)
    requires listen == Conn.Executed(Stateful(Listen([65]))) && clean == Conn.Executed(Clean)
    ensures !Conn.Pinned(Conn.ApplyAll(Conn.Fresh(max), [listen, Conn.Executed(Stateful(DiscardAll)), clean, clean]))
  {
    var es := [listen, Conn.Executed(Stateful(DiscardAll)), clean, clean];
    assert es[..3][..2] == es[..2];
    assert es[..2][..1] == es[..1];
    var s1 := Conn.ApplyAll(Conn.Fresh(max), es[..1]);
    assert Conn.ApplyAll(Conn.Fresh(max), es[..1][..0]) == Conn.Fresh(max);
    assert Conn.ApplyAll(Conn.Fresh(max), es[..2]) == Conn.Cleared(s1) == Conn.Fresh(max);
    assert Conn.ApplyAll(Conn.Fresh(max), es[..3]) == Conn.Fresh(max);
  }

  lemma ListenLast(es: seq<Conn.Event>)
    requires |es| == 3 && es[0] == Conn.Executed(Stateful(Listen([65]))) && es[1] == es[2] == Conn.Executed(Clean)
    ensures Conn.Live(es, Conn.Channel([65]))
  {
    assert Conn.Acquires(es[0], Conn.Channel([65])) && !Conn.ReleasedAfter(es, 0, Conn.Channel([65]));
  }

  /** In transaction mode: the next transaction's end gives the backend back, still listening. */
  lemma UnsentDiscardReleases(cfg: Config, next: Reacquired)
    requires cfg.strategy.TransactionPooling?
    ensures var s := Run(cfg, UnsentDiscard());
            var log := Run(cfg, UnsentDiscard() + [BackendRead(ReadyForQuery(Idle), Full, next)]).log;
            var j := |s.log| + 2;
            && j < |log| && log[j].Released? && log[..j - 2] == s.log
            && OnBackend(TenureOf(cfg, s.log).turns, Conn.Channel([65]))
  {
    hide Run, TenureOf, Summarise, Completes, BackendScan.LastStatus, Conn.Pinned, Conn.ApplyAll, ReadyForQuery, UnsentDiscard,
         UnsentTurns, AllTold, OnBackend, LeavesNothing, Turns, Step;
    UnsentDiscardRuns(cfg);
    UnsentMeans(cfg.maxPrepared);
    ReadyScans(Idle);
    var es, data := UnsentDiscard(), ReadyForQuery(Idle);
    var s := Run(cfg, es);
    AppliedExactly(cfg, es);
    RunGood(cfg, es);
    RunOne(cfg, es, BackendRead(data, Full, next));
    ReleaseExactly(cfg, es, data, next);
  }

  // ---------------------------------------------------------------- a SET cut in two

  /** The header of the refused message, the rest of it, and another query. */
  function SplitSet(): (es: seq<Event>) {
    [ClientRead(Wired([SET_A])[..5], Full)] + [ClientRead(Wired([SET_A])[5..], Full)] + [ClientRead(Wired([[88]]), Full)]
  }

  lemma WiredOne(q: Bytes)
    ensures |Wired([q])| == 6 + |q|
    ensures Wired([q])[1..5] == Be32(5 + |q|)
  {
    hide Be32;
    var items := Items([q]);
    assert items == [Extractor.Known(Query(q), [])] && items[1..] == [];
    assert Extractor.ItemPayload(items[0]) == CString(q) + [];
    assert Extractor.Encoded(items) == FrameBytes(Frame(Tag(Query(q)), CString(q) + [])) + [];
  }

  /** The header of a query and too little of anything behind it: not yet a message. */
  lemma HeaderAlone(q: Bytes, more: Bytes)
    requires |q| < 100 && |more| <= |q|
    ensures var b := Wired([q])[..5] + more; Extractor.Scan(b) == Extractor.Scanned([], b, Extractor.Ok)
  {
    hide Wired, I32At;
    WiredOne(q);
    var b := Wired([q])[..5] + more;
    assert b[1..5] == Wired([q])[1..5];
    Be32RoundTrip(5 + |q|, b, 1);
  }

  lemma XMeans()
    ensures Means([88], Conn.Executed(Unknown), false)
  {
    hide Detect, KnownClean, Trim, SplitOn, NonBlank;
    Conn.XIsUnknown([88]);
    Conn.TrimFixed([88]);
    NoSeparator([88], SEMICOLON);
    Conn.OneStatement([88]);
    TextFits([88]);
  }

  /** A read with no whole message goes on to the backend. */
  lemma ReadsNothing(cfg: Config, s: Session, data: Bytes)
    requires Good(cfg, s) && At(cfg, s, Extractor.Fresh, Idle, [], [])
    requires Extractor.Scan(data) == Extractor.Scanned([], data, Extractor.Ok)
    ensures At(cfg, OnClientRead(cfg, s, data, Full), Extractor.State(data, false), Idle, [], data)
  {
    hide At, Good, OnClientRead, Extractor.Scan;
    assert [] + data == data;
    Reads(cfg, s, Extractor.Fresh, Idle, [], [], data, Extractor.State(data, false), []);
    var none: seq<Turn> := [];
    assert none + Labelled(Due(cfg, Idle, []), true) == none;
  }

  /** The rest of a message that is refused does not. */
  lemma ReadsRest(cfg: Config, s: Session, q: Bytes, e: Conn.Event)
    requires cfg.strategy.TransactionPooling? && Good(cfg, s) && Means(q, e, true) && |Wired([q])| >= 5
    requires At(cfg, s, Extractor.State(Wired([q])[..5], false), Idle, [], Wired([q])[..5])
    ensures At(cfg, OnClientRead(cfg, s, Wired([q])[5..], Full), Extractor.Fresh, Idle, [], Wired([q])[..5])
  {
    hide Means, At, Good, OnClientRead, Extractor.Scan, Wired, Calm, Judged, Extractor.Fits;
    MeansCalm(cfg, Idle, q, e, true);
    WiredExtracted([q]);
    var ms := [Query(q)];
    assert Queries([q]) == ms && Wired([q])[..5] + Wired([q])[5..] == Wired([q]);
    Reads(cfg, s, Extractor.State(Wired([q])[..5], false), Idle, [], Wired([q])[..5], Wired([q])[5..], Extractor.Fresh, ms);
    assert Suppressed(cfg, Idle, ms) by { assert Judged(cfg, Idle, ms[0]).Refused?; }
    var none: seq<Turn> := [];
    assert none + Labelled(Due(cfg, Idle, ms), false) == none;
  }

  /** In transaction mode: the backend has been forwarded the query `X` and has received no message at all, since it takes
      those bytes for the rest of the SET. */
  lemma SplitSetOutOfStep(cfg: Config)
    requires cfg.strategy.TransactionPooling?
    ensures var s := Run(cfg, SplitSet());
            var t := TenureOf(cfg, s.log);
            && s.running && SentOf(t.turns) == [Query([88])]
            && Extractor.Scan(t.written).messages == [] && !AllHarmless(cfg, s.log)
  {
    hide Means, At, Good, OnClientRead, Extractor.Scan, Wired, Run, TenureOf, AllHarmless;
    TextsMean();
    XMeans();
    WiredOne(SET_A);
    WiredOne([88]);
    HeaderAlone(SET_A, []);
    var refused :| Means(SET_A, refused, true);
    var head, rest := Wired([SET_A])[..5], Wired([SET_A])[5..];
    assert head + [] == head;
    var es: seq<Event> := [];
    AtStart(cfg);
    AfterRead(cfg, es, Extractor.Fresh, Idle, [], [], head);
    ReadsNothing(cfg, Run(cfg, es), head);
    es := es + [ClientRead(head, Full)];
    AfterRead(cfg, es, Extractor.State(head, false), Idle, [], head, rest);
    ReadsRest(cfg, Run(cfg, es), SET_A, refused);
    es := es + [ClientRead(rest, Full)];
    AfterRead(cfg, es, Extractor.Fresh, Idle, [], head, Wired([[88]]));
    ReadsOne(cfg, Run(cfg, es), Idle, [], head, [88], Conn.Executed(Unknown));
    es := es + [ClientRead(Wired([[88]]), Full)];
    assert es == SplitSet();
    HeaderAlone(SET_A, Wired([[88]]));
    OutOfStep(cfg, es, [Turn(Query([88]), true)], head + Wired([[88]]));
  }

  lemma OutOfStep(cfg: Config, es: seq<Event>, ts: seq<Turn>, b: Bytes)
    requires At(cfg, Run(cfg, es), Extractor.Fresh, Idle, [] + ts, b) && |ts| == 1 && ts[0].sent
    requires Extractor.Scan(b) == Extractor.Scanned([], b, Extractor.Ok)
    ensures var s := Run(cfg, es);
            var t := TenureOf(cfg, s.log);
            && s.running && SentOf(t.turns) == [ts[0].message]
            && Extractor.Scan(t.written).messages == [] && !AllHarmless(cfg, s.log)
  {
    hide Run, TenureOf, AllHarmless, Extractor.Scan;
    AppliedExactly(cfg, es);
    assert [] + ts == ts && ts[..0] == [];
    assert SentOf(ts) == [ts[0].message];
    if AllHarmless(cfg, Run(cfg, es).log) {
      BackendInStep(cfg, es);
    }
  }
}
