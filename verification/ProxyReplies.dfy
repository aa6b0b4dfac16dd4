/** What the proxy itself answers, and to what: refusals of the enforcer and cancelled queries. */
module ProxyReplies {
  import opened WireBytes
  import opened FrontendWire
  import opened Transaction
  import opened ModeEnforcer
  import opened CommandDetector
  import opened ManagedSession
  import opened ManagedRuns
  import opened PendingExecutions
  import AdminResponse
  import BackendScan
  import Conn = ConnectionState
  import Extractor

  // ---------------------------------------------------------------- how they read

  /** An error followed by a ReadyForQuery reads as that error and that status, and completes the query. */
  ghost predicate ReadsAs(b: Bytes, code: string, message: Bytes, status: byte) {
    && BackendScan.FindError(b) ==
         BackendScan.Value(Some(BackendScan.ErrorFields(Some(Ascii("ERROR")), Some(Ascii(code)), Some(message))))
    && BackendScan.LastStatus(b, 0, None) == BackendScan.Value(Some(status))
  }

  lemma ErrorThenReady(code: string, message: Bytes, txn: TxnState)
    requires Text(Ascii(code)) && Text(message) && |code| + |message| < 1000
    ensures ReadsAs(AdminResponse.BuildErrorResponse(Ascii("ERROR"), Ascii(code), message) + ReadyForQuery(txn), code, message,
                    StatusByte(txn))
  {
    hide BackendScan.FindError, BackendScan.LastStatus, FrameBytes, Utf8, ReadyForQuery, Ascii;
    var severity := Ascii("ERROR");
    assert |severity| == 5 && |Ascii(code)| == |code| by { AsciiSize("ERROR"); AsciiSize(code); }
    var f := Frame(BackendScan.ERROR_RESPONSE, AdminResponse.ErrorPayload(severity, Ascii(code), message));
    AdminResponse.AdminCodesAreText();
    AdminResponse.ErrorRoundTrip(severity, Ascii(code), message, ReadyForQuery(txn));
    AdminResponse.OneFrame(f);
    ReadyRestores(txn, txn, [f]);
  }

  lemma AsciiSize(t: string)
    ensures |Ascii(t)| == |t|
  {
  }

  lemma CodesAreText()
    ensures Text(Ascii("0A000")) && Text(Ascii("57014"))
  {
    hide Utf8;
    AsciiIsUtf8(Ascii("0A000"));
    AsciiIsUtf8(Ascii("57014"));
  }

  /** A refusal reads as ERROR 0A000 with its message, and its ReadyForQuery says the transaction is where it was. */
  lemma RejectionReads(message: Bytes, txn: TxnState)
    requires Text(message) && |message| < 900
    ensures ReadsAs(Rejection(message, txn), "0A000", message, StatusByte(txn))
  {
    hide AdminResponse.BuildErrorResponse, ReadyForQuery, ReadsAs, Ascii, Utf8;
    CodesAreText();
    ErrorThenReady("0A000", message, txn);
  }

  /** A cancelled query reads as ERROR 57014 and the status of the transaction. */
  lemma CancellationReads(txn: TxnState)
    ensures ReadsAs(Cancellation() + ReadyForQuery(txn), "57014", Ascii("canceling statement due to query timeout"),
                    StatusByte(txn))
  {
    hide AdminResponse.BuildErrorResponse, ReadyForQuery, ReadsAs, Utf8;
    var t := "canceling statement due to query timeout";
    CodesAreText();
    TimeoutIsText();
    AsciiSize(t);
    hide Ascii;
    ErrorThenReady("57014", Ascii(t), txn);
  }

  lemma TimeoutIsText()
    ensures Text(Ascii("canceling statement due to query timeout"))
  {
    var t := "canceling statement due to query timeout";
    assert forall i | 0 <= i < |t| :: ' ' <= t[i] <= 'z';
    PlainText(t);
  }

  lemma PlainText(t: string)
    requires forall i | 0 <= i < |t| :: ' ' <= t[i] <= 'z'
    ensures Text(Ascii(t))
  {
    hide Utf8;
    AsciiIsUtf8(Ascii(t));
  }

  // ---------------------------------------------------------------- what is refused, and with which words

  /** Which words a refusal uses for the resource a statement would create. */
  lemma RefusalNames(sql: Bytes, inTransaction: bool, r: Conn.Resource)
    requires Forbidden(Classify(sql), r, inTransaction)
    ensures Validate(TransactionMode, sql, inTransaction) == Refused(Ascii(
              if r.Variable? then "session variables not supported in transaction pooling mode"
              else if r.TempTable? then "temporary tables not supported in transaction pooling mode"
              else if r.Cursor? then "cursors WITH HOLD not supported in transaction pooling mode"
              else "advisory locks not supported in transaction pooling mode"))
  {
    hide Detect, KnownClean, Ascii;
  }

  /** The text a message carries for the enforcer: that of a Query, and just so that of a Parse. */
  function TextOf(m: Message): (t: Option<Bytes>) {
    match m
    case Parse(_, query, _) => Some(query)
    case Query(query) => Some(query)
    case _ => None
  }

  ghost predicate CreatesForbidden(c: Class, inTransaction: bool) {
    c == Stateful(AdvisoryLock(None)) || exists r :: Forbidden(c, r, inTransaction)
  }

  /** A message is refused exactly under transaction pooling, for the text of a Parse or a Query that would create a session
      variable outside a transaction, a temporary table, a held cursor or an advisory lock. */
  lemma JudgedExactly(cfg: Config, txn: TxnState, m: Message)
    ensures Judged(cfg, txn, m).Refused? <==>
            && cfg.strategy.TransactionPooling? && TextOf(m).Some?
            && CreatesForbidden(Classify(TextOf(m).value), txn != Idle)
    ensures TextOf(m).None? ==> Judged(cfg, txn, m) == Allowed
    ensures TextOf(m).Some? ==> Judged(cfg, txn, m) == Validate(Mode(cfg.strategy), TextOf(m).value, txn != Idle)
  {
    hide Classify, Validate, Forbidden;
    if TextOf(m).Some? {
      RefusedExactly(Mode(cfg.strategy), TextOf(m).value, txn != Idle);
    }
  }

  // ---------------------------------------------------------------- on every run

  /** Message `k` is the first the enforcer refuses, and none before it stops the read. */
  ghost predicate FirstRefused(cfg: Config, txn: TxnState, ms: seq<Message>, k: nat) {
    && k < |ms| && Judged(cfg, txn, ms[k]).Refused?
    && forall j | 0 <= j < k ::
         Judged(cfg, txn, ms[j]) == Allowed && !(j == 0 && ms[j].Terminate?) && !Conn.Panics(Told(ms[j]))
  }

  lemma {:induction false} FlowRefuses(cfg: Config, s: Session, ms: seq<Message>, i: nat, k: nat)
    requires i <= k && FirstRefused(cfg, s.txn, ms, k)
    ensures var (s', f) := OnMessages(cfg, s, ms, i);
            f == Refuse(Judged(cfg, s.txn, ms[k]).message) && s'.txn == s.txn && s'.running == s.running
    decreases k - i
  {
    hide Judged, Told, Conn.Panics, Conn.ApplyAll, Cached;
    if i < k {
      FlowRefuses(cfg, OnMessage(cfg, s, i == 0, ms[i]).0, ms, i + 1, k);
    }
  }

  /** On every run a client read with a refused message is answered with the refusal of the first one, in the state of the
      transaction the log says, and the session goes on; nothing of the read is written to the backend. */
  lemma RefusedAnswered(cfg: Config, events: seq<Event>, data: Bytes, k: nat)
    requires Run(cfg, events).running
    requires var o := Summarise(cfg, Run(cfg, events).log);
             var (_, ms) := Extractor.Extract(o.extractor, data);
             ms.Some? && FirstRefused(cfg, o.txn, ms.value, k)
    ensures var s := Run(cfg, events);
            var o := Summarise(cfg, s.log);
            var m := Extractor.Extract(o.extractor, data).1.value[k];
            var s' := Step(cfg, s, ClientRead(data, Full));
            && s'.running && s'.log != []
            && s'.log[|s'.log| - 1] == Reply(Rejection(Judged(cfg, o.txn, m).message, o.txn))
            && Summarise(cfg, s'.log).toBackend == o.toBackend
  {
    hide Run, Summarise, Extractor.Extract, OnMessages, Rejection, FirstRefused, Judged;
    RunGood(cfg, events);
    var s := Run(cfg, events);
    var (x, ms) := Extractor.Extract(s.extractor, data);
    var s1 := Logged(s, FromClient(data)).(extractor := x);
    FlowRefuses(cfg, s1, ms.value, 0, k);
    SummariseOne(cfg, s.log, FromClient(data));
    MessagesWire(cfg, s1, ms.value, 0);
    var (s2, f) := OnMessages(cfg, s1, ms.value, 0);
    SummariseOne(cfg, s2.log, Reply(Rejection(f.message, s2.txn)));
  }

  lemma {:induction false} MessagesWire(cfg: Config, s: Session, ms: seq<Message>, i: nat)
    requires i <= |ms|
    ensures Seen(cfg, OnMessages(cfg, s, ms, i).0).toBackend == Seen(cfg, s).toBackend
    decreases |ms| - i
  {
    hide OnMessage, Summarise;
    if i < |ms| {
      MessageFlow(cfg, s, i == 0, ms[i]);
      SummariseOne(cfg, s.log, Processed(ms[i]));
      MessagesWire(cfg, OnMessage(cfg, s, i == 0, ms[i]).0, ms, i + 1);
    }
  }

  /** On every run a deadline that is set marks the connection, answers with the cancellation and the state of the
      transaction the log says, and hands the backend back. */
  lemma DeadlineAnswers(cfg: Config, events: seq<Event>)
    requires Run(cfg, events).running && cfg.timeoutEnabled && DeadlineSet(Run(cfg, events).log)
    ensures var s := Run(cfg, events);
            var s' := Step(cfg, s, Deadline(Full, Full));
            && s'.log == s.log + [Marked, Reply(Cancellation()), Reply(ReadyForQuery(Summarise(cfg, s.log).txn)), Done]
            && !s'.running && Conn.Pinned(s'.conn)
  {
    hide Run, Summarise, Cancellation, DeadlineSet, ReadyForQuery;
    ArmedExactly(cfg, events);
    RunGood(cfg, events);
  }

  // ---------------------------------------------------------------- how a session ends

  /** The event takes leave: the client or the backend is gone, the client's read begins with a Terminate, or a deadline that
      is set passes. */
  ghost predicate TakesLeave(cfg: Config, log: seq<Io>, e: Event) {
    match e
    case ClientGone => true
    case BackendGone => true
    case Deadline(_, _) => cfg.timeoutEnabled && DeadlineSet(log)
    case ClientRead(data, _) =>
      var (_, ms) := Extractor.Extract(Summarise(cfg, log).extractor, data);
      ms.Some? && ms.value != [] && ms.value[0].Terminate?
    case BackendRead(_, _, _) => false
  }

  /** On every run: an event that takes leave ends the session with its backend handed back, and any other that ends it drops
      the backend. */
  lemma EndsExactly(cfg: Config, events: seq<Event>, e: Event)
    requires Run(cfg, events).running
    ensures var s := Run(cfg, events);
            var s' := Step(cfg, s, e);
            && (TakesLeave(cfg, s.log, e) <==> !s'.running && s'.log != [] && s'.log[|s'.log| - 1] == Done)
            && (!s'.running && !TakesLeave(cfg, s.log, e) ==> s'.log != [] && s'.log[|s'.log| - 1] == Broken)
  {
    hide Run, Summarise, DeadlineSet, OnClientRead, OnBackendRead, OnDeadline, Extractor.Extract;
    RunGood(cfg, events);
    ArmedExactly(cfg, events);
    var s := Run(cfg, events);
    match e
    case ClientRead(data, w) => ClientReadEnds(cfg, s, data, w);
    case BackendRead(data, w, next) => BackendReadEnds(cfg, s, data, w, next);
    case Deadline(w1, w2) =>
      DeadlineStops(cfg, s, w1, w2);
      if cfg.timeoutEnabled && s.armed {
        DeadlineDone(cfg, s, w1, w2);
      }
    case _ =>
  }

  lemma DeadlineDone(cfg: Config, s: Session, w1: Write, w2: Write)
    requires cfg.timeoutEnabled && s.armed
    ensures var s' := OnDeadline(cfg, s, w1, w2); s'.log != [] && s'.log[|s'.log| - 1] == Done
  {
    hide Cancellation, ReadyForQuery;
  }

  lemma ClientReadEnds(cfg: Config, s: Session, data: Bytes, w: Write)
    requires s.running
    ensures var s' := OnClientRead(cfg, s, data, w);
            var (_, ms) := Extractor.Extract(s.extractor, data);
            if ms.Some? && ms.value != [] && ms.value[0].Terminate? then
              !s'.running && s'.log != [] && s'.log[|s'.log| - 1] == Done
            else !s'.running ==> s'.log != [] && s'.log[|s'.log| - 1] == Broken
  {
    hide Extractor.Extract, OnMessages, Rejection;
    var (x, ms) := Extractor.Extract(s.extractor, data);
    if ms.Some? {
      var s1 := Logged(s, FromClient(data)).(extractor := x);
      FlowMeaning(cfg, s1, ms.value, 0);
      MessagesRun(cfg, s1, ms.value, 0);
    }
  }

  lemma {:induction false} MessagesRun(cfg: Config, s: Session, ms: seq<Message>, i: nat)
    requires i <= |ms|
    ensures OnMessages(cfg, s, ms, i).0.running == s.running
    decreases |ms| - i
  {
    hide Judged, Told, Conn.Panics, Conn.ApplyAll, Cached;
    if i < |ms| {
      MessagesRun(cfg, OnMessage(cfg, s, i == 0, ms[i]).0, ms, i + 1);
    }
  }

  lemma BackendReadEnds(cfg: Config, s: Session, data: Bytes, w: Write, next: Reacquired)
    requires s.running
    ensures var s' := OnBackendRead(cfg, s, data, w, next);
            !s'.running ==> s'.log != [] && s'.log[|s'.log| - 1] == Broken
  {
    hide Completes, BackendScan.LastStatus, ShouldRelease;
  }
}
