/** One client session over pooled backends, after its startup handshake: what is forwarded, what is refused, and when
    the backend is given back to the pool. */
module ManagedSession {
  import opened WireBytes
  import opened FrontendWire
  import opened Transaction
  import opened StatementCache
  import opened Recency
  import opened ModeEnforcer
  import AdminResponse
  import BackendScan
  import Conn = ConnectionState
  import Extractor

  datatype Strategy = Disabled | SessionPooling | TransactionPooling | HybridPooling

  datatype Config = Config(strategy: Strategy, timeoutEnabled: bool, maxPrepared: nat)

  function Mode(strategy: Strategy): (m: PoolingMode) {
    match strategy
    case TransactionPooling => TransactionMode
    case HybridPooling => HybridMode
    case _ => SessionMode
  }

  predicate ShouldRelease(strategy: Strategy, conn: Conn.State) {
    (strategy.TransactionPooling? || strategy.HybridPooling?) && !Conn.Pinned(conn)
  }

  // ---------------------------------------------------------------- what a session observes and does

  /** The session's input and output in order. `Processed` is a message applied to the tracker, `Marked` the unknown mark
      of a timeout; `Done` hands the backend back on exit, `Broken` drops it on an error or a panic. */
  datatype Io =
    | FromClient(data: Bytes)
    | Processed(message: Message)
    | ToBackend(data: Bytes)
    | FromBackend(data: Bytes)
    | ToClient(data: Bytes)
    | Reply(data: Bytes)
    | Marked
    | Released
    | Acquired(isNew: bool)
    | Initialised
    | Done
    | Broken

  datatype Session = Session(
    extractor: Extractor.State, conn: Conn.State, txn: TxnState, cache: Cache, armed: bool, running: bool, log: seq<Io>)

  function Start(cfg: Config): (s: Session) {
    Session(Extractor.Fresh, Conn.Fresh(cfg.maxPrepared), Idle, Empty(), false, true, [])
  }

  /** A write goes through, or fails after some bytes. */
  datatype Write = Full | Cut(n: nat)

  function Sent(data: Bytes, w: Write): (r: Bytes)
    ensures r <= data
    ensures w.Full? ==> r == data
  {
    if w.Full? || w.n >= |data| then data else data[..w.n]
  }

  /** What a reacquire yields: nothing, an initialised backend, or a new one whose startup succeeds or fails. */
  datatype Reacquired = Denied | Warm | Fresh(initialised: bool)

  datatype Event =
    | ClientRead(data: Bytes, w: Write)
    | ClientGone
    | BackendRead(data: Bytes, w: Write, next: Reacquired)
    | BackendGone
    | Deadline(w1: Write, w2: Write)

  function Logged(s: Session, io: Io): (r: Session) { s.(log := s.log + [io]) }

  function Ended(s: Session, io: Io): (r: Session) { Logged(s, io).(running := false) }

  // ---------------------------------------------------------------- client to backend

  datatype Flow = Proceed | Refuse(message: Bytes) | Hangup | Crash

  /** What a message tells the connection tracker. */
  function Told(m: Message): (es: seq<Conn.Event>) {
    match m
    case Parse(name, query, oids) => Conn.ParseEvents(name, query, oids)
    case Query(query) => Conn.QueryEvents(query)
    case Close(kind, name) => if kind == 83 then [Conn.Closed(name)] else []
    case _ => []
  }

  /** Only Parse and Query carry text for the enforcer. */
  function Judged(cfg: Config, txn: TxnState, m: Message): (v: Verdict) {
    match m
    case Parse(_, query, _) => Validate(Mode(cfg.strategy), query, InTxn(txn))
    case Query(query) => Validate(Mode(cfg.strategy), query, InTxn(txn))
    case _ => Allowed
  }

  function UnknownStatement(name: Bytes): (b: Bytes) { Ascii("[unknown: ") + name + Ascii("]") }

  function Cached(cfg: Config, c: Cache, m: Message): (r: Cache) {
    match m
    case Parse(name, query, oids) =>
      Cache(CacheInsert(c.statements, cfg.maxPrepared, name, (query, oids)), c.pending[[] := Pending(query, true)])
    case Query(query) => c.(pending := c.pending[[] := Pending(query, false)])
    case Bind(portal, statement, _, _) =>
      var (statements, found) := CacheGet(c.statements, statement);
      Cache(statements, c.pending[portal := if found.Some? then Pending(found.value.0, false)
                                            else Pending(UnknownStatement(statement), true)])
    case Close(kind, name) =>
      if kind == 83 then c.(statements := Remove(c.statements, name))
      else if kind == 80 then c.(pending := c.pending - {name})
      else c
    case _ => c
  }

  /** One message of a read; `first` says that nothing precedes it in the read. */
  function OnMessage(cfg: Config, s: Session, first: bool, m: Message): (r: (Session, Flow)) {
    match Judged(cfg, s.txn, m)
    case ValidatePanics => (s, Crash)
    case Refused(message) => (s, Refuse(message))
    case Allowed =>
      if m.Terminate? && first then (s, Hangup)
      else if Conn.Panics(Told(m)) then (s, Crash)
      else (Logged(s.(cache := Cached(cfg, s.cache, m), conn := Conn.ApplyAll(s.conn, Told(m))), Processed(m)), Proceed)
  }

  /** The messages of a read from `i` on, up to the first that does not let the rest proceed. */
  function OnMessages(cfg: Config, s: Session, ms: seq<Message>, i: nat): (r: (Session, Flow))
    requires i <= |ms|
    decreases |ms| - i
  {
    if i == |ms| then (s, Proceed)
    else
      var (s', f) := OnMessage(cfg, s, i == 0, ms[i]);
      if f.Proceed? then OnMessages(cfg, s', ms, i + 1) else (s', f)
  }

  function Arm(cfg: Config, s: Session): (r: Session) {
    if cfg.timeoutEnabled && [] in s.cache.pending then s.(armed := true) else s
  }

  function Written(cfg: Config, s: Session, io: Io, w: Write): (r: Session) {
    if w.Full? then Arm(cfg, Logged(s, io)) else Ended(Logged(s, io), Broken)
  }

  function Rejection(message: Bytes, txn: TxnState): (b: Bytes) { Refusal(message) + ReadyForQuery(txn) }

  function OnClientRead(cfg: Config, s: Session, data: Bytes, w: Write): (r: Session) {
    var s0 := Logged(s, FromClient(data));
    var (x, ms) := Extractor.Extract(s.extractor, data);
    if ms.None? then Ended(s0, Broken)
    else
      var (s', flow) := OnMessages(cfg, s0.(extractor := x), ms.value, 0);
      match flow
      case Proceed => Written(cfg, s', ToBackend(Sent(data, w)), w)
      case Refuse(message) => Written(cfg, s', Reply(Sent(Rejection(message, s'.txn), w)), w)
      case Hangup => Ended(s', Done)
      case Crash => Ended(s', Broken)
  }

  // ---------------------------------------------------------------- backend to client

  /** Whether the read completes the pending execution, with an error or without. */
  function Completes(data: Bytes): (r: BackendScan.Scan<bool>) {
    match BackendScan.FindError(data)
    case Overflow => BackendScan.Overflow
    case Value(fields) =>
      if fields.Some? && BackendScan.FullError(fields.value).Some? then BackendScan.Value(true)
      else BackendScan.HasCompletion(data, 0)
  }

  function Settled(cfg: Config, s: Session, completes: bool): (r: Session) {
    var pending := if completes then s.cache.pending - {[]} else s.cache.pending;
    s.(cache := s.cache.(pending := pending), armed := s.armed && !(cfg.timeoutEnabled && [] !in pending))
  }

  function TxnAfter(txn: TxnState, status: Option<byte>): (r: TxnState) {
    if status.Some? then Update(txn, status.value) else txn
  }

  function Swapped(s: Session, next: Reacquired): (r: Session) {
    var s' := Logged(s, Released);
    match next
    case Denied => Ended(s', Broken)
    case Warm => Logged(s', Acquired(false))
    case Fresh(initialised) =>
      if initialised then Logged(Logged(s', Acquired(true)), Initialised) else Ended(Logged(s', Acquired(true)), Broken)
  }

  function OnBackendRead(cfg: Config, s: Session, data: Bytes, w: Write, next: Reacquired): (r: Session) {
    var s0 := Logged(s, FromBackend(data));
    match Completes(data)
    case Overflow => Ended(s0, Broken)
    case Value(completes) =>
      match BackendScan.LastStatus(data, 0, None)
      case Overflow => Ended(s0, Broken)
      case Value(status) =>
        var s1 := Settled(cfg, s0, completes).(txn := TxnAfter(s.txn, status));
        var s2 := Logged(s1, ToClient(Sent(data, w)));
        if w.Cut? then Ended(s2, Broken)
        else if InTxn(s.txn) && s1.txn.Idle? && ShouldRelease(cfg.strategy, s.conn) then Swapped(s2, next)
        else s2
  }

  function Cancellation(): (b: Bytes) {
    AdminResponse.BuildErrorResponse(Ascii("ERROR"), Ascii("57014"), Ascii("canceling statement due to query timeout"))
  }

  /** Failed writes of the two replies are ignored. */
  function OnDeadline(cfg: Config, s: Session, w1: Write, w2: Write): (r: Session) {
    if !cfg.timeoutEnabled || !s.armed then s
    else
      var s1 := Logged(s.(conn := s.conn.(unknown := true)), Marked);
      Ended(Logged(Logged(s1, Reply(Sent(Cancellation(), w1))), Reply(Sent(ReadyForQuery(s.txn), w2))), Done)
  }

  function Step(cfg: Config, s: Session, e: Event): (r: Session) {
    if !s.running then s
    else match e
      case ClientRead(data, w) => OnClientRead(cfg, s, data, w)
      case BackendRead(data, w, next) => OnBackendRead(cfg, s, data, w, next)
      case Deadline(w1, w2) => OnDeadline(cfg, s, w1, w2)
      case _ => Ended(s, Done)
  }

  function Run(cfg: Config, events: seq<Event>): (s: Session) {
    if events == [] then Start(cfg) else Step(cfg, Run(cfg, events[..|events| - 1]), events[|events| - 1])
  }
}
