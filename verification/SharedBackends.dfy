/** Many sessions sharing pooled backends: every interleaving of their reads and writes, seen from each backend. */
module SharedBackends {
  import opened WireBytes
  import opened ManagedSession
  import opened ManagedRuns

  type Client = nat
  type Backend = nat

  /** What a backend is sent: a client's StartupMessage, the pool's health check and DISCARD ALL, or client bytes. The
      other two mark that its startup response was recorded, or that its startup was given up. */
  datatype Wire = Startup(c: Client) | Recorded | Abandoned | Reset | Forward(c: Client, data: Bytes)

  /** How far a session's handshake has come; `Handshaking(true)`: the StartupMessage has been sent. */
  datatype Phase = Handshaking(sent: bool) | Serving | Gone

  /** One client: the log of its session so far, and the backend it holds. */
  datatype Tenant = Tenant(phase: Phase, log: seq<Io>, seat: Option<Backend>)

  datatype System = System(wires: map<Backend, seq<Wire>>, idle: set<Backend>, tenants: map<Client, Tenant>)

  const EMPTY := System(map[], {}, map[])

  predicate HasRecorded(w: seq<Wire>) { Recorded in w }

  // ---------------------------------------------------------------- steps

  datatype Step =
    | Connect(c: Client, b: Backend)
    | SendStartup(c: Client)
    | HandshakeDone(c: Client)
    | HandshakeFailed(c: Client)
    | Emit(c: Client, io: Io, b: Backend)
    | Destroy(b: Backend)

  /** The session can behave like this. */
  ghost predicate Possible(cfg: Config, log: seq<Io>) {
    exists events :: log <= Run(cfg, events).log
  }

  /** An idle backend, or one that does not exist yet. */
  predicate Poolable(s: System, b: Backend) {
    b in s.idle || b !in s.wires
  }

  /** Taken from the pool: reset if it was idle, new otherwise. */
  function WireTaken(s: System, b: Backend): (w: seq<Wire>) {
    if b in s.wires then s.wires[b] + [Reset] else []
  }

  predicate SeatRecorded(s: System, t: Tenant) {
    t.seat.Some? && t.seat.value in s.wires && HasRecorded(s.wires[t.seat.value])
  }

  function Write(s: System, seat: Option<Backend>, x: Wire): (r: System) {
    if seat.Some? && seat.value in s.wires then s.(wires := s.wires[seat.value := s.wires[seat.value] + [x]]) else s
  }

  function Freed(s: System, seat: Option<Backend>): (r: System) {
    if seat.Some? then s.(idle := s.idle + {seat.value}) else s
  }

  function Seated(s: System, c: Client, t: Tenant): (r: System) {
    s.(tenants := s.tenants[c := t])
  }

  function Taken(s: System, b: Backend): (r: System) {
    s.(wires := s.wires[b := WireTaken(s, b)], idle := s.idle - {b})
  }

  /** A fresh backend is initialised and a recorded one is not: the branch on the recorded startup response. */
  ghost predicate Enabled(cfg: Config, s: System, step: Step) {
    match step
    case Connect(c, b) => c !in s.tenants && Poolable(s, b)
    case SendStartup(c) => c in s.tenants && s.tenants[c].phase == Handshaking(false) && !SeatRecorded(s, s.tenants[c])
    case HandshakeDone(c) =>
      c in s.tenants && s.tenants[c].phase.Handshaking? && (s.tenants[c].phase.sent || SeatRecorded(s, s.tenants[c]))
    case HandshakeFailed(c) => c in s.tenants && s.tenants[c].phase.Handshaking?
    case Emit(c, io, b) =>
      && c in s.tenants && s.tenants[c].phase.Serving?
      && Possible(cfg, s.tenants[c].log + [io])
      && (io.Acquired? ==> Poolable(s, b) && io.isNew == !HasRecorded(WireTaken(s, b)))
    case Destroy(b) => b in s.idle
  }

  /** The session is initialising a new backend. */
  predicate Initialising(log: seq<Io>) {
    log != [] && log[|log| - 1] == Acquired(true)
  }

  function Emitted(s: System, c: Client, t: Tenant, io: Io, b: Backend): (r: System) {
    var t' := t.(log := t.log + [io]);
    match io
    case ToBackend(data) => Seated(Write(s, t.seat, Forward(c, data)), c, t')
    case Released => Seated(Freed(s, t.seat), c, t'.(seat := None))
    case Acquired(isNew) =>
      var s' := Taken(s, b);
      Seated(if isNew then Write(s', Some(b), Startup(c)) else s', c, t'.(seat := Some(b)))
    case Initialised => Seated(Write(s, t.seat, Recorded), c, t')
    case Done => Seated(Freed(s, t.seat), c, Tenant(Gone, t'.log, None))
    case Broken =>
      var s' := if Initialising(t.log) then Write(s, t.seat, Abandoned) else s;
      Seated(Freed(s', t.seat), c, Tenant(Gone, t'.log, None))
    case _ => Seated(s, c, t')
  }

  ghost function Next(cfg: Config, s: System, step: Step): (r: System)
    requires Enabled(cfg, s, step)
  {
    match step
    case Connect(c, b) => Seated(Taken(s, b), c, Tenant(Handshaking(false), [], Some(b)))
    case SendStartup(c) =>
      var t := s.tenants[c];
      Seated(Write(s, t.seat, Startup(c)), c, t.(phase := Handshaking(true)))
    case HandshakeDone(c) =>
      var t := s.tenants[c];
      Seated(if t.phase.sent then Write(s, t.seat, Recorded) else s, c, t.(phase := Serving))
    case HandshakeFailed(c) =>
      var t := s.tenants[c];
      var s' := if t.phase.sent then Write(s, t.seat, Abandoned) else s;
      Seated(Freed(s', t.seat), c, Tenant(Gone, [], None))
    case Emit(c, io, b) => Emitted(s, c, s.tenants[c], io, b)
    case Destroy(b) => s.(idle := s.idle - {b})
  }

  // ---------------------------------------------------------------- what every backend sees

  /** Reset somewhere after position `i`. */
  predicate ResetAfter(w: seq<Wire>, i: nat) {
    exists j | i < j < |w| :: w[j].Reset?
  }

  predicate HasStartup(w: seq<Wire>) { exists i | 0 <= i < |w| :: w[i].Startup? }

  predicate AbandonedAfter(w: seq<Wire>, i: nat) {
    exists j | i < j < |w| :: w[j].Abandoned?
  }

  /** Client bytes only once the startup response is recorded; no StartupMessage after that, and a second one only after
      the first startup was given up; nothing given up that was not begun; a reset between the bytes of two clients. */
  predicate WireOk(w: seq<Wire>) {
    && (forall k | 0 <= k < |w| && w[k].Abandoned? :: HasStartup(w[..k]))
    && (forall k | 0 <= k < |w| && w[k].Forward? :: Recorded in w[..k])
    && (forall k | 0 <= k < |w| && (w[k].Startup? || w[k].Recorded?) :: Recorded !in w[..k])
    && (forall i, k | 0 <= i < k < |w| && w[i].Startup? && w[k].Startup? :: AbandonedAfter(w[..k], i))
    && (forall i, k | 0 <= i < k < |w| && w[i].Forward? && w[k].Forward? && w[i].c != w[k].c :: ResetAfter(w[..k], i))
  }

  /** Since the last reset only `c` has written. */
  predicate TenureOf(w: seq<Wire>, c: Client) {
    forall i | 0 <= i < |w| && w[i].Forward? :: w[i].c == c || ResetAfter(w, i)
  }

  /** No startup under way: recorded, or every one given up. */
  predicate Quiescent(w: seq<Wire>) {
    HasRecorded(w) || forall i | 0 <= i < |w| && w[i].Startup? :: AbandonedAfter(w, i)
  }

  lemma AfterStays(w: seq<Wire>, x: Wire, i: nat)
    ensures ResetAfter(w, i) ==> ResetAfter(w + [x], i)
    ensures AbandonedAfter(w, i) ==> AbandonedAfter(w + [x], i)
  {
    var w' := w + [x];
    assert forall j | 0 <= j < |w| :: w'[j] == w[j];
  }

  lemma WireAppend(w: seq<Wire>, x: Wire)
    requires WireOk(w)
    requires x.Forward? ==> Recorded in w && TenureOf(w, x.c)
    requires x.Startup? ==> Recorded !in w && Quiescent(w)
    requires x.Recorded? ==> Recorded !in w
    requires x.Abandoned? ==> HasStartup(w)
    ensures WireOk(w + [x])
  {
    var w' := w + [x];
    assert forall k | 0 <= k < |w| :: w'[k] == w[k] && w'[..k] == w[..k];
    assert w'[..|w|] == w;
  }

  lemma TenureAppend(w: seq<Wire>, x: Wire, c: Client)
    requires TenureOf(w, c) && (x.Forward? ==> x.c == c)
    ensures TenureOf(w + [x], c)
    ensures HasRecorded(w + [x]) == (HasRecorded(w) || x.Recorded?)
    ensures x.Startup? ==> HasStartup(w + [x])
  {
    assert (w + [x])[|w|] == x;
    var w' := w + [x];
    forall i | 0 <= i < |w'| && w'[i].Forward?
      ensures w'[i].c == c || ResetAfter(w', i)
    {
      if i < |w| {
        AfterStays(w, x, i);
      }
    }
  }

  lemma QuiescentAppend(w: seq<Wire>, x: Wire)
    requires x.Abandoned? || (x.Reset? && Quiescent(w))
    ensures Quiescent(w + [x])
    ensures HasRecorded(w + [x]) == HasRecorded(w)
  {
    var w' := w + [x];
    forall i | 0 <= i < |w'| && w'[i].Startup?
      ensures HasRecorded(w') || AbandonedAfter(w', i)
    {
      AfterStays(w, x, i);
      assert w'[|w|] == x;
    }
  }

  /** The pool's reset starts a tenure for anybody. */
  lemma TakenOk(s: System, b: Backend, c: Client)
    requires b in s.wires ==> WireOk(s.wires[b]) && Quiescent(s.wires[b])
    ensures var w := WireTaken(s, b); WireOk(w) && TenureOf(w, c) && Quiescent(w)
  {
    if b in s.wires {
      var w := s.wires[b];
      WireAppend(w, Reset);
      QuiescentAppend(w, Reset);
      assert (w + [Reset])[|w|].Reset?;
    }
  }

  // ---------------------------------------------------------------- the invariant

  /** What a tenant's seat is like, by how far its session has come. */
  predicate SeatOk(s: System, c: Client, t: Tenant) {
    if t.phase.Gone? || (t.phase.Serving? && t.log != [] && t.log[|t.log| - 1].Released?) then t.seat.None?
    else
      && t.seat.Some? && t.seat.value in s.wires && t.seat.value !in s.idle
      && var w := s.wires[t.seat.value];
      && TenureOf(w, c)
      && match t.phase
         case Handshaking(sent) => t.log == [] && if sent then !HasRecorded(w) && HasStartup(w) else Quiescent(w)
         case Serving => HasRecorded(w) == !Initialising(t.log) && (Initialising(t.log) ==> HasStartup(w))
         case Gone => true
  }

  predicate Sound(s: System) {
    && s.idle <= s.wires.Keys
    && (forall b | b in s.wires :: WireOk(s.wires[b]))
    && (forall b | b in s.idle :: Quiescent(s.wires[b]))
    && (forall c | c in s.tenants :: SeatOk(s, c, s.tenants[c]))
    && (forall c, d | c in s.tenants && d in s.tenants && c != d ::
          s.tenants[c].seat.Some? ==> s.tenants[c].seat != s.tenants[d].seat)
  }

  /** A tenant that keeps, writes to or gives up its own seat does not touch the others. */
  lemma OwnSeat(s: System, c: Client, t: Tenant, s': System)
    requires Sound(s) && c in s.tenants && s.tenants[c].seat.Some?
    requires var b := s.tenants[c].seat.value;
             && b in s.wires && s'.tenants == s.tenants[c := t]
             && s'.wires.Keys == s.wires.Keys && (forall o | o in s.wires && o != b :: s'.wires[o] == s.wires[o])
             && WireOk(s'.wires[b])
             && (t.seat == Some(b) ==> s'.idle == s.idle)
             && (t.seat == None ==> s'.idle == s.idle + {b} && Quiescent(s'.wires[b]))
             && (t.seat == Some(b) || t.seat == None)
             && SeatOk(s', c, t)
    ensures Sound(s')
  {
    forall d | d in s'.tenants
      ensures SeatOk(s', d, s'.tenants[d])
    {
      if d != c {
        assert SeatOk(s, d, s.tenants[d]);
      }
    }
  }

  /** A tenant without a seat, or a new one, that takes one from the pool. */
  lemma NewSeat(s: System, c: Client, t: Tenant, b: Backend, s': System)
    requires Sound(s) && (c in s.tenants ==> s.tenants[c].seat.None?) && Poolable(s, b)
    requires s'.tenants == s.tenants[c := t] && t.seat == Some(b)
    requires s'.wires.Keys == s.wires.Keys + {b} && (forall o | o in s.wires && o != b :: s'.wires[o] == s.wires[o])
    requires s'.idle == s.idle - {b} && WireOk(s'.wires[b]) && SeatOk(s', c, t)
    ensures Sound(s')
  {
    forall d | d in s'.tenants
      ensures SeatOk(s', d, s'.tenants[d])
    {
      if d != c {
        assert SeatOk(s, d, s.tenants[d]);
      }
    }
  }

  /** A session's next entry is one its log allows. */
  lemma PossibleFollows(cfg: Config, log: seq<Io>, io: Io)
    requires Possible(cfg, log + [io])
    ensures Follows(cfg, log, io)
  {
    hide Run, Follows;
    var events :| log + [io] <= Run(cfg, events).log;
    RunTidy(cfg, events);
    var whole := Run(cfg, events).log;
    assert Follows(cfg, whole[..|log|], whole[|log|]);
    assert whole[..|log|] == log && whole[|log|] == io;
  }

  lemma ConnectSound(s: System, c: Client, b: Backend)
    requires Sound(s) && c !in s.tenants && Poolable(s, b)
    ensures Sound(Seated(Taken(s, b), c, Tenant(Handshaking(false), [], Some(b))))
  {
    hide WireOk, TenureOf, Quiescent, HasStartup, HasRecorded, WireTaken;
    TakenOk(s, b, c);
    var t := Tenant(Handshaking(false), [], Some(b));
    NewSeat(s, c, t, b, Seated(Taken(s, b), c, t));
  }

  lemma HandshakeSound(cfg: Config, s: System, step: Step)
    requires Sound(s) && Enabled(cfg, s, step) && (step.SendStartup? || step.HandshakeDone? || step.HandshakeFailed?)
    ensures Sound(Next(cfg, s, step))
  {
    hide WireOk, TenureOf, Quiescent, HasStartup, HasRecorded;
    var c := step.c;
    var t := s.tenants[c];
    assert SeatOk(s, c, t);
    var w, s' := s.wires[t.seat.value], Next(cfg, s, step);
    match step {
      case SendStartup(_) =>
        RecordedMeans(w);
        WireAppend(w, Startup(c));
        TenureAppend(w, Startup(c), c);
      case HandshakeDone(_) =>
        if t.phase.sent {
          RecordedMeans(w);
          WireAppend(w, Recorded);
          TenureAppend(w, Recorded, c);
        }
      case HandshakeFailed(_) =>
        if t.phase.sent {
          WireAppend(w, Abandoned);
          QuiescentAppend(w, Abandoned);
        }
    }
    OwnSeat(s, c, s'.tenants[c], s');
  }

  lemma RecordedMeans(w: seq<Wire>)
    ensures HasRecorded(w) <==> Recorded in w
    ensures HasRecorded(w) ==> Quiescent(w)
  {
  }

  /** Entries that write to the session's own backend. */
  lemma EmitWrites(s: System, c: Client, io: Io, b: Backend)
    requires Sound(s) && c in s.tenants && s.tenants[c].phase.Serving? && s.tenants[c].seat.Some?
    requires io.ToBackend? ==> !Initialising(s.tenants[c].log)
    requires io.Initialised? ==> Initialising(s.tenants[c].log)
    requires io.ToBackend? || io.Initialised?
    ensures Sound(Emitted(s, c, s.tenants[c], io, b))
  {
    hide WireOk, TenureOf, Quiescent, HasStartup, HasRecorded;
    var t := s.tenants[c];
    assert SeatOk(s, c, t);
    var w, s' := s.wires[t.seat.value], Emitted(s, c, t, io, b);
    var x := if io.ToBackend? then Forward(c, io.data) else Recorded;
    RecordedMeans(w);
    WireAppend(w, x);
    TenureAppend(w, x, c);
    OwnSeat(s, c, s'.tenants[c], s');
  }

  /** Entries that give the session's backend back, or end a session that has none. */
  lemma EmitLeaves(s: System, c: Client, io: Io, b: Backend)
    requires Sound(s) && c in s.tenants && s.tenants[c].phase.Serving?
    requires io.Released? ==> s.tenants[c].seat.Some?
    requires !io.Broken? ==> !Initialising(s.tenants[c].log)
    requires io.Released? || io.Done? || io.Broken?
    ensures Sound(Emitted(s, c, s.tenants[c], io, b))
  {
    hide WireOk, TenureOf, Quiescent, HasStartup, HasRecorded;
    var t := s.tenants[c];
    assert SeatOk(s, c, t);
    var s' := Emitted(s, c, t, io, b);
    if t.seat.Some? {
      var w := s.wires[t.seat.value];
      RecordedMeans(w);
      if Initialising(t.log) {
        WireAppend(w, Abandoned);
        QuiescentAppend(w, Abandoned);
      }
      OwnSeat(s, c, s'.tenants[c], s');
    } else {
      NoSeat(s, c, s'.tenants[c], s');
    }
  }

  lemma EmitAcquires(s: System, c: Client, isNew: bool, b: Backend)
    requires Sound(s) && c in s.tenants && s.tenants[c].phase.Serving? && s.tenants[c].seat.None?
    requires Poolable(s, b) && isNew == !HasRecorded(WireTaken(s, b))
    ensures Sound(Emitted(s, c, s.tenants[c], Acquired(isNew), b))
  {
    hide WireOk, TenureOf, Quiescent, HasStartup, HasRecorded, WireTaken;
    TakenOk(s, b, c);
    var t, w := s.tenants[c], WireTaken(s, b);
    var s' := Emitted(s, c, t, Acquired(isNew), b);
    if isNew {
      RecordedMeans(w);
      WireAppend(w, Startup(c));
      TenureAppend(w, Startup(c), c);
    }
    NewSeat(s, c, s'.tenants[c], b, s');
  }

  /** Only the tenant's own record changes. */
  lemma NoSeat(s: System, c: Client, t: Tenant, s': System)
    requires Sound(s) && c in s.tenants && s' == s.(tenants := s.tenants[c := t])
    requires t.seat == s.tenants[c].seat && SeatOk(s, c, t)
    ensures Sound(s')
  {
    forall d | d in s'.tenants
      ensures SeatOk(s', d, s'.tenants[d])
    {
      assert d != c ==> SeatOk(s, d, s.tenants[d]);
    }
  }

  lemma EmitSound(cfg: Config, s: System, c: Client, io: Io, b: Backend)
    requires Sound(s) && Enabled(cfg, s, Emit(c, io, b))
    ensures Sound(Emitted(s, c, s.tenants[c], io, b))
  {
    hide WireOk, TenureOf, Quiescent, HasStartup, HasRecorded, Possible, Emitted, MayRelease, ProxyBuilt, Sound;
    var t := s.tenants[c];
    PossibleFollows(cfg, t.log, io);
    SeatOf(s, c);
    match io {
      case ToBackend(_) => EmitWrites(s, c, io, b);
      case Initialised => EmitWrites(s, c, io, b);
      case Released => EmitLeaves(s, c, io, b);
      case Done => EmitLeaves(s, c, io, b);
      case Broken => EmitLeaves(s, c, io, b);
      case Acquired(isNew) => EmitAcquires(s, c, isNew, b);
      case _ => EmitOther(s, c, io, b);
    }
  }

  lemma SeatOf(s: System, c: Client)
    requires Sound(s) && c in s.tenants
    ensures SeatOk(s, c, s.tenants[c])
  {
  }

  lemma EmitOther(s: System, c: Client, io: Io, b: Backend)
    requires Sound(s) && c in s.tenants && s.tenants[c].phase.Serving? && s.tenants[c].seat.Some?
    requires !Initialising(s.tenants[c].log)
    requires io.FromClient? || io.Processed? || io.FromBackend? || io.ToClient? || io.Reply? || io.Marked?
    ensures Sound(Emitted(s, c, s.tenants[c], io, b))
  {
    hide WireOk, TenureOf, Quiescent, HasStartup, HasRecorded;
    var t := s.tenants[c];
    assert SeatOk(s, c, t);
    NoSeat(s, c, t.(log := t.log + [io]), Emitted(s, c, t, io, b));
  }

  lemma NextSound(cfg: Config, s: System, step: Step)
    requires Sound(s) && Enabled(cfg, s, step)
    ensures Sound(Next(cfg, s, step))
  {
    hide Sound, Emitted;
    match step {
      case Connect(c, b) => ConnectSound(s, c, b);
      case Emit(c, io, b) => EmitSound(cfg, s, c, io, b);
      case Destroy(b) => DestroySound(s, b);
      case _ => HandshakeSound(cfg, s, step);
    }
  }

  lemma DestroySound(s: System, b: Backend)
    requires Sound(s)
    ensures Sound(s.(idle := s.idle - {b}))
  {
    var s' := s.(idle := s.idle - {b});
    forall c | c in s'.tenants
      ensures SeatOk(s', c, s'.tenants[c])
    {
      assert SeatOk(s, c, s.tenants[c]);
    }
  }

  // ---------------------------------------------------------------- every run

  ghost predicate LegalFrom(cfg: Config, s: System, steps: seq<Step>)
    decreases |steps|
  {
    steps == [] || (Enabled(cfg, s, steps[0]) && LegalFrom(cfg, Next(cfg, s, steps[0]), steps[1..]))
  }

  ghost function RunFrom(cfg: Config, s: System, steps: seq<Step>): (r: System)
    requires LegalFrom(cfg, s, steps)
    decreases |steps|
  {
    if steps == [] then s else RunFrom(cfg, Next(cfg, s, steps[0]), steps[1..])
  }

  lemma {:induction false} RunSound(cfg: Config, s: System, steps: seq<Step>)
    requires Sound(s) && LegalFrom(cfg, s, steps)
    ensures Sound(RunFrom(cfg, s, steps))
    decreases |steps|
  {
    hide Sound, Next;
    if steps != [] {
      NextSound(cfg, s, steps[0]);
      RunSound(cfg, Next(cfg, s, steps[0]), steps[1..]);
    }
  }

  /** On every run across clients sharing a pool, for every backend: client bytes arrive only after its startup response
      was recorded; after that no StartupMessage does, and a second one only when the first startup was given up; and
      between the bytes of two clients the pool has reset it. A backend serves one client at a time. */
  lemma BackendsIsolated(cfg: Config, steps: seq<Step>)
    requires LegalFrom(cfg, EMPTY, steps)
    ensures var s := RunFrom(cfg, EMPTY, steps);
            && (forall b | b in s.wires :: WireOk(s.wires[b]))
            && (forall c, d | c in s.tenants && d in s.tenants && c != d ::
                  s.tenants[c].seat.Some? ==> s.tenants[c].seat != s.tenants[d].seat)
            && (forall c | c in s.tenants && s.tenants[c].seat.Some? :: s.tenants[c].seat.value !in s.idle)
  {
    RunSound(cfg, EMPTY, steps);
    var s := RunFrom(cfg, EMPTY, steps);
    forall c | c in s.tenants && s.tenants[c].seat.Some?
      ensures s.tenants[c].seat.value !in s.idle
    {
      assert SeatOk(s, c, s.tenants[c]);
    }
  }

  /** A handshake that fails after its StartupMessage, and another client on the same backend. */
  function FailThenStart(): (steps: seq<Step>) {
    [Connect(0, 0), SendStartup(0), HandshakeFailed(0), Connect(1, 0), SendStartup(1)]
  }

  /** So a backend can be sent two StartupMessages. */
  lemma StartupTwice(cfg: Config)
    ensures LegalFrom(cfg, EMPTY, FailThenStart())
    ensures RunFrom(cfg, EMPTY, FailThenStart()).wires == map[0 := [Startup(0), Abandoned, Reset, Startup(1)]]
  {
    var steps := FailThenStart();
    var s1 := Next(cfg, EMPTY, steps[0]);
    var s2 := Next(cfg, s1, steps[1]);
    var s3 := Next(cfg, s2, steps[2]);
    var s4 := Next(cfg, s3, steps[3]);
    assert s4.wires[0] == [Startup(0), Abandoned, Reset];
    var s5 := Next(cfg, s4, steps[4]);
    var twice: seq<Wire> := [Startup(0), Abandoned, Reset, Startup(1)];
    assert [Startup(0), Abandoned, Reset] + [Startup(1)] == twice;
    assert s5.wires[0] == twice && s5.wires.Keys == {0};
    assert s5.wires == map[0 := twice];
    hide Next, Enabled;
    OneStep(cfg, s4, steps[4..]);
    OneStep(cfg, s3, steps[3..]);
    OneStep(cfg, s2, steps[2..]);
    OneStep(cfg, s1, steps[1..]);
    assert steps[4..][1..] == [] && steps[3..][1..] == steps[4..] && steps[2..][1..] == steps[3..];
    assert steps[1..][1..] == steps[2..];
  }

  lemma OneStep(cfg: Config, s: System, steps: seq<Step>)
    requires steps != [] && Enabled(cfg, s, steps[0])
    ensures var s' := Next(cfg, s, steps[0]);
            LegalFrom(cfg, s', steps[1..]) ==>
              LegalFrom(cfg, s, steps) && RunFrom(cfg, s, steps) == RunFrom(cfg, s', steps[1..])
  {
  }

  predicate StartedTwice(w: seq<Wire>) {
    exists i, k | 0 <= i < k < |w| :: w[i].Startup? && w[k].Startup?
  }

  /** A StartupMessage to a backend whose startup was given up. */
  predicate StartedAfterGivingUp(w: seq<Wire>) {
    exists j, k | 0 <= j < k < |w| :: w[j].Abandoned? && w[k].Startup?
  }

  /** On every run, that is exactly when: a backend is sent a second StartupMessage if and only if it is sent one after a
      startup of its was given up. */
  lemma StartupOnce(cfg: Config, steps: seq<Step>, b: Backend)
    requires LegalFrom(cfg, EMPTY, steps) && b in RunFrom(cfg, EMPTY, steps).wires
    ensures var w := RunFrom(cfg, EMPTY, steps).wires[b]; StartedTwice(w) <==> StartedAfterGivingUp(w)
  {
    BackendsIsolated(cfg, steps);
    TwiceExactly(RunFrom(cfg, EMPTY, steps).wires[b]);
  }

  lemma TwiceExactly(w: seq<Wire>)
    requires WireOk(w)
    ensures StartedTwice(w) <==> StartedAfterGivingUp(w)
  {
    if i, k :| 0 <= i < k < |w| && w[i].Startup? && w[k].Startup? {
      assert AbandonedAfter(w[..k], i);
      var j :| i < j < |w[..k]| && w[..k][j].Abandoned?;
      assert w[j].Abandoned?;
    }
    if j, k :| 0 <= j < k < |w| && w[j].Abandoned? && w[k].Startup? {
      assert HasStartup(w[..j]);
      var i :| 0 <= i < |w[..j]| && w[..j][i].Startup?;
      assert w[i].Startup?;
    }
  }
}
