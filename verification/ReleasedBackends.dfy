/** What a backend given back in mid-session was sent, against what the tracker was told. */
module ReleasedBackends {
  import opened WireBytes
  import opened FrontendWire
  import opened Transaction
  import opened ManagedSession
  import opened ManagedRuns
  import opened ForwardedReads
  import BackendScan
  import Conn = ConnectionState
  import Extractor

  // ---------------------------------------------------------------- told and sent

  /** One thing the tracker was told, and whether the backend was sent the message it stands for. */
  datatype Effect = Effect(event: Conn.Event, sent: bool)

  function Marks(es: seq<Conn.Event>, sent: bool): (r: seq<Effect>)
    ensures |r| == |es|
  {
    seq(|es|, i requires 0 <= i < |es| => Effect(es[i], sent))
  }

  function Effects(ts: seq<Turn>): (r: seq<Effect>) {
    if ts == [] then []
    else Effects(ts[..|ts| - 1]) + Marks(Told(ts[|ts| - 1].message), ts[|ts| - 1].sent)
  }

  function EventsOf(fs: seq<Effect>): (es: seq<Conn.Event>)
    ensures |es| == |fs|
  {
    seq(|fs|, i requires 0 <= i < |fs| => fs[i].event)
  }

  function SentEvents(fs: seq<Effect>): (es: seq<Conn.Event>) {
    if fs == [] then []
    else SentEvents(fs[..|fs| - 1]) + if fs[|fs| - 1].sent then [fs[|fs| - 1].event] else []
  }

  lemma {:induction false} SentEventsAppend(a: seq<Effect>, b: seq<Effect>)
    ensures SentEvents(a + b) == SentEvents(a) + SentEvents(b)
  {
    if b == [] {
      assert a + b == a;
    } else {
      SentEventsAppend(a, b[..|b| - 1]);
      assert (a + b)[..|a + b| - 1] == a + b[..|b| - 1];
    }
  }

  lemma {:induction false} SentMarks(es: seq<Conn.Event>, sent: bool)
    ensures SentEvents(Marks(es, sent)) == if sent then es else []
  {
    if es != [] {
      var before := es[..|es| - 1];
      SentMarks(before, sent);
      assert Marks(es, sent)[..|es| - 1] == Marks(before, sent);
      assert es == before + [es[|es| - 1]];
    }
  }

  /** The effects are what the tracker was told, and the sent ones what the messages sent stand for. */
  lemma {:induction false} EffectsMean(ts: seq<Turn>)
    ensures EventsOf(Effects(ts)) == AllTold(MessagesOf(ts))
    ensures SentEvents(Effects(ts)) == AllTold(SentOf(ts))
  {
    hide Told;
    if ts == [] {
      assert MessagesOf(ts) == [];
    } else {
      var before, t := ts[..|ts| - 1], ts[|ts| - 1];
      EffectsMean(before);
      assert MessagesOf(ts)[..|ts| - 1] == MessagesOf(before);
      var more := Marks(Told(t.message), t.sent);
      assert EventsOf(Effects(before) + more) == EventsOf(Effects(before)) + Told(t.message);
      SentEventsAppend(Effects(before), more);
      SentMarks(Told(t.message), t.sent);
      AllToldAppend(SentOf(before), if t.sent then [t.message] else []);
      AllToldOne(t.message);
      AllToldNone();
    }
  }

  // ---------------------------------------------------------------- what is left on the backend

  ghost predicate SentReleaseAfter(fs: seq<Effect>, i: nat, r: Conn.Resource) {
    exists k | i < k < |fs| :: fs[k].sent && Conn.Releases(fs[k].event, r)
  }

  /** Created by a message the backend was sent, and by none sent since done away with. */
  ghost predicate LeftBy(fs: seq<Effect>, i: nat, r: Conn.Resource) {
    i < |fs| && fs[i].sent && Conn.Acquires(fs[i].event, r) && !SentReleaseAfter(fs, i, r)
  }

  lemma SentReleaseStep(fs: seq<Effect>, f: Effect, i: nat, r: Conn.Resource)
    requires i < |fs|
    ensures SentReleaseAfter(fs + [f], i, r) <==> SentReleaseAfter(fs, i, r) || (f.sent && Conn.Releases(f.event, r))
  {
    hide Conn.Releases;
    var fs' := fs + [f];
    assert fs'[|fs|] == f;
    assert forall j | 0 <= j < |fs| :: fs'[j] == fs[j];
  }

  lemma LeftStep(fs: seq<Effect>, f: Effect, r: Conn.Resource)
    ensures (exists i: nat :: LeftBy(fs + [f], i, r)) <==>
            || (f.sent && Conn.Acquires(f.event, r))
            || ((exists i: nat :: LeftBy(fs, i, r)) && !(f.sent && Conn.Releases(f.event, r)))
  {
    hide Conn.Releases, Conn.Acquires;
    var fs' := fs + [f];
    assert fs'[|fs|] == f;
    assert forall j | 0 <= j < |fs| :: fs'[j] == fs[j];
    if f.sent && Conn.Acquires(f.event, r) {
      assert LeftBy(fs', |fs|, r);
    }
    if i: nat :| LeftBy(fs, i, r) {
      SentReleaseStep(fs, f, i, r);
      assert !(f.sent && Conn.Releases(f.event, r)) ==> LeftBy(fs', i, r);
    }
    if i: nat :| LeftBy(fs', i, r) {
      if i < |fs| {
        SentReleaseStep(fs, f, i, r);
        assert LeftBy(fs, i, r);
      }
    }
  }

  lemma {:induction false} LiveOnBackend(fs: seq<Effect>, r: Conn.Resource)
    ensures Conn.Live(SentEvents(fs), r) <==> exists i: nat :: LeftBy(fs, i, r)
  {
    hide Conn.Live, LeftBy, Conn.Acquires, Conn.Releases;
    if fs == [] {
      NothingLeft(r);
    } else {
      var before, f := fs[..|fs| - 1], fs[|fs| - 1];
      LiveOnBackend(before, r);
      LeftStep(before, f, r);
      assert before + [f] == fs;
      if f.sent {
        Conn.LiveStep(SentEvents(before), f.event, r);
      } else {
        assert SentEvents(before) + [] == SentEvents(before);
      }
    }
  }

  lemma NothingLeft(r: Conn.Resource)
    ensures !Conn.Live(SentEvents([]), r) && forall i: nat :: !LeftBy([], i, r)
  {
  }

  /** The tracker was told of its end, by a message of a suppressed read only. */
  ghost predicate LostRelease(fs: seq<Effect>, r: Conn.Resource) {
    exists i, j | 0 <= i < j < |fs| :: LeftBy(fs, i, r) && !fs[j].sent && Conn.Releases(fs[j].event, r)
  }

  /** The tracker was not told of its end. */
  ghost predicate NotEnded(fs: seq<Effect>, r: Conn.Resource) {
    exists i | 0 <= i < |fs| :: LeftBy(fs, i, r) && !Conn.ReleasedAfter(EventsOf(fs), i, r)
  }

  lemma LeftExactly(fs: seq<Effect>, r: Conn.Resource)
    ensures Conn.Live(SentEvents(fs), r) <==> LostRelease(fs, r) || NotEnded(fs, r)
    ensures NotEnded(fs, r) ==> Conn.Live(EventsOf(fs), r)
  {
    hide Conn.Acquires, Conn.Releases;
    LiveOnBackend(fs, r);
    var es := EventsOf(fs);
    if i: nat :| LeftBy(fs, i, r) {
      if Conn.ReleasedAfter(es, i, r) {
        var j :| i < j < |es| && Conn.Releases(es[j], r);
        assert !fs[j].sent;
        assert LostRelease(fs, r);
      } else {
        assert NotEnded(fs, r);
      }
    }
    if i :| 0 <= i < |fs| && LeftBy(fs, i, r) && !Conn.ReleasedAfter(es, i, r) {
      assert Conn.Acquires(es[i], r);
    }
  }

  // ---------------------------------------------------------------- where a release comes from

  /** A step adds to the log, and a release only as the third entry of a backend read. */
  ghost predicate Extends(s: Session, s': Session) {
    && s.log <= s'.log
    && forall j | |s.log| <= j < |s'.log| && s'.log[j].Released? :: j == |s.log| + 2
  }

  lemma {:induction false} MessagesExtend(cfg: Config, s: Session, ms: seq<Message>, i: nat)
    requires i <= |ms|
    ensures var s' := OnMessages(cfg, s, ms, i).0;
            s.log <= s'.log && forall j | |s.log| <= j < |s'.log| :: s'.log[j].Processed?
    decreases |ms| - i
  {
    hide OnMessage;
    if i < |ms| {
      MessageFlow(cfg, s, i == 0, ms[i]);
      MessagesExtend(cfg, OnMessage(cfg, s, i == 0, ms[i]).0, ms, i + 1);
    }
  }

  lemma ClientReadExtends(cfg: Config, s: Session, data: Bytes, w: Write)
    ensures var s' := OnClientRead(cfg, s, data, w);
            s.log <= s'.log && forall j | |s.log| <= j < |s'.log| :: !s'.log[j].Released?
  {
    hide Extractor.Extract, OnMessages, Rejection;
    var s0 := Logged(s, FromClient(data));
    var (x, ms) := Extractor.Extract(s.extractor, data);
    if ms.Some? {
      MessagesExtend(cfg, s0.(extractor := x), ms.value, 0);
    }
  }

  lemma SwappedExtends(s: Session, next: Reacquired)
    ensures var s' := Swapped(s, next);
            s.log <= s'.log && forall j | |s.log| <= j < |s'.log| && s'.log[j].Released? :: j == |s.log|
  {
  }

  lemma BackendReadExtends(cfg: Config, s: Session, data: Bytes, w: Write, next: Reacquired)
    ensures Extends(s, OnBackendRead(cfg, s, data, w, next))
  {
    hide Completes, BackendScan.LastStatus, Conn.Pinned, Swapped, InTxn, Update;
    var log2 := s.log + [FromBackend(data)] + [ToClient(Sent(data, w))];
    if Completes(data).Value? && BackendScan.LastStatus(data, 0, None).Value? {
      var s1 := Settled(cfg, Logged(s, FromBackend(data)), Completes(data).value).(txn := TxnSeen(s.txn, data));
      SettledKeeps(cfg, Logged(s, FromBackend(data)), Completes(data).value);
      SwappedExtends(Logged(s1, ToClient(Sent(data, w))), next);
      assert s.log <= log2;
    }
  }

  lemma StepExtends(cfg: Config, s: Session, e: Event)
    ensures Extends(s, Step(cfg, s, e))
    ensures !s.running ==> Step(cfg, s, e) == s
  {
    hide OnClientRead, OnBackendRead, Cancellation, Transaction.ReadyForQuery;
    if s.running {
      match e
      case ClientRead(data, w) => ClientReadExtends(cfg, s, data, w);
      case BackendRead(data, w, next) => BackendReadExtends(cfg, s, data, w, next);
      case _ =>
    }
  }

  /** Two entries before a release the session was at rest. */
  lemma {:induction false} ReleaseFromRest(cfg: Config, events: seq<Event>, j: nat) returns (k: nat)
    requires j < |Run(cfg, events).log| && Run(cfg, events).log[j].Released?
    ensures k <= |events| && j >= 2
    ensures Run(cfg, events[..k]).running && Run(cfg, events[..k]).log == Run(cfg, events).log[..j - 2]
  {
    hide Step;
    var before, e := events[..|events| - 1], events[|events| - 1];
    var s := Run(cfg, before);
    StepExtends(cfg, s, e);
    if j < |s.log| {
      k := ReleaseFromRest(cfg, before, j);
      assert before[..k] == events[..k];
    } else {
      k := |events| - 1;
    }
  }

  // ---------------------------------------------------------------- every release

  /** Still live for the tracker when pushed out by newer statements. */
  ghost predicate PushedOut(cfg: Config, ts: seq<Turn>, n: Bytes) {
    NotEnded(Effects(ts), Conn.PreparedStatement(n)) && !Conn.RetainedIn(cfg.maxPrepared, AllTold(MessagesOf(ts)), n)
  }

  /** What the messages sent since the backend was taken leave on it. */
  ghost predicate OnBackend(ts: seq<Turn>, r: Conn.Resource) { Conn.Live(AllTold(SentOf(ts)), r) }

  ghost predicate LeftAsSaid(cfg: Config, ts: seq<Turn>) {
    && (forall r: Conn.Resource | !r.PreparedStatement? :: OnBackend(ts, r) <==> LostRelease(Effects(ts), r))
    && (forall n: Bytes ::
          OnBackend(ts, Conn.PreparedStatement(n)) <==>
          LostRelease(Effects(ts), Conn.PreparedStatement(n)) || PushedOut(cfg, ts, n))
  }

  lemma LeftBehind(cfg: Config, ts: seq<Turn>)
    requires LeavesNothing(cfg, AllTold(MessagesOf(ts)))
    ensures LeftAsSaid(cfg, ts)
  {
    hide Conn.Live, LostRelease, NotEnded, Effects, AllTold, Conn.RetainedIn;
    EffectsMean(ts);
    var h := AllTold(MessagesOf(ts));
    forall r: Conn.Resource
      ensures OnBackend(ts, r) <==> LostRelease(Effects(ts), r) || NotEnded(Effects(ts), r)
      ensures NotEnded(Effects(ts), r) ==> Conn.Live(h, r)
    {
      LeftExactly(Effects(ts), r);
    }
  }

  /** Hybrid and session pooling suppress no read they go on after, so whatever was told was sent. */
  lemma {:induction false} HybridSendsAll(cfg: Config, log: seq<Io>)
    requires !cfg.strategy.TransactionPooling?
    ensures forall i | 0 <= i < |TenureOf(cfg, log).turns| :: TenureOf(cfg, log).turns[i].sent
  {
    hide Summarise, Extractor.Extract;
    if log != [] {
      HybridSendsAll(cfg, log[..|log| - 1]);
    }
  }

  lemma {:induction false} AllSent(ts: seq<Turn>)
    requires forall i | 0 <= i < |ts| :: ts[i].sent
    ensures SentOf(ts) == MessagesOf(ts)
  {
    if ts != [] {
      AllSent(ts[..|ts| - 1]);
      assert MessagesOf(ts) == MessagesOf(ts[..|ts| - 1]) + [ts[|ts| - 1].message];
    }
  }

  /** On every run, for every release: the messages applied since the backend was taken leave nothing, and a resource is
      left on the backend exactly when one of them ended it that the backend was never sent, or when it is a prepared
      statement pushed out by newer ones. In hybrid mode every message applied was sent. */
  lemma ReleaseLeaves(cfg: Config, events: seq<Event>, j: nat)
    requires j < |Run(cfg, events).log| && Run(cfg, events).log[j].Released?
    ensures j >= 2
    ensures var ts := TenureOf(cfg, Run(cfg, events).log[..j - 2]).turns;
            && LeavesNothing(cfg, AllTold(MessagesOf(ts)))
            && LeftAsSaid(cfg, ts)
            && (cfg.strategy.HybridPooling? ==> SentOf(ts) == MessagesOf(ts))
  {
    hide Run, Summarise, TenureOf, Conn.ApplyAll, AllTold, MessagesOf, SentOf, LeavesNothing, LeftAsSaid, Conn.Pinned, Turns;
    var k := ReleaseFromRest(cfg, events, j);
    var log := Run(cfg, events).log;
    var s := Run(cfg, events[..k]);
    AppliedExactly(cfg, events[..k]);
    RunGood(cfg, events[..k]);
    RunTidy(cfg, events);
    assert Follows(cfg, log[..j], log[j]);
    assert log[..j][..j - 2] == log[..j - 2];
    var ts := TenureOf(cfg, s.log).turns;
    UnpinnedLeavesNothing(cfg, AllTold(MessagesOf(ts)));
    LeftBehind(cfg, ts);
    if cfg.strategy.HybridPooling? {
      HybridSendsAll(cfg, s.log);
      AllSent(ts);
    }
  }
}
