/** `ConnectionState`: the session state a client has left on its backend, as the pooling decision sees it. */
module ConnectionState {
  import opened WireBytes
  import opened Recency
  import opened CommandDetector
  import opened TextOps

  type Statement = (Bytes, seq<nat>)

  /** The tracked state as a value. `max` is the clamped bound on prepared statements. */
  datatype State = State(
    prepared: Bounded<Bytes, Statement>,
    variables: map<Bytes, Bytes>,
    tempTables: set<Bytes>,
    cursors: set<Bytes>,
    locks: set<int>,
    channels: set<Bytes>,
    unknown: bool,
    max: nat)

  function Fresh(max: nat): (s: State) {
    State(Bounded(map[], []), map[], {}, {}, {}, {}, false, AtLeastOne(max))
  }

  /** `clear_all`. */
  function Cleared(s: State): (r: State) {
    State(Bounded(map[], []), map[], {}, {}, {}, {}, false, s.max)
  }

  predicate Pinned(s: State) {
    || s.unknown || s.prepared.entries != map[] || s.variables != map[] || s.tempTables != {} || s.cursors != {}
    || s.locks != {} || s.channels != {}
  }

  /** What the tracker is told: a classified statement, a Parse's definition, a Close of a statement. */
  datatype Event = Executed(outcome: Class) | Prepared(name: Bytes, statement: Statement) | Closed(name: Bytes)

  function ApplyCommand(s: State, c: Command): (r: State) {
    match c
    case Set(n, v) => s.(variables := s.variables[n := v])
    case Reset(n) => s.(variables := s.variables - {n})
    case ResetAll => s.(variables := map[])
    case CreateTempTable(n) => s.(tempTables := s.tempTables + {n})
    case DropTable(n) => s.(tempTables := s.tempTables - {n})
    case DeclareCursor(n, _) => s.(cursors := s.cursors + {n})
    case CloseCursor(n) => s.(cursors := s.cursors - {n})
    case AdvisoryLock(k) => if k.Some? then s.(locks := s.locks + {k.value}) else s
    case AdvisoryUnlock(k) => if k.Some? then s.(locks := s.locks - {k.value}) else s
    case DiscardAll => Cleared(s)
    case Deallocate(n) => s.(prepared := Remove(s.prepared, n))
    case DeallocateAll => s.(prepared := Bounded(map[], []))
    case Listen(n) => s.(channels := s.channels + {n})
    case Unlisten(all, n) => s.(channels := if all then {} else s.channels - {n})
    case Notify(_, _) => s
  }

  /** A panicking classification never reaches the state: the session is gone. */
  function Apply(s: State, e: Event): (r: State) {
    match e
    case Executed(Clean) => s
    case Executed(Unknown) => s.(unknown := true)
    case Executed(Stateful(c)) => ApplyCommand(s, c)
    case Executed(ClassifyPanics) => s
    case Prepared(n, st) => s.(prepared := TrackerAdd(s.prepared, s.max, n, st))
    case Closed(n) => s.(prepared := Remove(s.prepared, n))
  }

  function ApplyAll(s: State, es: seq<Event>): (r: State) {
    if es == [] then s else Apply(ApplyAll(s, es[..|es| - 1]), es[|es| - 1])
  }

  /** The statements of a query: its split parts, or the text itself when it has none. */
  function Statements(query: Bytes): (r: seq<Bytes>) {
    var parts := SplitStatements(query);
    if parts == [] then [query] else parts
  }

  function Executions(statements: seq<Bytes>): (es: seq<Event>)
    ensures |es| == |statements|
  {
    seq(|statements|, i requires 0 <= i < |statements| => Executed(Classify(statements[i])))
  }

  /** What `apply_query` tells the tracker; it panics when one of the statements makes `classify` panic. */
  function QueryEvents(query: Bytes): (es: seq<Event>) {
    Executions(Statements(query))
  }

  predicate Panics(es: seq<Event>) {
    exists i | 0 <= i < |es| :: es[i] == Executed(ClassifyPanics)
  }

  /** What `apply_parse_state` tells the tracker. */
  function ParseEvents(name: Bytes, query: Bytes, oids: seq<nat>): (es: seq<Event>) {
    QueryEvents(query) + [Prepared(name, (query, oids))]
  }

  // ---------------------------------------------------------------- the implementation

  class ConnectionState {
    var prepared: map<Bytes, Statement>
    var lru: seq<Bytes>
    var variables: map<Bytes, Bytes>
    var tempTables: set<Bytes>
    var cursors: set<Bytes>
    var locks: set<int>
    var channels: set<Bytes>
    var unknown: bool
    const max: nat

    ghost function View(): State
      reads this
    {
      State(Bounded(prepared, lru), variables, tempTables, cursors, locks, channels, unknown, max)
    }

    constructor (maxPrepared: nat)
      ensures View() == Fresh(maxPrepared)
    {
      prepared, lru, variables, tempTables := map[], [], map[], {};
      cursors, locks, channels, unknown := {}, {}, {}, false;
      max := AtLeastOne(maxPrepared);
    }

    predicate IsPinned()
      reads this
      ensures IsPinned() <==> Pinned(View())
    {
      || unknown || prepared != map[] || variables != map[] || tempTables != {} || cursors != {}
      || locks != {} || channels != {}
    }

    method MarkUnknownCommand()
      modifies this
      ensures View() == old(View()).(unknown := true)
    {
      unknown := true;
    }

    /** A known name is refreshed; otherwise the oldest are evicted until there is room. */
    method AddPreparedStatement(name: Bytes, query: Bytes, oids: seq<nat>)
      modifies this`prepared, this`lru
      ensures View() == Apply(old(View()), Prepared(name, (query, oids)))
    {
      if name in prepared {
        lru := Without(lru, name);
      } else {
        ghost var before := Bounded(prepared, lru);
        while |prepared| >= max && lru != []
          invariant Evict(Bounded(prepared, lru), max) == Evict(before, max)
          decreases |lru|
        {
          var oldest := lru[0];
          lru := lru[1..];
          prepared := prepared - {oldest};
        }
      }
      prepared := prepared[name := (query, oids)];
      lru := lru + [name];
    }

    method RemovePreparedStatement(name: Bytes)
      modifies this`prepared, this`lru
      ensures View() == Apply(old(View()), Closed(name))
    {
      prepared := prepared - {name};
      lru := Without(lru, name);
    }

    method ClearAll()
      modifies this
      ensures View() == Cleared(old(View()))
    {
      prepared, lru, variables, tempTables := map[], [], map[], {};
      cursors, locks, channels, unknown := {}, {}, {}, false;
    }

    method ApplyDetected(c: Command)
      modifies this
      ensures View() == ApplyCommand(old(View()), c)
    {
      match c
      case Set(n, v) => variables := variables[n := v];
      case Reset(n) => variables := variables - {n};
      case ResetAll => variables := map[];
      case CreateTempTable(n) => tempTables := tempTables + {n};
      case DropTable(n) => tempTables := tempTables - {n};
      case DeclareCursor(n, _) => cursors := cursors + {n};
      case CloseCursor(n) => cursors := cursors - {n};
      case AdvisoryLock(k) => if k.Some? { locks := locks + {k.value}; }
      case AdvisoryUnlock(k) => if k.Some? { locks := locks - {k.value}; }
      case DiscardAll => ClearAll();
      case Deallocate(n) => RemovePreparedStatement(n);
      case DeallocateAll => prepared, lru := map[], [];
      case Listen(n) => channels := channels + {n};
      case Unlisten(all, n) => channels := if all then {} else channels - {n};
      case Notify(_, _) =>
    }

    method ApplySingleStatement(sql: Bytes) returns (panicked: bool)
      modifies this
      ensures panicked <==> Classify(sql) == ClassifyPanics
      ensures View() == Apply(old(View()), Executed(Classify(sql)))
    {
      panicked := false;
      match Classify(sql)
      case Clean =>
      case Unknown => MarkUnknownCommand();
      case Stateful(c) => ApplyDetected(c);
      case ClassifyPanics => panicked := true;
    }

    /** Applies every statement of a batch in order, stopping at a panic. */
    method ApplyQuery(query: Bytes) returns (panicked: bool)
      modifies this
      ensures panicked <==> Panics(QueryEvents(query))
      ensures !panicked ==> View() == ApplyAll(old(View()), QueryEvents(query))
    {
      hide Classify, Apply, SplitStatements;
      var statements := SplitStatements(query);
      if statements == [] {
        statements := [query];
      }
      ghost var es := QueryEvents(query);
      for i := 0 to |statements|
        invariant View() == ApplyAll(old(View()), es[..i])
        invariant !Panics(es[..i])
      {
        assert es[..i + 1][..i] == es[..i];
        panicked := ApplySingleStatement(statements[i]);
        if panicked {
          assert es[i] == Executed(ClassifyPanics);
          return;
        }
        assert forall j | 0 <= j < i :: es[j] == es[..i][j];
      }
      assert es[..|statements|] == es;
      panicked := false;
    }

    method ApplyParseState(name: Bytes, query: Bytes, oids: seq<nat>) returns (panicked: bool)
      modifies this
      ensures panicked <==> Panics(ParseEvents(name, query, oids))
      ensures !panicked ==> View() == ApplyAll(old(View()), ParseEvents(name, query, oids))
    {
      ghost var es := ParseEvents(name, query, oids);
      ghost var qs := QueryEvents(query);
      assert es[..|es| - 1] == qs;
      assert forall i | 0 <= i < |qs| :: es[i] == qs[i];
      panicked := ApplyQuery(query);
      if !panicked {
        AddPreparedStatement(name, query, oids);
      }
    }
  }

  // ---------------------------------------------------------------- what pins, stated on the history alone

  /** One thing a session can leave behind. */
  datatype Resource =
    | UnknownEffect | Variable(n: Bytes) | TempTable(n: Bytes) | Cursor(n: Bytes) | Lock(k: int) | Channel(n: Bytes)
    | PreparedStatement(n: Bytes)

  /** `e` creates `r`. */
  predicate Acquires(e: Event, r: Resource) {
    match r
    case UnknownEffect => e == Executed(Unknown)
    case Variable(n) => e.Executed? && e.outcome.Stateful? && e.outcome.command.Set? && e.outcome.command.name == n
    case TempTable(n) => e == Executed(Stateful(CreateTempTable(n)))
    case Cursor(n) => e == Executed(Stateful(DeclareCursor(n, true))) || e == Executed(Stateful(DeclareCursor(n, false)))
    case Lock(k) => e == Executed(Stateful(AdvisoryLock(Some(k))))
    case Channel(n) => e == Executed(Stateful(Listen(n)))
    case PreparedStatement(n) => e.Prepared? && e.name == n
  }

  /** `e` does away with `r`. */
  predicate Releases(e: Event, r: Resource) {
    || e == Executed(Stateful(DiscardAll))
    || match r
       case UnknownEffect => false
       case Variable(n) => e == Executed(Stateful(Reset(n))) || e == Executed(Stateful(ResetAll))
       case TempTable(n) => e == Executed(Stateful(DropTable(n)))
       case Cursor(n) => e == Executed(Stateful(CloseCursor(n)))
       case Lock(k) => e == Executed(Stateful(AdvisoryUnlock(Some(k))))
       case Channel(n) =>
         e.Executed? && e.outcome.Stateful? && e.outcome.command.Unlisten?
         && (e.outcome.command.all || e.outcome.command.channel == n)
       case PreparedStatement(n) =>
         e == Executed(Stateful(Deallocate(n))) || e == Executed(Stateful(DeallocateAll)) || e == Closed(n)
  }

  /** Created at some point of the history and not done away with since. */
  ghost predicate Live(h: seq<Event>, r: Resource) {
    exists i | 0 <= i < |h| :: Acquires(h[i], r) && !ReleasedAfter(h, i, r)
  }

  ghost predicate ReleasedAfter(h: seq<Event>, i: nat, r: Resource) {
    exists j | i < j < |h| :: Releases(h[j], r)
  }

  /** The tracker holds `r`. */
  predicate Holds(s: State, r: Resource) {
    match r
    case UnknownEffect => s.unknown
    case Variable(n) => n in s.variables
    case TempTable(n) => n in s.tempTables
    case Cursor(n) => n in s.cursors
    case Lock(k) => k in s.locks
    case Channel(n) => n in s.channels
    case PreparedStatement(n) => n in s.prepared.entries
  }

  lemma PinnedHolds(s: State)
    ensures Pinned(s) <==> exists r :: Holds(s, r)
  {
    if Pinned(s) {
      HoldsSomething(s);
    }
    if r :| Holds(s, r) {
      match r
      case UnknownEffect =>
      case Variable(n) => assert n in s.variables;
      case TempTable(n) => assert n in s.tempTables;
      case Cursor(n) => assert n in s.cursors;
      case Lock(k) => assert k in s.locks;
      case Channel(n) => assert n in s.channels;
      case PreparedStatement(n) => assert n in s.prepared.entries;
    }
  }

  lemma SomeLock(locks: set<int>)
    requires locks != {}
    ensures exists k :: k in locks
  {
    assert (forall k :: k !in locks) ==> locks == {};
  }

  lemma HoldsSomething(s: State)
    requires Pinned(s)
    ensures exists r :: Holds(s, r)
  {
    if s.unknown {
      assert Holds(s, UnknownEffect);
    } else if s.prepared.entries != map[] {
      var n :| n in s.prepared.entries;
      assert Holds(s, PreparedStatement(n));
    } else if s.variables != map[] {
      var n :| n in s.variables;
      assert Holds(s, Variable(n));
    } else if s.tempTables != {} {
      var n :| n in s.tempTables;
      assert Holds(s, TempTable(n));
    } else if s.cursors != {} {
      var n :| n in s.cursors;
      assert Holds(s, Cursor(n));
    } else if s.locks != {} {
      SomeLock(s.locks);
      var k :| k in s.locks;
      assert Holds(s, Lock(k));
    } else {
      var n :| n in s.channels;
      assert Holds(s, Channel(n));
    }
  }

  /** One event moves every resource but a prepared statement exactly as its history says. */
  lemma HoldsStep(s: State, e: Event, r: Resource)
    requires !r.PreparedStatement?
    ensures Holds(Apply(s, e), r) <==> Acquires(e, r) || (Holds(s, r) && !Releases(e, r))
  {
    hide TrackerAdd, Remove;
    match r
    case UnknownEffect =>
    case Variable(n) =>
    case TempTable(n) =>
    case Cursor(n) =>
    case Lock(k) =>
    case Channel(n) =>
    case PreparedStatement(_) =>
  }

  lemma ReleasedStep(h: seq<Event>, e: Event, i: nat, r: Resource)
    requires i < |h|
    ensures ReleasedAfter(h + [e], i, r) <==> ReleasedAfter(h, i, r) || Releases(e, r)
  {
    hide Releases;
    var h' := h + [e];
    assert h'[|h|] == e;
    assert forall j | 0 <= j < |h| :: h'[j] == h[j];
  }

  lemma LiveStep(h: seq<Event>, e: Event, r: Resource)
    ensures Live(h + [e], r) <==> Acquires(e, r) || (Live(h, r) && !Releases(e, r))
  {
    hide Releases, Acquires;
    var h' := h + [e];
    if Acquires(e, r) {
      assert h'[|h|] == e && !ReleasedAfter(h', |h|, r);
    }
    if i :| 0 <= i < |h| && Acquires(h[i], r) && !ReleasedAfter(h, i, r) {
      ReleasedStep(h, e, i, r);
      assert h'[i] == h[i];
    }
    if i :| 0 <= i < |h'| && Acquires(h'[i], r) && !ReleasedAfter(h', i, r) {
      if i < |h| {
        ReleasedStep(h, e, i, r);
        assert h[i] == h'[i];
      }
    }
  }

  /** Over every history, the tracker holds exactly the live resources, prepared statements aside. */
  lemma {:induction false} HoldsExactlyLive(max: nat, h: seq<Event>, r: Resource)
    requires !r.PreparedStatement?
    ensures Holds(ApplyAll(Fresh(max), h), r) <==> Live(h, r)
  {
    hide Apply;
    if h != [] {
      var before := h[..|h| - 1];
      HoldsExactlyLive(max, before, r);
      HoldsStep(ApplyAll(Fresh(max), before), h[|h| - 1], r);
      LiveStep(before, h[|h| - 1], r);
      assert before + [h[|h| - 1]] == h;
    }
  }

  // ---------------------------------------------------------------- prepared statements: bounded, so one-sided

  /** What an event does to the prepared-statement tracker, if anything. */
  function Op(e: Event): (r: seq<TrackerOp<Bytes, Statement>>) {
    match e
    case Prepared(n, st) => [Track(n, st)]
    case Closed(n) => [Untrack(n)]
    case Executed(Stateful(Deallocate(n))) => [Untrack(n)]
    case Executed(Stateful(DeallocateAll)) => [UntrackAll]
    case Executed(Stateful(DiscardAll)) => [UntrackAll]
    case Executed(_) => []
  }

  function Ops(h: seq<Event>): (r: seq<TrackerOp<Bytes, Statement>>) {
    if h == [] then [] else Ops(h[..|h| - 1]) + Op(h[|h| - 1])
  }

  /** Every live prepared name, oldest first, as an unbounded tracker would list them. */
  function LiveNames(h: seq<Event>): (r: seq<Bytes>) {
    ReferenceRun(Ops(h)).order
  }

  lemma OpAtMostOne(e: Event)
    ensures |Op(e)| <= 1
  {
  }

  lemma PreparedStep(s: State, e: Event)
    ensures Apply(s, e).max == s.max
    ensures Apply(s, e).prepared == if Op(e) == [] then s.prepared else TrackerStep(s.prepared, s.max, Op(e)[0])
  {
    hide TrackerAdd, Remove;
  }

  lemma {:induction false} PreparedRun(max: nat, h: seq<Event>)
    ensures ApplyAll(Fresh(max), h).max == AtLeastOne(max)
    ensures ApplyAll(Fresh(max), h).prepared == TrackerRun(AtLeastOne(max), Ops(h))
  {
    hide Apply, TrackerStep, Op;
    if h != [] {
      var before, e := h[..|h| - 1], h[|h| - 1];
      OpAtMostOne(e);
      PreparedRun(max, before);
      PreparedStep(ApplyAll(Fresh(max), before), e);
      var ops := Ops(before);
      assert Op(e) != [] ==> (ops + Op(e))[..|ops|] == ops;
      assert ops + [] == ops;
    }
  }

  lemma ReferenceHolds(u: Unbounded<Bytes, Statement>, e: Event, n: Bytes)
    ensures var u' := if Op(e) == [] then u else ReferenceStep(u, Op(e)[0]);
            n in u'.values <==> Acquires(e, PreparedStatement(n)) || (n in u.values && !Releases(e, PreparedStatement(n)))
  {
    hide Touch, Without;
  }

  lemma {:induction false} ReferenceExactlyLive(h: seq<Event>, n: Bytes)
    ensures n in ReferenceRun(Ops(h)).values <==> Live(h, PreparedStatement(n))
  {
    hide ReferenceStep, Acquires, Releases, Op;
    if h != [] {
      hide Live;
      var before, e := h[..|h| - 1], h[|h| - 1];
      OpAtMostOne(e);
      ReferenceExactlyLive(before, n);
      ReferenceHolds(ReferenceRun(Ops(before)), e, n);
      LiveStep(before, e, PreparedStatement(n));
      assert before + [e] == h;
      var ops := Ops(before);
      assert Op(e) != [] ==> (ops + Op(e))[..|ops|] == ops;
      assert ops + [] == ops;
    }
  }

  /** A tracked prepared statement is live; eviction can only forget. */
  lemma PreparedIsLive(max: nat, h: seq<Event>, n: Bytes)
    ensures Holds(ApplyAll(Fresh(max), h), PreparedStatement(n)) ==> Live(h, PreparedStatement(n))
  {
    hide ApplyAll, Ops, TrackerRun, ReferenceRun, Live, NoDuplicates, IsSuffix;
    PreparedRun(max, h);
    TrackerTrace(AtLeastOne(max), Ops(h));
    ReferenceExactlyLive(h, n);
  }

  /** No prefix of the history has more live prepared statements than the bound. */
  ghost predicate WithinBound(max: nat, h: seq<Event>) {
    forall k | 0 <= k <= |h| :: |LiveNames(h[..k])| <= AtLeastOne(max)
  }

  lemma {:induction false} OpsWithinBound(max: nat, h: seq<Event>, k: nat)
    requires WithinBound(max, h) && k <= |Ops(h)|
    ensures |ReferenceRun(Ops(h)[..k]).order| <= AtLeastOne(max)
  {
    hide Op, ReferenceRun;
    assert h[..|h|] == h;
    if k == |Ops(h)| {
      assert Ops(h)[..k] == Ops(h);
      assert |LiveNames(h[..|h|])| <= AtLeastOne(max);
    } else {
      var before := h[..|h| - 1];
      OpAtMostOne(h[|h| - 1]);
      assert WithinBound(max, before) by {
        assert forall j | 0 <= j <= |before| :: before[..j] == h[..j];
      }
      OpsWithinBound(max, before, k);
      assert Ops(h)[..k] == Ops(before)[..k];
    }
  }

  lemma PreparedExactlyLive(max: nat, h: seq<Event>, n: Bytes)
    requires WithinBound(max, h)
    ensures Holds(ApplyAll(Fresh(max), h), PreparedStatement(n)) <==> Live(h, PreparedStatement(n))
  {
    hide ApplyAll, Ops, TrackerRun, ReferenceRun, Live, WithinBound;
    PreparedRun(max, h);
    forall k | 0 <= k <= |Ops(h)|
      ensures |ReferenceRun(Ops(h)[..k]).order| <= AtLeastOne(max)
    {
      OpsWithinBound(max, h, k);
    }
    TrackerExactWithinBound(AtLeastOne(max), Ops(h));
    ReferenceExactlyLive(h, n);
  }

  /** The prepared statement `n` was defined at some point of the history and has been within the bound ever since: live,
      with fewer live statements defined after it than the bound. */
  ghost predicate RetainedIn(max: nat, h: seq<Event>, n: Bytes) {
    Retained(AtLeastOne(max), Ops(h), n)
  }

  /** Over every history, the tracker holds exactly the prepared statements retained. */
  lemma HoldsExactlyRetained(max: nat, h: seq<Event>, n: Bytes)
    ensures Holds(ApplyAll(Fresh(max), h), PreparedStatement(n)) <==> RetainedIn(max, h, n)
  {
    hide ApplyAll, Ops, TrackerRun, Retained;
    PreparedRun(max, h);
    TrackerHoldsExactly(AtLeastOne(max), Ops(h), n);
  }

  /** While the live statements fit the bound, each of them is retained. */
  lemma WithinBoundRetains(max: nat, h: seq<Event>, n: Bytes)
    requires WithinBound(max, h)
    ensures RetainedIn(max, h, n) <==> Live(h, PreparedStatement(n))
  {
    hide ApplyAll, Live, WithinBound, RetainedIn;
    HoldsExactlyRetained(max, h, n);
    PreparedExactlyLive(max, h, n);
  }

  ghost predicate OtherLive(h: seq<Event>) {
    exists r: Resource :: !r.PreparedStatement? && Live(h, r)
  }

  ghost predicate SomeRetained(max: nat, h: seq<Event>) {
    exists n: Bytes :: RetainedIn(max, h, n)
  }

  /** The pooling decision, over every history of a connection and every bound: pinned exactly when a resource other than
      a prepared statement is live or a prepared statement is retained. A pin always stands for a live resource, and
      while the prepared statements fit the bound every live resource pins. */
  lemma PinnedExactly(max: nat, h: seq<Event>)
    ensures Pinned(ApplyAll(Fresh(max), h)) <==> OtherLive(h) || SomeRetained(max, h)
    ensures Pinned(ApplyAll(Fresh(max), h)) ==> exists r :: Live(h, r)
    ensures WithinBound(max, h) ==> (Pinned(ApplyAll(Fresh(max), h)) <==> exists r :: Live(h, r))
  {
    hide Holds, Live, Pinned, ApplyAll, WithinBound, RetainedIn;
    var s := ApplyAll(Fresh(max), h);
    PinnedHolds(s);
    if r: Resource :| !r.PreparedStatement? && Live(h, r) {
      HoldsExactlyLive(max, h, r);
    }
    if n: Bytes :| RetainedIn(max, h, n) {
      HoldsExactlyRetained(max, h, n);
    }
    if r :| Holds(s, r) {
      if r.PreparedStatement? {
        PreparedIsLive(max, h, r.n);
        HoldsExactlyRetained(max, h, r.n);
      } else {
        HoldsExactlyLive(max, h, r);
      }
      assert Live(h, r);
    }
    if WithinBound(max, h) {
      if r :| Live(h, r) {
        if r.PreparedStatement? {
          PreparedExactlyLive(max, h, r.n);
        } else {
          HoldsExactlyLive(max, h, r);
        }
        assert Holds(s, r);
      }
    }
  }

  /** A prepared statement is meant never to be live on a connection that reports clean. Over every history it is, exactly
      when one is live, none is retained and nothing else is live. */
  lemma CleanButPreparedExactly(max: nat, h: seq<Event>)
    ensures !Pinned(ApplyAll(Fresh(max), h)) && (exists n: Bytes :: Live(h, PreparedStatement(n)))
       <==> !OtherLive(h) && !SomeRetained(max, h) && LiveNames(h) != []
  {
    hide Live, Pinned, ApplyAll, OtherLive, SomeRetained, NoDuplicates, ReferenceRun;
    PinnedExactly(max, h);
    TrackerTrace(AtLeastOne(max), Ops(h));
    if n: Bytes :| Live(h, PreparedStatement(n)) {
      ReferenceExactlyLive(h, n);
    }
    if LiveNames(h) != [] {
      var n := LiveNames(h)[0];
      assert n in Names(LiveNames(h));
      ReferenceExactlyLive(h, n);
    }
  }

  /** Outside the bound the tracker under-counts: with room for one statement, preparing two and closing the second
      leaves the first live on the backend and the connection unpinned. */
  lemma EvictedStatementUnpins(a: Bytes, b: Bytes, st: Statement)
    requires a != b
    ensures var h := [Prepared(a, st), Prepared(b, st), Closed(b)];
            Live(h, PreparedStatement(a)) && !Pinned(ApplyAll(Fresh(1), h))
  {
    hide TrackerAdd, Pinned;
    var h := [Prepared(a, st), Prepared(b, st), Closed(b)];
    assert Acquires(h[0], PreparedStatement(a)) && !ReleasedAfter(h, 0, PreparedStatement(a));
    assert h[..2] == [Prepared(a, st), Prepared(b, st)] && h[..2][..1] == [Prepared(a, st)] && h[..2][..1][..0] == [];
    var s2 := ApplyAll(Fresh(1), h[..2]);
    assert ApplyAll(Fresh(1), h[..2][..1][..0]) == Fresh(1);
    assert ApplyAll(Fresh(1), h[..2][..1]) == Apply(Fresh(1), h[0]);
    assert s2 == Apply(Apply(Fresh(1), h[0]), h[1]);
    assert Ops(h[..2])[|Ops(h[..2])| - 1] == Track(b, st);
    PreparedRun(1, h[..2]);
    TrackerTrace(1, Ops(h[..2]));
    OnlyName(s2.prepared, b);
    assert ApplyAll(Fresh(1), h).prepared.entries == map[];
    NothingElse(ApplyAll(Fresh(1), h));
  }

  lemma OnlyName(p: Bounded<Bytes, Statement>, n: Bytes)
    requires Listed(p.entries, p.order) && |p.order| <= 1 && n in p.entries
    ensures Remove(p, n).entries == map[]
  {
    ListedSize(p.entries, p.order);
    assert p.order == [p.order[0]];
    assert p.entries.Keys == {n};
  }

  lemma NothingElse(s: State)
    requires s.prepared.entries == map[] && s.(prepared := Bounded(map[], [])) == Fresh(1)
    ensures !Pinned(s)
  {
  }

  // ---------------------------------------------------------------- batches

  lemma {:induction false} ApplyAllAppend(s: State, a: seq<Event>, b: seq<Event>)
    ensures ApplyAll(s, a + b) == ApplyAll(ApplyAll(s, a), b)
  {
    hide Apply;
    if b == [] {
      assert a + b == a;
    } else {
      ApplyAllAppend(s, a, b[..|b| - 1]);
      assert (a + b)[..|a + b| - 1] == a + b[..|b| - 1];
    }
  }

  /** The statements of `a;b` are those of `a` and then those of `b`, when each half has one. */
  lemma BatchEvents(a: Bytes, b: Bytes)
    requires !Degenerate(a) && !Degenerate(b)
    ensures QueryEvents(a + [SEMICOLON] + b) == QueryEvents(a) + QueryEvents(b)
  {
    hide Classify, SplitStatements, Degenerate;
    SplitDistributes(a, b);
    DegenerateHasNoStatement(a);
    DegenerateHasNoStatement(b);
  }

  /** Applying a batch is applying its halves one after the other, whatever the state, panics included. */
  lemma BatchLaw(s: State, a: Bytes, b: Bytes)
    requires !Degenerate(a) && !Degenerate(b)
    ensures var ab := QueryEvents(a + [SEMICOLON] + b);
            && ApplyAll(s, ab) == ApplyAll(ApplyAll(s, QueryEvents(a)), QueryEvents(b))
            && (Panics(ab) <==> Panics(QueryEvents(a)) || Panics(QueryEvents(b)))
  {
    hide QueryEvents, ApplyAll;
    BatchEvents(a, b);
    ApplyAllAppend(s, QueryEvents(a), QueryEvents(b));
    PanicsAppend(QueryEvents(a), QueryEvents(b));
  }

  lemma PanicsAppend(a: seq<Event>, b: seq<Event>)
    ensures Panics(a + b) <==> Panics(a) || Panics(b)
  {
    var ab := a + b;
    assert forall i | 0 <= i < |a| :: ab[i] == a[i];
    assert forall i | 0 <= i < |b| :: ab[|a| + i] == b[i];
    if i :| 0 <= i < |ab| && ab[i] == Executed(ClassifyPanics) {
      assert i >= |a| ==> b[i - |a|] == ab[i];
    }
  }

  /** Input made only of blanks and semicolons always leaves the connection pinned, without panicking. */
  lemma DegeneratePins(s: State, query: Bytes)
    requires Degenerate(query)
    ensures !Panics(QueryEvents(query)) && Pinned(ApplyAll(s, QueryEvents(query)))
  {
    hide Classify, Degenerate;
    DegenerateIsUnknown(query);
    DegenerateHasNoStatement(query);
    var es := QueryEvents(query);
    assert es == [Executed(Unknown)];
    assert es[..0] == [];
    assert ApplyAll(s, es) == Apply(ApplyAll(s, es[..0]), es[0]);
  }

  /** The fail-closed law of the pooling-safety test says that a query classified Unknown pins a fresh connection.
      A fresh connection is pinned by a query exactly when something its statements created is still live at its end. */
  lemma QueryPinsExactly(max: nat, query: Bytes)
    ensures Pinned(ApplyAll(Fresh(max), QueryEvents(query))) <==> exists r :: Live(QueryEvents(query), r)
  {
    hide Live, Pinned, ApplyAll, QueryEvents;
    PinnedExactly(max, QueryEvents(query));
    if r :| Live(QueryEvents(query), r) {
      if r.PreparedStatement? {
        QueriesPrepareNothing(query, r.n);
      }
    }
  }

  lemma QueriesPrepareNothing(query: Bytes, n: Bytes)
    ensures !Live(QueryEvents(query), PreparedStatement(n))
  {
    hide Classify, Statements;
  }

  // ---------------------------------------------------------------- an Unknown query that does not pin

  /** `X;DISCARD ALL` */
  function UnknownThenDiscard(): (q: Bytes) { [88] + [SEMICOLON] + Ascii("DISCARD ALL") }

  lemma OtherFirstByte(u: Bytes, t: string)
    requires u != [] && u[0] == 88 && t != "" && 'A' <= t[0] <= 'W'
    ensures !(Ascii(t) <= u) && u != Ascii(t) && !StartsWithKeyword(u, Ascii(t))
  {
    assert Ascii(t)[0] == t[0] as int;
  }

  lemma LacksByte(u: Bytes, t: string, i: nat)
    requires i < |t| && 'A' <= t[i] <= 'Z' && t[i] as int !in u
    ensures !Contains(u, Ascii(t))
  {
    assert Ascii(t)[i] == t[i] as int;
    if Contains(u, Ascii(t)) {
      ContainsBytes(u, Ascii(t), Ascii(t)[i]);
    }
  }

  /** A text that begins with `X`, ends in a non-blank, and holds no lower-case letter and none of `E`, `P`, `T`. */
  predicate XText(q: Bytes) {
    && q != [] && q[0] == 88 && !Blank(q[|q| - 1])
    && forall i | 0 <= i < |q| :: q[i] < 97 && q[i] != 69 && q[i] != 80 && q[i] != 84
  }

  lemma TrimFixed(q: Bytes)
    requires q != [] && !Blank(q[0]) && !Blank(q[|q| - 1])
    ensures Trim(q) == q && TrimStart(q) == q
  {
  }

  lemma UpperFixed(q: Bytes)
    requires forall i | 0 <= i < |q| :: q[i] < 97
    ensures Upper(q) == q
  {
  }

  lemma XIsUnknown(q: Bytes)
    requires XText(q)
    ensures Classify(q) == Unknown
  {
    hide Contains, StartsWithKeyword, ParseSet, ParseReset, ParseDropTable, ParseCreateTempTable, ParseDeallocate,
         ParseDeclareCursor, ParseUnlisten, ParseNotify, LockKey, Ascii, Upper, Trim, TrimStart;
    TrimFixed(q);
    UpperFixed(q);
    LacksByte(q, "CREATE", 5); LacksByte(q, "PG_ADVISORY_LOCK", 0); LacksByte(q, "PG_ADVISORY_UNLOCK", 0);
    LacksByte(q, "SET_CONFIG", 2);
    OtherFirstByte(q, "SET "); OtherFirstByte(q, "RESET "); OtherFirstByte(q, "DISCARD ALL"); OtherFirstByte(q, "DROP TABLE");
    OtherFirstByte(q, "DECLARE "); OtherFirstByte(q, "CLOSE "); OtherFirstByte(q, "DEALLOCATE "); OtherFirstByte(q, "LISTEN ");
    OtherFirstByte(q, "UNLISTEN "); OtherFirstByte(q, "UNLISTEN"); OtherFirstByte(q, "NOTIFY ");
    OtherFirstByte(q, "SELECT"); OtherFirstByte(q, "INSERT"); OtherFirstByte(q, "UPDATE"); OtherFirstByte(q, "DELETE");
    OtherFirstByte(q, "WITH"); OtherFirstByte(q, "VALUES"); OtherFirstByte(q, "TABLE"); OtherFirstByte(q, "EXPLAIN");
    OtherFirstByte(q, "SHOW"); OtherFirstByte(q, "BEGIN"); OtherFirstByte(q, "START"); OtherFirstByte(q, "COMMIT");
    OtherFirstByte(q, "ROLLBACK"); OtherFirstByte(q, "END"); OtherFirstByte(q, "ABORT"); OtherFirstByte(q, "SAVEPOINT");
    OtherFirstByte(q, "RELEASE");
  }

  lemma DiscardBytes()
    ensures Ascii("DISCARD ALL") == [68, 73, 83, 67, 65, 82, 68, 32, 65, 76, 76]
  {
  }

  lemma DiscardIsDetected()
    ensures SplitStatements(Ascii("DISCARD ALL")) == [Ascii("DISCARD ALL")]
    ensures Classify(Ascii("DISCARD ALL")) == Stateful(DiscardAll)
  {
    hide Contains, ParseSet, ParseReset, Trim, SplitOn, NonBlank, KnownClean;
    var d := Ascii("DISCARD ALL");
    DiscardBytes();
    TrimFixed(d);
    UpperFixed(d);
    NoSeparator(d, SEMICOLON);
    OneStatement(d);
    assert Ascii("SET ")[0] == 83 && Ascii("RESET ")[0] == 82;
  }

  lemma OneStatement(s: Bytes)
    requires Trim(s) == s != []
    ensures NonBlank([s]) == [s]
  {
    assert |[s][1..]| == 0;
  }

  lemma UnknownThenDiscardStatements()
    ensures XText(UnknownThenDiscard())
    ensures Statements(UnknownThenDiscard()) == [[88], Ascii("DISCARD ALL")]
  {
    hide Classify, Trim, SplitOn, NonBlank, Ascii;
    DiscardBytes();
    DiscardIsDetected();
    NoSeparator([88], SEMICOLON);
    TrimFixed([88]);
    OneStatement([88]);
    SplitDistributes([88], Ascii("DISCARD ALL"));
  }

  lemma UnknownMayNotPin(max: nat)
    ensures Classify(UnknownThenDiscard()) == Unknown
    ensures !Panics(QueryEvents(UnknownThenDiscard()))
    ensures !Pinned(ApplyAll(Fresh(max), QueryEvents(UnknownThenDiscard())))
  {
    hide Classify, Ascii, Statements;
    UnknownThenDiscardStatements();
    XIsUnknown(UnknownThenDiscard());
    XIsUnknown([88]);
    DiscardIsDetected();
    var es := QueryEvents(UnknownThenDiscard());
    assert es == [Executed(Unknown), Executed(Stateful(DiscardAll))];
    assert ApplyAll(Fresh(max), es) == Apply(ApplyAll(Fresh(max), es[..1]), es[1]);
  }

  // ---------------------------------------------------------------- the values of variables

  /** The value of the last SET of `n` not undone since. */
  function LatestSet(h: seq<Event>, n: Bytes): (r: Option<Bytes>) {
    if h == [] then None
    else
      var e := h[|h| - 1];
      if e.Executed? && e.outcome.Stateful? && e.outcome.command.Set? && e.outcome.command.name == n then
        Some(e.outcome.command.value)
      else if Releases(e, Variable(n)) then None
      else LatestSet(h[..|h| - 1], n)
  }

  /** Over every history a variable has the value of its last SET, and none if that was undone. */
  lemma {:induction false} ValuesLatest(max: nat, h: seq<Event>, n: Bytes)
    ensures var v := ApplyAll(Fresh(max), h).variables; LatestSet(h, n) == if n in v then Some(v[n]) else None
  {
    hide TrackerAdd, Remove;
    if h != [] {
      ValuesLatest(max, h[..|h| - 1], n);
    }
  }
}
