/** What the mode enforcer sees of a query text, statement by statement: it looks at the whole text once, while the
    tracker applies every statement of it. */
module EnforcedBatches {
  import opened WireBytes
  import opened TextOps
  import opened TextLaws
  import opened CommandDetector
  import opened ConnectionState
  import opened ModeEnforcer
  import SessionCommands

  /** The text before the first semicolon begins with the keyword. */
  predicate Opens(sql: Bytes, k: string) { Ascii(k) <= Upper(Opening(sql)) }

  /** Some statement of the text holds the word. */
  predicate Somewhere(sql: Bytes, w: string) { AnyHas(Statements(sql), Ascii(w)) }

  lemma SomewhereExactly(sql: Bytes, w: string)
    requires Bare(Ascii(w))
    ensures Contains(Upper(Trim(sql)), Ascii(w)) <==> Somewhere(sql, w)
  {
    hide Ascii, HasWord, SplitOn, NonBlank, Trim;
    HasWordTrim(sql, Ascii(w));
    assert HasWord(Trim(sql), Ascii(w)) == Contains(Upper(Trim(sql)), Ascii(w)) by { WordIsContained(Trim(sql), Ascii(w)); }
    HasWordSplit(sql, Ascii(w));
    AnyHasNonBlank(SplitOn(sql, SEMICOLON), Ascii(w));
    assert [sql][1..] == [];
  }

  lemma WordIsContained(s: Bytes, w: Bytes)
    ensures HasWord(s, w) == Contains(Upper(s), w)
  {
  }

  /** A SET has a name and a value: an equals sign anywhere, or the word TO between blanks. */
  predicate SetNamed(sql: Bytes) {
    Somewhere(sql, "=") || (|Trim(sql)| >= 3 && Contains(Upper(Trim(Trim(sql)[3..])), Ascii(" TO ")))
  }

  /** Something follows the first TEMP TABLE or, if there is none, the first TEMPORARY TABLE. */
  predicate TableNamed(sql: Bytes) {
    var u := Upper(Trim(sql));
    match Find(u, Ascii("TEMP TABLE"))
    case Some(i) => i + 10 < |u|
    case None =>
      match Find(u, Ascii("TEMPORARY TABLE"))
      case Some(i) => i + 15 < |u|
      case None => false
  }

  /** The first closing parenthesis comes before the first opening one. */
  predicate ParensCrossed(sql: Bytes) {
    var u := Upper(Trim(sql));
    var o, c := Find(u, Ascii("(")), Find(u, Ascii(")"));
    o.Some? && c.Some? && c.value <= o.value
  }

  datatype Sight = Passes | Catches | Crashes

  /** The verdict in terms of the statements: keywords are looked for at the opening of the text only, words in every
      statement, and the first rule that claims the text decides. */
  function Seen(sql: Bytes, inTransaction: bool): (v: Sight) {
    if Opens(sql, "SET ") then (if !inTransaction && SetNamed(sql) then Catches else Passes)
    else if Opens(sql, "RESET ") || Opens(sql, "DISCARD ALL") then Passes
    else if Somewhere(sql, "CREATE") && (Somewhere(sql, "TEMP TABLE") || Somewhere(sql, "TEMPORARY TABLE")) then
      (if TableNamed(sql) then Catches else Passes)
    else if Opens(sql, "DROP TABLE") then Passes
    else if Opens(sql, "DECLARE ") && Somewhere(sql, "CURSOR") then
      (if Somewhere(sql, "WITH HOLD") then Catches else Passes)
    else if Opens(sql, "CLOSE ") || Opens(sql, "DEALLOCATE ") || Opens(sql, "LISTEN ") || Opens(sql, "UNLISTEN ")
            || Opens(sql, "NOTIFY ") then Passes
    else if !Somewhere(sql, "PG_ADVISORY_LOCK") && !Somewhere(sql, "PG_ADVISORY_UNLOCK") then Passes
    else if ParensCrossed(sql) then Crashes
    else if Somewhere(sql, "PG_ADVISORY_UNLOCK") then Passes else Catches
  }

  // ---------------------------------------------------------------- the sight is the verdict

  lemma {:induction false} TrimmedHasFirst(s: Bytes)
    requires s != [] ==> !Blank(s[|s| - 1])
    ensures FirstWord(s).Some? <==> s != []
  {
    if s != [] {
      TrimStartEmpty(s);
    }
  }

  lemma TrimLast(s: Bytes)
    ensures Trim(s) != [] ==> !Blank(Trim(s)[|Trim(s)| - 1])
  {
    TrimEndLast(TrimStart(s));
  }

  lemma TableSeen(sql: Bytes)
    ensures var t := Trim(sql); var d := ParseCreateTempTable(t, Upper(t));
            (d.Found? <==> TableNamed(sql)) && d != DetectPanics && (d.Found? ==> d.command.CreateTempTable?)
  {
    hide Trim, FindFrom, FirstWord, Upper, Ascii;
    var t := Trim(sql);
    var u := Upper(t);
    TrimLast(sql);
    if Find(u, Ascii("TEMP TABLE")).Some? {
      TrimmedHasFirst(t[Find(u, Ascii("TEMP TABLE")).value + 10..]);
    } else if Find(u, Ascii("TEMPORARY TABLE")).Some? {
      TrimmedHasFirst(t[Find(u, Ascii("TEMPORARY TABLE")).value + 15..]);
    }
  }

  lemma CursorSeen(sql: Bytes)
    requires Ascii("DECLARE ") <= Upper(Trim(sql)) && Contains(Upper(Trim(sql)), Ascii("CURSOR"))
    ensures var t := Trim(sql); var d := ParseDeclareCursor(t, Upper(t));
            d.Found? && d.command.DeclareCursor? && d.command.withHold == Contains(Upper(t), Ascii("WITH HOLD"))
  {
    hide Trim, Find, FirstWord;
    var t := Trim(sql);
    var u := Upper(t);
    TrimLast(sql);
    assert Ascii("DECLARE ")[7] == 32 && Ascii("CURSOR")[0] == 67;
    TrimmedHasFirst(t[8..]);
  }

  /** After SET, the equals sign of a trimmed text is in what follows. */
  lemma EqualsAfterSet(t: Bytes)
    requires Ascii("SET ") <= Upper(t)
    ensures Contains(Upper(t), [61]) <==> Contains(Trim(t[3..]), [61])
  {
    hide Trim;
    assert Ascii("SET ") == [83, 69, 84, 32];
    var u := Upper(t);
    assert forall i | 0 <= i < 4 :: u[i] == Ascii("SET ")[i];
    ByteFound(u, 61);
    ByteFound(Trim(t[3..]), 61);
    TrimKeepsByte(t[3..], 61);
    assert forall i | 3 <= i < |t| :: t[3..][i - 3] == t[i];
    assert forall i | 0 <= i < |t| :: u[i] == 61 <==> t[i] == 61;
    if i :| 0 <= i < |u| && u[i] == 61 {
      assert i >= 3 && t[3..][i - 3] == 61;
    }
  }

  lemma ByteFound(s: Bytes, c: byte)
    ensures Contains(s, [c]) <==> c in s
  {
    if Contains(s, [c]) {
      ContainsBytes(s, [c], c);
    }
    if i :| 0 <= i < |s| && s[i] == c {
      assert s[i..i + 1] == [c];
      FoundFrom(s, [c], 0, i);
    }
  }

  lemma TrimKeepsByte(s: Bytes, c: byte)
    requires !Blank(c)
    ensures c in Trim(s) <==> c in s
  {
    TrimStartKeeps(s, c);
    TrimEndKeepsByte(TrimStart(s), c);
  }

  lemma {:induction false} TrimStartKeeps(s: Bytes, c: byte)
    requires !Blank(c)
    ensures c in TrimStart(s) <==> c in s
  {
    if s != [] && Blank(s[0]) {
      TrimStartKeeps(s[1..], c);
      assert s == [s[0]] + s[1..];
    }
  }

  lemma {:induction false} TrimEndKeepsByte(s: Bytes, c: byte)
    requires !Blank(c)
    ensures c in TrimEnd(s) <==> c in s
  {
    if s != [] && Blank(s[|s| - 1]) {
      TrimEndKeepsByte(s[..|s| - 1], c);
      assert s == s[..|s| - 1] + [s[|s| - 1]];
    }
  }

  lemma SetSeen(sql: Bytes)
    requires Ascii("SET ") <= Upper(Trim(sql))
    ensures var d := ParseSet(Trim(sql));
            (d.Found? <==> SetNamed(sql)) && d != DetectPanics && (d.Found? ==> d.command.Set?)
  {
    hide Trim, Lower, TrimByte, Upper, FindFrom;
    assert Ascii("=") == [61];
    EqualsAfterSet(Trim(sql));
    SomewhereExactly(sql, "=");
  }

  /** Upper-case letters, underscores and blanks, with a letter first. */
  predicate Spelled(t: string) {
    t != "" && 'A' <= t[0] <= 'Z' && forall i | 0 <= i < |t| :: t[i] == ' ' || t[i] == '_' || 'A' <= t[i] <= 'Z'
  }

  lemma SpelledIsBare(t: string)
    requires Spelled(t)
    ensures SEMICOLON !in Ascii(t)
    ensures t[|t| - 1] != ' ' ==> Bare(Ascii(t))
  {
    assert forall i | 0 <= i < |t| :: Ascii(t)[i] == t[i] as int;
  }

  lemma Keyword(sql: Bytes, k: string)
    requires Spelled(k)
    ensures Ascii(k) <= Upper(Trim(sql)) <==> Opens(sql, k)
  {
    hide Ascii, Trim, Opening;
    SpelledIsBare(k);
    OpensExactly(sql, Ascii(k));
  }

  lemma WordSeen(sql: Bytes, w: string)
    requires Spelled(w) && w[|w| - 1] != ' '
    ensures Contains(Upper(Trim(sql)), Ascii(w)) <==> Somewhere(sql, w)
  {
    hide Ascii, Trim, Somewhere, Contains;
    SpelledIsBare(w);
    SomewhereExactly(sql, w);
  }

  /** The tests of `detect`, each on the statements. */
  lemma TestsSeen(sql: Bytes)
    ensures var u := Upper(Trim(sql));
            && (Ascii("SET ") <= u <==> Opens(sql, "SET "))
            && (Ascii("RESET ") <= u <==> Opens(sql, "RESET "))
            && (Ascii("DISCARD ALL") <= u <==> Opens(sql, "DISCARD ALL"))
            && (Ascii("DROP TABLE") <= u <==> Opens(sql, "DROP TABLE"))
            && (Ascii("DECLARE ") <= u <==> Opens(sql, "DECLARE "))
            && (Ascii("CLOSE ") <= u <==> Opens(sql, "CLOSE "))
            && (Ascii("DEALLOCATE ") <= u <==> Opens(sql, "DEALLOCATE "))
            && (Ascii("LISTEN ") <= u <==> Opens(sql, "LISTEN "))
            && (Ascii("UNLISTEN ") <= u <==> Opens(sql, "UNLISTEN "))
            && (Ascii("NOTIFY ") <= u <==> Opens(sql, "NOTIFY "))
  {
    hide Ascii, Trim, Upper, Opens;
    Keyword(sql, "SET "); Keyword(sql, "RESET "); Keyword(sql, "DISCARD ALL"); Keyword(sql, "DROP TABLE");
    Keyword(sql, "DECLARE "); Keyword(sql, "CLOSE "); Keyword(sql, "DEALLOCATE "); Keyword(sql, "LISTEN ");
    Keyword(sql, "UNLISTEN "); Keyword(sql, "NOTIFY ");
  }

  lemma WordsSeen(sql: Bytes)
    ensures var u := Upper(Trim(sql));
            && (Contains(u, Ascii("CREATE")) <==> Somewhere(sql, "CREATE"))
            && (Contains(u, Ascii("TEMP TABLE")) <==> Somewhere(sql, "TEMP TABLE"))
            && (Contains(u, Ascii("TEMPORARY TABLE")) <==> Somewhere(sql, "TEMPORARY TABLE"))
            && (Contains(u, Ascii("CURSOR")) <==> Somewhere(sql, "CURSOR"))
            && (Contains(u, Ascii("WITH HOLD")) <==> Somewhere(sql, "WITH HOLD"))
            && (Contains(u, Ascii("PG_ADVISORY_LOCK")) <==> Somewhere(sql, "PG_ADVISORY_LOCK"))
            && (Contains(u, Ascii("PG_ADVISORY_UNLOCK")) <==> Somewhere(sql, "PG_ADVISORY_UNLOCK"))
  {
    hide Ascii, Trim, Upper, Contains, Somewhere;
    WordSeen(sql, "CREATE"); WordSeen(sql, "TEMP TABLE"); WordSeen(sql, "TEMPORARY TABLE"); WordSeen(sql, "CURSOR");
    WordSeen(sql, "WITH HOLD"); WordSeen(sql, "PG_ADVISORY_LOCK"); WordSeen(sql, "PG_ADVISORY_UNLOCK");
  }

  /** A text that is just UNLISTEN names no lock. */
  lemma BareUnlisten()
    ensures !Contains(Ascii("UNLISTEN"), Ascii("PG_ADVISORY_LOCK")) && !Contains(Ascii("UNLISTEN"), Ascii("PG_ADVISORY_UNLOCK"))
  {
  }

  /** A detection the enforcer lets through. */
  predicate Neutral(d: Detection) {
    d.NoCommand? || (d.Found? && var c := d.command; !c.Set? && !c.CreateTempTable? && !c.DeclareCursor? && !c.AdvisoryLock?)
  }

  lemma OtherRules(t: Bytes)
    ensures |t| >= 6 ==> Neutral(ParseReset(t))
    ensures |t| >= 10 ==> Neutral(ParseDropTable(t))
    ensures |t| >= 11 ==> Neutral(ParseDeallocate(t))
    ensures |t| >= 8 ==> Neutral(ParseUnlisten(t))
    ensures |t| >= 7 ==> Neutral(ParseNotify(t))
  {
    hide Trim, FirstWord, Upper, Lower, Find, TrimByte, Ascii;
  }

  /** The enforcer's verdict in strict transaction mode, for every text, is the sight of its statements. */
  lemma SeenIsVerdict(sql: Bytes, inTransaction: bool)
    ensures var v := Validate(TransactionMode, sql, inTransaction);
            Seen(sql, inTransaction) == if v.Allowed? then Passes else if v.Refused? then Catches else Crashes
  {
    hide Ascii, Trim, Upper, Find, Opens, Somewhere, ParseSet, ParseReset, ParseDropTable, ParseCreateTempTable,
         ParseDeallocate, ParseDeclareCursor, ParseUnlisten, ParseNotify, SetNamed, TableNamed, FirstWord;
    TestsSeen(sql);
    WordsSeen(sql);
    BareUnlisten();
    TableSeen(sql);
    OtherRules(Trim(sql));
    if Opens(sql, "SET ") {
      SetSeen(sql);
    }
    if Opens(sql, "DECLARE ") && Somewhere(sql, "CURSOR") {
      CursorSeen(sql);
    }
  }

  // ---------------------------------------------------------------- what passes and pins

  /** The statement leaves something other than a channel behind: created, and not ended by a later statement. */
  ghost predicate LeftBy(statements: seq<Bytes>, i: nat, r: Resource)
    requires i < |statements|
  {
    && !r.Channel?
    && Acquires(Executed(Classify(statements[i])), r)
    && forall j | i < j < |statements| :: !Releases(Executed(Classify(statements[j])), r)
  }

  ghost predicate Leaves(sql: Bytes) {
    exists i, r | 0 <= i < |Statements(sql)| :: LeftBy(Statements(sql), i, r)
  }

  /** A resource other than a channel pins a fresh connection after the text. */
  ghost predicate PinsOtherwise(max: nat, sql: Bytes) {
    exists r: Resource :: !r.Channel? && Holds(ApplyAll(Fresh(max), QueryEvents(sql)), r)
  }

  lemma LeftIsLive(sql: Bytes, r: Resource)
    ensures !r.Channel? && Live(QueryEvents(sql), r) <==>
            exists i | 0 <= i < |Statements(sql)| :: LeftBy(Statements(sql), i, r)
  {
    hide Classify, Acquires, Releases, Statements;
    var es, ps := QueryEvents(sql), Statements(sql);
    assert forall i | 0 <= i < |ps| :: es[i] == Executed(Classify(ps[i]));
    if !r.Channel? && Live(es, r) {
      var i :| 0 <= i < |es| && Acquires(es[i], r) && !ReleasedAfter(es, i, r);
      assert LeftBy(ps, i, r);
    }
    if i :| 0 <= i < |ps| && LeftBy(ps, i, r) {
      assert !ReleasedAfter(es, i, r);
    }
  }

  lemma PinsAreLeft(max: nat, sql: Bytes)
    ensures PinsOtherwise(max, sql) <==> Leaves(sql)
  {
    hide Holds, Live, ApplyAll, QueryEvents, LeftBy;
    var s := ApplyAll(Fresh(max), QueryEvents(sql));
    forall r: Resource
      ensures Holds(s, r) ==> Live(QueryEvents(sql), r)
      ensures Live(QueryEvents(sql), r) ==> Holds(s, r)
    {
      if r.PreparedStatement? {
        QueriesPrepareNothing(sql, r.n);
        PreparedIsLive(max, QueryEvents(sql), r.n);
      } else {
        HoldsExactlyLive(max, QueryEvents(sql), r);
      }
      LeftIsLive(sql, r);
    }
    if r: Resource :| !r.Channel? && Holds(s, r) {
      LeftIsLive(sql, r);
    }
    if i, r :| 0 <= i < |Statements(sql)| && LeftBy(Statements(sql), i, r) {
      LeftIsLive(sql, r);
    }
  }

  /** For every text: it is let through in transaction mode and pins by something other than a channel exactly when no
      rule claims it by what it sees of the statements, and a statement leaves such a thing behind. */
  lemma PinsThroughExactly(max: nat, sql: Bytes, inTransaction: bool)
    ensures Validate(TransactionMode, sql, inTransaction) == Allowed && PinsOtherwise(max, sql) <==>
            Seen(sql, inTransaction) == Passes && Leaves(sql)
  {
    hide Seen, Validate, Leaves, PinsOtherwise;
    SeenIsVerdict(sql, inTransaction);
    PinsAreLeft(max, sql);
  }

  // ---------------------------------------------------------------- texts of one statement

  /** The text begins with its first statement, not with a semicolon. */
  predicate Leads(sql: Bytes) { Opening(sql) != [] }

  /** Creates a resource other than a channel. */
  predicate Creates(c: Class) {
    c.Unknown? || (c.Stateful? && var d := c.command;
                   d.Set? || d.CreateTempTable? || d.DeclareCursor? || (d.AdvisoryLock? && d.key.Some?))
  }

  lemma CreatesExactly(c: Class)
    ensures Creates(c) <==> exists r: Resource :: !r.Channel? && Acquires(Executed(c), r)
  {
    match c
    case Unknown => assert Acquires(Executed(c), UnknownEffect);
    case Stateful(Set(n, _)) => assert Acquires(Executed(c), Variable(n));
    case Stateful(CreateTempTable(n)) => assert Acquires(Executed(c), TempTable(n));
    case Stateful(DeclareCursor(n, h)) => assert Acquires(Executed(c), Cursor(n));
    case Stateful(AdvisoryLock(Some(k))) => assert Acquires(Executed(c), Lock(k));
    case _ =>
  }

  lemma OneLeaves(sql: Bytes)
    requires |Statements(sql)| == 1
    ensures Leaves(sql) <==> Creates(Classify(Statements(sql)[0]))
  {
    hide Classify, Acquires, Releases, Statements, Creates;
    CreatesExactly(Classify(Statements(sql)[0]));
    if i, r :| 0 <= i < |Statements(sql)| && LeftBy(Statements(sql), i, r) {
      assert i == 0;
    }
    if r: Resource :| !r.Channel? && Acquires(Executed(Classify(Statements(sql)[0])), r) {
      assert LeftBy(Statements(sql), 0, r);
    }
  }

  /** Without a semicolon the enforcer sees exactly the statement. */
  lemma SeenWhole(sql: Bytes)
    requires SEMICOLON !in sql && Trim(sql) != []
    ensures Statements(sql) == [Trim(sql)] && Detect(sql) == Detect(Trim(sql))
  {
    hide Trim, Detect;
    NoSeparator(sql, SEMICOLON);
    TrimTwice(sql);
    hide SplitOn;
    var none: seq<Bytes> := [sql][1..];
    assert none == [];
    assert NonBlank([sql]) == [Trim(sql)] + NonBlank(none);
    SameDetect(sql, Trim(sql));
  }

  lemma SameDetect(a: Bytes, b: Bytes)
    requires Trim(a) == Trim(b)
    ensures Detect(a) == Detect(b)
  {
    hide Trim, Upper, Contains, ParseSet, ParseReset, ParseDropTable, ParseCreateTempTable, ParseDeallocate,
         ParseDeclareCursor, ParseUnlisten, ParseNotify, LockKey, FirstWord, Ascii;
  }

  /** A text without semicolons: what is let through and pins otherwise than by LISTEN is a statement of unknown effect, a
      SET inside a transaction, or a cursor without hold, and each of these is. */
  lemma OneStatementPins(max: nat, sql: Bytes, inTransaction: bool)
    requires SEMICOLON !in sql
    ensures Validate(TransactionMode, sql, inTransaction) == Allowed && PinsOtherwise(max, sql) <==>
            var c := Classify(Statements(sql)[0]);
            || c.Unknown?
            || (c.Stateful? && c.command.Set? && inTransaction)
            || (c.Stateful? && c.command.DeclareCursor? && !c.command.withHold)
  {
    hide Detect, KnownClean, Statements, PinsOtherwise, Leaves, Trim;
    PinsAreLeft(max, sql);
    if Trim(sql) == [] {
      BlankText(sql);
    } else {
      SeenWhole(sql);
    }
    OneLeaves(sql);
  }

  lemma BlankText(sql: Bytes)
    requires Trim(sql) == []
    ensures Statements(sql) == [sql] && Detect(sql) == NoCommand
  {
    hide Detect, Trim;
    TrimEmpty(sql);
    DegenerateHasNoStatement(sql);
    DegenerateIsUnknown(sql);
  }

  // ---------------------------------------------------------------- one statement among stray semicolons

  predicate TableWords(sql: Bytes) {
    Somewhere(sql, "CREATE") && (Somewhere(sql, "TEMP TABLE") || Somewhere(sql, "TEMPORARY TABLE"))
  }

  predicate Claimed(sql: Bytes) { Opens(sql, "SET ") || Opens(sql, "RESET ") || Opens(sql, "DISCARD ALL") }

  predicate PassedOver(sql: Bytes) {
    || Opens(sql, "CLOSE ") || Opens(sql, "DEALLOCATE ") || Opens(sql, "LISTEN ") || Opens(sql, "UNLISTEN ")
    || Opens(sql, "NOTIFY ") || Opens(sql, "DROP TABLE")
  }

  /** Which rule a detected command came from. */
  lemma RuleOf(sql: Bytes)
    ensures var d := Detect(sql); d.Found? ==>
            var c := d.command;
            && (c.Set? ==> Opens(sql, "SET ") && SetNamed(sql))
            && (c.CreateTempTable? ==> !Claimed(sql) && TableWords(sql) && TableNamed(sql))
            && (c.DeclareCursor? ==> !Claimed(sql) && !TableWords(sql) && !Opens(sql, "DROP TABLE") && Opens(sql, "DECLARE ")
                                     && Somewhere(sql, "CURSOR") && c.withHold == Somewhere(sql, "WITH HOLD"))
            && (c.AdvisoryLock? ==> !Claimed(sql) && !TableWords(sql) && !PassedOver(sql)
                                    && !(Opens(sql, "DECLARE ") && Somewhere(sql, "CURSOR"))
                                    && Somewhere(sql, "PG_ADVISORY_LOCK") && !Somewhere(sql, "PG_ADVISORY_UNLOCK"))
  {
    hide Ascii, Trim, Upper, Find, Opens, Somewhere, ParseSet, ParseReset, ParseDropTable, ParseCreateTempTable,
         ParseDeallocate, ParseDeclareCursor, ParseUnlisten, ParseNotify, SetNamed, TableNamed, FirstWord;
    TestsSeen(sql);
    WordsSeen(sql);
    TableSeen(sql);
    OtherRules(Trim(sql));
    if Opens(sql, "SET ") {
      SetSeen(sql);
    }
    if Opens(sql, "DECLARE ") && Somewhere(sql, "CURSOR") {
      CursorSeen(sql);
    }
  }

  lemma {:induction false} PiecesUncut(s: Bytes, i: nat)
    requires i < |SplitOn(s, SEMICOLON)|
    ensures SEMICOLON !in SplitOn(s, SEMICOLON)[i]
  {
    if s != [] {
      var r := SplitOn(s[1..], SEMICOLON);
      if s[0] == SEMICOLON {
        if i > 0 {
          PiecesUncut(s[1..], i - 1);
        }
      } else {
        PiecesUncut(s[1..], i);
      }
    }
  }

  lemma {:induction false} NonBlankBare(pieces: seq<Bytes>, i: nat)
    requires i < |NonBlank(pieces)| && forall j | 0 <= j < |pieces| :: SEMICOLON !in pieces[j]
    ensures var s := NonBlank(pieces)[i]; Bare(s) && Trim(s) == s
  {
    if Trim(pieces[0]) != [] && i == 0 {
      TrimTwice(pieces[0]);
      TrimKeepsByte(pieces[0], SEMICOLON);
      TrimLast(pieces[0]);
      TrimFirst(pieces[0]);
    } else {
      NonBlankBare(pieces[1..], if Trim(pieces[0]) == [] then i else i - 1);
    }
  }

  lemma TrimFirst(s: Bytes)
    ensures Trim(s) != [] ==> !Blank(Trim(s)[0])
  {
    TrimStartHead(s);
    if TrimStart(s) != [] {
      TrimEndKeeps(TrimStart(s));
    }
  }

  /** The statement of a text that has just one. */
  lemma OnlyStatement(sql: Bytes) returns (s: Bytes)
    requires |SplitStatements(sql)| == 1
    ensures Statements(sql) == [s] && Statements(s) == [s] && Bare(s) && Trim(s) == s && Opening(s) == s
  {
    hide SplitOn, NonBlank, Trim;
    s := SplitStatements(sql)[0];
    forall i | 0 <= i < |SplitOn(sql, SEMICOLON)|
      ensures SEMICOLON !in SplitOn(sql, SEMICOLON)[i]
    {
      PiecesUncut(sql, i);
    }
    NonBlankBare(SplitOn(sql, SEMICOLON), 0);
    SeenWhole(s);
  }

  /** The folded statement stands in the folded text. */
  lemma StatementWithin(sql: Bytes, s: Bytes) returns (d: nat)
    requires Statements(sql) == [s] && Bare(s)
    ensures At(Trim(sql), Upper(s), d)
  {
    hide Trim;
    var w := Upper(s);
    assert Bare(w);
    HasWordTrim(sql, w);
    HasWordSplit(sql, w);
    AnyHasNonBlank(SplitOn(sql, SEMICOLON), w);
    assert w[0..|w|] == w;
    assert At(s, w, 0);
    HasWordAt(s, w);
    assert AnyHas([s], w);
    hide AnyHas, SplitOn, NonBlank;
    HasWordAt(Trim(sql), w);
    d :| 0 <= d <= |Trim(sql)| && At(Trim(sql), w, d);
  }

  /** An occurrence in a part of the text is found no later in the text. */
  lemma FoundWithin(u: Bytes, v: Bytes, d: nat, w: Bytes)
    requires d + |v| <= |u| && u[d..d + |v|] == v && Find(v, w).Some?
    ensures Find(u, w).Some? && Find(u, w).value <= d + Find(v, w).value
  {
    var i := Find(v, w).value;
    assert u[d + i..d + i + |w|] == v[i..i + |w|];
    FoundFrom(u, w, 0, d + i);
  }

  lemma TableNamedWithin(sql: Bytes, s: Bytes)
    requires Statements(sql) == [s] && Statements(s) == [s] && Bare(s) && Trim(s) == s && TableNamed(s)
    ensures TableNamed(sql)
  {
    hide Trim, Upper, Ascii, Find, Somewhere, Statements;
    var d := StatementWithin(sql, s);
    var u, v := Upper(Trim(sql)), Upper(s);
    if Find(v, Ascii("TEMP TABLE")).Some? {
      FoundWithin(u, v, d, Ascii("TEMP TABLE"));
    } else {
      WordSeen(sql, "TEMP TABLE");
      WordSeen(s, "TEMP TABLE");
      assert Somewhere(sql, "TEMP TABLE") == Somewhere(s, "TEMP TABLE") by { SameSomewhere(sql, s, "TEMP TABLE"); }
      FoundWithin(u, v, d, Ascii("TEMPORARY TABLE"));
    }
  }

  lemma SameSomewhere(sql: Bytes, s: Bytes, w: string)
    requires Statements(sql) == Statements(s)
    ensures Somewhere(sql, w) == Somewhere(s, w)
  {
  }

  lemma {:induction false} TrimEndBlanks(s: Bytes)
    ensures TrimEnd(s) <= s && forall i | |TrimEnd(s)| <= i < |s| :: Blank(s[i])
  {
    if s != [] && Blank(s[|s| - 1]) {
      TrimEndBlanks(s[..|s| - 1]);
    }
  }

  /** A text led by its statement opens with it, followed by blanks at most. */
  lemma OpeningOfLed(sql: Bytes, s: Bytes)
    requires Statements(sql) == [s] && |SplitStatements(sql)| == 1 && Leads(sql)
    ensures s <= Opening(sql) && forall i | |s| <= i < |Opening(sql)| :: Blank(Opening(sql)[i])
  {
    hide SplitOn, NonBlank;
    OpeningIsFirst(sql);
    var o := Opening(sql);
    OpeningStart(sql);
    TrimEndBlanks(o);
    assert Trim(o) != [] by { TrimEndKeeps(o); }
  }

  lemma OpeningStart(sql: Bytes)
    ensures TrimStart(Opening(sql)) == Opening(sql) && (Opening(sql) != [] ==> !Blank(Opening(sql)[0]))
  {
    if SEMICOLON in sql {
      TrimStartHead(SplitOn(sql, SEMICOLON)[0]);
    } else {
      TrimFirst(sql);
    }
  }

  /** What a led text opens with, its statement opens with too, unless it is the keyword without its blank. */
  lemma OpensAsLed(sql: Bytes, s: Bytes, k: string)
    requires Statements(sql) == [s] && |SplitStatements(sql)| == 1 && Leads(sql) && Opening(s) == s
    ensures Opens(s, k) ==> Opens(sql, k)
    ensures Opens(sql, k) ==> Opens(s, k) || (|s| < |k| && Upper(s) <= Ascii(k))
  {
    hide Statements, Opening, SplitStatements;
    OpeningOfLed(sql, s);
    var o, w := Opening(sql), Ascii(k);
    assert Upper(o)[..|s|] == Upper(s);
    if w <= Upper(o) && |s| < |k| {
      assert Upper(s) == w[..|s|];
    }
  }

  lemma OpensUnled(sql: Bytes, k: string)
    requires !Leads(sql) && k != ""
    ensures !Opens(sql, k)
  {
  }

  lemma WordSize(s: Bytes, w: string)
    requires Statements(s) == [s] && Somewhere(s, w)
    ensures |s| >= |w|
  {
    hide Statements, Ascii;
    OneHas(s, Ascii(w));
    HasWordAt(s, Ascii(w));
  }

  lemma OneHas(s: Bytes, w: Bytes)
    ensures AnyHas([s], w) == HasWord(s, w)
  {
    var none: seq<Bytes> := [s][1..];
    assert none == [];
  }

  /** A temporary table is refused wherever the semicolons are. */
  lemma TableCaught(sql: Bytes, s: Bytes, inTransaction: bool)
    requires |SplitStatements(sql)| == 1 && Statements(sql) == [s] && Statements(s) == [s] && Bare(s) && Trim(s) == s
    requires Opening(s) == s && Detect(s).Found? && Detect(s).command.CreateTempTable?
    ensures Seen(sql, inTransaction) == Catches
  {
    hide Detect, Somewhere, Opens, Opening, TableNamed, SetNamed, Ascii, Trim, Bare, Statements, SplitStatements;
    RuleOf(s);
    TableNamedWithin(sql, s);
    SameSomewhere(sql, s, "CREATE");
    SameSomewhere(sql, s, "TEMP TABLE");
    SameSomewhere(sql, s, "TEMPORARY TABLE");
    NamedSize(s);
    NotOpened(sql, s, "SET ");
    NotOpened(sql, s, "RESET ");
    NotOpened(sql, s, "DISCARD ALL");
  }

  lemma NamedSize(s: Bytes)
    requires TableNamed(s) && Trim(s) == s
    ensures |s| >= 11
  {
    hide FindFrom, Ascii;
  }

  /** A keyword no longer than the statement opens the text only if it opens the statement. */
  lemma NotOpened(sql: Bytes, s: Bytes, k: string)
    requires |SplitStatements(sql)| == 1 && Statements(sql) == [s] && Opening(s) == s && k != "" && |k| <= |s|
    ensures Opens(sql, k) ==> Opens(s, k)
  {
    if Leads(sql) {
      OpensAsLed(sql, s, k);
    } else {
      OpensUnled(sql, k);
    }
  }

  /** An advisory lock is refused, or crashes the enforcer, wherever the semicolons are. */
  lemma LockNotPassed(sql: Bytes, s: Bytes, inTransaction: bool)
    requires |SplitStatements(sql)| == 1 && Statements(sql) == [s] && Statements(s) == [s] && Opening(s) == s
    requires Detect(s).Found? && Detect(s).command.AdvisoryLock?
    ensures Seen(sql, inTransaction) != Passes
  {
    hide Detect, Somewhere, Opens, Opening, TableNamed, SetNamed, Ascii, Trim, Statements, SplitStatements, ParensCrossed;
    RuleOf(s);
    WordSize(s, "PG_ADVISORY_LOCK");
    SameSomewhere(sql, s, "CREATE");
    SameSomewhere(sql, s, "TEMP TABLE");
    SameSomewhere(sql, s, "TEMPORARY TABLE");
    SameSomewhere(sql, s, "CURSOR");
    SameSomewhere(sql, s, "PG_ADVISORY_LOCK");
    SameSomewhere(sql, s, "PG_ADVISORY_UNLOCK");
    NotOpened(sql, s, "SET "); NotOpened(sql, s, "RESET "); NotOpened(sql, s, "DISCARD ALL");
    NotOpened(sql, s, "DROP TABLE"); NotOpened(sql, s, "DECLARE "); NotOpened(sql, s, "CLOSE ");
    NotOpened(sql, s, "DEALLOCATE "); NotOpened(sql, s, "LISTEN "); NotOpened(sql, s, "UNLISTEN ");
    NotOpened(sql, s, "NOTIFY ");
  }

  /** A cursor at the beginning of the text is refused exactly with hold. */
  lemma CursorLed(sql: Bytes, s: Bytes, inTransaction: bool)
    requires |SplitStatements(sql)| == 1 && Statements(sql) == [s] && Statements(s) == [s] && Opening(s) == s && Leads(sql)
    requires Detect(s).Found? && Detect(s).command.DeclareCursor?
    ensures Seen(sql, inTransaction) == if Detect(s).command.withHold then Catches else Passes
  {
    hide Detect, Somewhere, Opens, Opening, TableNamed, SetNamed, Ascii, Statements, SplitStatements, Trim;
    RuleOf(s);
    SameSomewhere(sql, s, "CREATE");
    SameSomewhere(sql, s, "TEMP TABLE");
    SameSomewhere(sql, s, "TEMPORARY TABLE");
    SameSomewhere(sql, s, "CURSOR");
    SameSomewhere(sql, s, "WITH HOLD");
    DeclareSize(s);
    NotOpened(sql, s, "SET "); NotOpened(sql, s, "RESET "); NotOpened(sql, s, "DISCARD ALL");
    NotOpened(sql, s, "DROP TABLE");
    OpensAsLed(sql, s, "DECLARE ");
  }

  /** DECLARE and CURSOR do not overlap. */
  lemma DeclareSize(s: Bytes)
    requires Statements(s) == [s] && Opening(s) == s && Opens(s, "DECLARE ") && Somewhere(s, "CURSOR")
    ensures |s| >= 14
  {
    hide Statements, Opening, Upper, Ascii;
    OneHas(s, Ascii("CURSOR"));
    HasWordAt(s, Ascii("CURSOR"));
    var i :| 0 <= i <= |s| && At(s, Ascii("CURSOR"), i);
    CursorLiterals();
    Apart(Upper(s), i);
  }

  lemma CursorLiterals()
    ensures Ascii("DECLARE ") == [68, 69, 67, 76, 65, 82, 69, 32]
    ensures Ascii("CURSOR") == [67, 85, 82, 83, 79, 82]
  {
  }

  lemma Apart(u: Bytes, i: nat)
    requires [68, 69, 67, 76, 65, 82, 69, 32] <= u && i + 6 <= |u| && u[i..i + 6] == [67, 85, 82, 83, 79, 82]
    ensures i >= 8
  {
    assert u[i..i + 6][0] == u[i] && u[i..i + 6][1] == u[i + 1];
  }

  lemma {:induction false} TrimStartGrows(a: Bytes, z: Bytes)
    requires a != [] && !Blank(a[|a| - 1])
    ensures TrimStart(a + z) == TrimStart(a) + z
    ensures TrimStart(a) != [] && TrimStart(a)[|TrimStart(a)| - 1] == a[|a| - 1]
  {
    if Blank(a[0]) {
      assert (a + z)[1..] == a[1..] + z;
      TrimStartGrows(a[1..], z);
    }
  }

  lemma TrimGrows(a: Bytes, z: Bytes)
    requires a != [] && !Blank(a[|a| - 1])
    ensures Trim(a) <= Trim(a + z)
  {
    TrimStartGrows(a, z);
    var x := TrimStart(a);
    TrimEndAppend(x, z);
    assert TrimEnd(x) == x;
  }

  lemma LedPrefix(sql: Bytes, s: Bytes)
    requires Statements(sql) == [s] && |SplitStatements(sql)| == 1 && Leads(sql) && Trim(s) == s
    ensures s <= Trim(sql)
  {
    hide Trim, Statements, SplitStatements;
    OpeningOfLed(sql, s);
    if SEMICOLON in sql {
      var more := OpeningThenMore(sql);
    } else {
      assert Opening(sql) == Trim(sql);
    }
  }

  lemma SetNamedLed(sql: Bytes, s: Bytes)
    requires Statements(sql) == [s] && |SplitStatements(sql)| == 1 && Leads(sql) && Statements(s) == [s]
    requires Bare(s) && Trim(s) == s && |s| >= 4 && SetNamed(s)
    ensures SetNamed(sql)
  {
    hide Trim, Ascii, FindFrom, Somewhere, Statements, SplitStatements, Upper;
    SameSomewhere(sql, s, "=");
    LedPrefix(sql, s);
    var t := Trim(sql);
    var a, z := s[3..], t[|s|..];
    assert t[3..] == a + z;
    TrimGrows(a, z);
    var v, u := Trim(a), Trim(t[3..]);
    UpperPrefix(v, u);
    if Contains(Upper(v), Ascii(" TO ")) {
      assert Upper(u)[0..|v|] == Upper(v);
      FoundWithin(Upper(u), Upper(v), 0, Ascii(" TO "));
    }
  }

  lemma UpperPrefix(v: Bytes, u: Bytes)
    requires v <= u
    ensures Upper(v) <= Upper(u)
  {
  }

  lemma SetLed(sql: Bytes, s: Bytes, inTransaction: bool)
    requires |SplitStatements(sql)| == 1 && Statements(sql) == [s] && Statements(s) == [s] && Opening(s) == s && Leads(sql)
    requires Bare(s) && Trim(s) == s && Detect(s).Found? && Detect(s).command.Set?
    ensures Seen(sql, inTransaction) == if inTransaction then Passes else Catches
  {
    hide Detect, Somewhere, Opening, TableNamed, SetNamed, Ascii, Statements, SplitStatements, Trim, Bare;
    RuleOf(s);
    OpensAsLed(sql, s, "SET ");
    SetNamedLed(sql, s);
  }

  /** A text of one statement, with semicolons anywhere around it: at its beginning the statement is seen as it is; behind a
      leading semicolon the keyword rules miss it, so a SET outside a transaction or a cursor with hold passes and pins. */
  lemma StraySemicolonPins(max: nat, sql: Bytes, inTransaction: bool)
    requires |SplitStatements(sql)| == 1
    ensures Validate(TransactionMode, sql, inTransaction) == Allowed && PinsOtherwise(max, sql) <==>
            var c := Classify(Statements(sql)[0]);
            var passes := Seen(sql, inTransaction) == Passes;
            || (c.Unknown? && passes)
            || (c.Stateful? && c.command.Set? && if Leads(sql) then inTransaction else passes)
            || (c.Stateful? && c.command.DeclareCursor? && if Leads(sql) then !c.command.withHold else passes)
  {
    hide Detect, KnownClean, Statements, SplitStatements, PinsOtherwise, Leaves, Trim, Seen, Validate, Opening, Leads, Bare;
    var s := OnlyStatement(sql);
    PinsThroughExactly(max, sql, inTransaction);
    OneLeaves(sql);
    if Detect(s).Found? {
      match Detect(s).command
      case Set(_, _) => if Leads(sql) { SetLed(sql, s, inTransaction); }
      case CreateTempTable(_) => TableCaught(sql, s, inTransaction);
      case DeclareCursor(_, _) => if Leads(sql) { CursorLed(sql, s, inTransaction); }
      case AdvisoryLock(_) => LockNotPassed(sql, s, inTransaction);
      case _ =>
    }
  }

  // ---------------------------------------------------------------- a batch the enforcer does not see through

  /** `SELECT 1` */
  const CLEAN: Bytes := [83, 69, 76, 69, 67, 84, 32, 49]
  /** `SET A = B` */
  const SET_A: Bytes := [83, 69, 84, 32, 65, 32, 61, 32, 66]

  /** No letter of the words the rules look for: nothing is detected but by a keyword. */
  lemma NothingDetected(t: Bytes)
    requires Trim(t) == t && Upper(t) == t && |t| >= 3 && 82 !in t && 71 !in t
    requires t[0] == SEMICOLON || (t[0] == 83 && t[2] == 76)
    ensures Detect(t) == NoCommand
  {
    hide Contains, ParseSet, ParseReset, ParseDropTable, ParseCreateTempTable, ParseDeallocate, ParseDeclareCursor,
         ParseUnlisten, ParseNotify, LockKey, Ascii, Upper, Trim, FirstWord;
    SessionCommands.FirstBytes(t);
    LacksByte(t, "CREATE", 1);
    LacksByte(t, "PG_ADVISORY_LOCK", 1);
    LacksByte(t, "PG_ADVISORY_UNLOCK", 1);
  }

  lemma CleanIsClean()
    ensures Classify(CLEAN) == Clean
  {
    hide Contains, Detect;
    SessionCommands.PlainTrims(CLEAN);
    assert Upper(CLEAN) == CLEAN;
    NothingDetected(CLEAN);
    assert Ascii("SELECT") == [83, 69, 76, 69, 67, 84];
    assert StartsWithKeyword(CLEAN, Ascii("SELECT"));
    LacksByte(CLEAN, "SET_CONFIG", 9);
  }

  lemma SetIsSet()
    ensures Detect(SET_A).Found? && Detect(SET_A).command.Set? && Detect(SET_A).command.name == [97]
  {
    hide Detect;
    var k, x: Bytes := [83, 69, 84, 32], [65, 32, 61, 32, 66];
    assert Ascii("SET ") == k && Upper(k) == k;
    assert k + x == SET_A && x[1..] == [32, 61, 32, 66] && x[1..][1..] == [61, 32, 66];
    assert TrimStart(x[1..]) == [61, 32, 66];
    assert SessionCommands.Assigns(x, [65]);
    SessionCommands.RecordsSet(k, x, [65]);
    assert Lower([65]) == [97];
  }

  lemma BatchStatements()
    ensures Statements(CLEAN + [SEMICOLON] + SET_A) == [CLEAN, SET_A]
  {
    hide Trim, SplitOn, NonBlank;
    SplitDistributes(CLEAN, SET_A);
    NoSeparator(CLEAN, SEMICOLON);
    NoSeparator(SET_A, SEMICOLON);
    SessionCommands.PlainTrims(CLEAN);
    SessionCommands.PlainTrims(SET_A);
    OneStatement(CLEAN);
    OneStatement(SET_A);
  }

  /** `SELECT 1;SET A = B` is let through in transaction mode outside a transaction, and pins by the variable alone. */
  lemma BatchedSetPins(max: nat)
    ensures Validate(TransactionMode, CLEAN + [SEMICOLON] + SET_A, false) == Allowed
    ensures var s := ApplyAll(Fresh(max), QueryEvents(CLEAN + [SEMICOLON] + SET_A));
            Pinned(s) && forall r: Resource :: Holds(s, r) <==> r == Variable([97])
  {
    hide Detect, Statements, Pinned;
    var q := CLEAN + [SEMICOLON] + SET_A;
    SessionCommands.PlainTrims(CLEAN);
    assert q[0] == 83 && q[|q| - 1] == 66;
    assert Upper(q) == q;
    assert Trim(q) == q;
    NothingDetected(q);
    BatchStatements();
    CleanIsClean();
    SetIsSet();
    var es := QueryEvents(q);
    var c := Detect(SET_A).command;
    assert Classify(SET_A) == Stateful(c);
    assert es == [Executed(Clean), Executed(Stateful(c))];
    hide Classify, QueryEvents;
    assert es[..1] == [Executed(Clean)];
    SessionCommands.OneApplied(Fresh(max), Executed(Clean));
    var s := ApplyAll(Fresh(max), es);
    assert s == Apply(ApplyAll(Fresh(max), es[..1]), es[1]);
    assert s == Fresh(max).(variables := map[[97] := c.value]);
    assert Holds(s, Variable([97]));
    PinnedHolds(s);
  }

  /** So does `;SET A = B`, a single statement behind a semicolon. */
  lemma LeadingSemicolonPins(max: nat)
    ensures Validate(TransactionMode, [SEMICOLON] + SET_A, false) == Allowed
    ensures Statements([SEMICOLON] + SET_A) == [SET_A]
    ensures PinsOtherwise(max, [SEMICOLON] + SET_A)
  {
    hide Detect, SplitOn, NonBlank, PinsOtherwise;
    var q := [SEMICOLON] + SET_A;
    assert q[|q| - 1] == 66 && Upper(q) == q && Trim(q) == q;
    NothingDetected(q);
    var none: Bytes := [];
    assert none + [SEMICOLON] + SET_A == q;
    SplitDistributes(none, SET_A);
    DegenerateHasNoStatement(none);
    NoSeparator(SET_A, SEMICOLON);
    SessionCommands.PlainTrims(SET_A);
    OneStatement(SET_A);
    SetIsSet();
    assert Creates(Classify(SET_A));
    hide Classify, Statements;
    OneLeaves(q);
    PinsAreLeft(max, q);
  }
}
