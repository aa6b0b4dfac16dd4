/** `CommandDetector`: which SQL text changes session state, which is positively clean, and which cannot be told. */
module CommandDetector {
  import opened WireBytes
  import opened TextOps

  datatype Command =
    | Set(name: Bytes, value: Bytes)
    | Reset(name: Bytes)
    | ResetAll
    | CreateTempTable(name: Bytes)
    | DropTable(name: Bytes)
    | DeclareCursor(name: Bytes, withHold: bool)
    | CloseCursor(name: Bytes)
    | AdvisoryLock(key: Option<int>)
    | AdvisoryUnlock(key: Option<int>)
    | DiscardAll
    | Deallocate(name: Bytes)
    | DeallocateAll
    | Listen(channel: Bytes)
    | Unlisten(all: bool, channel: Bytes)
    | Notify(channel: Bytes, payload: Option<Bytes>)

  /** The outcome of `detect`; slicing a lock key out of a text whose first `)` precedes its first `(` panics. */
  datatype Detection = NoCommand | Found(command: Command) | DetectPanics

  datatype Class = Clean | Stateful(command: Command) | Unknown | ClassifyPanics

  function Detect(sql: Bytes): (d: Detection) {
    var t := Trim(sql);
    var u := Upper(t);
    if Ascii("SET ") <= u then ParseSet(t)
    else if Ascii("RESET ") <= u then ParseReset(t)
    else if Ascii("DISCARD ALL") <= u then Found(DiscardAll)
    else if Contains(u, Ascii("CREATE")) && (Contains(u, Ascii("TEMP TABLE")) || Contains(u, Ascii("TEMPORARY TABLE"))) then
      ParseCreateTempTable(t, u)
    else if Ascii("DROP TABLE") <= u then ParseDropTable(t)
    else if Ascii("DECLARE ") <= u && Contains(u, Ascii("CURSOR")) then ParseDeclareCursor(t, u)
    else if Ascii("CLOSE ") <= u then Named(FirstWord(t[6..]), n => CloseCursor(n))
    else if Ascii("DEALLOCATE ") <= u then ParseDeallocate(t)
    else if Ascii("LISTEN ") <= u then Named(FirstWord(t[7..]), n => Listen(TrimByte(n, QUOTE)))
    else if Ascii("UNLISTEN ") <= u || u == Ascii("UNLISTEN") then ParseUnlisten(t)
    else if Ascii("NOTIFY ") <= u then ParseNotify(t)
    else if Contains(u, Ascii("PG_ADVISORY_LOCK")) && !Contains(u, Ascii("PG_ADVISORY_UNLOCK")) then
      LockKey(u, k => AdvisoryLock(k))
    else if Contains(u, Ascii("PG_ADVISORY_UNLOCK")) then LockKey(u, k => AdvisoryUnlock(k))
    else NoCommand
  }

  const QUOTE: byte := 34
  const APOSTROPHE: byte := 39

  function Named(word: Option<Bytes>, make: Bytes -> Command): (d: Detection) {
    match word
    case None => NoCommand
    case Some(w) => Found(make(w))
  }

  function ParseSet(t: Bytes): (d: Detection)
    requires |t| >= 4
  {
    var rest := Trim(t[3..]);
    match Find(rest, Ascii("="))
    case Some(i) => Found(Set(Lower(Trim(rest[..i])), TrimByte(Trim(rest[i + 1..]), APOSTROPHE)))
    case None =>
      match Find(Upper(rest), Ascii(" TO "))
      case Some(i) => Found(Set(Lower(Trim(rest[..i])), TrimByte(Trim(rest[i + 4..]), APOSTROPHE)))
      case None => NoCommand
  }

  function ParseReset(t: Bytes): (d: Detection)
    requires |t| >= 6
  {
    var rest := Trim(t[5..]);
    if EqIgnoreCase(rest, Ascii("ALL")) then Found(ResetAll) else Found(Reset(Lower(rest)))
  }

  function ParseCreateTempTable(t: Bytes, u: Bytes): (d: Detection)
    requires |u| == |t|
  {
    match Find(u, Ascii("TEMP TABLE"))
    case Some(i) => Named(FirstWord(t[i + 10..]), n => CreateTempTable(n))
    case None =>
      match Find(u, Ascii("TEMPORARY TABLE"))
      case Some(i) => Named(FirstWord(t[i + 15..]), n => CreateTempTable(n))
      case None => NoCommand
  }

  function ParseDropTable(t: Bytes): (d: Detection)
    requires |t| >= 10
  {
    var rest := Trim(t[10..]);
    var rest' := if Ascii("IF EXISTS") <= Upper(rest) then Trim(rest[9..]) else rest;
    Named(FirstWord(rest'), n => DropTable(n))
  }

  function ParseDeclareCursor(t: Bytes, u: Bytes): (d: Detection)
    requires |u| == |t| >= 8
  {
    var hold := Contains(u, Ascii("WITH HOLD"));
    Named(FirstWord(t[8..]), n => DeclareCursor(n, hold))
  }

  function ParseDeallocate(t: Bytes): (d: Detection)
    requires |t| >= 11
  {
    var rest := Trim(t[11..]);
    var rest' := if Ascii("PREPARE ") <= Upper(rest) then Trim(rest[8..]) else rest;
    if EqIgnoreCase(rest', Ascii("ALL")) then Found(DeallocateAll)
    else Named(FirstWord(rest'), n => Deallocate(n))
  }

  function ParseUnlisten(t: Bytes): (d: Detection)
    requires |t| >= 8
  {
    var rest := Trim(t[8..]);
    if rest == [] || rest == Ascii("*") then Found(Unlisten(true, []))
    else Named(FirstWord(rest), n => Unlisten(false, TrimByte(n, QUOTE)))
  }

  function ParseNotify(t: Bytes): (d: Detection)
    requires |t| >= 7
  {
    var rest := Trim(t[7..]);
    match Find(rest, Ascii(","))
    case Some(i) => Found(Notify(TrimByte(Trim(rest[..i]), QUOTE), Some(TrimByte(Trim(rest[i + 1..]), APOSTROPHE))))
    case None => Found(Notify(TrimByte(rest, QUOTE), None))
  }

  /** The integer between the first `(` and the first `)`. */
  function LockKey(u: Bytes, make: Option<int> -> Command): (d: Detection) {
    match (Find(u, Ascii("(")), Find(u, Ascii(")")))
    case (Some(open), Some(close)) =>
      if close < open + 1 then DetectPanics else Found(make(ParseI64(Trim(u[open + 1..close]))))
    case _ => Found(make(None))
  }

  predicate StartsWithKeyword(u: Bytes, kw: Bytes) {
    kw <= u && (|u| == |kw| || Blank(u[|kw|]) || u[|kw|] == 40 || u[|kw|] == SEMICOLON)
  }

  predicate KnownClean(sql: Bytes) {
    var u := Upper(TrimStart(sql));
    && !Contains(u, Ascii("SET_CONFIG"))
    && (|| StartsWithKeyword(u, Ascii("SELECT")) || StartsWithKeyword(u, Ascii("INSERT"))
        || StartsWithKeyword(u, Ascii("UPDATE")) || StartsWithKeyword(u, Ascii("DELETE"))
        || StartsWithKeyword(u, Ascii("WITH")) || StartsWithKeyword(u, Ascii("VALUES"))
        || StartsWithKeyword(u, Ascii("TABLE")) || StartsWithKeyword(u, Ascii("EXPLAIN"))
        || StartsWithKeyword(u, Ascii("SHOW")) || StartsWithKeyword(u, Ascii("BEGIN"))
        || StartsWithKeyword(u, Ascii("START")) || StartsWithKeyword(u, Ascii("COMMIT"))
        || StartsWithKeyword(u, Ascii("ROLLBACK")) || StartsWithKeyword(u, Ascii("END"))
        || StartsWithKeyword(u, Ascii("ABORT")) || StartsWithKeyword(u, Ascii("SAVEPOINT"))
        || StartsWithKeyword(u, Ascii("RELEASE")))
  }

  function Classify(sql: Bytes): (c: Class) {
    match Detect(sql)
    case DetectPanics => ClassifyPanics
    case Found(cmd) => Stateful(cmd)
    case NoCommand => if KnownClean(sql) then Clean else Unknown
  }

  function SplitStatements(sql: Bytes): (r: seq<Bytes>) {
    NonBlank(SplitOn(sql, SEMICOLON))
  }

  // ---------------------------------------------------------------- laws

  /** Splitting distributes over `;`, for every two texts. */
  lemma SplitDistributes(a: Bytes, b: Bytes)
    ensures SplitStatements(a + [SEMICOLON] + b) == SplitStatements(a) + SplitStatements(b)
  {
    SplitAround(a, SEMICOLON, b);
    NonBlankAppend(SplitOn(a, SEMICOLON), SplitOn(b, SEMICOLON));
  }

  /** Nothing but blanks and semicolons. */
  predicate Degenerate(sql: Bytes) {
    forall i | 0 <= i < |sql| :: Blank(sql[i]) || sql[i] == SEMICOLON
  }

  lemma DegenerateHasNoStatement(sql: Bytes)
    ensures Degenerate(sql) <==> SplitStatements(sql) == []
  {
    NoStatements(sql);
  }

  lemma {:induction false} TrimStartDegenerate(sql: Bytes)
    requires Degenerate(sql)
    ensures Degenerate(TrimStart(sql))
  {
    if sql != [] && Blank(sql[0]) {
      TrimStartDegenerate(sql[1..]);
    }
  }

  lemma {:induction false} TrimEndDegenerate(sql: Bytes)
    requires Degenerate(sql)
    ensures Degenerate(TrimEnd(sql))
  {
    if sql != [] && Blank(sql[|sql| - 1]) {
      TrimEndDegenerate(sql[..|sql| - 1]);
    }
  }

  /** A text with no letter in it is no prefix of, and contains, no keyword. */
  lemma NoKeyword(u: Bytes, kw: Bytes)
    requires Degenerate(u)
    requires exists i | 0 <= i < |kw| :: 65 <= kw[i] <= 90
    ensures !(kw <= u) && !Contains(u, kw)
  {
    var i :| 0 <= i < |kw| && 65 <= kw[i] <= 90;
    assert forall j | 0 <= j < |u| :: u[j] < 65;
    if Contains(u, kw) {
      ContainsBytes(u, kw, kw[i]);
    }
  }

  lemma KeywordLetter(t: string, i: nat)
    requires i < |t| && 'A' <= t[i] <= 'Z'
    ensures exists j | 0 <= j < |Ascii(t)| :: 65 <= Ascii(t)[j] <= 90
  {
    assert Ascii(t)[i] == t[i] as int;
  }

  lemma NoWord(u: Bytes, t: string)
    requires Degenerate(u) && t != "" && 'A' <= t[0] <= 'Z'
    ensures !(Ascii(t) <= u) && !Contains(u, Ascii(t)) && u != Ascii(t) && !StartsWithKeyword(u, Ascii(t))
  {
    KeywordLetter(t, 0);
    NoKeyword(u, Ascii(t));
  }

  /** Degenerate input is classified Unknown: the fail-closed fallback of `apply_query` rests on this. */
  lemma DegenerateIsUnknown(sql: Bytes)
    requires Degenerate(sql)
    ensures Classify(sql) == Unknown
  {
    hide Contains, StartsWithKeyword, ParseSet, ParseReset, ParseDropTable, ParseCreateTempTable, ParseDeallocate,
         ParseDeclareCursor, ParseUnlisten, ParseNotify, LockKey, Ascii, Upper;
    TrimStartDegenerate(sql);
    TrimEndDegenerate(TrimStart(sql));
    var u := Upper(Trim(sql));
    var v := Upper(TrimStart(sql));
    UpperDegenerate(Trim(sql));
    UpperDegenerate(TrimStart(sql));
    NoWord(u, "SET "); NoWord(u, "RESET "); NoWord(u, "DISCARD ALL"); NoWord(u, "CREATE"); NoWord(u, "DROP TABLE");
    NoWord(u, "DECLARE "); NoWord(u, "CLOSE "); NoWord(u, "DEALLOCATE "); NoWord(u, "LISTEN "); NoWord(u, "UNLISTEN ");
    NoWord(u, "UNLISTEN"); NoWord(u, "NOTIFY "); NoWord(u, "PG_ADVISORY_LOCK"); NoWord(u, "PG_ADVISORY_UNLOCK");
    NoWord(v, "SELECT"); NoWord(v, "INSERT"); NoWord(v, "UPDATE"); NoWord(v, "DELETE"); NoWord(v, "WITH");
    NoWord(v, "VALUES"); NoWord(v, "TABLE"); NoWord(v, "EXPLAIN"); NoWord(v, "SHOW"); NoWord(v, "BEGIN");
    NoWord(v, "START"); NoWord(v, "COMMIT"); NoWord(v, "ROLLBACK"); NoWord(v, "END"); NoWord(v, "ABORT");
    NoWord(v, "SAVEPOINT"); NoWord(v, "RELEASE");
  }

  lemma UpperDegenerate(s: Bytes)
    requires Degenerate(s)
    ensures Degenerate(Upper(s))
  {
  }

  /** Classification panics exactly when no earlier rule applies, the text names an advisory lock function, and its
      first `)` comes before its first `(`. */
  lemma ClassifyPanicsExactly(sql: Bytes)
    ensures Classify(sql) == ClassifyPanics <==>
            var u := Upper(Trim(sql));
            && (Contains(u, Ascii("PG_ADVISORY_LOCK")) || Contains(u, Ascii("PG_ADVISORY_UNLOCK")))
            && Contains(u, Ascii("(")) && Contains(u, Ascii(")"))
            && Find(u, Ascii(")")).value < Find(u, Ascii("(")).value
            && !EarlierRule(u)
  {
    hide Find, Ascii, Upper, Trim, KnownClean;
    var u := Upper(Trim(sql));
    if Contains(u, Ascii("(")) && Contains(u, Ascii(")")) {
      DistinctParens(u);
    }
  }

  /** One of the rules before the advisory-lock rules claims the text. */
  predicate EarlierRule(u: Bytes) {
    || Ascii("SET ") <= u || Ascii("RESET ") <= u || Ascii("DISCARD ALL") <= u
    || (Contains(u, Ascii("CREATE")) && (Contains(u, Ascii("TEMP TABLE")) || Contains(u, Ascii("TEMPORARY TABLE"))))
    || Ascii("DROP TABLE") <= u || (Ascii("DECLARE ") <= u && Contains(u, Ascii("CURSOR"))) || Ascii("CLOSE ") <= u
    || Ascii("DEALLOCATE ") <= u || Ascii("LISTEN ") <= u || Ascii("UNLISTEN ") <= u || u == Ascii("UNLISTEN")
    || Ascii("NOTIFY ") <= u
  }

  lemma DistinctParens(u: Bytes)
    requires Contains(u, Ascii("(")) && Contains(u, Ascii(")"))
    ensures Find(u, Ascii("(")).value != Find(u, Ascii(")")).value
  {
    var i, j := Find(u, Ascii("(")).value, Find(u, Ascii(")")).value;
    assert u[i..i + 1][0] == Ascii("(")[0] && u[j..j + 1][0] == Ascii(")")[0];
  }
}
