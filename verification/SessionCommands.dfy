/** From SQL text to the tracker: the text that creates a session resource pins the connection by the name it records, and
    the text that ends a resource takes away the name it records. Keywords may be in any case, and more may follow. */
module SessionCommands {
  import opened WireBytes
  import opened TextOps
  import opened TextLaws
  import opened CommandDetector
  import opened ConnectionState

  /** A name as the rules read one, quoted or not: no blank and no semicolon in it. */
  predicate Solid(n: Bytes) {
    n != [] && forall i | 0 <= i < |n| :: !Blank(n[i]) && n[i] != SEMICOLON
  }

  /** The keyword, in any case. */
  predicate Spells(k: Bytes, t: string) { Upper(k) == Ascii(t) }

  /** The rule for temporary tables looks for its words anywhere in the text. */
  predicate TableRule(sql: Bytes) {
    var u := Upper(sql);
    Contains(u, Ascii("CREATE")) && (Contains(u, Ascii("TEMP TABLE")) || Contains(u, Ascii("TEMPORARY TABLE")))
  }

  // ---------------------------------------------------------------- which rule claims a text

  lemma PlainTrims(s: Bytes)
    requires Bare(s)
    ensures Trim(s) == s && TrimStart(s) == s && Trim([32] + s) == s && TrimStart([32] + s) == s
  {
    assert ([32] + s)[1..] == s;
  }

  lemma Folded(k: Bytes, t: string, x: Bytes)
    requires Spells(k, t)
    ensures Upper(k + x) == Ascii(t) + Upper(x) && |k| == |t|
  {
    assert Upper(k + x) == Upper(k) + Upper(x);
  }

  /** Texts by their first two bytes: which keyword tests fail. */
  lemma FirstBytes(u: Bytes)
    requires |u| >= 3
    ensures u[0] != 83 || u[1] != 69 || u[2] != 84 ==> !(Ascii("SET ") <= u)
    ensures u[0] != 82 ==> !(Ascii("RESET ") <= u)
    ensures u[0] != 68 || u[1] != 73 ==> !(Ascii("DISCARD ALL") <= u)
    ensures u[0] != 68 || u[1] != 82 ==> !(Ascii("DROP TABLE") <= u)
    ensures u[0] != 68 || u[1] != 69 ==> !(Ascii("DECLARE ") <= u)
    ensures u[0] != 67 ==> !(Ascii("CLOSE ") <= u)
    ensures u[0] != 68 ==> !(Ascii("DEALLOCATE ") <= u)
    ensures u[0] != 76 ==> !(Ascii("LISTEN ") <= u)
    ensures u[0] != 85 ==> !(Ascii("UNLISTEN ") <= u) && u != Ascii("UNLISTEN")
    ensures u[0] != 78 ==> !(Ascii("NOTIFY ") <= u)
  {
    assert Ascii("SET ")[0] == 83 && Ascii("SET ")[1] == 69 && Ascii("SET ")[2] == 84;
    assert Ascii("RESET ")[0] == 82 && Ascii("CLOSE ")[0] == 67 && Ascii("DEALLOCATE ")[0] == 68;
    assert Ascii("DISCARD ALL")[0] == 68 && Ascii("DISCARD ALL")[1] == 73;
    assert Ascii("DROP TABLE")[0] == 68 && Ascii("DROP TABLE")[1] == 82;
    assert Ascii("DECLARE ")[0] == 68 && Ascii("DECLARE ")[1] == 69;
    assert Ascii("LISTEN ")[0] == 76 && Ascii("UNLISTEN ")[0] == 85 && Ascii("UNLISTEN")[0] == 85 && Ascii("NOTIFY ")[0] == 78;
  }

  /** The first two bytes of a folded text. */
  lemma Begins(u: Bytes, t: string)
    requires Ascii(t) <= u && |t| >= 3
    ensures |u| >= 3 && u[0] == t[0] as int % 128 && u[1] == t[1] as int % 128 && u[2] == t[2] as int % 128
  {
    assert Ascii(t)[0] == t[0] as int % 128 && Ascii(t)[1] == t[1] as int % 128 && Ascii(t)[2] == t[2] as int % 128;
  }

  /** A trimmed text that begins with a keyword is claimed by that keyword's rule, unless the table rule comes first. */
  lemma ByKeyword(t: Bytes)
    requires Trim(t) == t && |t| >= 3
    ensures var u := Upper(t);
            && (Ascii("SET ") <= u ==> Detect(t) == ParseSet(t))
            && (Ascii("RESET ") <= u ==> Detect(t) == ParseReset(t))
            && (Ascii("CREATE ") <= u && TableRule(t) ==> Detect(t) == ParseCreateTempTable(t, u))
            && (!TableRule(t) ==>
                 && (Ascii("DROP TABLE") <= u ==> Detect(t) == ParseDropTable(t))
                 && (Ascii("DECLARE ") <= u && Contains(u, Ascii("CURSOR")) ==> Detect(t) == ParseDeclareCursor(t, u)))
  {
    hide Trim, Contains, Upper, Ascii, ParseSet, ParseReset, ParseDropTable, ParseCreateTempTable, ParseDeallocate,
         ParseDeclareCursor, ParseUnlisten, ParseNotify, LockKey, FirstWord;
    var u := Upper(t);
    FirstBytes(u);
    if Ascii("RESET ") <= u { Begins(u, "RESET "); }
    if Ascii("CREATE ") <= u { Begins(u, "CREATE "); }
    if Ascii("DROP TABLE") <= u { Begins(u, "DROP TABLE"); }
    if Ascii("DECLARE ") <= u { Begins(u, "DECLARE "); }
  }

  lemma ByNameKeyword(t: Bytes)
    requires Trim(t) == t && |t| >= 3 && !TableRule(t)
    ensures var u := Upper(t);
            && (Ascii("CLOSE ") <= u ==>
                  var w := FirstWord(t[6..]);
                  Detect(t) == if w.None? then NoCommand else Found(CloseCursor(w.value)))
            && (Ascii("LISTEN ") <= u ==>
                  var w := FirstWord(t[7..]);
                  Detect(t) == if w.None? then NoCommand else Found(Listen(TrimByte(w.value, QUOTE))))
            && (Ascii("UNLISTEN ") <= u ==> Detect(t) == ParseUnlisten(t))
  {
    hide Trim, Contains, Upper, Ascii, ParseSet, ParseReset, ParseDropTable, ParseCreateTempTable, ParseDeallocate,
         ParseDeclareCursor, ParseUnlisten, ParseNotify, LockKey, FirstWord, TrimByte;
    var u := Upper(t);
    FirstBytes(u);
    if Ascii("CLOSE ") <= u { Begins(u, "CLOSE "); }
    if Ascii("LISTEN ") <= u { Begins(u, "LISTEN "); }
    if Ascii("UNLISTEN ") <= u { Begins(u, "UNLISTEN "); }
  }

  // ---------------------------------------------------------------- the names recorded

  lemma FirstOf(x: Bytes)
    requires Bare(x)
    ensures FirstWord(x) == Some(UntilBlank(x)) && FirstWord([32] + x) == Some(UntilBlank(x))
  {
    PlainTrims(x);
  }

  /** `CREATE TEMP TABLE x` records what stands in `x` up to its first blank. */
  lemma RecordsTable(k: Bytes, x: Bytes)
    requires Spells(k, "CREATE TEMP TABLE ") && Bare(x) && Bare(k + x)
    ensures Detect(k + x) == Found(CreateTempTable(UntilBlank(x)))
  {
    hide Trim, Upper, Find, FirstWord, UntilBlank, Detect, Ascii;
    var t := k + x;
    Folded(k, "CREATE TEMP TABLE ", x);
    KeywordBlank(k, "CREATE TEMP TABLE ");
    PlainTrims(t);
    TableText(Upper(x));
    ByKeyword(t);
    TableName(t, Upper(t), k, x);
  }

  /** So does `CREATE TEMPORARY TABLE x`, when it does not say TEMP TABLE as well. */
  lemma RecordsLongTable(k: Bytes, x: Bytes)
    requires Spells(k, "CREATE TEMPORARY TABLE ") && Bare(x) && Bare(k + x) && !HasWord(k + x, Ascii("TEMP TABLE"))
    ensures Detect(k + x) == Found(CreateTempTable(UntilBlank(x)))
  {
    hide Trim, Upper, Find, FirstWord, UntilBlank, Detect, Ascii;
    var t := k + x;
    Folded(k, "CREATE TEMPORARY TABLE ", x);
    KeywordBlank(k, "CREATE TEMPORARY TABLE ");
    PlainTrims(t);
    LongTableText(Upper(x));
    ByKeyword(t);
    LongTableName(t, Upper(t), k, x);
  }

  lemma LongTableLiteral()
    ensures Ascii("CREATE TEMPORARY TABLE ") == Ascii("CREATE ") + Ascii("TEMPORARY TABLE") + [32]
  {
  }

  lemma LongTableWords()
    ensures Ascii("CREATE ") == Ascii("CREATE") + [32] && Ascii("CREATE ") == [67, 82, 69, 65, 84, 69, 32]
    ensures |Ascii("CREATE")| == 6 && |Ascii("TEMPORARY TABLE")| == 15
    ensures Ascii("TEMPORARY TABLE")[0] == 84 && Ascii("TEMPORARY TABLE")[2] == 77
  {
  }

  lemma LongTableText(x: Bytes)
    ensures var u := Ascii("CREATE TEMPORARY TABLE ") + x;
            Ascii("CREATE ") <= u && Contains(u, Ascii("CREATE")) && Find(u, Ascii("TEMPORARY TABLE")) == Some(7)
  {
    var head, c, p := Ascii("CREATE TEMPORARY TABLE "), Ascii("CREATE"), Ascii("TEMPORARY TABLE");
    LongTableLiteral();
    LongTableWords();
    hide Ascii;
    assert head[0..6] == c && head[7..22] == p;
    var u := head + x;
    assert u[0..6] == c && u[7..22] == p;
    FoundFrom(u, c, 0, 0);
    TableFound(u, p);
  }

  lemma LongTableName(t: Bytes, u: Bytes, k: Bytes, x: Bytes)
    requires Bare(x) && t == k + x && |k| == 23 && k[22] == 32 && |u| == |t|
    requires Find(u, Ascii("TEMP TABLE")) == None && Find(u, Ascii("TEMPORARY TABLE")) == Some(7)
    ensures ParseCreateTempTable(t, u) == Found(CreateTempTable(UntilBlank(x)))
  {
    hide Find, FirstWord, UntilBlank;
    assert t[22..] == [32] + x;
    FirstOf(x);
  }

  lemma TableText(x: Bytes)
    ensures var u := Ascii("CREATE TEMP TABLE ") + x;
            Ascii("CREATE ") <= u && Contains(u, Ascii("CREATE")) && Find(u, Ascii("TEMP TABLE")) == Some(7)
  {
    var head, c, p := Ascii("CREATE TEMP TABLE "), Ascii("CREATE"), Ascii("TEMP TABLE");
    assert head == [67, 82, 69, 65, 84, 69, 32, 84, 69, 77, 80, 32, 84, 65, 66, 76, 69, 32];
    assert head[0..6] == c && head[7..17] == p && p[0] == 84 && p[2] == 77 && head[..7] == Ascii("CREATE ");
    hide Ascii;
    var u := head + x;
    assert u[0..6] == c && u[7..17] == p;
    FoundFrom(u, c, 0, 0);
    TableFound(u, p);
  }

  lemma TableFound(u: Bytes, p: Bytes)
    requires |p| >= 3 && |u| >= 7 + |p| && u[7..7 + |p|] == p && p[0] == 84 && p[2] == 77
    requires u[..7] == [67, 82, 69, 65, 84, 69, 32]
    ensures Find(u, p) == Some(7)
  {
    hide FindFrom;
    FoundFrom(u, p, 0, 7);
    var i := Find(u, p).value;
    assert u[i..i + |p|][0] == u[i] && u[i..i + |p|][2] == u[i + 2];
    assert forall j | 0 <= j < 7 :: u[j] == u[..7][j];
  }

  lemma TableName(t: Bytes, u: Bytes, k: Bytes, x: Bytes)
    requires Bare(x) && t == k + x && |k| == 18 && k[17] == 32 && |u| == |t| && Find(u, Ascii("TEMP TABLE")) == Some(7)
    ensures ParseCreateTempTable(t, u) == Found(CreateTempTable(UntilBlank(x)))
  {
    hide Find, FirstWord, UntilBlank;
    assert t[17..] == [32] + x;
    FirstOf(x);
  }

  /** The last byte of a keyword that ends in a blank. */
  lemma KeywordBlank(k: Bytes, t: string)
    requires Spells(k, t) && t != "" && t[|t| - 1] == ' '
    ensures |k| == |t| && k[|k| - 1] == 32
  {
    assert Upper(k)[|k| - 1] == Ascii(t)[|t| - 1];
  }

  /** `DROP TABLE x` records the same part of `x`, when it does not say IF EXISTS. */
  lemma RecordsDrop(k: Bytes, x: Bytes)
    requires Spells(k, "DROP TABLE ") && Bare(x) && Bare(k + x) && !TableRule(k + x) && !(Ascii("IF EXISTS") <= Upper(x))
    ensures Detect(k + x) == Found(DropTable(UntilBlank(x)))
  {
    hide Trim, Upper, FirstWord, UntilBlank, Detect, Contains, Ascii;
    var t := k + x;
    Folded(k, "DROP TABLE ", x);
    KeywordBlank(k, "DROP TABLE ");
    PlainTrims(t);
    DropPrefix(Upper(x));
    ByKeyword(t);
    assert t[10..] == [32] + x;
    PlainTrims(x);
    FirstOf(x);
  }

  /** `DROP TABLE IF EXISTS x` records it from there on. */
  lemma RecordsDropIfExists(k: Bytes, x: Bytes)
    requires Spells(k, "DROP TABLE IF EXISTS ") && Bare(x) && Bare(k + x) && !TableRule(k + x)
    ensures Detect(k + x) == Found(DropTable(UntilBlank(x)))
  {
    hide Trim, Upper, FirstWord, UntilBlank, Detect, Contains, Ascii, TableRule;
    var t := k + x;
    Folded(k, "DROP TABLE IF EXISTS ", x);
    IfExistsFacts(k, x);
    PlainTrims(t);
    ByKeyword(t);
    assert Bare(k[11..] + x) by { assert t[11..] == k[11..] + x; }
    DropName(t, k[11..] + x, x);
  }

  lemma IfExistsFacts(k: Bytes, x: Bytes)
    requires Spells(k, "DROP TABLE IF EXISTS ")
    ensures |k| == 21 && k[10] == 32 && k[20] == 32 && !Blank(k[11])
    ensures Ascii("DROP TABLE") <= Ascii("DROP TABLE IF EXISTS ") + x
    ensures Ascii("IF EXISTS") <= Upper(k[11..] + x)
  {
    var u := Ascii("DROP TABLE IF EXISTS ");
    DropLiteral();
    IfExistsLiteral();
    hide Ascii;
    assert Upper(k)[10] == 32 && Upper(k)[20] == 32 && Upper(k)[11] == 73;
    assert u[11..20] == Ascii("IF EXISTS") && u[..10] == Ascii("DROP TABLE");
    assert Upper(k[11..] + x)[..9] == Upper(k)[11..20];
  }

  lemma DropLiteral()
    ensures Ascii("DROP TABLE IF EXISTS ") == Ascii("DROP TABLE") + [32] + Ascii("IF EXISTS") + [32]
  {
  }

  lemma IfExistsLiteral()
    ensures |Ascii("DROP TABLE")| == 10 && |Ascii("IF EXISTS")| == 9 && Ascii("IF EXISTS")[0] == 73
  {
  }

  lemma DropName(t: Bytes, rest: Bytes, x: Bytes)
    requires |t| >= 10 && t[10..] == [32] + rest && Bare(x) && |rest| >= 10 && rest[10..] == x && rest[9] == 32
    requires Bare(rest) && Ascii("IF EXISTS") <= Upper(rest)
    ensures ParseDropTable(t) == Found(DropTable(UntilBlank(x)))
  {
    hide Upper, FirstWord, UntilBlank, Ascii;
    PlainTrims(rest);
    assert rest[9..] == [32] + x;
    PlainTrims(x);
    FirstOf(x);
  }

  lemma DropPrefix(x: Bytes)
    ensures Ascii("DROP TABLE") <= Ascii("DROP TABLE ") + x
  {
    assert Ascii("DROP TABLE ")[..10] == Ascii("DROP TABLE");
  }

  /** `DECLARE x` records it as a cursor when the word CURSOR is anywhere. */
  lemma RecordsCursor(k: Bytes, x: Bytes)
    requires Spells(k, "DECLARE ") && Bare(x) && Bare(k + x) && !TableRule(k + x) && HasWord(k + x, Ascii("CURSOR"))
    ensures Detect(k + x) == Found(DeclareCursor(UntilBlank(x), HasWord(k + x, Ascii("WITH HOLD"))))
  {
    hide Trim, Upper, FirstWord, UntilBlank, Detect, Contains, Ascii;
    var t := k + x;
    Folded(k, "DECLARE ", x);
    PlainTrims(t);
    ByKeyword(t);
    assert t[8..] == x;
    FirstOf(x);
  }

  lemma RecordsClose(k: Bytes, x: Bytes)
    requires Spells(k, "CLOSE ") && Bare(x) && Bare(k + x) && !TableRule(k + x)
    ensures Detect(k + x) == Found(CloseCursor(UntilBlank(x)))
  {
    hide Trim, Upper, FirstWord, UntilBlank, Detect, Contains, Ascii;
    var t := k + x;
    Folded(k, "CLOSE ", x);
    PlainTrims(t);
    ByNameKeyword(t);
    assert t[6..] == x;
    FirstOf(x);
  }

  lemma RecordsListen(k: Bytes, x: Bytes)
    requires Spells(k, "LISTEN ") && Bare(x) && Bare(k + x) && !TableRule(k + x)
    ensures Detect(k + x) == Found(Listen(TrimByte(UntilBlank(x), QUOTE)))
  {
    hide Trim, Upper, FirstWord, UntilBlank, Detect, Contains, Ascii, TrimByte;
    var t := k + x;
    Folded(k, "LISTEN ", x);
    PlainTrims(t);
    ByNameKeyword(t);
    assert t[7..] == x;
    FirstOf(x);
  }

  lemma RecordsUnlisten(k: Bytes, x: Bytes)
    requires Spells(k, "UNLISTEN ") && Bare(x) && Bare(k + x) && !TableRule(k + x) && x != [42]
    ensures Detect(k + x) == Found(Unlisten(false, TrimByte(UntilBlank(x), QUOTE)))
  {
    hide Trim, Upper, FirstWord, UntilBlank, Detect, Contains, TrimByte;
    var t := k + x;
    Folded(k, "UNLISTEN ", x);
    KeywordBlank(k, "UNLISTEN ");
    PlainTrims(t);
    assert Ascii("*") == [42];
    hide Ascii;
    ByNameKeyword(t);
    assert t[8..] == [32] + x;
    PlainTrims(x);
    FirstOf(x);
  }

  /** The name, then an equals sign behind any blanks, or the word TO between blanks and no equals sign at all. */
  predicate Assigns(x: Bytes, n: Bytes) {
    && n <= x
    && var z := x[|n|..];
    && TrimStart(z) != []
    && (TrimStart(z)[0] == 61 || (61 !in x && Ascii(" TO ") <= Upper(z)))
  }

  /** `SET n = v`, `SET n=v` and `SET n TO v` record the folded name. */
  lemma RecordsSet(k: Bytes, x: Bytes, n: Bytes)
    requires Spells(k, "SET ") && Bare(x) && Bare(k + x) && Solid(n) && 61 !in n && Assigns(x, n)
    ensures Detect(k + x).Found? && Detect(k + x).command.Set? && Detect(k + x).command.name == Lower(n)
  {
    hide Trim, Upper, Detect, Lower, Ascii, ParseSet, Assigns;
    var t := k + x;
    Folded(k, "SET ", x);
    KeywordBlank(k, "SET ");
    PlainTrims(t);
    ByKeyword(t);
    SetName(t, x, n);
  }

  lemma SetName(t: Bytes, x: Bytes, n: Bytes)
    requires |t| >= 4 && t[3..] == [32] + x && Bare(x) && Solid(n) && 61 !in n && Assigns(x, n)
    ensures ParseSet(t).Found? && ParseSet(t).command.Set? && ParseSet(t).command.name == Lower(n)
  {
    hide Trim, Lower, Upper, TrimByte, Find;
    PlainTrims(x);
    assert Ascii("=") == [61];
    var z := x[|n|..];
    if TrimStart(z)[0] == 61 {
      var i := EqualsAt(x, n);
    } else {
      NotFoundByte(x, 61);
      ToAt(x, n);
    }
  }

  lemma NotFoundByte(s: Bytes, c: byte)
    requires c !in s
    ensures Find(s, [c]) == None
  {
    if Find(s, [c]).Some? {
      ContainsBytes(s, [c], c);
    }
  }

  lemma {:induction false} LeadingBlanks(z: Bytes) returns (i: nat)
    requires TrimStart(z) != []
    ensures i < |z| && z[i] == TrimStart(z)[0] && forall j | 0 <= j < i :: Blank(z[j])
  {
    if Blank(z[0]) {
      var j := LeadingBlanks(z[1..]);
      i := j + 1;
    } else {
      i := 0;
    }
  }

  lemma EqualsAt(x: Bytes, n: Bytes) returns (i: nat)
    requires Solid(n) && 61 !in n && n <= x && TrimStart(x[|n|..]) != [] && TrimStart(x[|n|..])[0] == 61
    ensures Find(x, [61]) == Some(i) && i < |x| && Trim(x[..i]) == n
  {
    hide Trim;
    var z := x[|n|..];
    var b := LeadingBlanks(z);
    i := |n| + b;
    assert x[i] == 61 && forall j | 0 <= j < i :: x[j] != 61;
    assert x[i..i + 1] == [61];
    FoundFrom(x, [61], 0, i);
    var f := Find(x, [61]).value;
    assert x[f..f + 1][0] == x[f];
    assert x[..i] == n + z[..b];
    BlanksTrim(n, z[..b]);
  }

  lemma BlanksTrim(n: Bytes, blanks: Bytes)
    requires Solid(n) && forall j | 0 <= j < |blanks| :: Blank(blanks[j])
    ensures Trim(n + blanks) == n
  {
    TrimEndAppend(n, blanks);
    AllBlank(blanks);
    assert TrimStart(n + blanks) == n + blanks;
  }

  lemma {:induction false} AllBlank(b: Bytes)
    requires forall j | 0 <= j < |b| :: Blank(b[j])
    ensures TrimEnd(b) == []
  {
    if b != [] {
      AllBlank(b[..|b| - 1]);
    }
  }

  lemma ToAt(x: Bytes, n: Bytes)
    requires Solid(n) && n <= x && Ascii(" TO ") <= Upper(x[|n|..])
    ensures Find(Upper(x), Ascii(" TO ")) == Some(|n|) && Trim(x[..|n|]) == n
  {
    var w, u := Ascii(" TO "), Upper(x);
    assert |w| == 4 && w[0] == 32;
    assert u[|n|..|n| + 4] == w;
    assert forall i | 0 <= i < |n| :: u[i] != 32;
    hide Ascii, Upper;
    FirstAt(u, w, |n|);
    assert x[..|n|] == n + [];
    BlanksTrim(n, []);
  }

  /** A word whose first byte does not occur before is found there. */
  lemma FirstAt(u: Bytes, w: Bytes, at: nat)
    requires w != [] && at + |w| <= |u| && u[at..at + |w|] == w && forall i | 0 <= i < at :: u[i] != w[0]
    ensures Find(u, w) == Some(at)
  {
    FoundFrom(u, w, 0, at);
    var f := Find(u, w).value;
    assert u[f..f + |w|][0] == u[f];
  }

  lemma AllIsUpper()
    ensures Upper(Ascii("ALL")) == Ascii("ALL")
  {
  }

  lemma RecordsReset(k: Bytes, x: Bytes)
    requires Spells(k, "RESET ") && Bare(x) && Bare(k + x) && Upper(x) != Ascii("ALL")
    ensures Detect(k + x) == Found(Reset(Lower(x)))
  {
    hide Trim, Detect, Lower, Upper, Ascii;
    var t := k + x;
    Folded(k, "RESET ", x);
    KeywordBlank(k, "RESET ");
    AllIsUpper();
    PlainTrims(t);
    ByKeyword(t);
    assert t[5..] == [32] + x;
    PlainTrims(x);
  }

  // ---------------------------------------------------------------- advisory locks

  const CALL: Bytes := [83, 69, 76, 69, 67, 84, 32]
  const LOCK: Bytes := [80, 71, 95, 65, 68, 86, 73, 83, 79, 82, 89, 95, 76, 79, 67, 75]
  const UNLOCK: Bytes := [80, 71, 95, 65, 68, 86, 73, 83, 79, 82, 89, 95, 85, 78, 76, 79, 67, 75]

  const LOCK_CALL := "SELECT PG_ADVISORY_LOCK("
  const UNLOCK_CALL := "SELECT PG_ADVISORY_UNLOCK("

  lemma LockLiterals()
    ensures Ascii("PG_ADVISORY_LOCK") == LOCK && Ascii("PG_ADVISORY_UNLOCK") == UNLOCK
  {
  }

  lemma LockCallLiteral()
    ensures Ascii(LOCK_CALL) == CALL + LOCK + [40]
  {
  }

  lemma UnlockCallLiteral()
    ensures Ascii(UNLOCK_CALL) == CALL + UNLOCK + [40]
  {
  }

  /** The key is read from between the first parentheses. */
  predicate KeyAt(u: Bytes, k: int) {
    var o, c := Find(u, Ascii("(")), Find(u, Ascii(")"));
    o.Some? && c.Some? && o.value + 1 <= c.value && ParseI64(Trim(u[o.value + 1..c.value])) == Some(k)
  }

  predicate IsI64(k: int) { -0x8000_0000_0000_0000 <= k < 0x8000_0000_0000_0000 }

  /** The key in decimal, with its sign. */
  function KeyText(k: int): (b: Bytes)
    ensures b != [] && forall i | 0 <= i < |b| :: b[i] == 45 || 48 <= b[i] <= 57
  {
    if k < 0 then [45] + Digits(-k) else Digits(k)
  }

  lemma ParseKeyText(k: int)
    requires IsI64(k)
    ensures ParseI64(Trim(KeyText(k))) == Some(k)
  {
    hide Decimal, Digits;
    PlainTrims(KeyText(k));
    DecimalOfDigits(if k < 0 then -k else k);
    assert k < 0 ==> KeyText(k)[1..] == Digits(-k);
  }

  lemma KeyBetween(head: Bytes, k: int, rest: Bytes)
    requires IsI64(k) && head != [] && head[|head| - 1] == 40
    requires forall i | 0 <= i < |head| - 1 :: head[i] != 40 && head[i] != 41
    ensures KeyAt(head + (KeyText(k) + [41] + rest), k)
  {
    hide KeyText, ParseI64, Find, Trim;
    var u := head + (KeyText(k) + [41] + rest);
    var o, c := |head| - 1, |head| + |KeyText(k)|;
    assert Ascii("(") == [40] && Ascii(")") == [41];
    assert u[o..o + 1] == [40] && u[c..c + 1] == [41];
    FirstAt(u, [40], o);
    FirstAt(u, [41], c);
    assert u[|head|..c] == KeyText(k);
    ParseKeyText(k);
  }

  lemma LockRules(t: Bytes, u: Bytes, k: int)
    requires Trim(t) == t && u == Upper(t) && !EarlierRule(u) && KeyAt(u, k)
    ensures Contains(u, Ascii("PG_ADVISORY_LOCK")) && !Contains(u, Ascii("PG_ADVISORY_UNLOCK")) ==>
              Detect(t) == Found(AdvisoryLock(Some(k)))
    ensures Contains(u, Ascii("PG_ADVISORY_UNLOCK")) ==> Detect(t) == Found(AdvisoryUnlock(Some(k)))
  {
    hide Find, Ascii, Upper, Trim, ParseI64;
  }

  predicate NameOnly(f: Bytes) {
    forall i | 0 <= i < |f| :: f[i] != 40 && f[i] != 41
  }

  lemma LockNames()
    ensures NameOnly(LOCK) && NameOnly(UNLOCK)
  {
  }

  lemma CallText(f: Bytes, k: int, rest: Bytes)
    requires IsI64(k) && NameOnly(f)
    ensures var u := CALL + f + [40] + (KeyText(k) + [41] + rest);
            KeyAt(u, k) && Contains(u, f) && |u| >= 3 && u[0] == 83 && u[2] == 76
  {
    hide KeyAt, KeyText;
    var u := CALL + f + [40] + (KeyText(k) + [41] + rest);
    KeyBetween(CALL + f + [40], k, rest);
    assert u[7..7 + |f|] == f;
    FoundFrom(u, f, 0, 7);
  }

  lemma NotEarlier(t: Bytes)
    requires var u := Upper(t); |u| >= 3 && u[0] == 83 && u[2] == 76
    requires !TableRule(t)
    ensures !EarlierRule(Upper(t))
  {
    hide Ascii, Upper, Contains;
    FirstBytes(Upper(t));
  }

  lemma UpperCall(k: int, tail: Bytes)
    ensures Upper(KeyText(k) + [41] + tail) == KeyText(k) + [41] + Upper(tail)
  {
  }

  /** `SELECT pg_advisory_lock(k)`, whatever follows but a word of the unlock function, records the key. */
  lemma RecordsLock(k: Bytes, key: int, tail: Bytes)
    requires Spells(k, LOCK_CALL) && IsI64(key)
    requires var t := k + (KeyText(key) + [41] + tail); Bare(t) && !TableRule(t) && !HasWord(t, Ascii("PG_ADVISORY_UNLOCK"))
    ensures Detect(k + (KeyText(key) + [41] + tail)) == Found(AdvisoryLock(Some(key)))
  {
    hide Ascii, Upper, Detect, KeyText, Trim, Find, KeyAt, EarlierRule, TableRule;
    var t := k + (KeyText(key) + [41] + tail);
    Folded(k, LOCK_CALL, KeyText(key) + [41] + tail);
    LockCallLiteral();
    LockLiterals();
    LockNames();
    UpperCall(key, tail);
    CallText(LOCK, key, Upper(tail));
    PlainTrims(t);
    NotEarlier(t);
    LockRules(t, Upper(t), key);
  }

  lemma RecordsUnlock(k: Bytes, key: int, tail: Bytes)
    requires Spells(k, UNLOCK_CALL) && IsI64(key)
    requires var t := k + (KeyText(key) + [41] + tail); Bare(t) && !TableRule(t)
    ensures Detect(k + (KeyText(key) + [41] + tail)) == Found(AdvisoryUnlock(Some(key)))
  {
    hide Ascii, Upper, Detect, KeyText, Trim, Find, KeyAt, EarlierRule, TableRule;
    var t := k + (KeyText(key) + [41] + tail);
    Folded(k, UNLOCK_CALL, KeyText(key) + [41] + tail);
    UnlockCallLiteral();
    LockLiterals();
    LockNames();
    UpperCall(key, tail);
    CallText(UNLOCK, key, Upper(tail));
    PlainTrims(t);
    NotEarlier(t);
    LockRules(t, Upper(t), key);
  }

  // ---------------------------------------------------------------- create, then end

  /** A resource by the name or key its text mentions. */
  datatype Form = VariableForm(n: Bytes) | ChannelForm(n: Bytes) | TableForm(n: Bytes) | CursorForm(n: Bytes) | LockForm(key: int)

  function Rest(f: Form, tail: Bytes): (x: Bytes) {
    if f.LockForm? then KeyText(f.key) + [41] + tail else f.n + tail
  }

  /** The name ends here: with the text, or at a blank. */
  predicate Ends(tail: Bytes) { tail == [] || Blank(tail[0]) }

  /** The text creates the resource: the keyword in any case, the name, and a tail the rules read as one. */
  predicate Makes(f: Form, k: Bytes, tail: Bytes) {
    var x := Rest(f, tail);
    && Bare(x) && Bare(k + x)
    && match f
       case VariableForm(n) => Spells(k, "SET ") && Solid(n) && 61 !in n && Assigns(x, n)
       case ChannelForm(n) => Spells(k, "LISTEN ") && Solid(n) && Ends(tail) && !TableRule(k + x)
       case TableForm(n) => Solid(n) && Ends(tail) && MakesTable(k, x)
       case CursorForm(n) =>
         Spells(k, "DECLARE ") && Solid(n) && Ends(tail) && !TableRule(k + x) && HasWord(k + x, Ascii("CURSOR"))
       case LockForm(key) =>
         && Spells(k, LOCK_CALL) && IsI64(key)
         && !TableRule(k + x) && !HasWord(k + x, Ascii("PG_ADVISORY_UNLOCK"))
  }

  predicate MakesTable(k: Bytes, x: Bytes) {
    || Spells(k, "CREATE TEMP TABLE ")
    || (Spells(k, "CREATE TEMPORARY TABLE ") && !HasWord(k + x, Ascii("TEMP TABLE")))
  }

  predicate DropsTable(k: Bytes, x: Bytes) {
    || (Spells(k, "DROP TABLE ") && !(Ascii("IF EXISTS") <= Upper(x)))
    || Spells(k, "DROP TABLE IF EXISTS ")
  }

  predicate Undoes(f: Form, k: Bytes, tail: Bytes) {
    var x := Rest(f, tail);
    && Bare(x) && Bare(k + x)
    && match f
       case VariableForm(n) => Spells(k, "RESET ") && tail == [] && Upper(n) != Ascii("ALL")
       case ChannelForm(n) => Spells(k, "UNLISTEN ") && Solid(n) && Ends(tail) && !TableRule(k + x) && x != [42]
       case TableForm(n) => Solid(n) && Ends(tail) && !TableRule(k + x) && DropsTable(k, x)
       case CursorForm(n) => Spells(k, "CLOSE ") && Solid(n) && Ends(tail) && !TableRule(k + x)
       case LockForm(key) => Spells(k, UNLOCK_CALL) && IsI64(key) && !TableRule(k + x)
  }

  /** Variables are folded and channels lose their quotes; tables and cursors are taken as written. */
  function Made(f: Form): (r: Resource) {
    match f
    case VariableForm(n) => Variable(Lower(n))
    case ChannelForm(n) => Channel(TrimByte(n, QUOTE))
    case TableForm(n) => TempTable(n)
    case CursorForm(n) => Cursor(n)
    case LockForm(key) => Lock(key)
  }

  /** The command that ends exactly the resource. */
  function EndOf(r: Resource): (c: Command) {
    match r
    case Variable(n) => Reset(n)
    case Channel(n) => Unlisten(false, n)
    case TempTable(n) => DropTable(n)
    case Cursor(n) => CloseCursor(n)
    case Lock(k) => AdvisoryUnlock(Some(k))
    case _ => DiscardAll
  }

  lemma {:induction false} UntilExactly(n: Bytes, tail: Bytes)
    requires forall i | 0 <= i < |n| :: !Blank(n[i])
    ensures UntilBlank(n + tail) == n + UntilBlank(tail)
    ensures UntilBlank(n + tail) == n <==> Ends(tail)
  {
    if n == [] {
      assert n + tail == tail;
    } else {
      UntilExactly(n[1..], tail);
      assert (n + tail)[1..] == n[1..] + tail;
      assert [n[0]] + n[1..] == n;
    }
  }

  lemma MakeDetected(f: Form, k: Bytes, tail: Bytes)
    requires Makes(f, k, tail)
    ensures var d := Detect(k + Rest(f, tail)); d.Found? && Acquires(Executed(Stateful(d.command)), Made(f))
  {
    hide Detect, Ascii, Upper, Lower, Bare, TableRule, HasWord, Assigns, UntilBlank, TrimByte, KeyText;
    var x := Rest(f, tail);
    match f
    case VariableForm(n) => RecordsSet(k, x, n);
    case ChannelForm(n) =>
      RecordsListen(k, x);
      UntilExactly(n, tail);
    case TableForm(n) =>
      if Spells(k, "CREATE TEMP TABLE ") {
        RecordsTable(k, x);
      } else {
        RecordsLongTable(k, x);
      }
      UntilExactly(n, tail);
    case CursorForm(n) =>
      RecordsCursor(k, x);
      UntilExactly(n, tail);
    case LockForm(key) => RecordsLock(k, key, tail);
  }

  lemma UndoDetected(f: Form, k: Bytes, tail: Bytes)
    requires Undoes(f, k, tail)
    ensures Detect(k + Rest(f, tail)) == Found(EndOf(Made(f)))
  {
    hide Detect, Ascii, Upper, Lower, Bare, TableRule, HasWord, UntilBlank, TrimByte, KeyText;
    var x := Rest(f, tail);
    match f
    case VariableForm(n) =>
      assert n + tail == n;
      RecordsReset(k, n);
    case ChannelForm(n) =>
      RecordsUnlisten(k, x);
      UntilExactly(n, tail);
    case TableForm(n) =>
      if Spells(k, "DROP TABLE IF EXISTS ") {
        RecordsDropIfExists(k, x);
      } else {
        RecordsDrop(k, x);
      }
      UntilExactly(n, tail);
    case CursorForm(n) =>
      RecordsClose(k, x);
      UntilExactly(n, tail);
    case LockForm(key) => RecordsUnlock(k, key, tail);
  }

  lemma OneEvent(sql: Bytes, c: Command)
    requires Bare(sql) && Detect(sql) == Found(c)
    ensures QueryEvents(sql) == [Executed(Stateful(c))]
  {
    hide Detect, Trim;
    PlainTrims(sql);
    NoSeparator(sql, SEMICOLON);
    OneStatement(sql);
  }

  lemma OneApplied(s: State, e: Event)
    ensures ApplyAll(s, [e]) == Apply(s, e)
  {
    assert [e][..0] == [];
  }

  /** The state without the resource, and otherwise as it was: values, order and the unknown mark included. */
  function WithoutResource(s: State, r: Resource): (s': State) {
    match r
    case Variable(n) => s.(variables := s.variables - {n})
    case Channel(n) => s.(channels := s.channels - {n})
    case TempTable(n) => s.(tempTables := s.tempTables - {n})
    case Cursor(n) => s.(cursors := s.cursors - {n})
    case Lock(k) => s.(locks := s.locks - {k})
    case _ => s
  }

  lemma CommandsUndo(s: State, c: Command, r: Resource)
    requires Acquires(Executed(Stateful(c)), r)
    ensures Holds(ApplyCommand(s, c), r)
    ensures ApplyCommand(ApplyCommand(s, c), EndOf(r)) == WithoutResource(s, r)
  {
    match r
    case Variable(n) => assert s.variables[c.name := c.value] - {c.name} == s.variables - {c.name};
    case Channel(n) => assert s.channels + {n} - {n} == s.channels - {n};
    case TempTable(n) => assert s.tempTables + {n} - {n} == s.tempTables - {n};
    case Cursor(n) => assert s.cursors + {n} - {n} == s.cursors - {n};
    case Lock(key) => assert s.locks + {key} - {key} == s.locks - {key};
    case _ =>
  }

  /** Whatever the session has done before: the creating text leaves the connection pinned by the resource, and the ending
      text leaves the whole tracked state as it was before, without the resource. The two may spell the name differently,
      as long as they mean the same resource. */
  lemma MadeThenUndone(s: State, f: Form, k: Bytes, tail: Bytes, g: Form, ending: Bytes, more: Bytes)
    requires Makes(f, k, tail) && Undoes(g, ending, more) && Made(f) == Made(g)
    ensures var made := ApplyAll(s, QueryEvents(k + Rest(f, tail)));
            && Holds(made, Made(f)) && Pinned(made)
            && ApplyAll(made, QueryEvents(ending + Rest(g, more))) == WithoutResource(s, Made(f))
  {
    hide Detect, Holds, Pinned, QueryEvents, ApplyAll, ApplyCommand, Bare, TableRule, HasWord, Assigns, Rest, Made, EndOf,
         WithoutResource, Acquires, MakesTable, DropsTable;
    var made, undone := k + Rest(f, tail), ending + Rest(g, more);
    MakeDetected(f, k, tail);
    UndoDetected(g, ending, more);
    var c := Detect(made).command;
    OneEvent(made, c);
    OneEvent(undone, EndOf(Made(g)));
    OneApplied(s, Executed(Stateful(c)));
    OneApplied(ApplyCommand(s, c), Executed(Stateful(EndOf(Made(g)))));
    CommandsUndo(s, c, Made(f));
    PinnedHolds(ApplyCommand(s, c));
  }

  /** `LISTEN "a"` and then `UNLISTEN a` */
  lemma QuotesDoNotMatter(s: State)
    ensures var made := ApplyAll(s, QueryEvents(Ascii("LISTEN ") + [34, 97, 34]));
            && Holds(made, Channel([97]))
            && ApplyAll(made, QueryEvents(Ascii("UNLISTEN ") + [97])) == WithoutResource(s, Channel([97]))
  {
    hide QueryEvents, ApplyAll, Holds, WithoutResource, Makes, Undoes;
    var quoted, plain: Bytes := [34, 97, 34], [97];
    ListenForm();
    UnlistenForm();
    assert TrimByte(quoted, QUOTE) == plain by {
      assert quoted[1..] == [97, 34] && quoted[1..][..1] == plain;
    }
    assert quoted + [] == quoted && plain + [] == plain;
    MadeThenUndone(s, ChannelForm(quoted), Ascii("LISTEN "), [], ChannelForm(plain), Ascii("UNLISTEN "), []);
  }

  lemma ListenForm()
    ensures Makes(ChannelForm([34, 97, 34]), Ascii("LISTEN "), [])
  {
    ListenKeywords();
    hide Ascii, TableRule, Spells, HasWord, Assigns, KeyText, MakesTable;
    var n, k: Bytes := [34, 97, 34], [76, 73, 83, 84, 69, 78, 32];
    assert n + [] == n && Solid(n) && Bare(n) && Bare(k + n);
    NoTable(k + n);
  }

  lemma UnlistenForm()
    ensures Undoes(ChannelForm([97]), Ascii("UNLISTEN "), [])
  {
    ListenKeywords();
    hide Ascii, TableRule, Spells, HasWord, KeyText, DropsTable;
    var n, k: Bytes := [97], [85, 78, 76, 73, 83, 84, 69, 78, 32];
    assert n + [] == n && Solid(n) && Bare(n) && Bare(k + n);
    NoTable(k + n);
  }

  lemma ListenKeywords()
    ensures Ascii("LISTEN ") == [76, 73, 83, 84, 69, 78, 32] && Ascii("UNLISTEN ") == [85, 78, 76, 73, 83, 84, 69, 78, 32]
    ensures Spells(Ascii("LISTEN "), "LISTEN ") && Spells(Ascii("UNLISTEN "), "UNLISTEN ")
  {
  }

  lemma NoTable(t: Bytes)
    requires 67 !in Upper(t)
    ensures !TableRule(t)
  {
    hide Contains, Upper;
    LacksByte(Upper(t), "CREATE", 0);
  }

  // ---------------------------------------------------------------- when the two names agree

  /** Creating `n` with anything behind it and ending plain `n` frees what was recorded exactly when the name ends at a
      blank or with the text. */
  lemma TableEndedExactly(s: State, k: Bytes, n: Bytes, tail: Bytes, ending: Bytes)
    requires Spells(k, "CREATE TEMP TABLE ") && Solid(n) && Bare(n + tail) && Bare(k + (n + tail))
    requires Undoes(TableForm(n), ending, [])
    ensures var made := ApplyAll(s, QueryEvents(k + (n + tail)));
            var undone := ApplyAll(made, QueryEvents(ending + n));
            && Holds(made, TempTable(UntilBlank(n + tail)))
            && (!Holds(undone, TempTable(UntilBlank(n + tail))) <==> Ends(tail))
  {
    hide Detect, QueryEvents, ApplyAll, Bare, TableRule, UntilBlank, Ends, Ascii, Upper;
    RecordsTable(k, n + tail);
    UntilExactly(n, tail);
    UndoDetected(TableForm(n), ending, []);
    assert n + [] == n;
    var made, undo := CreateTempTable(UntilBlank(n + tail)), DropTable(n);
    OneEvent(k + (n + tail), made);
    OneEvent(ending + n, undo);
    OneApplied(s, Executed(Stateful(made)));
    OneApplied(ApplyCommand(s, made), Executed(Stateful(undo)));
  }

  /** The same for cursors. */
  lemma CursorEndedExactly(s: State, k: Bytes, n: Bytes, tail: Bytes, ending: Bytes)
    requires Spells(k, "DECLARE ") && Solid(n) && Bare(n + tail) && Bare(k + (n + tail)) && !TableRule(k + (n + tail))
    requires HasWord(k + (n + tail), Ascii("CURSOR")) && Undoes(CursorForm(n), ending, [])
    ensures var made := ApplyAll(s, QueryEvents(k + (n + tail)));
            var undone := ApplyAll(made, QueryEvents(ending + n));
            && Holds(made, Cursor(UntilBlank(n + tail)))
            && (!Holds(undone, Cursor(UntilBlank(n + tail))) <==> Ends(tail))
  {
    hide Detect, QueryEvents, ApplyAll, Bare, TableRule, UntilBlank, Ends, Ascii, Upper, HasWord;
    RecordsCursor(k, n + tail);
    UntilExactly(n, tail);
    UndoDetected(CursorForm(n), ending, []);
    assert n + [] == n;
    var made, undo := DeclareCursor(UntilBlank(n + tail), HasWord(k + (n + tail), Ascii("WITH HOLD"))), CloseCursor(n);
    OneEvent(k + (n + tail), made);
    OneEvent(ending + n, undo);
    OneApplied(s, Executed(Stateful(made)));
    OneApplied(ApplyCommand(s, made), Executed(Stateful(undo)));
  }

  /** `CREATE TEMP TABLE t(id int)` and then `DROP TABLE t` leave the connection pinned by a table named `t(id`. */
  lemma ColumnListKeepsPin(s: State)
    ensures var made := ApplyAll(s, QueryEvents(Ascii("CREATE TEMP TABLE ") + ([116] + Ascii("(id int)"))));
            var undone := ApplyAll(made, QueryEvents(Ascii("DROP TABLE ") + [116]));
            Holds(undone, TempTable([116] + [40, 105, 100])) && Pinned(undone)
  {
    hide QueryEvents, ApplyAll, Pinned;
    var n, tail: Bytes := [116], [40, 105, 100, 32, 105, 110, 116, 41];
    assert Ascii("(id int)") == tail;
    var k, ending := Ascii("CREATE TEMP TABLE "), Ascii("DROP TABLE ");
    KeywordFacts();
    assert Bare(n + tail) && Bare(k + (n + tail)) && Bare(ending + n);
    DropPlain();
    hide Ascii, Bare, Undoes;
    TableEndedExactly(s, k, n, tail, ending);
    UntilExactly(n, tail);
    ColumnName();
    PinnedHolds(ApplyAll(ApplyAll(s, QueryEvents(k + (n + tail))), QueryEvents(ending + n)));
  }

  lemma KeywordFacts()
    ensures Spells(Ascii("CREATE TEMP TABLE "), "CREATE TEMP TABLE ") && Spells(Ascii("DROP TABLE "), "DROP TABLE ")
    ensures Ascii("CREATE TEMP TABLE ") == [67, 82, 69, 65, 84, 69, 32, 84, 69, 77, 80, 32, 84, 65, 66, 76, 69, 32]
    ensures Ascii("DROP TABLE ") == [68, 82, 79, 80, 32, 84, 65, 66, 76, 69, 32]
  {
  }

  lemma DropPlain()
    ensures Undoes(TableForm([116]), Ascii("DROP TABLE "), [])
  {
    hide Contains;
    KeywordFacts();
    var n: Bytes := [116];
    var t := Ascii("DROP TABLE ") + (n + []);
    assert t == [68, 82, 79, 80, 32, 84, 65, 66, 76, 69, 32, 116];
    assert 67 !in Upper(t);
    LacksByte(Upper(t), "CREATE", 0);
    assert Ascii("IF EXISTS")[0] == 73 && Upper(n + [])[0] == 84;
  }

  lemma ColumnName()
    ensures UntilBlank([40, 105, 100, 32, 105, 110, 116, 41]) == [40, 105, 100]
    ensures !Ends([40, 105, 100, 32, 105, 110, 116, 41])
  {
    var a: Bytes := [40, 105, 100, 32, 105, 110, 116, 41];
    assert a[1..] == [105, 100, 32, 105, 110, 116, 41];
    assert a[1..][1..] == [100, 32, 105, 110, 116, 41];
    assert a[1..][1..][1..] == [32, 105, 110, 116, 41];
    assert UntilBlank(a[1..][1..][1..]) == [];
    assert UntilBlank(a[1..][1..]) == [100];
    assert UntilBlank(a[1..]) == [105, 100];
  }

  /** `SELECT PG_ADVISORY_LOCK)(` */
  const CROSSED: Bytes := CALL + LOCK + [41, 40]

  lemma CrossedFolded()
    ensures Upper(CROSSED) == CROSSED && Trim(CROSSED) == CROSSED
  {
  }

  lemma CrossedParens()
    ensures Find(CROSSED, [41]) == Some(23) && Find(CROSSED, [40]) == Some(24) && Contains(CROSSED, LOCK)
  {
    var t := CROSSED;
    assert t[7..23] == LOCK && t[23..24] == [41] && t[24..25] == [40];
    FirstAt(t, [41], 23);
    FirstAt(t, [40], 24);
    FoundFrom(t, LOCK, 0, 7);
  }

  lemma ParenLiterals()
    ensures Ascii("(") == [40] && Ascii(")") == [41]
  {
  }

  lemma CrossedWords()
    ensures !EarlierRule(CROSSED)
  {
    CrossedFolded();
    hide Contains, EarlierRule;
    var t := CROSSED;
    assert t[0] == 83 && t[2] == 76 && 77 !in t;
    LacksByte(t, "TEMP TABLE", 2);
    LacksByte(t, "TEMPORARY TABLE", 2);
    NotEarlier(t);
  }

  /** It panics the classifier. */
  lemma CrossedParensPanic()
    ensures Classify(CROSSED) == ClassifyPanics
  {
    hide Classify, Upper, Trim, FindFrom, EarlierRule, Ascii;
    CrossedFolded();
    CrossedParens();
    ParenLiterals();
    CrossedWords();
    LockLiterals();
    ClassifyPanicsExactly(CROSSED);
  }

  // ---------------------------------------------------------------- texts that end more than one thing, or nothing

  /** RESET ALL, UNLISTEN and UNLISTEN *, DEALLOCATE and DISCARD ALL, by what they end. */
  datatype Ending = AllVariables | AllChannels | AllStatements | OneStatementOf(n: Bytes) | Everything

  lemma OtherKeywords(t: Bytes)
    requires Trim(t) == t && |t| >= 3
    ensures var u := Upper(t);
            && (Ascii("DISCARD ALL") <= u ==> Detect(t) == Found(DiscardAll))
            && (!TableRule(t) && Ascii("DEALLOCATE ") <= u ==> Detect(t) == ParseDeallocate(t))
            && (!TableRule(t) && (Ascii("UNLISTEN ") <= u || u == Ascii("UNLISTEN")) ==>
                  |t| >= 8 && Detect(t) == ParseUnlisten(t))
            && (!TableRule(t) && Ascii("NOTIFY ") <= u ==> Detect(t) == ParseNotify(t))
  {
    hide Trim, Contains, Upper, Ascii, ParseSet, ParseReset, ParseDropTable, ParseCreateTempTable, ParseDeallocate,
         ParseDeclareCursor, ParseUnlisten, ParseNotify, LockKey, FirstWord;
    var u := Upper(t);
    FirstBytes(u);
    UnlistenSize();
    if Ascii("DISCARD ALL") <= u { Begins(u, "DISCARD ALL"); }
    if Ascii("DEALLOCATE ") <= u { Begins(u, "DEALLOCATE "); NotDeclare(u); }
    if Ascii("UNLISTEN ") <= u { Begins(u, "UNLISTEN "); }
    if u == Ascii("UNLISTEN") { Begins(u, "UNLISTEN"); }
    if Ascii("NOTIFY ") <= u { Begins(u, "NOTIFY "); }
  }

  lemma NotDeclare(u: Bytes)
    requires |u| >= 3 && u[2] != 67
    ensures !(Ascii("DECLARE ") <= u)
  {
    assert Ascii("DECLARE ")[2] == 67;
  }

  lemma UnlistenSize()
    ensures |Ascii("UNLISTEN")| == 8 && |Ascii("UNLISTEN ")| == 9
  {
  }

  lemma RecordsResetAll(k: Bytes, x: Bytes)
    requires Spells(k, "RESET ") && Bare(x) && Bare(k + x) && Upper(x) == Ascii("ALL")
    ensures Detect(k + x) == Found(ResetAll)
  {
    hide Trim, Detect, Lower, Upper, Ascii;
    var t := k + x;
    Folded(k, "RESET ", x);
    KeywordBlank(k, "RESET ");
    AllIsUpper();
    PlainTrims(t);
    ByKeyword(t);
    assert t[5..] == [32] + x;
    PlainTrims(x);
  }

  lemma RecordsUnlistenAll(k: Bytes)
    requires Spells(k, "UNLISTEN")
    ensures Bare(k) && (!TableRule(k) ==> Detect(k) == Found(Unlisten(true, [])))
    ensures Bare(k + [32, 42]) && (!TableRule(k + [32, 42]) ==> Detect(k + [32, 42]) == Found(Unlisten(true, [])))
  {
    UnlistenLetters(k);
    var t := k + [32, 42];
    assert Ascii("*") == [42] && Bare(k) && Bare(t);
    assert Upper(t) == Upper(k) + [32, 42];
    UnlistenBlank([42]);
    assert Ascii("UNLISTEN") + [32, 42] == Ascii("UNLISTEN") + [32] + [42];
    hide Ascii, Upper, Detect, TableRule, Bare;
    PlainTrims(k);
    PlainTrims(t);
    OtherKeywords(k);
    OtherKeywords(t);
    assert k[8..] == [] && t[8..] == [32, 42] && [32, 42][1..] == [42];
    assert Trim([]) == [] && Trim([32, 42]) == [42];
  }

  lemma UnlistenLetters(k: Bytes)
    requires Spells(k, "UNLISTEN")
    ensures |k| == 8 && !Blank(k[0]) && !Blank(k[7]) && SEMICOLON !in k
  {
    var u := Ascii("UNLISTEN");
    assert u == [85, 78, 76, 73, 83, 84, 69, 78];
    assert forall i | 0 <= i < |k| :: UpperByte(k[i]) == u[i];
  }

  lemma UnlistenBlank(x: Bytes)
    ensures Ascii("UNLISTEN ") <= Ascii("UNLISTEN") + [32] + x
  {
    assert Ascii("UNLISTEN ") == Ascii("UNLISTEN") + [32];
  }

  lemma RecordsDiscard(k: Bytes, tail: Bytes)
    requires Spells(k, "DISCARD ALL") && Bare(k + tail)
    ensures Detect(k + tail) == Found(DiscardAll)
  {
    hide Ascii, Upper, Detect, Trim;
    Folded(k, "DISCARD ALL", tail);
    PlainTrims(k + tail);
    OtherKeywords(k + tail);
  }

  /** `DEALLOCATE x` and `DEALLOCATE PREPARE x`: of everything if `x` says ALL, else of the name up to its first blank. */
  lemma RecordsDeallocate(k: Bytes, x: Bytes)
    requires Spells(k, "DEALLOCATE ") || Spells(k, "DEALLOCATE PREPARE ")
    requires Bare(x) && Bare(k + x) && !TableRule(k + x) && !(Ascii("PREPARE ") <= Upper(x))
    ensures Detect(k + x) == Found(if Upper(x) == Ascii("ALL") then DeallocateAll else Deallocate(UntilBlank(x)))
  {
    hide Ascii, Upper, Detect, Trim, FirstWord, UntilBlank, TableRule;
    var t := k + x;
    PlainTrims(t);
    PlainTrims(x);
    AllIsUpper();
    FirstOf(x);
    if Spells(k, "DEALLOCATE ") {
      Folded(k, "DEALLOCATE ", x);
      OtherKeywords(t);
      assert t[11..] == x;
    } else {
      Folded(k, "DEALLOCATE PREPARE ", x);
      PrepareFacts(k, x);
      OtherKeywords(t);
      assert t[11..] == k[11..] + x;
      assert Bare(k[11..] + x) by { assert t[11..] == k[11..] + x; }
      PlainTrims(k[11..] + x);
      assert (k[11..] + x)[8..] == x;
    }
  }

  lemma PrepareFacts(k: Bytes, x: Bytes)
    requires Spells(k, "DEALLOCATE PREPARE ")
    ensures |k| == 19 && !Blank(k[11])
    ensures Ascii("DEALLOCATE ") <= Ascii("DEALLOCATE PREPARE ") + x
    ensures Ascii("PREPARE ") <= Upper(k[11..] + x)
  {
    var u := Ascii("DEALLOCATE PREPARE ");
    PrepareLiteral();
    hide Ascii;
    assert Upper(k)[11] == 80;
    assert u[11..] == Ascii("PREPARE ") && u[..11] == Ascii("DEALLOCATE ");
    assert Upper(k[11..] + x)[..8] == Upper(k)[11..];
  }

  lemma PrepareLiteral()
    ensures Ascii("DEALLOCATE PREPARE ") == Ascii("DEALLOCATE ") + Ascii("PREPARE ")
    ensures |Ascii("DEALLOCATE ")| == 11 && |Ascii("PREPARE ")| == 8 && Ascii("PREPARE ")[0] == 80
  {
  }


  ghost predicate EndsAs(e: Ending, sql: Bytes, k: Bytes, x: Bytes) {
    && sql == k + x && Bare(sql)
    && match e
       case AllVariables => Spells(k, "RESET ") && Bare(x) && Upper(x) == Ascii("ALL")
       case AllChannels => Spells(k, "UNLISTEN") && (x == [] || x == [32, 42]) && !TableRule(sql)
       case AllStatements => Deallocates(sql, k, x) && Upper(x) == Ascii("ALL")
       case OneStatementOf(n) => Deallocates(sql, k, x) && Upper(x) != Ascii("ALL") && UntilBlank(x) == n
       case Everything => Spells(k, "DISCARD ALL")
  }

  predicate Deallocates(sql: Bytes, k: Bytes, x: Bytes) {
    && (Spells(k, "DEALLOCATE ") || Spells(k, "DEALLOCATE PREPARE ")) && Bare(x) && !TableRule(sql)
    && !(Ascii("PREPARE ") <= Upper(x))
  }

  function EndingCommand(e: Ending): (c: Command) {
    match e
    case AllVariables => ResetAll
    case AllChannels => Unlisten(true, [])
    case AllStatements => DeallocateAll
    case OneStatementOf(n) => Deallocate(n)
    case Everything => DiscardAll
  }

  /** What it ends. */
  predicate EndedBy(e: Ending, r: Resource) {
    match e
    case AllVariables => r.Variable?
    case AllChannels => r.Channel?
    case AllStatements => r.PreparedStatement?
    case OneStatementOf(n) => r == PreparedStatement(n)
    case Everything => true
  }

  lemma EndingDetected(e: Ending, k: Bytes, x: Bytes)
    requires EndsAs(e, k + x, k, x)
    ensures Detect(k + x) == Found(EndingCommand(e))
  {
    hide Detect, Ascii, Upper, Bare, TableRule, UntilBlank, Spells;
    match e
    case AllVariables => RecordsResetAll(k, x);
    case AllChannels =>
      RecordsUnlistenAll(k);
      assert x == [] ==> k + x == k;
    case AllStatements => RecordsDeallocate(k, x);
    case OneStatementOf(n) => RecordsDeallocate(k, x);
    case Everything => RecordsDiscard(k, x);
  }

  /** From any state, after such a text the tracker holds exactly what it held and the text does not end. */
  lemma EndingEnds(s: State, e: Ending, k: Bytes, x: Bytes, r: Resource)
    requires EndsAs(e, k + x, k, x)
    ensures Holds(ApplyAll(s, QueryEvents(k + x)), r) <==> Holds(s, r) && !EndedBy(e, r)
  {
    hide Detect, QueryEvents, ApplyAll, EndsAs;
    assert Bare(k + x) by { EndsBare(e, k, x); }
    hide Bare;
    EndingDetected(e, k, x);
    OneEvent(k + x, EndingCommand(e));
    OneApplied(s, Executed(Stateful(EndingCommand(e))));
  }

  lemma EndsBare(e: Ending, k: Bytes, x: Bytes)
    requires EndsAs(e, k + x, k, x)
    ensures Bare(k + x)
  {
  }

  /** A NOTIFY, whatever its channel and payload, leaves the tracker as it was. */
  lemma NotifyLeaves(s: State, k: Bytes, x: Bytes)
    requires Spells(k, "NOTIFY ") && Bare(k + x) && !TableRule(k + x)
    ensures ApplyAll(s, QueryEvents(k + x)) == s
  {
    hide Ascii, Upper, Detect, Trim, QueryEvents, ApplyAll, TableRule, Bare, Find;
    Folded(k, "NOTIFY ", x);
    PlainTrims(k + x);
    OtherKeywords(k + x);
    var c := Detect(k + x).command;
    OneEvent(k + x, c);
    OneApplied(s, Executed(Stateful(c)));
  }

  // ---------------------------------------------------------------- the value a SET records

  predicate Blanks(b: Bytes) { forall i | 0 <= i < |b| :: Blank(b[i]) }

  /** `SET n = v`, with any blanks around the sign, records `v` without the quotes around it. */
  lemma RecordsValue(k: Bytes, n: Bytes, a: Bytes, b: Bytes, v: Bytes)
    requires Spells(k, "SET ") && Solid(n) && 61 !in n && Blanks(a) && Blanks(b) && Bare(v)
    requires Bare(k + (n + a + [61] + b + v))
    ensures Detect(k + (n + a + [61] + b + v)) == Found(Set(Lower(n), TrimByte(v, APOSTROPHE)))
  {
    hide Trim, Upper, Detect, Lower, Ascii, TrimByte, ParseSet;
    var x := n + a + [61] + b + v;
    var t := k + x;
    Folded(k, "SET ", x);
    KeywordBlank(k, "SET ");
    PlainTrims(t);
    ByKeyword(t);
    ValueParsed(t, n, a, b, v);
  }

  lemma ValueParsed(t: Bytes, n: Bytes, a: Bytes, b: Bytes, v: Bytes)
    requires |t| >= 4 && t[3..] == [32] + (n + a + [61] + b + v)
    requires Solid(n) && 61 !in n && Blanks(a) && Blanks(b) && Bare(v) && SEMICOLON !in t
    ensures ParseSet(t) == Found(Set(Lower(n), TrimByte(v, APOSTROPHE)))
  {
    hide Trim, Lower, TrimByte, Find;
    var x, i := n + a + [61] + b + v, |n| + |a|;
    assert Bare(x) by { assert x == t[4..] && x[0] == n[0] && x[|x| - 1] == v[|v| - 1]; }
    PlainTrims(x);
    assert Ascii("=") == [61];
    SignAt(x, n + a, b + v);
    BlanksTrim(n, a);
    LeadTrim(b, v);
  }

  lemma SignAt(x: Bytes, left: Bytes, right: Bytes)
    requires x == left + [61] + right && 61 !in left
    ensures Find(x, [61]) == Some(|left|) && x[..|left|] == left && x[|left| + 1..] == right
  {
    assert x[|left|..|left| + 1] == [61];
    assert forall j | 0 <= j < |left| :: x[j] == left[j];
    FirstAt(x, [61], |left|);
  }

  lemma {:induction false} LeadTrim(b: Bytes, v: Bytes)
    requires Blanks(b) && Bare(v)
    ensures Trim(b + v) == v
  {
    if b == [] {
      assert b + v == v;
    } else {
      LeadTrim(b[1..], v);
      assert (b + v)[1..] == b[1..] + v;
    }
  }

  /** Taking quotes off leaves a text without them at either end, and takes off nothing else. */
  lemma {:induction false} QuotesOff(s: Bytes, c: byte) returns (a: nat, b: nat)
    ensures a + b <= |s| && TrimByte(s, c) == s[a..|s| - b]
    ensures (forall i | 0 <= i < a :: s[i] == c) && (forall i | |s| - b <= i < |s| :: s[i] == c)
    ensures var r := TrimByte(s, c); r != [] ==> r[0] != c && r[|r| - 1] != c
    decreases |s|
  {
    if s != [] && s[0] == c {
      var a', b' := QuotesOff(s[1..], c);
      a, b := a' + 1, b';
      assert s[1..][a'..|s| - 1 - b'] == s[a..|s| - b];
      assert forall i | 0 <= i < a' :: s[1..][i] == s[i + 1];
      assert forall i | |s| - 1 - b' <= i < |s| - 1 :: s[1..][i] == s[i + 1];
    } else if s != [] && s[|s| - 1] == c {
      var a', b' := QuotesOff(s[..|s| - 1], c);
      a, b := a', b' + 1;
      assert s[..|s| - 1][a'..|s| - 1 - b'] == s[a..|s| - b];
    } else {
      a, b := 0, 0;
      assert s[0..|s|] == s;
    }
  }
}
