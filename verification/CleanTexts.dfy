/** Which texts are known to leave nothing behind: exactly the reads, writes and transaction commands without set_config. */
module CleanTexts {
  import opened WireBytes
  import opened TextOps
  import opened TextLaws
  import opened CommandDetector
  import opened ConnectionState

  /** The first words of statements known to be clean. */
  const CLEAN_WORDS: seq<string> := [
    "SELECT", "INSERT", "UPDATE", "DELETE", "WITH", "VALUES", "TABLE", "EXPLAIN", "SHOW", "BEGIN", "START", "COMMIT",
    "ROLLBACK", "END", "ABORT", "SAVEPOINT", "RELEASE"]

  const SET_CONFIG: string := "SET_CONFIG"

  /** Where a keyword ends: with the text, at a blank, at `(` or at `;`. */
  predicate Ended(tail: Bytes) { tail == [] || Blank(tail[0]) || tail[0] == 40 || tail[0] == 59 }

  predicate AllBlank(s: Bytes) { forall i | 0 <= i < |s| :: Blank(s[i]) }

  /** Blanks, the keyword in any case, and a tail it ends at. */
  ghost predicate Led(sql: Bytes, t: string, lead: Bytes, k: Bytes, tail: Bytes) {
    sql == lead + k + tail && AllBlank(lead) && Upper(k) == Ascii(t) && Ended(tail)
  }

  ghost predicate LedBy(sql: Bytes, t: string) { exists lead, k, tail :: Led(sql, t, lead, k, tail) }

  // ---------------------------------------------------------------- keywords

  lemma {:induction false} TrimStartSplits(s: Bytes) returns (lead: Bytes)
    ensures s == lead + TrimStart(s) && AllBlank(lead)
  {
    if s != [] && Blank(s[0]) {
      var more := TrimStartSplits(s[1..]);
      lead := [s[0]] + more;
    } else {
      lead := [];
    }
  }

  lemma {:induction false} TrimStartOf(lead: Bytes, s: Bytes)
    requires AllBlank(lead) && s != [] && !Blank(s[0])
    ensures TrimStart(lead + s) == s
  {
    if lead == [] {
      assert lead + s == s;
    } else {
      TrimStartOf(lead[1..], s);
      assert (lead + s)[1..] == lead[1..] + s;
    }
  }

  /** On a text without leading blanks. */
  lemma KeywordFirst(s: Bytes, w: Bytes, k: Bytes, tail: Bytes)
    requires s == k + tail && |k| == |w|
    ensures StartsWithKeyword(Upper(s), w) <==> Upper(k) == w && Ended(tail)
  {
    assert Upper(s) == Upper(k) + Upper(tail);
    if tail != [] {
      assert Upper(s)[|w|] == UpperByte(tail[0]);
    }
  }

  lemma LedStarts(sql: Bytes, t: string, lead: Bytes, k: Bytes, tail: Bytes)
    requires Ascii(t) != [] && !Blank(Ascii(t)[0]) && Led(sql, t, lead, k, tail)
    ensures StartsWithKeyword(Upper(TrimStart(sql)), Ascii(t))
  {
    hide Ascii, StartsWithKeyword, Ended;
    assert Upper(k)[0] == UpperByte(k[0]);
    assert sql == lead + (k + tail);
    TrimStartOf(lead, k + tail);
    KeywordFirst(k + tail, Ascii(t), k, tail);
  }

  lemma StartsLed(sql: Bytes, t: string)
    requires StartsWithKeyword(Upper(TrimStart(sql)), Ascii(t))
    ensures LedBy(sql, t)
  {
    var s, w := TrimStart(sql), Ascii(t);
    assert |w| <= |s|;
    hide Ascii, StartsWithKeyword, Ended, TrimStart, Upper;
    var lead := TrimStartSplits(sql);
    var k, tail := s[..|w|], s[|w|..];
    assert s == k + tail;
    KeywordFirst(s, w, k, tail);
    assert sql == lead + k + tail;
    assert Led(sql, t, lead, k, tail);
  }

  lemma LedExactly(sql: Bytes, t: string)
    requires Ascii(t) != [] && !Blank(Ascii(t)[0])
    ensures LedBy(sql, t) <==> StartsWithKeyword(Upper(TrimStart(sql)), Ascii(t))
  {
    hide Ascii, StartsWithKeyword, Led, Upper, TrimStart;
    if lead, k, tail :| Led(sql, t, lead, k, tail) {
      LedStarts(sql, t, lead, k, tail);
    }
    if StartsWithKeyword(Upper(TrimStart(sql)), Ascii(t)) {
      StartsLed(sql, t);
    }
  }

  /** The `i`th clean word leads the text, as the code tests it. */
  predicate Starts(sql: Bytes, i: nat)
    requires i < |CLEAN_WORDS|
  {
    StartsWithKeyword(Upper(TrimStart(sql)), Ascii(CLEAN_WORDS[i]))
  }

  lemma WordsBegin(i: nat)
    requires i < |CLEAN_WORDS|
    ensures Ascii(CLEAN_WORDS[i]) != [] && !Blank(Ascii(CLEAN_WORDS[i])[0])
  {
    var t := CLEAN_WORDS[i];
    assert |t| > 0 && 'A' <= t[0] <= 'Z';
  }

  /** The list in the code and the words above. */
  lemma KnownCleanExactly(sql: Bytes)
    ensures KnownClean(sql) <==>
            !Contains(Upper(TrimStart(sql)), Ascii(SET_CONFIG)) && exists i | 0 <= i < |CLEAN_WORDS| :: Starts(sql, i)
  {
    hide Contains, StartsWithKeyword, Ascii, Upper, TrimStart;
    var u := Upper(TrimStart(sql));
    assert CLEAN_WORDS[0] == "SELECT" && CLEAN_WORDS[1] == "INSERT" && CLEAN_WORDS[2] == "UPDATE" && CLEAN_WORDS[3] == "DELETE";
    assert CLEAN_WORDS[4] == "WITH" && CLEAN_WORDS[5] == "VALUES" && CLEAN_WORDS[6] == "TABLE" && CLEAN_WORDS[7] == "EXPLAIN";
    assert CLEAN_WORDS[8] == "SHOW" && CLEAN_WORDS[9] == "BEGIN" && CLEAN_WORDS[10] == "START" && CLEAN_WORDS[11] == "COMMIT";
    assert CLEAN_WORDS[12] == "ROLLBACK" && CLEAN_WORDS[13] == "END" && CLEAN_WORDS[14] == "ABORT";
    assert CLEAN_WORDS[15] == "SAVEPOINT" && CLEAN_WORDS[16] == "RELEASE" && |CLEAN_WORDS| == 17;
    if StartsWithKeyword(u, Ascii("SELECT")) { assert Starts(sql, 0); }
    if StartsWithKeyword(u, Ascii("INSERT")) { assert Starts(sql, 1); }
    if StartsWithKeyword(u, Ascii("UPDATE")) { assert Starts(sql, 2); }
    if StartsWithKeyword(u, Ascii("DELETE")) { assert Starts(sql, 3); }
    if StartsWithKeyword(u, Ascii("WITH")) { assert Starts(sql, 4); }
    if StartsWithKeyword(u, Ascii("VALUES")) { assert Starts(sql, 5); }
    if StartsWithKeyword(u, Ascii("TABLE")) { assert Starts(sql, 6); }
    if StartsWithKeyword(u, Ascii("EXPLAIN")) { assert Starts(sql, 7); }
    if StartsWithKeyword(u, Ascii("SHOW")) { assert Starts(sql, 8); }
    if StartsWithKeyword(u, Ascii("BEGIN")) { assert Starts(sql, 9); }
    if StartsWithKeyword(u, Ascii("START")) { assert Starts(sql, 10); }
    if StartsWithKeyword(u, Ascii("COMMIT")) { assert Starts(sql, 11); }
    if StartsWithKeyword(u, Ascii("ROLLBACK")) { assert Starts(sql, 12); }
    if StartsWithKeyword(u, Ascii("END")) { assert Starts(sql, 13); }
    if StartsWithKeyword(u, Ascii("ABORT")) { assert Starts(sql, 14); }
    if StartsWithKeyword(u, Ascii("SAVEPOINT")) { assert Starts(sql, 15); }
    if StartsWithKeyword(u, Ascii("RELEASE")) { assert Starts(sql, 16); }
  }

  // ---------------------------------------------------------------- exactly the clean texts

  /** Some clean word leads the text. */
  ghost predicate LedClean(sql: Bytes) { exists i | 0 <= i < |CLEAN_WORDS| :: LedBy(sql, CLEAN_WORDS[i]) }

  /** For every text that no detection rule claims: it is known to be clean exactly when one of the clean words leads it, in
      any case and ended, and set_config occurs nowhere in it; every other such text is of unknown effect. */
  lemma CleanExactly(sql: Bytes)
    ensures Classify(sql) == Clean <==>
            Detect(sql) == NoCommand && LedClean(sql) && !HasWord(sql, Ascii(SET_CONFIG))
    ensures Classify(sql) == Unknown <==>
            Detect(sql) == NoCommand && (!LedClean(sql) || HasWord(sql, Ascii(SET_CONFIG)))
  {
    hide Detect, KnownClean, LedBy, Starts, HasWord, Ascii;
    KnownCleanExactly(sql);
    ConfigWord();
    HasWordTrimStart(sql, Ascii(SET_CONFIG));
    assert HasWord(TrimStart(sql), Ascii(SET_CONFIG)) <==> Contains(Upper(TrimStart(sql)), Ascii(SET_CONFIG)) by {
      HasWordMeans(TrimStart(sql), Ascii(SET_CONFIG));
    }
    forall i | 0 <= i < |CLEAN_WORDS|
      ensures Starts(sql, i) <==> LedBy(sql, CLEAN_WORDS[i])
    {
      WordsBegin(i);
      LedExactly(sql, CLEAN_WORDS[i]);
      StartsMeans(sql, i);
    }
  }

  lemma HasWordMeans(s: Bytes, w: Bytes)
    ensures HasWord(s, w) <==> Contains(Upper(s), w)
  {
  }

  lemma StartsMeans(sql: Bytes, i: nat)
    requires i < |CLEAN_WORDS|
    ensures Starts(sql, i) <==> StartsWithKeyword(Upper(TrimStart(sql)), Ascii(CLEAN_WORDS[i]))
  {
  }

  lemma ConfigWord()
    ensures Bare(Ascii(SET_CONFIG))
  {
  }

  // ---------------------------------------------------------------- set_config always pins

  lemma WordInside(a: Bytes, w: Bytes, b: Bytes, t: string)
    requires Upper(w) == Ascii(t)
    ensures HasWord(a + w + b, Ascii(t))
  {
    hide Ascii;
    var s := a + w + b;
    assert Upper(s)[|a|..|a| + |w|] == Upper(w);
    FoundFrom(Upper(s), Ascii(t), 0, |a|);
  }

  lemma {:induction false} UnknownStays(s: State, es: seq<Event>, i: nat)
    requires i < |es| && es[i] == Executed(Unknown)
    requires forall j | i < j < |es| :: es[j] != Executed(Stateful(DiscardAll))
    ensures ApplyAll(s, es).unknown
  {
    if i < |es| - 1 {
      UnknownStays(s, es[..|es| - 1], i);
    }
  }

  /** From any state: a query pins if one of its statements says set_config, is claimed by no detection rule and is followed
      by no DISCARD ALL. */
  lemma SetConfigPins(s: State, query: Bytes, i: nat)
    requires i < |Statements(query)|
    requires Detect(Statements(query)[i]) == NoCommand && HasWord(Statements(query)[i], Ascii(SET_CONFIG))
    requires forall j | i < j < |Statements(query)| :: Classify(Statements(query)[j]) != Stateful(DiscardAll)
    ensures Pinned(ApplyAll(s, QueryEvents(query)))
  {
    hide Classify, Statements, Detect, HasWord, Ascii;
    CleanExactly(Statements(query)[i]);
    UnknownStays(s, QueryEvents(query), i);
  }

  /** Wherever set_config stands in a text, in any case, the text is never clean; and if it is one statement that no
      detection rule claims, it pins from any state. */
  lemma SetConfigNeverClean(s: State, a: Bytes, w: Bytes, b: Bytes)
    requires Upper(w) == Ascii(SET_CONFIG)
    ensures Classify(a + w + b) != Clean
    ensures SEMICOLON !in a + w + b && Detect(a + w + b) == NoCommand ==> Pinned(ApplyAll(s, QueryEvents(a + w + b)))
  {
    hide Classify, Detect, HasWord, Ascii, Pinned, QueryEvents, ApplyAll;
    var q := a + w + b;
    WordInside(a, w, b, SET_CONFIG);
    CleanExactly(q);
    if SEMICOLON !in q && Detect(q) == NoCommand {
      ConfigWord();
      HasWordTrim(q, Ascii(SET_CONFIG));
      DetectTrims(q);
      OneTrimmed(q, Ascii(SET_CONFIG));
      SetConfigPins(s, q, 0);
    }
  }

  lemma DetectTrims(q: Bytes)
    ensures Detect(Trim(q)) == Detect(q)
  {
    TrimTwice(q);
  }

  lemma OneTrimmed(q: Bytes, w: Bytes)
    requires SEMICOLON !in q && Bare(w) && HasWord(Trim(q), w)
    ensures Statements(q) == [Trim(q)]
  {
    hide Trim;
    NoSeparator(q, SEMICOLON);
    assert Trim(q) != [];
    assert [q][1..] == [];
    assert NonBlank([q]) == [Trim(q)];
  }
}
