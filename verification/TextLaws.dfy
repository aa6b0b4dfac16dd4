/** Where words stand in a text, and what trimming and splitting leave of them. */
module TextLaws {
  import opened WireBytes
  import opened TextOps

  /** The folded text holds `w`. */
  predicate HasWord(s: Bytes, w: Bytes) { Contains(Upper(s), w) }

  /** The folded text holds `w` at `i`. */
  predicate At(s: Bytes, w: Bytes, i: nat) { i + |w| <= |s| && Upper(s)[i..i + |w|] == w }

  /** A word that neither trimming nor splitting at semicolons can cut. */
  predicate Bare(w: Bytes) {
    w != [] && !Blank(w[0]) && !Blank(w[|w| - 1]) && SEMICOLON !in w
  }

  lemma {:induction false} FoundFrom(s: Bytes, p: Bytes, i: nat, at: nat)
    requires i <= at && at + |p| <= |s| && s[at..at + |p|] == p
    ensures FindFrom(s, p, i).Some? && FindFrom(s, p, i).value <= at
    decreases at - i
  {
    if s[i..i + |p|] != p {
      FoundFrom(s, p, i + 1, at);
    }
  }

  /** A single byte that occurs once is found where it is. */
  lemma FoundOnce(s: Bytes, c: byte, at: nat)
    requires at < |s| && s[at] == c && forall i | 0 <= i < |s| && s[i] == c :: i == at
    ensures Find(s, [c]) == Some(at)
  {
    assert s[at..at + 1] == [c];
    FoundFrom(s, [c], 0, at);
    var i := Find(s, [c]).value;
    assert s[i..i + 1][0] == s[i];
  }

  lemma HasWordAt(s: Bytes, w: Bytes)
    ensures HasWord(s, w) <==> exists i | 0 <= i <= |s| :: At(s, w, i)
  {
    if HasWord(s, w) {
      assert At(s, w, Find(Upper(s), w).value);
    }
    if i :| 0 <= i <= |s| && At(s, w, i) {
      FoundFrom(Upper(s), w, 0, i);
    }
  }

  // ---------------------------------------------------------------- one byte at a time

  lemma AtTail(x: byte, s: Bytes, w: Bytes, i: nat)
    ensures At([x] + s, w, i + 1) <==> At(s, w, i)
  {
    assert Upper([x] + s) == [UpperByte(x)] + Upper(s);
    if i + |w| <= |s| {
      assert Upper([x] + s)[i + 1..i + 1 + |w|] == Upper(s)[i..i + |w|];
    }
  }

  lemma PrependWord(x: byte, s: Bytes, w: Bytes)
    ensures HasWord([x] + s, w) <==> At([x] + s, w, 0) || HasWord(s, w)
  {
    hide At, HasWord;
    HasWordAt([x] + s, w);
    HasWordAt(s, w);
    if i :| 0 <= i <= |[x] + s| && At([x] + s, w, i) {
      if i > 0 {
        AtTail(x, s, w, i - 1);
      }
    }
    if i :| 0 <= i <= |s| && At(s, w, i) {
      AtTail(x, s, w, i);
    }
  }

  lemma AtStart(s: Bytes, w: Bytes)
    requires w != [] && At(s, w, 0)
    ensures s != [] && UpperByte(s[0]) == w[0]
  {
    assert Upper(s)[0..|w|][0] == w[0];
  }

  /** A word that begins in a non-blank survives dropping a leading blank. */
  lemma {:induction false} HasWordTrimStart(s: Bytes, w: Bytes)
    requires Bare(w)
    ensures HasWord(TrimStart(s), w) <==> HasWord(s, w)
  {
    hide HasWord, At;
    if s != [] && Blank(s[0]) {
      assert [s[0]] + s[1..] == s;
      PrependWord(s[0], s[1..], w);
      HasWordTrimStart(s[1..], w);
      if At(s, w, 0) {
        AtStart(s, w);
      }
    }
  }

  lemma AtShorter(s: Bytes, x: byte, w: Bytes, i: nat)
    requires i + |w| <= |s|
    ensures At(s + [x], w, i) <==> At(s, w, i)
  {
    assert Upper(s + [x]) == Upper(s) + [UpperByte(x)];
    assert Upper(s + [x])[i..i + |w|] == Upper(s)[i..i + |w|];
  }

  lemma {:induction false} HasWordTrimEnd(s: Bytes, w: Bytes)
    requires Bare(w)
    ensures HasWord(TrimEnd(s), w) <==> HasWord(s, w)
  {
    hide HasWord;
    if s != [] && Blank(s[|s| - 1]) {
      var t, x := s[..|s| - 1], s[|s| - 1];
      assert t + [x] == s;
      HasWordTrimEnd(t, w);
      HasWordAt(s, w);
      HasWordAt(t, w);
      if i :| 0 <= i <= |t| && At(t, w, i) {
        AtShorter(t, x, w, i);
      }
      if i :| 0 <= i <= |s| && At(s, w, i) {
        assert Upper(s)[i..i + |w|][|w| - 1] == Upper(s)[i + |w| - 1];
        assert i + |w| <= |t|;
        AtShorter(t, x, w, i);
      }
    }
  }

  lemma HasWordTrim(s: Bytes, w: Bytes)
    requires Bare(w)
    ensures HasWord(Trim(s), w) <==> HasWord(s, w)
  {
    HasWordTrimStart(s, w);
    HasWordTrimEnd(TrimStart(s), w);
  }

  // ---------------------------------------------------------------- pieces

  predicate AnyHas(pieces: seq<Bytes>, w: Bytes) {
    pieces != [] && (HasWord(pieces[0], w) || AnyHas(pieces[1..], w))
  }

  lemma {:induction false} AnyHasMeans(pieces: seq<Bytes>, w: Bytes)
    ensures AnyHas(pieces, w) <==> exists i | 0 <= i < |pieces| :: HasWord(pieces[i], w)
  {
    hide HasWord;
    if pieces != [] {
      AnyHasMeans(pieces[1..], w);
      if i :| 0 <= i < |pieces| && HasWord(pieces[i], w) {
        assert i > 0 ==> pieces[1..][i - 1] == pieces[i];
      }
    }
  }

  /** The first piece is a prefix, and ends where the text does or at a separator. */
  lemma {:induction false} FirstPiece(s: Bytes, c: byte)
    ensures var p := SplitOn(s, c)[0];
            && p <= s && c !in p
            && (|p| < |s| ==> s[|p|] == c)
            && (|p| == |s| <==> c !in s)
  {
    if s != [] && s[0] != c {
      FirstPiece(s[1..], c);
      var p := SplitOn(s[1..], c)[0];
      assert SplitOn(s, c)[0] == [s[0]] + p;
      assert s == [s[0]] + s[1..];
    }
  }

  /** At the front of the text a word without separators lies within the first piece. */
  lemma AtFirstPiece(s: Bytes, w: Bytes)
    requires Bare(w)
    ensures At(s, w, 0) <==> At(SplitOn(s, SEMICOLON)[0], w, 0)
  {
    hide SplitOn;
    FirstPiece(s, SEMICOLON);
    var p := SplitOn(s, SEMICOLON)[0];
    assert Upper(s)[..|p|] == Upper(p);
    if |w| <= |p| {
      assert Upper(s)[0..|w|] == Upper(p)[0..|w|];
    } else if |w| <= |s| {
      assert Upper(s)[0..|w|][|p|] == SEMICOLON;
    }
  }

  lemma {:induction false} HasWordSplit(s: Bytes, w: Bytes)
    requires Bare(w)
    ensures HasWord(s, w) <==> AnyHas(SplitOn(s, SEMICOLON), w)
  {
    hide HasWord, At;
    if s == [] {
      assert SplitOn(s, SEMICOLON) == [s];
      assert [s][1..] == [];
    } else {
      var x, rest := s[0], s[1..];
      var r := SplitOn(rest, SEMICOLON);
      assert [x] + rest == s;
      HasWordSplit(rest, w);
      PrependWord(x, rest, w);
      if x == SEMICOLON {
        assert SplitOn(s, SEMICOLON) == [[]] + r && ([[]] + r)[1..] == r;
        EmptyHasNoWord(w);
        if At(s, w, 0) {
          AtStart(s, w);
        }
      } else {
        assert SplitOn(s, SEMICOLON) == [[x] + r[0]] + r[1..] && ([[x] + r[0]] + r[1..])[1..] == r[1..];
        PrependWord(x, r[0], w);
        AtFirstPiece(s, w);
      }
    }
  }

  lemma EmptyHasNoWord(w: Bytes)
    requires w != []
    ensures !HasWord([], w)
  {
  }

  lemma {:induction false} AnyHasNonBlank(pieces: seq<Bytes>, w: Bytes)
    requires Bare(w)
    ensures AnyHas(NonBlank(pieces), w) <==> AnyHas(pieces, w)
  {
    hide HasWord, Trim;
    if pieces != [] {
      AnyHasNonBlank(pieces[1..], w);
      HasWordTrim(pieces[0], w);
      EmptyHasNoWord(w);
      var rest := NonBlank(pieces[1..]);
      assert ([Trim(pieces[0])] + rest)[1..] == rest;
    }
  }

  // ---------------------------------------------------------------- the beginning of a text

  /** What the text begins with, up to its first semicolon. */
  function Opening(s: Bytes): (r: Bytes) {
    if SEMICOLON in s then TrimStart(SplitOn(s, SEMICOLON)[0]) else Trim(s)
  }

  lemma {:induction false} TrimStartAppend(a: Bytes, b: Bytes)
    requires b != [] && !Blank(b[0])
    ensures TrimStart(a + b) == TrimStart(a) + b
  {
    if a == [] {
      assert a + b == b;
    } else if Blank(a[0]) {
      assert (a + b)[1..] == a[1..] + b;
      TrimStartAppend(a[1..], b);
    }
  }

  lemma {:induction false} TrimEndAppend(a: Bytes, b: Bytes)
    requires a != [] && !Blank(a[|a| - 1])
    ensures TrimEnd(a + b) == a + TrimEnd(b)
  {
    if b == [] {
      assert a + b == a;
    } else if Blank(b[|b| - 1]) {
      assert (a + b)[..|a + b| - 1] == a + b[..|b| - 1];
      TrimEndAppend(a, b[..|b| - 1]);
    }
  }

  lemma TrimAround(a: Bytes, c: byte, b: Bytes)
    requires !Blank(c)
    ensures Trim(a + [c] + b) == TrimStart(a) + [c] + TrimEnd(b)
  {
    assert a + [c] + b == a + ([c] + b);
    TrimStartAppend(a, [c] + b);
    assert TrimStart(a) + ([c] + b) == (TrimStart(a) + [c]) + b;
    TrimEndAppend(TrimStart(a) + [c], b);
  }

  /** With a semicolon, the trimmed text is its opening, the semicolon and more. */
  lemma OpeningThenMore(s: Bytes) returns (more: Bytes)
    requires SEMICOLON in s
    ensures Trim(s) == Opening(s) + [SEMICOLON] + more && SEMICOLON !in Opening(s)
  {
    hide SplitOn, Trim;
    FirstPiece(s, SEMICOLON);
    var p := SplitOn(s, SEMICOLON)[0];
    var b := s[|p| + 1..];
    assert s == p + [SEMICOLON] + b;
    TrimAround(p, SEMICOLON, b);
    more := TrimEnd(b);
    TrimStartWithin(p, SEMICOLON);
  }

  lemma {:induction false} TrimStartWithin(s: Bytes, c: byte)
    requires c !in s
    ensures c !in TrimStart(s)
  {
    if s != [] && Blank(s[0]) {
      TrimStartWithin(s[1..], c);
    }
  }

  /** A keyword is tested against the opening alone. */
  lemma OpensExactly(s: Bytes, k: Bytes)
    requires SEMICOLON !in k
    ensures k <= Upper(Trim(s)) <==> k <= Upper(Opening(s))
    ensures Upper(Trim(s)) == k <==> Upper(Opening(s)) == k && SEMICOLON !in s
  {
    if SEMICOLON in s {
      hide Opening, Trim;
      var more := OpeningThenMore(s);
      var o, t := Opening(s), Trim(s);
      assert Upper(t) == Upper(o) + [SEMICOLON] + Upper(more);
      assert Upper(t)[|o|] == SEMICOLON;
      assert Upper(t)[..|o|] == Upper(o);
      if |k| <= |o| {
        assert Upper(t)[..|k|] == Upper(o)[..|k|];
      }
    }
  }

  /** The opening is the first statement, with the blanks that follow it. */
  lemma OpeningIsFirst(s: Bytes)
    ensures Trim(Opening(s)) != [] ==> NonBlank(SplitOn(s, SEMICOLON)) != [] && NonBlank(SplitOn(s, SEMICOLON))[0] == Trim(Opening(s))
  {
    if SEMICOLON in s {
      var p := SplitOn(s, SEMICOLON)[0];
      hide SplitOn;
      TrimTwice(p);
    } else {
      NoSeparator(s, SEMICOLON);
      hide SplitOn;
      TrimTwice(s);
    }
  }

  lemma TrimTwice(s: Bytes)
    ensures Trim(TrimStart(s)) == Trim(s) && Trim(Trim(s)) == Trim(s)
  {
    TrimStartHead(s);
    var t := TrimStart(s);
    assert TrimStart(t) == t;
    if t != [] {
      TrimEndKeeps(t);
      TrimEndLast(t);
      assert TrimStart(TrimEnd(t)) == TrimEnd(t) && TrimEnd(TrimEnd(t)) == TrimEnd(t);
    }
  }

  lemma {:induction false} TrimEndLast(s: Bytes)
    ensures TrimEnd(s) != [] ==> !Blank(TrimEnd(s)[|TrimEnd(s)| - 1])
  {
    if s != [] && Blank(s[|s| - 1]) {
      TrimEndLast(s[..|s| - 1]);
    }
  }
}
