/** String operations on bytes, with ASCII case folding. */
module TextOps {
  import opened WireBytes

  const SEMICOLON: byte := 59

  predicate Blank(b: byte) { 9 <= b <= 13 || b == 32 }

  function UpperByte(b: byte): (r: byte) { if 97 <= b <= 122 then b - 32 else b }

  function LowerByte(b: byte): (r: byte) { if 65 <= b <= 90 then b + 32 else b }

  function Upper(s: Bytes): (r: Bytes)
    ensures |r| == |s|
  {
    seq(|s|, i requires 0 <= i < |s| => UpperByte(s[i]))
  }

  function Lower(s: Bytes): (r: Bytes)
    ensures |r| == |s|
  {
    seq(|s|, i requires 0 <= i < |s| => LowerByte(s[i]))
  }

  function TrimStart(s: Bytes): (r: Bytes) {
    if s != [] && Blank(s[0]) then TrimStart(s[1..]) else s
  }

  function TrimEnd(s: Bytes): (r: Bytes) {
    if s != [] && Blank(s[|s| - 1]) then TrimEnd(s[..|s| - 1]) else s
  }

  function Trim(s: Bytes): (r: Bytes) { TrimEnd(TrimStart(s)) }

  /** `trim_matches` of one character. */
  function TrimByte(s: Bytes, c: byte): (r: Bytes)
    decreases |s|
  {
    if s != [] && s[0] == c then TrimByte(s[1..], c)
    else if s != [] && s[|s| - 1] == c then TrimByte(s[..|s| - 1], c)
    else s
  }

  /** The position of the first occurrence of `p` at or after `i`. */
  function FindFrom(s: Bytes, p: Bytes, i: nat): (r: Option<nat>)
    ensures r.Some? ==> i <= r.value && r.value + |p| <= |s| && s[r.value..r.value + |p|] == p
    decreases |s| - i
  {
    if i + |p| > |s| then None
    else if s[i..i + |p|] == p then Some(i)
    else FindFrom(s, p, i + 1)
  }

  function Find(s: Bytes, p: Bytes): (r: Option<nat>) { FindFrom(s, p, 0) }

  predicate Contains(s: Bytes, p: Bytes) { Find(s, p).Some? }

  predicate EqIgnoreCase(a: Bytes, b: Bytes) { Upper(a) == Upper(b) }

  /** `split_whitespace().next()`. */
  function FirstWord(s: Bytes): (r: Option<Bytes>) {
    var t := TrimStart(s);
    if t == [] then None else Some(UntilBlank(t))
  }

  function UntilBlank(s: Bytes): (r: Bytes) {
    if s == [] || Blank(s[0]) then [] else [s[0]] + UntilBlank(s[1..])
  }

  /** `str::parse::<i64>`: an optional sign, digits, and a value in range. */
  function ParseI64(s: Bytes): (r: Option<int>) {
    var negative := s != [] && s[0] == 45;
    var digits := if s != [] && (s[0] == 45 || s[0] == 43) then s[1..] else s;
    if digits == [] || exists i | 0 <= i < |digits| :: !(48 <= digits[i] <= 57) then None
    else
      var n := if negative then -Decimal(digits) else Decimal(digits);
      if -0x8000_0000_0000_0000 <= n < 0x8000_0000_0000_0000 then Some(n) else None
  }

  function Decimal(digits: Bytes): (n: int) {
    if digits == [] then 0 else 10 * Decimal(digits[..|digits| - 1]) + digits[|digits| - 1] as int - 48
  }

  // ---------------------------------------------------------------- splitting

  /** `str::split` on one character: always at least one piece. */
  function SplitOn(s: Bytes, c: byte): (r: seq<Bytes>)
    ensures |r| >= 1
  {
    if s == [] then [[]]
    else
      var r := SplitOn(s[1..], c);
      WithFirst(s[0], c, r)
  }

  function WithFirst(x: byte, c: byte, r: seq<Bytes>): (r': seq<Bytes>)
    requires |r| >= 1
    ensures |r'| >= 1
  {
    if x == c then [[]] + r else [[x] + r[0]] + r[1..]
  }

  lemma PrependPiece(x: byte, c: byte, p: seq<Bytes>, q: seq<Bytes>)
    requires |p| >= 1
    ensures WithFirst(x, c, p + q) == WithFirst(x, c, p) + q
  {
    assert (p + q)[0] == p[0] && (p + q)[1..] == p[1..] + q;
  }

  lemma {:induction false} SplitAround(a: Bytes, c: byte, b: Bytes)
    ensures SplitOn(a + [c] + b, c) == SplitOn(a, c) + SplitOn(b, c)
  {
    var s := a + [c] + b;
    if a == [] {
      assert s[1..] == b;
    } else {
      SplitAround(a[1..], c, b);
      assert s[1..] == a[1..] + [c] + b && s[0] == a[0];
      var p, q := SplitOn(a[1..], c), SplitOn(b, c);
      assert SplitOn(s, c) == WithFirst(a[0], c, p + q) && SplitOn(a, c) == WithFirst(a[0], c, p);
      hide SplitOn;
      PrependPiece(a[0], c, p, q);
    }
  }

  /** The trimmed, non-empty pieces, in order. */
  function NonBlank(pieces: seq<Bytes>): (r: seq<Bytes>) {
    if pieces == [] then []
    else if Trim(pieces[0]) == [] then NonBlank(pieces[1..])
    else [Trim(pieces[0])] + NonBlank(pieces[1..])
  }

  lemma {:induction false} NonBlankAppend(p: seq<Bytes>, q: seq<Bytes>)
    ensures NonBlank(p + q) == NonBlank(p) + NonBlank(q)
  {
    hide Trim;
    if p == [] {
      assert p + q == q;
    } else {
      NonBlankAppend(p[1..], q);
      assert (p + q)[1..] == p[1..] + q;
    }
  }

  lemma {:induction false} TrimEmpty(s: Bytes)
    ensures Trim(s) == [] <==> forall i | 0 <= i < |s| :: Blank(s[i])
  {
    TrimStartEmpty(s);
    var t := TrimStart(s);
    if t != [] {
      TrimStartHead(s);
      TrimEndKeeps(t);
    }
  }

  lemma {:induction false} TrimStartEmpty(s: Bytes)
    ensures TrimStart(s) == [] <==> forall i | 0 <= i < |s| :: Blank(s[i])
  {
    if s != [] && Blank(s[0]) {
      TrimStartEmpty(s[1..]);
      assert forall i | 1 <= i < |s| :: s[i] == s[1..][i - 1];
    }
  }

  lemma {:induction false} TrimStartHead(s: Bytes)
    ensures TrimStart(s) != [] ==> !Blank(TrimStart(s)[0])
  {
    if s != [] && Blank(s[0]) {
      TrimStartHead(s[1..]);
    }
  }

  /** Trimming the end keeps a non-blank first byte. */
  lemma {:induction false} TrimEndKeeps(s: Bytes)
    requires s != [] && !Blank(s[0])
    ensures TrimEnd(s) != [] && TrimEnd(s)[0] == s[0]
  {
    if Blank(s[|s| - 1]) {
      TrimEndKeeps(s[..|s| - 1]);
    }
  }

  /** Only text made of blanks and semicolons splits into no statement. */
  lemma {:induction false} NoStatements(s: Bytes)
    ensures NonBlank(SplitOn(s, SEMICOLON)) == [] <==> forall i | 0 <= i < |s| :: Blank(s[i]) || s[i] == SEMICOLON
  {
    if s != [] {
      var r := SplitOn(s[1..], SEMICOLON);
      NoStatements(s[1..]);
      TrimEmpty([]);
      TrimEmpty(r[0]);
      TrimEmpty([s[0]] + r[0]);
      assert forall i | 1 <= i < |s| :: s[i] == s[1..][i - 1];
      assert r == [r[0]] + r[1..];
      var piece := [s[0]] + r[0];
      if s[0] == SEMICOLON {
        assert ([[]] + r)[1..] == r;
      } else {
        assert ([piece] + r[1..])[1..] == r[1..];
        assert piece[0] == s[0];
        assert forall i | 0 <= i < |r[0]| :: piece[i + 1] == r[0][i];
      }
    }
  }

  /** A text that contains `p` holds every byte of `p`. */
  lemma ContainsBytes(s: Bytes, p: Bytes, b: byte)
    requires Contains(s, p) && b in p
    ensures b in s
  {
    var i := Find(s, p).value;
    var j :| 0 <= j < |p| && p[j] == b;
    assert s[i..i + |p|][j] == s[i + j];
  }

  lemma {:induction false} NoSeparator(s: Bytes, c: byte)
    requires c !in s
    ensures SplitOn(s, c) == [s]
  {
    if s != [] {
      NoSeparator(s[1..], c);
      assert [s[0]] + s[1..] == s;
    }
  }

  // ---------------------------------------------------------------- decimal numbers

  function Digits(n: nat): (b: Bytes)
    ensures b != [] && forall i | 0 <= i < |b| :: 48 <= b[i] <= 57
  {
    if n < 10 then [48 + n] else Digits(n / 10) + [48 + n % 10]
  }

  lemma {:induction false} DecimalOfDigits(n: nat)
    ensures Decimal(Digits(n)) == n
  {
    if n >= 10 {
      DecimalOfDigits(n / 10);
      assert Digits(n)[..|Digits(n)| - 1] == Digits(n / 10);
    } else {
      assert Digits(n)[..0] == [];
    }
  }

  /** `str::parse::<u32>`: an optional plus sign, digits, and a value in range. */
  function ParseU32(s: Bytes): (r: Option<nat>) {
    var digits := if s != [] && s[0] == 43 then s[1..] else s;
    if digits == [] || exists i | 0 <= i < |digits| :: !(48 <= digits[i] <= 57) then None
    else if 0 <= Decimal(digits) < TWO32 then Some(Decimal(digits)) else None
  }
}
