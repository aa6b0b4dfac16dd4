/** The startup message: `StartupMessage::parse` and `build`, and the backend startup rebuilt from a client's. */
module StartupMessage {
  import opened WireBytes

  const PROTOCOL_VERSION_3 := 196608
  const SSL_REQUEST := 80877103

  datatype Startup = Startup(version: int, params: map<Bytes, Bytes>)

  /** `String::from_utf8_lossy`, of which only its laws matter here. */
  type Decoder = Bytes -> Bytes

  ghost predicate Lossy(d: Decoder) {
    forall s :: Utf8(d(s)) && (Utf8(s) ==> d(s) == s) && (NulFree(s) ==> NulFree(d(s))) && (s != [] ==> d(s) != [])
  }

  // ---------------------------------------------------------------- parsing

  datatype Pair = End | Pair(key: Bytes, value: Bytes, rest: Bytes)

  /** The key and the value at the front, each NUL-terminated; an empty key ends the list. */
  function NextPair(b: Bytes, d: Decoder): (r: Pair)
    ensures r.Pair? ==> |r.rest| < |b|
  {
    var n := NulIndex(b, 0);
    if n == |b| || d(b[..n]) == [] then End
    else
      var rest := b[n + 1..];
      var k := NulIndex(rest, 0);
      Pair(d(b[..n]), d(rest[..k]), if k < |rest| then rest[k + 1..] else [])
  }

  function Params(b: Bytes, m: map<Bytes, Bytes>, d: Decoder): (r: map<Bytes, Bytes>)
    decreases |b|
  {
    match NextPair(b, d)
    case End => m
    case Pair(key, value, rest) => Params(rest, m[key := value], d)
  }

  /** A negative length field is a huge `usize`: more than any buffer holds. */
  function Parse(data: Bytes, d: Decoder): (r: Option<Startup>) {
    if |data| < 8 then None
    else
      var length := I32At(data, 0);
      if length < 0 || |data| < length then None
      else if I32At(data, 4) == SSL_REQUEST then None
      else Some(Startup(I32At(data, 4), Params(if length < 8 then [] else data[8..length], map[], d)))
  }

  method ParseStartup(data: Bytes, d: Decoder) returns (r: Option<Startup>)
    ensures r == Parse(data, d)
  {
    if |data| < 8 {
      return None;
    }
    var length := I32At(data, 0);
    if length < 0 || |data| < length {
      return None;
    }
    var version := I32At(data, 4);
    if version == SSL_REQUEST {
      return None;
    }
    var params: map<Bytes, Bytes> := map[];
    if length >= 8 {
      params := ReadPairs(data[..length], d);
      assert data[..length][8..] == data[8..length];
    }
    return Some(Startup(version, params));
  }

  method ReadPairs(data: Bytes, d: Decoder) returns (params: map<Bytes, Bytes>)
    requires |data| >= 8
    ensures params == Params(data[8..], map[], d)
  {
    hide NextPair;
    params := map[];
    var offset: nat := 8;
    while offset < |data|
      invariant 8 <= offset <= |data| + 1
      invariant Params(data[8..], map[], d) == Params(Remaining(data, offset), params, d)
      decreases |data| + 1 - offset
    {
      var key, value, next, end := ReadPair(data, offset, d);
      if end {
        return;
      }
      params := params[key := value];
      offset := next;
    }
    NothingLeft(d);
  }

  lemma NothingLeft(d: Decoder)
    ensures NextPair([], d) == End
  {
  }

  ghost function Remaining(data: Bytes, offset: nat): Bytes {
    if offset <= |data| then data[offset..] else []
  }

  /** The pair at an offset, from the two terminators found there. */
  lemma NoPairAt(data: Bytes, start: nat, keyEnd: nat, d: Decoder)
    requires start <= keyEnd <= |data| && keyEnd == start + NulIndex(data[start..], 0)
    ensures keyEnd == |data| || d(data[start..keyEnd]) == [] ==> NextPair(data[start..], d) == End
  {
    hide NulIndex;
    assert data[start..][..keyEnd - start] == data[start..keyEnd];
  }

  lemma PairAt(data: Bytes, start: nat, keyEnd: nat, valueEnd: nat, d: Decoder)
    requires start <= keyEnd < |data| && keyEnd == start + NulIndex(data[start..], 0)
    requires d(data[start..keyEnd]) != []
    requires keyEnd < valueEnd <= |data| && valueEnd == keyEnd + 1 + NulIndex(data[keyEnd + 1..], 0)
    ensures NextPair(data[start..], d) ==
            Pair(d(data[start..keyEnd]), d(data[keyEnd + 1..valueEnd]), Remaining(data, valueEnd + 1))
  {
    hide NulIndex;
    assert data[start..][..keyEnd - start] == data[start..keyEnd];
    assert data[start..][keyEnd - start + 1..] == data[keyEnd + 1..];
    assert data[keyEnd + 1..][..valueEnd - keyEnd - 1] == data[keyEnd + 1..valueEnd];
    assert valueEnd + 1 <= |data| ==> data[keyEnd + 1..][valueEnd - keyEnd..] == data[valueEnd + 1..];
  }

  method ReadPair(data: Bytes, start: nat, d: Decoder) returns (key: Bytes, value: Bytes, next: nat, end: bool)
    requires start < |data|
    ensures var p := NextPair(data[start..], d);
            if end then p == End
            else start < next <= |data| + 1 && p == Pair(key, value, Remaining(data, next))
  {
    hide NulIndex, Remaining, NextPair;
    key, value, next, end := [], [], start, true;
    var keyEnd := SkipToNul(data, start);
    NoPairAt(data, start, keyEnd, d);
    if keyEnd >= |data| {
      return;
    }
    key := d(data[start..keyEnd]);
    if key == [] {
      return;
    }
    var valueEnd := SkipToNul(data, keyEnd + 1);
    value := d(data[keyEnd + 1..valueEnd]);
    next, end := valueEnd + 1, false;
    PairAt(data, start, keyEnd, valueEnd, d);
  }

  method SkipToNul(data: Bytes, start: nat) returns (offset: nat)
    requires start <= |data|
    ensures start <= offset <= |data|
    ensures offset == start + NulIndex(data[start..], 0)
  {
    offset := start;
    while offset < |data| && data[offset] != 0
      invariant start <= offset <= |data|
      invariant forall k | start <= k < offset :: data[k] != 0
    {
      offset := offset + 1;
    }
    NulIndexUnique(data[start..], 0, offset - start);
  }

  // ---------------------------------------------------------------- building

  function PairsBytes(pairs: seq<(Bytes, Bytes)>): (b: Bytes) {
    if pairs == [] then [] else pairs[0].0 + [0] + pairs[0].1 + [0] + PairsBytes(pairs[1..])
  }

  const USER := Ascii("user")
  const DATABASE := Ascii("database")

  function Build(user: Bytes, database: Bytes, extra: seq<(Bytes, Bytes)>): (b: Bytes) {
    var params := PairsBytes([(USER, user), (DATABASE, database)] + extra) + [0];
    Be32(8 + |params|) + Be32(PROTOCOL_VERSION_3) + params
  }

  /** The pairs of the client's map other than user and database, in whatever order the map iterates. */
  ghost predicate Enumerates(extra: seq<(Bytes, Bytes)>, params: map<Bytes, Bytes>) {
    && (forall i, j | 0 <= i < j < |extra| :: extra[i].0 != extra[j].0)
    && (forall i | 0 <= i < |extra| ::
          extra[i].0 in params && extra[i].0 != USER && extra[i].0 != DATABASE && params[extra[i].0] == extra[i].1)
    && (forall k | k in params && k != USER && k != DATABASE :: (k, params[k]) in extra)
  }

  // ---------------------------------------------------------------- round trip

  predicate PairOk(p: (Bytes, Bytes)) { p.0 != [] && Text(p.0) && Text(p.1) }

  function InsertAll(m: map<Bytes, Bytes>, pairs: seq<(Bytes, Bytes)>): (r: map<Bytes, Bytes>)
    decreases |pairs|
  {
    if pairs == [] then m else InsertAll(m[pairs[0].0 := pairs[0].1], pairs[1..])
  }

  lemma NextPairOf(key: Bytes, value: Bytes, after: Bytes, d: Decoder)
    requires Lossy(d) && PairOk((key, value))
    ensures NextPair(key + [0] + (value + [0] + after), d) == Pair(key, value, after)
  {
    hide Utf8;
    var tail := value + [0] + after;
    var b := key + [0] + tail;
    NulIndexUnique(b, 0, |key|);
    assert b[..|key|] == key && b[|key| + 1..] == tail;
    NulIndexUnique(tail, 0, |value|);
    assert tail[..|value|] == value && tail[|value| + 1..] == after;
  }

  lemma EmptyKeyEnds(rest: Bytes, d: Decoder)
    requires Lossy(d)
    ensures NextPair([0] + rest, d) == End
  {
    NulIndexUnique([0] + rest, 0, 0);
    assert ([0] + rest)[..0] == [];
    assert Utf8([]);
  }

  lemma {:induction false} ParamsOfPairs(pairs: seq<(Bytes, Bytes)>, rest: Bytes, m: map<Bytes, Bytes>, d: Decoder)
    requires Lossy(d)
    requires forall i | 0 <= i < |pairs| :: PairOk(pairs[i])
    ensures Params(PairsBytes(pairs) + ([0] + rest), m, d) == InsertAll(m, pairs)
    decreases |pairs|
  {
    hide NextPair, PairOk, Lossy;
    if pairs == [] {
      EmptyKeyEnds(rest, d);
      assert PairsBytes(pairs) + ([0] + rest) == [0] + rest;
    } else {
      var (key, value) := pairs[0];
      var after := PairsBytes(pairs[1..]) + ([0] + rest);
      assert PairOk(pairs[0]);
      NextPairOf(key, value, after, d);
      assert PairsBytes(pairs) + ([0] + rest) == key + [0] + (value + [0] + after);
      ParamsOfPairs(pairs[1..], rest, m[key := value], d);
    }
  }

  lemma NextPairText(b: Bytes, d: Decoder)
    requires Lossy(d) && NextPair(b, d).Pair?
    ensures var p := NextPair(b, d); PairOk((p.key, p.value))
  {
    hide Utf8;
    var n := NulIndex(b, 0);
    var rest := b[n + 1..];
    assert NulFree(b[..n]) && NulFree(rest[..NulIndex(rest, 0)]);
  }

  /** Keys and values that come out of `Parse` can go back on the wire. */
  lemma {:induction false} ParamsAreText(b: Bytes, m: map<Bytes, Bytes>, d: Decoder)
    requires Lossy(d)
    requires forall k | k in m :: PairOk((k, m[k]))
    ensures forall k | k in Params(b, m, d) :: PairOk((k, Params(b, m, d)[k]))
    decreases |b|
  {
    hide NextPair, PairOk, Lossy;
    var p := NextPair(b, d);
    if p.Pair? {
      NextPairText(b, d);
      ParamsAreText(p.rest, m[p.key := p.value], d);
    }
  }

  lemma {:induction false} InsertAllLookup(m: map<Bytes, Bytes>, pairs: seq<(Bytes, Bytes)>, k: Bytes)
    requires forall i, j | 0 <= i < j < |pairs| :: pairs[i].0 != pairs[j].0
    ensures (exists i | 0 <= i < |pairs| :: pairs[i].0 == k) ==>
              k in InsertAll(m, pairs) && (k, InsertAll(m, pairs)[k]) in pairs
    ensures !(exists i | 0 <= i < |pairs| :: pairs[i].0 == k) ==>
              (k in InsertAll(m, pairs) <==> k in m) && (k in m ==> InsertAll(m, pairs)[k] == m[k])
    decreases |pairs|
  {
    if pairs != [] {
      var m' := m[pairs[0].0 := pairs[0].1];
      InsertAllLookup(m', pairs[1..], k);
      assert forall i | 0 <= i < |pairs[1..]| :: pairs[1..][i] == pairs[i + 1];
      if i :| 1 <= i < |pairs| && pairs[i].0 == k {
        assert pairs[1..][i - 1].0 == k;
      }
      if pairs[0].0 == k {
        assert (k, m'[k]) == pairs[0];
      }
    }
  }

  /** The backend's startup message, parsed, is the client's with `user` and `database` replaced and nothing else
      changed, whatever the order its parameter map iterates in. */
  lemma BackendStartupRoundTrip(client: Bytes, user: Bytes, database: Bytes, extra: seq<(Bytes, Bytes)>, rest: Bytes, d: Decoder)
    requires Lossy(d) && Parse(client, d).Some?
    requires Text(user) && Text(database)
    requires Enumerates(extra, Parse(client, d).value.params)
    requires |Build(user, database, extra)| < TWO31
    ensures Parse(Build(user, database, extra) + rest, d) ==
            Some(Startup(PROTOCOL_VERSION_3, Parse(client, d).value.params[USER := user][DATABASE := database]))
  {
    hide Utf8, Ascii, Params, Parse, InsertAll;
    var params := Parse(client, d).value.params;
    var pairs := [(USER, user), (DATABASE, database)] + extra;
    ParsedIsText(client, d);
    KeysAreText();
    forall i | 0 <= i < |pairs|
      ensures PairOk(pairs[i])
    {
      if i >= 2 {
        assert pairs[i] == extra[i - 2];
        assert PairOk((extra[i - 2].0, params[extra[i - 2].0]));
      }
    }
    BuildParses(pairs, Build(user, database, extra) + rest, rest, d);
    PairsInsertAll(params, user, database, extra);
  }

  lemma ParsedIsText(client: Bytes, d: Decoder)
    requires Lossy(d) && Parse(client, d).Some?
    ensures forall k | k in Parse(client, d).value.params :: PairOk((k, Parse(client, d).value.params[k]))
  {
    hide Params, PairOk;
    var length := I32At(client, 0);
    ParamsAreText(if length < 8 then [] else client[8..length], map[], d);
  }

  lemma KeysAreText()
    ensures USER != DATABASE && USER != [] && DATABASE != [] && Text(USER) && Text(DATABASE)
  {
    hide Utf8;
    assert |USER| == 4 && |DATABASE| == 8;
    LettersAreText("user");
    LettersAreText("database");
  }

  lemma LettersAreText(t: string)
    requires forall i | 0 <= i < |t| :: 'a' <= t[i] <= 'z'
    ensures Text(Ascii(t))
  {
    hide Utf8;
    AsciiIsUtf8(Ascii(t));
  }

  lemma BuildParses(pairs: seq<(Bytes, Bytes)>, data: Bytes, rest: Bytes, d: Decoder)
    requires Lossy(d) && forall i | 0 <= i < |pairs| :: PairOk(pairs[i])
    requires var params := PairsBytes(pairs) + [0];
             8 + |params| < TWO31 && data == Be32(8 + |params|) + Be32(PROTOCOL_VERSION_3) + params + rest
    ensures Parse(data, d) == Some(Startup(PROTOCOL_VERSION_3, InsertAll(map[], pairs)))
  {
    hide Params, PairOk, Lossy, Be32;
    var params := PairsBytes(pairs) + [0];
    assert data[0..4] == Be32(8 + |params|);
    assert data[4..8] == Be32(PROTOCOL_VERSION_3);
    Be32RoundTrip(8 + |params|, data, 0);
    Be32RoundTrip(PROTOCOL_VERSION_3, data, 4);
    assert data[8..8 + |params|] == PairsBytes(pairs) + ([0] + []);
    ParamsOfPairs(pairs, [], map[], d);
  }

  lemma PairsInsertAll(params: map<Bytes, Bytes>, user: Bytes, database: Bytes, extra: seq<(Bytes, Bytes)>)
    requires Enumerates(extra, params) && USER != DATABASE
    ensures InsertAll(map[], [(USER, user), (DATABASE, database)] + extra) == params[USER := user][DATABASE := database]
  {
    hide Ascii, InsertAll;
    var pairs := [(USER, user), (DATABASE, database)] + extra;
    var built := InsertAll(map[], pairs);
    var wanted := params[USER := user][DATABASE := database];
    assert pairs[0] == (USER, user) && pairs[1] == (DATABASE, database);
    assert forall i | 2 <= i < |pairs| :: pairs[i] == extra[i - 2];
    forall k
      ensures (k in built <==> k in wanted) && (k in wanted ==> built[k] == wanted[k])
    {
      InsertAllLookup(map[], pairs, k);
      if k in wanted {
        if k == USER || k == DATABASE {
        } else {
          var i :| 0 <= i < |extra| && extra[i] == (k, params[k]);
          assert pairs[i + 2].0 == k;
        }
      }
    }
  }

  // ---------------------------------------------------------------- what is refused

  /** What follows a whole startup message does not change how it is read. */
  lemma TrailingIgnored(data: Bytes, rest: Bytes, d: Decoder)
    requires Parse(data, d).Some?
    ensures Parse(data + rest, d) == Parse(data, d)
  {
    hide Params;
    var all := data + rest;
    assert all[0..4] == data[0..4] && all[4..8] == data[4..8];
    var length := I32At(data, 0);
    assert I32At(all, 0) == length;
    if length >= 8 {
      assert all[8..length] == data[8..length];
    }
  }

  /** A built message that has not all arrived is refused, wherever it is cut. */
  lemma CutRefused(user: Bytes, database: Bytes, extra: seq<(Bytes, Bytes)>, d: Decoder, k: nat)
    requires k < |Build(user, database, extra)| < TWO31
    ensures Parse(Build(user, database, extra)[..k], d) == None
  {
    hide Params, PairsBytes, Be32, I32At;
    var b := Build(user, database, extra);
    if k >= 8 {
      assert b[..k][0..4] == Be32(|b|);
      Be32RoundTrip(|b|, b[..k], 0);
    }
  }

  /** An SSLRequest is not a startup message. */
  lemma SslRequestRefused(rest: Bytes, d: Decoder)
    ensures Parse([0, 0, 0, 8, 4, 210, 22, 47] + rest, d) == None
  {
    var b: Bytes := [0, 0, 0, 8, 4, 210, 22, 47] + rest;
    var code: Bytes := [4, 210, 22, 47];
    assert b[4..8] == code;
    assert FromBigEndian(code) == 80877103 by {
      assert code[..3] == [4, 210, 22] && code[..3][..2] == [4, 210] && code[..3][..2][..1] == [4];
      assert FromBigEndian(code[..3][..2][..1]) == 4;
      assert FromBigEndian(code[..3][..2]) == 1234;
      assert FromBigEndian(code[..3]) == 315926;
    }
  }
}
