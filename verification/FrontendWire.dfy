/** Frontend messages: the encoding of section 55.7 of the PostgreSQL 16 documentation, and the decoders of extractor.rs. */
module FrontendWire {
  import opened WireBytes

  /** What the proxy keeps of a parsed frontend message. */
  datatype Message =
    | Query(query: Bytes)
    | Parse(name: Bytes, query: Bytes, oids: seq<nat>)
    | Bind(portal: Bytes, statement: Bytes, formats: seq<int>, params: seq<Option<Bytes>>)
    | Execute(portal: Bytes)
    | Close(kind: byte, name: Bytes)
    | Sync
    | Terminate

  /** The outcome of decoding one complete frame. A negative count makes `Vec::with_capacity` overflow, and a
      parameter length below -1 can wrap the bounds check: both end the decoder in a panic. */
  datatype Decoded = Msg(message: Message) | Skip | Panics

  // ---------------------------------------------------------------- specification: consuming parsers

  /** Splits a NUL-terminated UTF-8 string off the front. */
  function TakeCString(s: Bytes): (r: Option<(Bytes, Bytes)>) {
    var n := NulIndex(s, 0);
    if n < |s| && Utf8(s[..n]) then Some((s[..n], s[n + 1..])) else None
  }

  function TakeI16(s: Bytes): (r: Option<(int, Bytes)>) {
    if |s| < 2 then None else Some((I16At(s, 0), s[2..]))
  }

  function TakeOids(count: nat, s: Bytes): (r: Option<seq<nat>>) {
    if count == 0 then Some([])
    else if |s| < 4 then None
    else match TakeOids(count - 1, s[4..])
      case None => None
      case Some(oids) => Some([U32At(s, 0)] + oids)
  }

  function TakeFormats(count: nat, s: Bytes): (r: Option<(seq<int>, Bytes)>) {
    if count == 0 then Some(([], s))
    else if |s| < 2 then None
    else match TakeFormats(count - 1, s[2..])
      case None => None
      case Some((codes, rest)) => Some(([I16At(s, 0)] + codes, rest))
  }

  datatype Params = Values(values: seq<Option<Bytes>>) | Short | Overflow

  /** `total` is the payload length, so `total - |s|` is the decoder's offset. A length `-k` below -1 becomes
      `2^64 - k`: adding the offset wraps, and the slice panics, exactly when the offset is at least `k`. */
  function TakeParams(count: nat, s: Bytes, total: nat): (r: Params)
    requires |s| <= total
  {
    if count == 0 then Values([])
    else if |s| < 4 then Short
    else
      var len := I32At(s, 0);
      var offset := total - |s| + 4;
      if len < -1 then
        if offset >= -len then Overflow else Short
      else if len == -1 then
        PrependParam(None, TakeParams(count - 1, s[4..], total))
      else if 4 + len > |s| then Short
      else PrependParam(Some(s[4..4 + len]), TakeParams(count - 1, s[4 + len..], total))
  }

  function PrependParam(p: Option<Bytes>, r: Params): (r': Params) {
    match r
    case Values(vs) => Values([p] + vs)
    case other => other
  }

  function DecodeQuery(payload: Bytes): (d: Decoded) {
    match TakeCString(payload)
    case None => Skip
    case Some((q, _)) => Msg(Query(q))
  }

  function DecodeParse(payload: Bytes): (d: Decoded) {
    match TakeCString(payload)
    case None => Skip
    case Some((name, s1)) =>
      match TakeCString(s1)
      case None => Skip
      case Some((query, s2)) =>
        match TakeI16(s2)
        case None => Skip
        case Some((count, s3)) =>
          if count < 0 then Panics
          else match TakeOids(count, s3)
            case None => Skip
            case Some(oids) => Msg(Parse(name, query, oids))
  }

  function DecodeBind(payload: Bytes): (d: Decoded) {
    match TakeCString(payload)
    case None => Skip
    case Some((portal, s1)) =>
      match TakeCString(s1)
      case None => Skip
      case Some((statement, s2)) => DecodeBindTail(portal, statement, s2, |payload|)
  }

  function DecodeBindTail(portal: Bytes, statement: Bytes, s: Bytes, total: nat): (d: Decoded)
    requires |s| <= total
  {
    match TakeI16(s)
    case None => Skip
    case Some((formatCount, s1)) =>
      if formatCount < 0 then Panics
      else match TakeFormats(formatCount, s1)
        case None => Skip
        case Some((formats, s2)) =>
          TakeFormatsLength(formatCount, s1);
          DecodeBindParams(portal, statement, formats, s2, total)
  }

  function DecodeBindParams(portal: Bytes, statement: Bytes, formats: seq<int>, s: Bytes, total: nat): (d: Decoded)
    requires |s| <= total
  {
    match TakeI16(s)
    case None => Skip
    case Some((paramCount, s1)) =>
      if paramCount < 0 then Panics
      else match TakeParams(paramCount, s1, total)
        case Short => Skip
        case Overflow => Panics
        case Values(params) => Msg(Bind(portal, statement, formats, params))
  }

  lemma TakeFormatsLength(count: nat, s: Bytes)
    ensures var r := TakeFormats(count, s); r.Some? ==> |r.value.0| == count && |r.value.1| + 2 * count == |s|
  {
  }

  function DecodeExecute(payload: Bytes): (d: Decoded) {
    match TakeCString(payload)
    case None => Skip
    case Some((portal, _)) => Msg(Execute(portal))
  }

  function DecodeClose(payload: Bytes): (d: Decoded) {
    if payload == [] then Skip
    else match TakeCString(payload[1..])
      case None => Skip
      case Some((name, _)) => Msg(Close(payload[0], name))
  }

  const QUERY: byte := 81      // 'Q'
  const PARSE: byte := 80      // 'P'
  const BIND: byte := 66       // 'B'
  const EXECUTE: byte := 69    // 'E'
  const CLOSE: byte := 67      // 'C'
  const SYNC: byte := 83       // 'S'
  const TERMINATE: byte := 88  // 'X'

  predicate Recognised(tag: byte) {
    tag in {QUERY, PARSE, BIND, EXECUTE, CLOSE, SYNC, TERMINATE}
  }

  function Decode(tag: byte, payload: Bytes): (d: Decoded) {
    if tag == QUERY then DecodeQuery(payload)
    else if tag == PARSE then DecodeParse(payload)
    else if tag == BIND then DecodeBind(payload)
    else if tag == EXECUTE then DecodeExecute(payload)
    else if tag == CLOSE then DecodeClose(payload)
    else if tag == SYNC then Msg(Sync)
    else if tag == TERMINATE then Msg(Terminate)
    else Skip
  }

  // ---------------------------------------------------------------- implementation: decoders over an offset

  /** `read_cstring`: the string from `offset` to the next NUL, if there is one and the bytes are UTF-8. */
  method ReadCString(data: Bytes, offset: nat) returns (r: Option<Bytes>)
    requires offset <= |data|
    ensures var t := TakeCString(data[offset..]);
            if t.None? then r.None?
            else r == Some(t.value.0) && offset + |t.value.0| + 1 <= |data| && t.value.1 == data[offset + |t.value.0| + 1..]
  {
    var end := offset;
    while end < |data| && data[end] != 0
      invariant offset <= end <= |data|
      invariant forall k | offset <= k < end :: data[k] != 0
    {
      end := end + 1;
    }
    NulIndexUnique(data[offset..], 0, end - offset);
    if end >= |data| {
      return None;
    }
    var text := data[offset..end];
    assert text == data[offset..][..end - offset];
    assert data[offset..][end - offset + 1..] == data[end + 1..];
    return if Utf8(text) then Some(text) else None;
  }

  method ReadI16(data: Bytes, offset: nat) returns (r: Option<int>)
    requires offset <= |data|
    ensures var t := TakeI16(data[offset..]);
            if t.None? then r.None?
            else r == Some(t.value.0) && offset + 2 <= |data| && t.value.1 == data[offset + 2..]
  {
    if offset + 2 > |data| {
      return None;
    }
    I16AtShift(data, offset);
    return Some(I16At(data, offset));
  }

  method ReadOids(payload: Bytes, start: nat, count: nat) returns (r: Option<seq<nat>>)
    requires start <= |payload|
    ensures r == TakeOids(count, payload[start..])
  {
    var offset: nat := start;
    var oids: seq<nat> := [];
    ghost var t := TakeOids(count, payload[start..]);
    for i := 0 to count
      invariant offset <= |payload|
      invariant var h := TakeOids(count - i, payload[offset..]);
                if h.None? then t.None? else t.Some? && t.value == oids + h.value
    {
      if offset + 4 > |payload| {
        return None;
      }
      ghost var here := payload[offset..];
      assert here[0..4] == payload[offset..offset + 4];
      assert here[4..] == payload[offset + 4..];
      oids := oids + [U32At(payload, offset)];
      offset := offset + 4;
    }
    assert t.value == oids;
    return Some(oids);
  }

  method ParseParseMessage(payload: Bytes) returns (d: Decoded)
    ensures d == DecodeParse(payload)
  {
    assert payload[0..] == payload;
    var offset := 0;
    var name := ReadCString(payload, offset);
    if name.None? { return Skip; }
    offset := offset + |name.value| + 1;
    var query := ReadCString(payload, offset);
    if query.None? { return Skip; }
    offset := offset + |query.value| + 1;
    var count := ReadI16(payload, offset);
    if count.None? { return Skip; }
    offset := offset + 2;
    if count.value < 0 { return Panics; }
    var oids := ReadOids(payload, offset, count.value);
    if oids.None? { return Skip; }
    return Msg(Parse(name.value, query.value, oids.value));
  }

  method ReadFormats(payload: Bytes, start: nat, count: nat) returns (r: Option<(seq<int>, nat)>)
    requires start <= |payload|
    ensures var t := TakeFormats(count, payload[start..]);
            if t.None? then r.None?
            else r.Some? && r.value.0 == t.value.0 && r.value.1 <= |payload| && t.value.1 == payload[r.value.1..]
  {
    var offset: nat := start;
    var codes: seq<int> := [];
    ghost var t := TakeFormats(count, payload[start..]);
    for i := 0 to count
      invariant offset <= |payload|
      invariant var h := TakeFormats(count - i, payload[offset..]);
                if h.None? then t.None? else t.Some? && t.value.0 == codes + h.value.0 && t.value.1 == h.value.1
    {
      if offset + 2 > |payload| {
        return None;
      }
      I16AtShift(payload, offset);
      assert payload[offset..][2..] == payload[offset + 2..];
      codes := codes + [I16At(payload, offset)];
      offset := offset + 2;
    }
    return Some((codes, offset));
  }

  method ReadParams(payload: Bytes, start: nat, count: nat) returns (r: Params)
    requires start <= |payload|
    ensures r == TakeParams(count, payload[start..], |payload|)
  {
    var offset: nat := start;
    var params: seq<Option<Bytes>> := [];
    ghost var t := TakeParams(count, payload[start..], |payload|);
    for i := 0 to count
      invariant offset <= |payload|
      invariant t == PrependParams(params, TakeParams(count - i, payload[offset..], |payload|))
    {
      if offset + 4 > |payload| {
        return Short;
      }
      ghost var here := payload[offset..];
      I32AtShift(payload, offset, 0);
      var len := I32At(payload, offset);
      offset := offset + 4;
      assert here[4..] == payload[offset..];
      if len == -1 {
        PrependParamsStep(params, None, TakeParams(count - i - 1, payload[offset..], |payload|));
        params := params + [None];
      } else if len < 0 {
        return if offset >= -len then Overflow else Short;
      } else {
        if offset + len > |payload| {
          return Short;
        }
        assert here[4..4 + len] == payload[offset..offset + len];
        assert here[4 + len..] == payload[offset + len..];
        PrependParamsStep(params, Some(payload[offset..offset + len]), TakeParams(count - i - 1, payload[offset + len..], |payload|));
        params := params + [Some(payload[offset..offset + len])];
        offset := offset + len;
      }
    }
    return Values(params);
  }

  ghost function PrependParams(ps: seq<Option<Bytes>>, r: Params): Params {
    match r
    case Values(vs) => Values(ps + vs)
    case other => other
  }

  lemma PrependParamsStep(ps: seq<Option<Bytes>>, p: Option<Bytes>, r: Params)
    ensures PrependParams(ps, PrependParam(p, r)) == PrependParams(ps + [p], r)
  {
    if r.Values? {
      assert ps + ([p] + r.values) == (ps + [p]) + r.values;
    }
  }

  method ParseBindMessage(payload: Bytes) returns (d: Decoded)
    ensures d == DecodeBind(payload)
  {
    hide TakeFormats, TakeParams, TakeCString;
    assert payload[0..] == payload;
    var portal := ReadCString(payload, 0);
    if portal.None? { return Skip; }
    var offset := |portal.value| + 1;
    var statement := ReadCString(payload, offset);
    if statement.None? { return Skip; }
    offset := offset + |statement.value| + 1;
    var formatCount := ReadI16(payload, offset);
    if formatCount.None? { return Skip; }
    if formatCount.value < 0 { return Panics; }
    var formats := ReadFormats(payload, offset + 2, formatCount.value);
    if formats.None? { return Skip; }
    offset := formats.value.1;
    var paramCount := ReadI16(payload, offset);
    if paramCount.None? { return Skip; }
    if paramCount.value < 0 { return Panics; }
    var params := ReadParams(payload, offset + 2, paramCount.value);
    match params {
      case Short => return Skip;
      case Overflow => return Panics;
      case Values(values) => return Msg(Bind(portal.value, statement.value, formats.value.0, values));
    }
  }

  method DecodeFrame(tag: byte, payload: Bytes) returns (d: Decoded)
    ensures d == Decode(tag, payload)
  {
    if tag == QUERY {
      assert payload[0..] == payload;
      var query := ReadCString(payload, 0);
      return if query.None? then Skip else Msg(Query(query.value));
    } else if tag == PARSE {
      d := ParseParseMessage(payload);
    } else if tag == BIND {
      d := ParseBindMessage(payload);
    } else if tag == EXECUTE {
      assert payload[0..] == payload;
      var portal := ReadCString(payload, 0);
      return if portal.None? then Skip else Msg(Execute(portal.value));
    } else if tag == CLOSE {
      if payload == [] { return Skip; }
      var name := ReadCString(payload, 1);
      return if name.None? then Skip else Msg(Close(payload[0], name.value));
    } else {
      return if tag == SYNC then Msg(Sync) else if tag == TERMINATE then Msg(Terminate) else Skip;
    }
  }

  // ---------------------------------------------------------------- the encoding of section 55.7

  function CString(s: Bytes): (b: Bytes) { s + [0] }

  function OidBytes(oids: seq<nat>): (b: Bytes) {
    if oids == [] then [] else Be32(oids[0]) + OidBytes(oids[1..])
  }

  function FormatBytes(codes: seq<int>): (b: Bytes) {
    if codes == [] then [] else Be16(codes[0]) + FormatBytes(codes[1..])
  }

  function ParamBytes(p: Option<Bytes>): (b: Bytes) {
    match p
    case None => Be32(-1)
    case Some(v) => Be32(|v|) + v
  }

  function ParamsBytes(ps: seq<Option<Bytes>>): (b: Bytes) {
    if ps == [] then [] else ParamBytes(ps[0]) + ParamsBytes(ps[1..])
  }

  /** The type bytes of section 55.7. */
  function Tag(m: Message): (t: byte) {
    match m
    case Query(_) => 'Q' as int
    case Parse(_, _, _) => 'P' as int
    case Bind(_, _, _, _) => 'B' as int
    case Execute(_) => 'E' as int
    case Close(_, _) => 'C' as int
    case Sync => 'S' as int
    case Terminate => 'X' as int
  }

  /** The bytes of a message's payload up to the last field the proxy keeps; Bind goes on with result format
      codes and Execute with a row limit, which the proxy does not look at. */
  function Kept(m: Message): (b: Bytes) {
    match m
    case Query(q) => CString(q)
    case Parse(n, q, oids) => ParseHead(n, q) + (Be16(|oids|) + OidBytes(oids))
    case Bind(p, s, fs, ps) => BindHead(p, s, fs) + (Be16(|ps|) + ParamsBytes(ps))
    case Execute(p) => CString(p)
    case Close(k, n) => [k] + CString(n)
    case Sync => []
    case Terminate => []
  }

  /** Two strings: the part of a Parse payload before the number of OIDs, of a Bind payload before the format codes. */
  function ParseHead(name: Bytes, query: Bytes): (b: Bytes) {
    CString(name) + CString(query)
  }

  /** The part of a Bind payload before the number of parameters. */
  function BindHead(portal: Bytes, statement: Bytes, formats: seq<int>): (b: Bytes) {
    ParseHead(portal, statement) + (Be16(|formats|) + FormatBytes(formats))
  }

  predicate OidsFit(oids: seq<nat>) {
    |oids| < TWO15 && forall i | 0 <= i < |oids| :: oids[i] < TWO32
  }

  predicate FormatsFit(codes: seq<int>) {
    |codes| < TWO15 && forall i | 0 <= i < |codes| :: -TWO15 <= codes[i] < TWO15
  }

  predicate ParamsFit(ps: seq<Option<Bytes>>) {
    forall i | 0 <= i < |ps| :: ps[i].Some? ==> |ps[i].value| < TWO31
  }

  /** Every field fits its wire format: NUL-free UTF-8 strings, counts below 2^15, OIDs of 32 bits. */
  predicate WellFormed(m: Message) {
    match m
    case Query(q) => Text(q)
    case Parse(n, q, oids) => Text(n) && Text(q) && OidsFit(oids)
    case Bind(p, s, fs, ps) => Text(p) && Text(s) && FormatsFit(fs) && |ps| < TWO15 && ParamsFit(ps)
    case Execute(p) => Text(p)
    case Close(_, n) => Text(n)
    case Sync => true
    case Terminate => true
  }

  // ---------------------------------------------------------------- the consuming parsers invert the encoding

  lemma TakeCStringOf(s: Bytes, rest: Bytes)
    requires Text(s)
    ensures TakeCString(CString(s) + rest) == Some((s, rest))
  {
    var b := CString(s) + rest;
    NulIndexUnique(b, 0, |s|);
    assert b[..|s|] == s;
    assert b[|s| + 1..] == rest;
  }

  lemma TakeCStringSound(b: Bytes)
    requires TakeCString(b).Some?
    ensures var (s, rest) := TakeCString(b).value; Text(s) && b == CString(s) + rest
  {
  }

  lemma TakeI16Of(n: int, rest: Bytes)
    requires -TWO15 <= n < TWO15
    ensures TakeI16(Be16(n) + rest) == Some((n, rest))
  {
    Be16RoundTrip(n, Be16(n) + rest, 0);
  }

  lemma TakeI16Sound(b: Bytes)
    requires TakeI16(b).Some?
    ensures var (n, rest) := TakeI16(b).value; b == Be16(n) + rest
  {
    Be16Inverse(b, 0);
  }

  lemma {:induction false} TakeOidsOf(oids: seq<nat>, rest: Bytes)
    requires forall i | 0 <= i < |oids| :: oids[i] < TWO32
    ensures TakeOids(|oids|, OidBytes(oids) + rest) == Some(oids)
  {
    if oids != [] {
      var b := OidBytes(oids) + rest;
      assert b == Be32(oids[0]) + (OidBytes(oids[1..]) + rest);
      TakeOidsOf(oids[1..], rest);
      Be32RoundTrip(oids[0], b, 0);
      assert b[4..] == OidBytes(oids[1..]) + rest;
      assert oids == [oids[0]] + oids[1..];
    }
  }

  lemma {:induction false} TakeOidsSound(count: nat, b: Bytes)
    requires TakeOids(count, b).Some?
    ensures var oids := TakeOids(count, b).value;
            |oids| == count && (forall i | 0 <= i < |oids| :: oids[i] < TWO32) && OidBytes(oids) <= b
  {
    if count > 0 {
      TakeOidsSound(count - 1, b[4..]);
      var oids := TakeOids(count, b).value;
      Be32InverseU(b, 0);
      assert oids[1..] == TakeOids(count - 1, b[4..]).value;
      assert b == Be32(oids[0]) + b[4..];
    }
  }

  lemma {:induction false} TakeFormatsOf(codes: seq<int>, rest: Bytes)
    requires forall i | 0 <= i < |codes| :: -TWO15 <= codes[i] < TWO15
    ensures TakeFormats(|codes|, FormatBytes(codes) + rest) == Some((codes, rest))
  {
    var b := FormatBytes(codes) + rest;
    if codes == [] {
      assert b == rest;
    } else {
      TakeFormatsOf(codes[1..], rest);
      assert b == Be16(codes[0]) + (FormatBytes(codes[1..]) + rest);
      Be16RoundTrip(codes[0], b, 0);
      assert b[2..] == FormatBytes(codes[1..]) + rest;
      assert codes == [codes[0]] + codes[1..];
    }
  }

  lemma {:induction false} TakeFormatsSound(count: nat, b: Bytes)
    requires TakeFormats(count, b).Some?
    ensures var (codes, rest) := TakeFormats(count, b).value;
            |codes| == count && (forall i | 0 <= i < |codes| :: -TWO15 <= codes[i] < TWO15)
            && b == FormatBytes(codes) + rest
  {
    if count > 0 {
      TakeFormatsSound(count - 1, b[2..]);
      var (codes, rest) := TakeFormats(count, b).value;
      Be16Inverse(b, 0);
      assert codes[1..] == TakeFormats(count - 1, b[2..]).value.0;
      assert b == Be16(codes[0]) + (FormatBytes(codes[1..]) + rest);
    }
  }

  lemma TakeParamOf(p: Option<Bytes>, count: nat, after: Bytes, total: nat)
    requires p.Some? ==> |p.value| < TWO31
    requires |ParamBytes(p) + after| <= total
    ensures TakeParams(count + 1, ParamBytes(p) + after, total) == PrependParam(p, TakeParams(count, after, total))
  {
    var b := ParamBytes(p) + after;
    match p
    case None =>
      Be32RoundTrip(-1, b, 0);
      assert b[4..] == after;
    case Some(v) =>
      assert b[0..4] == Be32(|v|);
      Be32RoundTrip(|v|, b, 0);
      assert b[4..4 + |v|] == v;
      assert b[4 + |v|..] == after;
  }

  /** Parameters are read off one by one; `count` more may follow them. */
  lemma {:induction false} TakeParamsOf(ps: seq<Option<Bytes>>, count: nat, rest: Bytes, total: nat)
    requires ParamsFit(ps)
    requires |ParamsBytes(ps) + rest| <= total
    ensures TakeParams(|ps| + count, ParamsBytes(ps) + rest, total) == PrependParams(ps, TakeParams(count, rest, total))
  {
    hide TakeParams, ParamBytes;
    var r := TakeParams(count, rest, total);
    if ps == [] {
      assert ParamsBytes(ps) + rest == rest;
      assert r.Values? ==> [] + r.values == r.values;
    } else {
      var tail := ps[1..];
      var after := ParamsBytes(tail) + rest;
      assert ParamsBytes(ps) + rest == ParamBytes(ps[0]) + after;
      TakeParamsOf(tail, count, rest, total);
      TakeParamOf(ps[0], |tail| + count, after, total);
      assert r.Values? ==> [ps[0]] + (tail + r.values) == ps + r.values;
    }
  }

  /** Where reading parameters stops: after `ps`, with `rest` unread and `left` still to come. */
  ghost predicate ParamsStop(ps: seq<Option<Bytes>>, left: nat, rest: Bytes, count: nat, b: Bytes, total: nat)
    requires |b| <= total
  {
    && ParamsFit(ps) && |ps| + left == count && b == ParamsBytes(ps) + rest
    && match TakeParams(count, b, total)
       case Values(vs) => left == 0 && vs == ps
       case Overflow => left > 0 && |rest| >= 4 && I32At(rest, 0) < -1 && total - |rest| + 4 >= -I32At(rest, 0)
       case Short => true
  }

  lemma {:induction false} TakeParamsSound(count: nat, b: Bytes, total: nat)
      returns (ps: seq<Option<Bytes>>, left: nat, rest: Bytes)
    requires |b| <= total
    ensures ParamsStop(ps, left, rest, count, b, total)
  {
    hide ParamsStop, I32At;
    ps, left, rest := [], count, b;
    if count == 0 || |b| < 4 {
      StopsHere(count, b, total);
      return;
    }
    var len := I32At(b, 0);
    Be32Inverse(b, 0);
    if len == -1 {
      ps, left, rest := TakeParamsSound(count - 1, b[4..], total);
      ParamsStopCons(None, ps, left, rest, count, b, total, b[4..]);
      ps := [None] + ps;
    } else if 0 <= len && 4 + len <= |b| {
      ps, left, rest := TakeParamsSound(count - 1, b[4 + len..], total);
      ParamsStopCons(Some(b[4..4 + len]), ps, left, rest, count, b, total, b[4 + len..]);
      ps := [Some(b[4..4 + len])] + ps;
    } else {
      StopsHere(count, b, total);
    }
  }

  /** No parameter can be read at the front. */
  lemma StopsHere(count: nat, b: Bytes, total: nat)
    requires |b| <= total
    requires count > 0 && |b| >= 4 ==> I32At(b, 0) != -1 && (I32At(b, 0) < 0 || 4 + I32At(b, 0) > |b|)
    ensures ParamsStop([], count, b, count, b, total)
  {
    hide I32At;
  }

  lemma ParamsStopCons(p: Option<Bytes>, ps: seq<Option<Bytes>>, left: nat, rest: Bytes, count: nat, b: Bytes, total: nat,
                       after: Bytes)
    requires count > 0 && |b| <= total && |after| <= |b|
    requires p.Some? ==> |p.value| < TWO31
    requires b == ParamBytes(p) + after
    requires ParamsStop(ps, left, rest, count - 1, after, total)
    ensures ParamsStop([p] + ps, left, rest, count, b, total)
  {
    hide TakeParams, ParamBytes, I32At;
    TakeParamOf(p, count - 1, after, total);
    assert ([p] + ps)[1..] == ps;
    assert ParamBytes(p) + (ParamsBytes(ps) + rest) == (ParamBytes(p) + ParamsBytes(ps)) + rest;
  }

  // ---------------------------------------------------------------- decoding, exactly

  lemma TakeHead(a: Bytes, b: Bytes, rest: Bytes)
    requires Text(a) && Text(b)
    ensures TakeCString(ParseHead(a, b) + rest) == Some((a, CString(b) + rest))
    ensures TakeCString(CString(b) + rest) == Some((b, rest))
  {
    assert ParseHead(a, b) + rest == CString(a) + (CString(b) + rest);
    TakeCStringOf(a, CString(b) + rest);
    TakeCStringOf(b, rest);
  }

  /** A payload that begins with two strings, or does not. */
  lemma TakeHeadSound(payload: Bytes) returns (a: Bytes, b: Bytes, rest: Bytes, ok: bool)
    ensures ok ==> Text(a) && Text(b) && payload == ParseHead(a, b) + rest
    ensures ok ==> TakeCString(payload) == Some((a, CString(b) + rest)) && TakeCString(CString(b) + rest) == Some((b, rest))
    ensures !ok ==> TakeCString(payload).None? || TakeCString(TakeCString(payload).value.1).None?
  {
    a, b, rest, ok := [], [], [], false;
    if TakeCString(payload).Some? {
      TakeCStringSound(payload);
      var (x, s1) := TakeCString(payload).value;
      if TakeCString(s1).Some? {
        TakeCStringSound(s1);
        var (y, s2) := TakeCString(s1).value;
        assert CString(x) + (CString(y) + s2) == ParseHead(x, y) + s2;
        a, b, rest, ok := x, y, s2, true;
      }
    }
  }

  lemma DecodeParseOf(m: Message, payload: Bytes)
    requires m.Parse? && WellFormed(m) && Kept(m) <= payload
    ensures DecodeParse(payload) == Msg(m)
  {
    hide TakeCString, TakeOids, Utf8, NulFree, CString, OidBytes, Be16, TakeI16;
    var rest := payload[|Kept(m)|..];
    var s3 := OidBytes(m.oids) + rest;
    var s2 := Be16(|m.oids|) + s3;
    assert payload == ParseHead(m.name, m.query) + s2;
    TakeHead(m.name, m.query, s2);
    TakeI16Of(|m.oids|, s3);
    TakeOidsOf(m.oids, rest);
  }

  /** Two strings, then a negative count: of OIDs in a Parse, of format codes in a Bind. */
  ghost predicate NegativeCount(payload: Bytes, name: Bytes, query: Bytes, count: int) {
    Text(name) && Text(query) && -TWO15 <= count < 0 && ParseHead(name, query) + Be16(count) <= payload
  }

  lemma DecodeParseSound(payload: Bytes)
    ensures var d := DecodeParse(payload);
            && (d.Msg? ==> d.message.Parse? && WellFormed(d.message) && Kept(d.message) <= payload)
            && (d.Panics? ==> exists n, q, c :: NegativeCount(payload, n, q, c))
  {
    hide TakeCString, TakeOids;
    var name, query, s2, ok := TakeHeadSound(payload);
    if ok && TakeI16(s2).Some? {
      var (count, s3) := TakeI16(s2).value;
      TakeI16Sound(s2);
      if count < 0 {
        assert ParseHead(name, query) + Be16(count) <= payload;
        assert NegativeCount(payload, name, query, count);
      } else if TakeOids(count, s3).Some? {
        TakeOidsSound(count, s3);
      }
    }
  }

  lemma DecodeParsePanics(payload: Bytes, name: Bytes, query: Bytes, count: int)
    requires NegativeCount(payload, name, query, count)
    ensures DecodeParse(payload) == Panics
  {
    hide TakeCString, TakeOids;
    var head := ParseHead(name, query);
    var rest := payload[|head| + 2..];
    assert payload == head + (Be16(count) + rest);
    TakeHead(name, query, Be16(count) + rest);
    TakeI16Of(count, rest);
  }

  lemma BindHeadOf(p: Bytes, s: Bytes, fs: seq<int>, rest: Bytes)
    requires Text(p) && Text(s) && FormatsFit(fs)
    ensures DecodeBind(BindHead(p, s, fs) + rest) == DecodeBindParams(p, s, fs, rest, |BindHead(p, s, fs) + rest|)
  {
    hide TakeCString, TakeFormats, DecodeBindParams;
    var s2 := FormatBytes(fs) + rest;
    assert BindHead(p, s, fs) + rest == ParseHead(p, s) + (Be16(|fs|) + s2);
    TakeHead(p, s, Be16(|fs|) + s2);
    TakeI16Of(|fs|, s2);
    TakeFormatsOf(fs, rest);
  }

  lemma DecodeBindOf(m: Message, payload: Bytes)
    requires m.Bind? && WellFormed(m) && Kept(m) <= payload
    ensures DecodeBind(payload) == Msg(m)
  {
    hide DecodeBind, TakeParams, BindHead;
    var rest := payload[|Kept(m)|..];
    var s2 := ParamsBytes(m.params) + rest;
    var s1 := Be16(|m.params|) + s2;
    assert payload == BindHead(m.portal, m.statement, m.formats) + s1;
    BindHeadOf(m.portal, m.statement, m.formats, s1);
    TakeI16Of(|m.params|, s2);
    TakeParamsOf(m.params, 0, rest, |payload|);
    NoParams(rest, |payload|);
    assert m.params + [] == m.params;
  }

  lemma NoParams(rest: Bytes, total: nat)
    requires |rest| <= total
    ensures TakeParams(0, rest, total) == Values([])
  {
  }

  /** The head of a Bind, then a negative number of parameters. */
  ghost predicate NegativeParamCount(payload: Bytes, p: Bytes, s: Bytes, fs: seq<int>, count: int) {
    Text(p) && Text(s) && FormatsFit(fs) && -TWO15 <= count < 0 && BindHead(p, s, fs) + Be16(count) <= payload
  }

  /** A Bind read as far as a parameter whose length, taken as 2^64 minus something, wraps the offset behind it. */
  ghost predicate WrappingLength(payload: Bytes, p: Bytes, s: Bytes, fs: seq<int>, n: nat, ps: seq<Option<Bytes>>, len: int) {
    && Text(p) && Text(s) && FormatsFit(fs) && ParamsFit(ps) && |ps| < n < TWO15 && -TWO31 <= len < -1
    && var head := BindHead(p, s, fs) + (Be16(n) + (ParamsBytes(ps) + Be32(len)));
       head <= payload && |head| >= -len
  }

  /** The frames whose decoding panics. */
  ghost predicate PanicShape(tag: byte, payload: Bytes) {
    || (tag == PARSE && exists n, q, c :: NegativeCount(payload, n, q, c))
    || (tag == BIND && exists p, s, c :: NegativeCount(payload, p, s, c))
    || (tag == BIND && exists p, s, fs, c :: NegativeParamCount(payload, p, s, fs, c))
    || (tag == BIND && exists p, s, fs, n, ps, len :: WrappingLength(payload, p, s, fs, n, ps, len))
  }

  lemma BindPanicsOnFormatCount(payload: Bytes, p: Bytes, s: Bytes, count: int)
    requires NegativeCount(payload, p, s, count)
    ensures DecodeBind(payload) == Panics
  {
    hide TakeCString, TakeFormats, DecodeBindParams;
    var head := ParseHead(p, s);
    var rest := payload[|head| + 2..];
    assert payload == head + (Be16(count) + rest);
    TakeHead(p, s, Be16(count) + rest);
    TakeI16Of(count, rest);
  }

  lemma BindPanicsOnParamCount(payload: Bytes, p: Bytes, s: Bytes, fs: seq<int>, count: int)
    requires NegativeParamCount(payload, p, s, fs, count)
    ensures DecodeBind(payload) == Panics
  {
    hide DecodeBind, BindHead, TakeParams;
    var head := BindHead(p, s, fs);
    var rest := payload[|head| + 2..];
    assert payload == head + (Be16(count) + rest);
    BindHeadOf(p, s, fs, Be16(count) + rest);
    TakeI16Of(count, rest);
  }

  lemma ParamWraps(count: nat, b: Bytes, total: nat, len: int)
    requires count > 0 && |b| <= total && |b| >= 4 && b[0..4] == Be32(len)
    requires -TWO31 <= len < -1 && total - |b| + 4 >= -len
    ensures TakeParams(count, b, total) == Overflow
  {
    Be32RoundTrip(len, b, 0);
  }

  lemma BindPanicsOnLength(payload: Bytes, p: Bytes, s: Bytes, fs: seq<int>, n: nat, ps: seq<Option<Bytes>>, len: int)
    requires WrappingLength(payload, p, s, fs, n, ps, len)
    ensures DecodeBind(payload) == Panics
  {
    hide DecodeBind, BindHead, TakeParams, ParamsBytes;
    var head := BindHead(p, s, fs) + (Be16(n) + (ParamsBytes(ps) + Be32(len)));
    var b := Be32(len) + payload[|head|..];
    var s2 := ParamsBytes(ps) + b;
    assert payload == BindHead(p, s, fs) + (Be16(n) + s2);
    BindHeadOf(p, s, fs, Be16(n) + s2);
    TakeI16Of(n, s2);
    ParamWraps(n - |ps|, b, |payload|, len);
    TakeParamsOf(ps, n - |ps|, b, |payload|);
  }

  lemma DecodeBindParamsSound(payload: Bytes, p: Bytes, s: Bytes, fs: seq<int>, rest: Bytes)
    requires Text(p) && Text(s) && FormatsFit(fs) && payload == BindHead(p, s, fs) + rest
    ensures var d := DecodeBindParams(p, s, fs, rest, |payload|);
            && (d.Msg? ==> d.message.Bind? && WellFormed(d.message) && Kept(d.message) <= payload)
            && (d.Panics? ==> PanicShape(BIND, payload))
  {
    hide BindHead, TakeParams, ParamsBytes;
    if TakeI16(rest).Some? {
      var (n, s1) := TakeI16(rest).value;
      TakeI16Sound(rest);
      if n < 0 {
        assert NegativeParamCount(payload, p, s, fs, n);
      } else {
        var ps, left, b := TakeParamsSound(n, s1, |payload|);
        match TakeParams(n, s1, |payload|)
        case Values(vs) =>
          assert Kept(Bind(p, s, fs, vs)) == BindHead(p, s, fs) + (Be16(n) + ParamsBytes(ps));
        case Overflow =>
          var len := I32At(b, 0);
          Be32Inverse(b, 0);
          var head := BindHead(p, s, fs) + (Be16(n) + (ParamsBytes(ps) + Be32(len)));
          assert payload == head + b[4..];
          assert WrappingLength(payload, p, s, fs, n, ps, len);
        case Short =>
      }
    }
  }

  lemma DecodeBindSound(payload: Bytes)
    ensures var d := DecodeBind(payload);
            && (d.Msg? ==> d.message.Bind? && WellFormed(d.message) && Kept(d.message) <= payload)
            && (d.Panics? ==> PanicShape(BIND, payload))
  {
    hide TakeCString, TakeFormats, DecodeBindParams;
    var p, s, s2, ok := TakeHeadSound(payload);
    if ok && TakeI16(s2).Some? {
      var (n, s3) := TakeI16(s2).value;
      TakeI16Sound(s2);
      if n < 0 {
        assert NegativeCount(payload, p, s, n);
      } else if TakeFormats(n, s3).Some? {
        TakeFormatsSound(n, s3);
        var (fs, s4) := TakeFormats(n, s3).value;
        assert BindHead(p, s, fs) + s4 == ParseHead(p, s) + (Be16(n) + (FormatBytes(fs) + s4));
        DecodeBindParamsSound(payload, p, s, fs, s4);
      }
    }
  }

  lemma DecodeStringOf(prefix: Bytes, s: Bytes, payload: Bytes)
    requires Text(s) && prefix + CString(s) <= payload
    ensures TakeCString(payload[|prefix|..]) == Some((s, payload[|prefix| + |s| + 1..]))
  {
    TakeCStringOf(s, payload[|prefix| + |s| + 1..]);
    assert payload[|prefix|..] == CString(s) + payload[|prefix| + |s| + 1..];
  }

  /** The decoders do exactly what section 55.7 says: a frame shows a message if and only if its payload begins with
      the encoding of that message's kept fields, all within the limits of the format. */
  lemma DecodeExact(tag: byte, payload: Bytes, m: Message)
    ensures Decode(tag, payload) == Msg(m) <==> tag == Tag(m) && WellFormed(m) && Kept(m) <= payload
  {
    hide DecodeParse, DecodeBind, TakeCString;
    if Decode(tag, payload) == Msg(m) {
      if tag == PARSE {
        DecodeParseSound(payload);
      } else if tag == BIND {
        DecodeBindSound(payload);
      } else if tag == CLOSE {
        TakeCStringSound(payload[1..]);
      } else if tag == QUERY || tag == EXECUTE {
        TakeCStringSound(payload);
      }
    }
    if tag == Tag(m) && WellFormed(m) && Kept(m) <= payload {
      match m
      case Parse(_, _, _) => DecodeParseOf(m, payload);
      case Bind(_, _, _, _) => DecodeBindOf(m, payload);
      case Close(k, n) => DecodeStringOf([k], n, payload);
      case Query(q) => DecodeStringOf([], q, payload); assert payload[0..] == payload && [] + CString(q) == CString(q);
      case Execute(p) => DecodeStringOf([], p, payload); assert payload[0..] == payload && [] + CString(p) == CString(p);
      case Sync =>
      case Terminate =>
    }
  }

  /** Decoding panics exactly on the frames of `PanicShape`, although the decoder is meant never to. */
  lemma DecodePanicsExactly(tag: byte, payload: Bytes)
    ensures Decode(tag, payload) == Panics <==> PanicShape(tag, payload)
  {
    hide DecodeParse, DecodeBind, TakeCString, NegativeCount, NegativeParamCount, WrappingLength;
    if tag == PARSE {
      DecodeParseSound(payload);
      if n, q, c :| NegativeCount(payload, n, q, c) {
        DecodeParsePanics(payload, n, q, c);
      }
    } else if tag == BIND {
      DecodeBindSound(payload);
      if p, s, c :| NegativeCount(payload, p, s, c) {
        BindPanicsOnFormatCount(payload, p, s, c);
      } else if p, s, fs, c :| NegativeParamCount(payload, p, s, fs, c) {
        BindPanicsOnParamCount(payload, p, s, fs, c);
      } else if p, s, fs, n, ps, len :| WrappingLength(payload, p, s, fs, n, ps, len) {
        BindPanicsOnLength(payload, p, s, fs, n, ps, len);
      }
    }
  }

  /** A Parse of the empty query under the empty name that announces -1 OIDs. */
  lemma DecodePanicWitness()
    ensures Decode(PARSE, [0, 0, 0xFF, 0xFF]) == Panics
  {
    var payload: Bytes := [0, 0, 0xFF, 0xFF];
    assert ParseHead([], []) == [0, 0];
    Be16Inverse(payload, 2);
    assert payload[2..4] == [0xFF, 0xFF];
    assert I16At(payload, 2) == -1 by {
      assert FromBigEndian([0xFF]) == 0xFF by { assert [0xFF][..0] == []; }
      assert FromBigEndian([0xFF, 0xFF]) == 0xFFFF by { assert [0xFF, 0xFF][..1] == [0xFF]; }
    }
    assert ParseHead([], []) + Be16(-1) == payload;
    assert NegativeCount(payload, [], [], -1);
    DecodeParsePanics(payload, [], [], -1);
  }
}
