/** `MessageExtractor::extract_messages`: frontend messages reassembled from a stream that arrives in arbitrary chunks. */
module Extractor {
  import opened WireBytes
  import opened FrontendWire

  /** Upper bound on the length field of a frontend frame: 64 MiB. */
  const MAX_FRONTEND_MESSAGE_SIZE := 64 * 1024 * 1024

  // ---------------------------------------------------------------- specification: one-shot scan

  datatype Head = NeedMore | Malformed | Complete(size: nat)

  /** What the first bytes of a buffer announce: not yet a frame, an impossible length, or a frame of `size` bytes. */
  function HeadOf(b: Bytes): (h: Head)
    ensures h.Complete? ==> 5 <= h.size <= |b|
  {
    if |b| < 5 then NeedMore
    else
      var length := I32At(b, 1);
      if length < 4 || length > MAX_FRONTEND_MESSAGE_SIZE then Malformed
      else if 1 + length > |b| then NeedMore
      else Complete(1 + length)
  }

  datatype Status = Ok | FramingError | Panicked

  /** Messages in order, the bytes not consumed, and how the scan ended. */
  datatype Scanned = Scanned(messages: seq<Message>, rest: Bytes, status: Status)

  function Cons(d: Decoded, s: Scanned): (r: Scanned) {
    if d.Msg? then s.(messages := [d.message] + s.messages) else s
  }

  function Scan(b: Bytes): (r: Scanned)
    ensures |r.rest| <= |b|
    decreases |b|
  {
    match HeadOf(b)
    case NeedMore => Scanned([], b, Ok)
    case Malformed => Scanned([], b, FramingError)
    case Complete(size) =>
      var d := Decode(b[0], b[5..size]);
      if d.Panics? then Scanned([], b, Panicked) else Cons(d, Scan(b[size..]))
  }

  // ---------------------------------------------------------------- the streaming state

  /** The reassembly buffer and whether its lock was poisoned by a panic. */
  datatype State = State(buffer: Bytes, poisoned: bool)

  const Fresh := State([], false)

  /** One call; `None` is the call that panics. */
  function Extract(st: State, data: Bytes): (r: (State, Option<seq<Message>>)) {
    if st.poisoned then (st, Some([]))
    else
      var s := Scan(st.buffer + data);
      match s.status
      case Ok => (State(s.rest, false), Some(s.messages))
      case FramingError => (State([], false), Some(s.messages))
      case Panicked => (State(st.buffer + data, true), None)
  }

  /** Feeds chunks one call at a time and concatenates what the calls return. */
  function Feed(st: State, chunks: seq<Bytes>): (r: (State, seq<Message>))
    decreases |chunks|
  {
    if chunks == [] then (st, [])
    else
      var (st1, out) := Extract(st, chunks[0]);
      var (st2, more) := Feed(st1, chunks[1..]);
      (st2, (if out.Some? then out.value else []) + more)
  }

  function Concat(chunks: seq<Bytes>): (b: Bytes) {
    if chunks == [] then [] else chunks[0] + Concat(chunks[1..])
  }

  // ---------------------------------------------------------------- the implementation

  class MessageExtractor {
    var buffer: Bytes
    var poisoned: bool

    ghost function View(): State
      reads this
    {
      State(buffer, poisoned)
    }

    constructor ()
      ensures View() == Fresh
    {
      buffer := [];
      poisoned := false;
    }

    /** Frames before a malformed, panicking or incomplete one are decoded; then the buffer is cleared or drained. */
    method ExtractMessages(data: Bytes) returns (messages: Option<seq<Message>>)
      modifies this
      ensures View() == Extract(old(View()), data).0
      ensures messages == Extract(old(View()), data).1
    {
      if poisoned {
        return Some([]);
      }
      buffer := buffer + data;
      var out, offset, status := ScanFrames(buffer);
      match status {
        case Panicked =>
          poisoned := true;
          return None;
        case FramingError =>
          buffer := [];
        case Ok =>
          buffer := buffer[offset..];
      }
      messages := Some(out);
    }
  }

  /** The loop over `offset`. */
  method ScanFrames(buffer: Bytes) returns (out: seq<Message>, offset: nat, status: Status)
    ensures offset <= |buffer|
    ensures Scan(buffer) == Scanned(out, buffer[offset..], status)
  {
    hide Decode, I32At, Scan;
    out, offset, status := [], 0, Ok;
    assert buffer[0..] == buffer;
    while offset + 5 <= |buffer|
      invariant offset <= |buffer| && status == Ok
      invariant Scan(buffer) == Prefixed(out, Scan(buffer[offset..]))
      decreases |buffer| - offset
    {
      ghost var here := buffer[offset..];
      var length := I32At(buffer, offset + 1);
      I32AtShift(buffer, offset, 1);
      ScanHere(here);
      if length < 4 || length > MAX_FRONTEND_MESSAGE_SIZE {
        status := FramingError;
        return;
      }
      if offset + 1 + length > |buffer| {
        return;
      }
      var payload := buffer[offset + 5..offset + 1 + length];
      SlicesShift(buffer, offset, 5, 1 + length);
      var d := DecodeFrame(buffer[offset], payload);
      if d.Panics? {
        status := Panicked;
        return;
      }
      PrefixedCons(out, d, Scan(here[1 + length..]));
      if d.Msg? {
        out := out + [d.message];
      }
      offset := offset + 1 + length;
    }
    ScanHere(buffer[offset..]);
  }

  lemma SlicesShift(b: Bytes, at: nat, i: nat, j: nat)
    requires at <= |b| && i <= j <= |b| - at
    ensures b[at..][i..j] == b[at + i..at + j] && b[at..][j..] == b[at + j..]
  {
  }

  /** One turn of the scan. */
  lemma ScanHere(b: Bytes)
    ensures Scan(b) ==
            match HeadOf(b)
            case NeedMore => Scanned([], b, Ok)
            case Malformed => Scanned([], b, FramingError)
            case Complete(size) =>
              if Decode(b[0], b[5..size]).Panics? then Scanned([], b, Panicked)
              else Cons(Decode(b[0], b[5..size]), Scan(b[size..]))
  {
  }

  ghost function Prefixed(out: seq<Message>, s: Scanned): Scanned {
    s.(messages := out + s.messages)
  }

  lemma PrefixedCons(out: seq<Message>, d: Decoded, s: Scanned)
    ensures Prefixed(out, Cons(d, s)) == Prefixed(if d.Msg? then out + [d.message] else out, s)
  {
    if d.Msg? {
      assert out + ([d.message] + s.messages) == (out + [d.message]) + s.messages;
    }
  }

  // ---------------------------------------------------------------- chunking does not matter

  /** `sab` is the scan of more bytes `b` after a scan that ended in `sa`: it goes on from the residual bytes,
      unless the first scan had already met a malformed or panicking frame. */
  ghost predicate Continues(sa: Scanned, b: Bytes, sab: Scanned) {
    if sa.status.Ok? then
      var sr := Scan(sa.rest + b);
      sab == Scanned(sa.messages + sr.messages, sr.rest, sr.status)
    else
      sab.messages == sa.messages && sab.status == sa.status
  }

  lemma HeadAppend(a: Bytes, b: Bytes)
    requires !HeadOf(a).NeedMore?
    ensures HeadOf(a + b) == HeadOf(a)
  {
    assert (a + b)[1..5] == a[1..5];
  }

  lemma ContinuesCons(d: Decoded, sa: Scanned, b: Bytes, sab: Scanned)
    requires Continues(sa, b, sab)
    ensures Continues(Cons(d, sa), b, Cons(d, sab))
  {
    if sa.status.Ok? && d.Msg? {
      var sr := Scan(sa.rest + b);
      assert [d.message] + (sa.messages + sr.messages) == ([d.message] + sa.messages) + sr.messages;
    }
  }

  lemma {:induction false} ScanAppend(a: Bytes, b: Bytes)
    ensures Continues(Scan(a), b, Scan(a + b))
    decreases |a|
  {
    hide Decode, I32At, Continues;
    match HeadOf(a)
    case NeedMore => ScanAppendNeedMore(a, b);
    case Malformed => ScanAppendStuck(a, b);
    case Complete(size) =>
      var d := Decode(a[0], a[5..size]);
      if d.Panics? {
        ScanAppendStuck(a, b);
      } else {
        HeadAppend(a, b);
        ScanAppend(a[size..], b);
        ContinuesCons(d, Scan(a[size..]), b, Scan(a[size..] + b));
        assert (a + b)[size..] == a[size..] + b;
        assert (a + b)[5..size] == a[5..size];
      }
  }

  lemma ScanAppendNeedMore(a: Bytes, b: Bytes)
    requires HeadOf(a).NeedMore?
    ensures Continues(Scan(a), b, Scan(a + b))
  {
    assert [] + Scan(a + b).messages == Scan(a + b).messages;
  }

  lemma ScanAppendStuck(a: Bytes, b: Bytes)
    requires HeadOf(a).Malformed? || (HeadOf(a).Complete? && Decode(a[0], a[5..HeadOf(a).size]).Panics?)
    ensures Continues(Scan(a), b, Scan(a + b))
  {
    hide Decode, I32At;
    HeadAppend(a, b);
    if HeadOf(a).Complete? {
      assert (a + b)[5..HeadOf(a).size] == a[5..HeadOf(a).size];
    }
  }

  /** On every stream without a framing error (and without a panicking frame), however it is cut into chunks, the
      calls together return the messages of one call on the whole stream and keep the same residual bytes. */
  lemma {:induction false} ChunkingInvariant(st: State, chunks: seq<Bytes>)
    requires !st.poisoned
    requires Scan(st.buffer + Concat(chunks)).status.Ok?
    requires Scan(st.buffer) == Scanned([], st.buffer, Ok)
    ensures var s := Scan(st.buffer + Concat(chunks));
            Feed(st, chunks) == (State(s.rest, false), s.messages)
    decreases |chunks|
  {
    if chunks == [] {
      assert st.buffer + Concat(chunks) == st.buffer;
    } else {
      var first := st.buffer + chunks[0];
      var tail := Concat(chunks[1..]);
      assert st.buffer + Concat(chunks) == first + tail;
      ScanAppend(first, tail);
      RestIsStuck(first);
      ChunkingInvariant(State(Scan(first).rest, false), chunks[1..]);
    }
  }

  /** What a scan leaves over yields nothing when scanned again. */
  lemma {:induction false} RestIsStuck(b: Bytes)
    requires Scan(b).status.Ok?
    ensures Scan(Scan(b).rest) == Scanned([], Scan(b).rest, Ok)
    decreases |b|
  {
    match HeadOf(b)
    case NeedMore =>
    case Complete(size) => RestIsStuck(b[size..]);
  }

  /** Feeding the same stream to a fresh extractor, in any chunks or all at once, is one and the same. */
  lemma ChunkingIrrelevant(chunks: seq<Bytes>)
    requires Scan(Concat(chunks)).status.Ok?
    ensures Feed(Fresh, chunks) == Feed(Fresh, [Concat(chunks)])
    ensures Feed(Fresh, chunks) == (State(Scan(Concat(chunks)).rest, false), Scan(Concat(chunks)).messages)
  {
    var whole := Concat(chunks);
    assert [] + whole == whole;
    ChunkingInvariant(Fresh, chunks);
    assert Concat([whole]) == whole + Concat([]);
    assert Concat([whole]) == whole;
    ChunkingInvariant(Fresh, [whole]);
  }

  /** The calls agree with the one-shot scan up to the chunk `k` that completes a malformed or panicking frame;
      afterwards extraction starts over on an empty buffer, or returns nothing more. */
  ghost predicate StopsAt(st: State, chunks: seq<Bytes>, k: nat) {
    && k < |chunks|
    && Scan(st.buffer + Concat(chunks[..k])).status.Ok?
    && var whole := Scan(st.buffer + Concat(chunks));
       if whole.status.FramingError? then
         Feed(st, chunks).1 == whole.messages + Feed(Fresh, chunks[k + 1..]).1
       else
         Feed(st, chunks).1 == Scan(st.buffer + Concat(chunks[..k])).messages
  }

  /** Every stream that is not free of malformed and panicking frames stops at some chunk. */
  lemma {:induction false} MalformedStream(st: State, chunks: seq<Bytes>)
    requires !st.poisoned
    requires Scan(st.buffer) == Scanned([], st.buffer, Ok)
    requires !Scan(st.buffer + Concat(chunks)).status.Ok?
    ensures exists k :: StopsAt(st, chunks, k)
    decreases |chunks|
  {
    hide Scan, StopsAt;
    assert st.buffer + [] == st.buffer;
    var first := st.buffer + chunks[0];
    var tail := Concat(chunks[1..]);
    assert st.buffer + Concat(chunks) == first + tail;
    if Scan(first).status.Ok? {
      ScanAppend(first, tail);
      RestIsStuck(first);
      MalformedStream(State(Scan(first).rest, false), chunks[1..]);
      var j :| StopsAt(State(Scan(first).rest, false), chunks[1..], j);
      StopsLater(st, chunks, j);
    } else {
      StopsNow(st, chunks);
    }
  }

  lemma StopsNow(st: State, chunks: seq<Bytes>)
    requires chunks != [] && !st.poisoned && !Scan(st.buffer + chunks[0]).status.Ok?
    requires Scan(st.buffer) == Scanned([], st.buffer, Ok)
    ensures StopsAt(st, chunks, 0)
  {
    hide Scan;
    var first := st.buffer + chunks[0];
    assert st.buffer + [] == st.buffer;
    assert st.buffer + Concat(chunks) == first + Concat(chunks[1..]);
    ScanAppend(first, Concat(chunks[1..]));
    if Scan(first).status.Panicked? {
      PoisonedReturnsNothing(State(first, true), chunks[1..]);
    }
  }

  lemma StopsLater(st: State, chunks: seq<Bytes>, j: nat)
    requires chunks != [] && !st.poisoned && Scan(st.buffer + chunks[0]).status.Ok?
    requires StopsAt(State(Scan(st.buffer + chunks[0]).rest, false), chunks[1..], j)
    ensures StopsAt(st, chunks, j + 1)
  {
    hide Scan;
    var first := st.buffer + chunks[0];
    var s := Scan(first);
    var st1 := State(s.rest, false);
    assert st.buffer + Concat(chunks) == first + Concat(chunks[1..]);
    ScanAppend(first, Concat(chunks[1..]));
    ConcatTake(st.buffer, chunks, j);
    ScanAppend(first, Concat(chunks[1..][..j]));
    assert chunks[1..][j + 1..] == chunks[j + 2..];
    assert Extract(st, chunks[0]) == (st1, Some(s.messages));
    assert Feed(st, chunks).1 == s.messages + Feed(st1, chunks[1..]).1;
    var more := Scan(s.rest + Concat(chunks[1..]));
    assert s.messages + (more.messages + Feed(Fresh, chunks[j + 2..]).1)
        == (s.messages + more.messages) + Feed(Fresh, chunks[j + 2..]).1;
  }

  lemma ConcatTake(buffer: Bytes, chunks: seq<Bytes>, j: nat)
    requires j < |chunks|
    ensures buffer + Concat(chunks[..j + 1]) == buffer + chunks[0] + Concat(chunks[1..][..j])
  {
    assert chunks[..j + 1][1..] == chunks[1..][..j];
    assert buffer + (chunks[0] + Concat(chunks[1..][..j])) == buffer + chunks[0] + Concat(chunks[1..][..j]);
  }

  lemma {:induction false} PoisonedReturnsNothing(st: State, chunks: seq<Bytes>)
    requires st.poisoned
    ensures Feed(st, chunks) == (st, [])
    decreases |chunks|
  {
    if chunks != [] {
      PoisonedReturnsNothing(st, chunks[1..]);
      var nothing: seq<Message> := [];
      assert nothing + nothing == nothing;
    }
  }

  function Longest(chunks: seq<Bytes>): (n: nat) {
    if chunks == [] then 0
    else if |chunks[0]| > Longest(chunks[1..]) then |chunks[0]| else Longest(chunks[1..])
  }

  /** On every input, malformed or not, the calls leave at most 64 MiB in the buffer. A call that panics also leaves the
      chunk it was given, and the buffer is not looked at again. */
  lemma {:induction false} BufferBounded(st: State, chunks: seq<Bytes>)
    requires !st.poisoned && |st.buffer| <= MAX_FRONTEND_MESSAGE_SIZE
    ensures var st' := Feed(st, chunks).0;
            && (!st'.poisoned ==> |st'.buffer| <= MAX_FRONTEND_MESSAGE_SIZE)
            && |st'.buffer| <= MAX_FRONTEND_MESSAGE_SIZE + Longest(chunks)
    decreases |chunks|
  {
    if chunks != [] {
      if Scan(st.buffer + chunks[0]).status.Ok? {
        RestBounded(st.buffer + chunks[0]);
      }
      var st1 := Extract(st, chunks[0]).0;
      if st1.poisoned {
        PoisonedReturnsNothing(st1, chunks[1..]);
      } else {
        BufferBounded(st1, chunks[1..]);
      }
    }
  }

  lemma {:induction false} RestBounded(b: Bytes)
    requires Scan(b).status.Ok?
    ensures |Scan(b).rest| <= MAX_FRONTEND_MESSAGE_SIZE
    decreases |b|
  {
    match HeadOf(b)
    case NeedMore =>
    case Complete(size) => RestBounded(b[size..]);
  }

  // ---------------------------------------------------------------- extraction undoes encoding

  /** A frame on the wire: a recognised message followed by whatever else its payload holds, or another type of frame. */
  datatype Item = Known(message: Message, extra: Bytes) | Other(tag: byte, body: Bytes)

  function ItemTag(x: Item): (t: byte) {
    match x
    case Known(m, _) => Tag(m)
    case Other(tag, _) => tag
  }

  function ItemPayload(x: Item): (b: Bytes) {
    match x
    case Known(m, extra) => Kept(m) + extra
    case Other(_, body) => body
  }

  predicate Fits(x: Item) {
    && 4 + |ItemPayload(x)| <= MAX_FRONTEND_MESSAGE_SIZE
    && match x
       case Known(m, _) => WellFormed(m)
       case Other(tag, _) => !Recognised(tag)
  }

  function Encoded(items: seq<Item>): (b: Bytes) {
    if items == [] then [] else FrameBytes(Frame(ItemTag(items[0]), ItemPayload(items[0]))) + Encoded(items[1..])
  }

  function Seen(items: seq<Item>): (r: seq<Message>) {
    if items == [] then []
    else (match items[0]
          case Known(m, _) => [m]
          case Other(_, _) => []) + Seen(items[1..])
  }

  lemma HeadOfFrame(tag: byte, payload: Bytes, rest: Bytes)
    requires 4 + |payload| <= MAX_FRONTEND_MESSAGE_SIZE
    ensures var b := FrameBytes(Frame(tag, payload)) + rest;
            HeadOf(b) == Complete(5 + |payload|) && b[0] == tag && b[5..5 + |payload|] == payload && b[5 + |payload|..] == rest
  {
    var b := FrameBytes(Frame(tag, payload)) + rest;
    assert b[1..5] == Be32(4 + |payload|);
    Be32RoundTrip(4 + |payload|, b, 1);
  }

  lemma {:induction false} ScanOfEncoded(items: seq<Item>)
    requires forall i | 0 <= i < |items| :: Fits(items[i])
    ensures Scan(Encoded(items)) == Scanned(Seen(items), [], Ok)
    decreases |items|
  {
    hide Decode, FrameBytes;
    if items != [] {
      var x := items[0];
      var rest := Encoded(items[1..]);
      HeadOfFrame(ItemTag(x), ItemPayload(x), rest);
      ScanOfEncoded(items[1..]);
      DecodeOfItem(x);
    }
  }

  lemma DecodeOfItem(x: Item)
    requires Fits(x)
    ensures Decode(ItemTag(x), ItemPayload(x)) == if x.Known? then Msg(x.message) else Skip
  {
    hide DecodeParse, DecodeBind, DecodeQuery, DecodeClose, DecodeExecute;
    if x.Known? {
      DecodeExact(ItemTag(x), ItemPayload(x), x.message);
    }
  }

  /** For every list of messages, encoded per section 55.7, concatenated and cut into chunks anywhere, extraction returns
      exactly the recognised ones, in order, and keeps no byte. */
  lemma ExtractEncoded(items: seq<Item>, chunks: seq<Bytes>)
    requires forall i | 0 <= i < |items| :: Fits(items[i])
    requires Concat(chunks) == Encoded(items)
    ensures Feed(Fresh, chunks) == (Fresh, Seen(items))
  {
    ScanOfEncoded(items);
    ChunkingIrrelevant(chunks);
  }

  /** A scan panics exactly when the bytes are frames that do not, then one that does, then anything. */
  lemma {:induction false} ScanPanicsExactly(b: Bytes)
    ensures Scan(b).status.Panicked? <==> exists pre, tag, payload :: PanicsAfter(b, pre, tag, payload)
    decreases |b|
  {
    if Scan(b).status.Panicked? {
      PanickedHasFrame(b);
    }
    if pre, tag, payload :| PanicsAfter(b, pre, tag, payload) {
      FrameMakesPanicked(b, pre, tag, payload);
    }
  }

  /** `b` is the frames `pre`, none of which panics, then a frame of `PanicShape`, then anything. */
  ghost predicate PanicsAfter(b: Bytes, pre: seq<Frame>, tag: byte, payload: Bytes) {
    && (forall i | 0 <= i < |pre| :: 4 + |pre[i].payload| <= MAX_FRONTEND_MESSAGE_SIZE && !PanicShape(pre[i].tag, pre[i].payload))
    && 4 + |payload| <= MAX_FRONTEND_MESSAGE_SIZE && PanicShape(tag, payload)
    && FramesBytes(pre) + FrameBytes(Frame(tag, payload)) <= b
  }

  lemma {:induction false} PanickedHasFrame(b: Bytes)
    requires Scan(b).status.Panicked?
    ensures exists pre, tag, payload :: PanicsAfter(b, pre, tag, payload)
    decreases |b|
  {
    hide Decode, PanicShape, FrameBytes, I32At;
    var size := HeadOf(b).size;
    var payload := b[5..size];
    FrameOfHead(b);
    DecodePanicsExactly(b[0], payload);
    if Decode(b[0], payload).Panics? {
      assert FramesBytes([]) + FrameBytes(Frame(b[0], payload)) == FrameBytes(Frame(b[0], payload));
      assert PanicsAfter(b, [], b[0], payload);
    } else {
      assert b == b[..size] + b[size..];
      PanickedHasFrame(b[size..]);
      var pre, tag, bad :| PanicsAfter(b[size..], pre, tag, bad);
      PanicsLater(b, Frame(b[0], payload), b[size..], pre, tag, bad);
    }
  }

  lemma PanicsLater(b: Bytes, f: Frame, rest: Bytes, pre: seq<Frame>, tag: byte, payload: Bytes)
    requires b == FrameBytes(f) + rest && PanicsAfter(rest, pre, tag, payload)
    requires 4 + |f.payload| <= MAX_FRONTEND_MESSAGE_SIZE && !PanicShape(f.tag, f.payload)
    ensures PanicsAfter(b, [f] + pre, tag, payload)
  {
    hide PanicShape, FrameBytes;
    var all, bad := [f] + pre, FrameBytes(Frame(tag, payload));
    assert all[1..] == pre;
    assert FramesBytes(all) + bad == FrameBytes(f) + (FramesBytes(pre) + bad);
  }

  lemma FrameOfHead(b: Bytes)
    requires HeadOf(b).Complete?
    ensures var size := HeadOf(b).size;
            b[..size] == FrameBytes(Frame(b[0], b[5..size])) && 4 + |b[5..size]| <= MAX_FRONTEND_MESSAGE_SIZE
  {
    Be32Inverse(b, 1);
    var size := HeadOf(b).size;
    assert b[..size] == [b[0]] + b[1..5] + b[5..size];
  }

  lemma {:induction false} FrameMakesPanicked(b: Bytes, pre: seq<Frame>, tag: byte, payload: Bytes)
    requires PanicsAfter(b, pre, tag, payload)
    ensures Scan(b).status.Panicked?
    decreases |pre|
  {
    hide Decode, PanicShape, FrameBytes;
    if pre == [] {
      var rest := b[|FrameBytes(Frame(tag, payload))|..];
      assert b == FrameBytes(Frame(tag, payload)) + rest;
      HeadOfFrame(tag, payload, rest);
      DecodePanicsExactly(tag, payload);
    } else {
      var (t, p) := (pre[0].tag, pre[0].payload);
      var rest := b[|FrameBytes(Frame(t, p))|..];
      assert b == FrameBytes(Frame(t, p)) + rest;
      HeadOfFrame(t, p, rest);
      DecodePanicsExactly(t, p);
      FrameMakesPanicked(rest, pre[1..], tag, payload);
    }
  }
}
