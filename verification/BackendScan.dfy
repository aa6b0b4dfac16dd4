/** The backend-to-client scanners of extractor.rs. They keep no buffer between reads, and look at frame headers only. */
module BackendScan {
  import opened WireBytes

  const READY_FOR_QUERY: byte := 90    // 'Z'
  const COMMAND_COMPLETE: byte := 67   // 'C'
  const ERROR_RESPONSE: byte := 69     // 'E'

  /** The result of a scan. A negative length field is read as a number close to 2^64, and adding the offset to it
      overflows once the offset is large enough; in the error search, subtracting four from a smaller length underflows. A
      build with overflow checks panics there. A wrapping build repeats the same position for ever on length -1, rescans
      earlier bytes on larger magnitudes, and takes a short ErrorResponse for one that is not all there. The two builds
      differ on these reads only: `OverflowsAfter`, `CompletionOverflows` and `OverflowsIn`. */
  datatype Scan<+T> = Value(value: T) | Overflow

  // ---------------------------------------------------------------- specification, on the bytes not yet scanned

  /** Where the frame at the front of `b` ends: `None` when the scan stops here; `at` is the absolute offset of `b`. */
  datatype Skip = Next(size: nat) | Stop | Wraps

  function SkipFrame(b: Bytes, at: nat): (r: Skip)
    requires |b| >= 5
    ensures r.Next? ==> 5 <= r.size <= |b|
  {
    var length := I32At(b, 1);
    if length < 0 then (if at + 1 >= -length then Wraps else Stop)
    else if length < 4 || 1 + length > |b| then Stop
    else Next(1 + length)
  }

  /** `extract_ready_for_query`: the status byte of the last ReadyForQuery, starting from `last`. */
  function LastStatus(b: Bytes, at: nat, last: Option<byte>): (r: Scan<Option<byte>>)
    decreases |b|
  {
    if |b| < 5 then Value(last)
    else
      var last' := if b[0] == READY_FOR_QUERY && |b| >= 6 then Some(b[5]) else last;
      match SkipFrame(b, at)
      case Stop => Value(last')
      case Wraps => Overflow
      case Next(size) => LastStatus(b[size..], at + size, last')
  }

  /** `is_query_complete`: a CommandComplete or ReadyForQuery header at a frame boundary. */
  function HasCompletion(b: Bytes, at: nat): (r: Scan<bool>)
    decreases |b|
  {
    if |b| < 5 then Value(false)
    else if b[0] == COMMAND_COMPLETE || b[0] == READY_FOR_QUERY then Value(true)
    else match SkipFrame(b, at)
      case Stop => Value(false)
      case Wraps => Overflow
      case Next(size) => HasCompletion(b[size..], at + size)
  }

  /** The fields of an ErrorResponse the proxy reads. */
  datatype ErrorFields = ErrorFields(severity: Option<Bytes>, sqlstate: Option<Bytes>, message: Option<Bytes>)

  const NoFields := ErrorFields(None, None, None)

  function SetField(f: ErrorFields, kind: byte, value: Bytes): (r: ErrorFields) {
    if !Utf8(value) then f
    else if kind == 83 then f.(severity := Some(value))
    else if kind == 67 then f.(sqlstate := Some(value))
    else if kind == 77 then f.(message := Some(value))
    else f
  }

  /** `parse_error_fields`: type byte and NUL-terminated value, repeated, up to a zero type byte. */
  function ParseFields(b: Bytes, f: ErrorFields): (r: ErrorFields)
    decreases |b|
  {
    if b == [] || b[0] == 0 then f
    else
      var n := NulIndex(b, 1);
      if n == |b| then f else ParseFields(b[n + 1..], SetField(f, b[0], b[1..n]))
  }

  /** `find_error_fields`: the first ErrorResponse. A frame without payload ends the search, and after an ErrorResponse
      that is not yet complete the search goes on inside its payload. */
  function FindError(b: Bytes): (r: Scan<Option<ErrorFields>>)
    decreases |b|
  {
    if |b| < 5 then Value(None)
    else
      var length := I32At(b, 1);
      if b[0] == ERROR_RESPONSE then
        if 0 <= length < 4 then Overflow
        else if length >= 4 && |b| - 5 >= length - 4 then Value(Some(ParseFields(b[5..1 + length], NoFields)))
        else FindError(b[5..])
      else if length > 4 && |b| - 5 >= length - 4 then FindError(b[1 + length..])
      else Value(None)
  }

  // ---------------------------------------------------------------- implementation: loops over an offset

  method ExtractReadyForQuery(data: Bytes) returns (r: Scan<Option<byte>>)
    ensures r == LastStatus(data, 0, None)
  {
    var offset: nat := 0;
    var last: Option<byte> := None;
    assert data[0..] == data;
    while offset + 5 <= |data|
      invariant offset <= |data|
      invariant LastStatus(data, 0, None) == LastStatus(data[offset..], offset, last)
      decreases |data| - offset
    {
      ghost var here := data[offset..];
      I32AtShift(data, offset, 1);
      if data[offset] == READY_FOR_QUERY {
        if offset + 6 <= |data| {
          last := Some(data[offset + 5]);
        }
      }
      var length := I32At(data, offset + 1);
      if length < 0 {
        return if offset + 1 >= -length then Overflow else Value(last);
      }
      if length < 4 || offset + 1 + length > |data| {
        return Value(last);
      }
      assert here[1 + length..] == data[offset + 1 + length..];
      offset := offset + 1 + length;
    }
    return Value(last);
  }

  method IsQueryComplete(data: Bytes) returns (r: Scan<bool>)
    ensures r == HasCompletion(data, 0)
  {
    var offset: nat := 0;
    assert data[0..] == data;
    while offset + 5 <= |data|
      invariant offset <= |data|
      invariant HasCompletion(data, 0) == HasCompletion(data[offset..], offset)
      decreases |data| - offset
    {
      ghost var here := data[offset..];
      I32AtShift(data, offset, 1);
      if data[offset] == COMMAND_COMPLETE || data[offset] == READY_FOR_QUERY {
        return Value(true);
      }
      var length := I32At(data, offset + 1);
      if length < 0 {
        return if offset + 1 >= -length then Overflow else Value(false);
      }
      if length < 4 || offset + 1 + length > |data| {
        return Value(false);
      }
      assert here[1 + length..] == data[offset + 1 + length..];
      offset := offset + 1 + length;
    }
    return Value(false);
  }

  method ParseErrorFields(data: Bytes) returns (f: ErrorFields)
    ensures f == ParseFields(data, NoFields)
  {
    hide ParseFields, SetField, NulIndex;
    f := NoFields;
    var i: nat := 0;
    assert data[0..] == data;
    while i < |data|
      invariant i <= |data|
      invariant ParseFields(data, NoFields) == ParseFields(data[i..], f)
      decreases |data| - i
    {
      var kind := data[i];
      FieldAt(data, i, i + 1, f);
      i := i + 1;
      if kind == 0 {
        return;
      }
      var start := i;
      while i < |data| && data[i] != 0
        invariant start <= i <= |data|
        invariant forall k | start <= k < i :: data[k] != 0
      {
        i := i + 1;
      }
      FieldAt(data, start - 1, i, f);
      if i >= |data| {
        return;
      }
      var value := data[start..i];
      f := SetField(f, kind, value);
      i := i + 1;
    }
    FieldsEnd(data, f);
  }

  lemma FieldsEnd(data: Bytes, f: ErrorFields)
    ensures ParseFields(data[|data|..], f) == f
  {
  }

  /** The field at offset `i`, whose value ends at `n`. */
  lemma FieldAt(data: Bytes, i: nat, n: nat, f: ErrorFields)
    requires i < n <= |data|
    ensures data[i] == 0 ==> ParseFields(data[i..], f) == f
    ensures data[i] != 0 && (forall k | i < k < n :: data[k] != 0) && (n < |data| ==> data[n] == 0) ==>
              ParseFields(data[i..], f) ==
              if n == |data| then f else ParseFields(data[n + 1..], SetField(f, data[i], data[i + 1..n]))
  {
    hide SetField;
    var here := data[i..];
    assert here[0] == data[i];
    if data[i] != 0 && (forall k | i < k < n :: data[k] != 0) && (n < |data| ==> data[n] == 0) {
      NulIndexUnique(here, 1, n - i);
      assert here[1..n - i] == data[i + 1..n];
      assert n < |data| ==> here[n - i + 1..] == data[n + 1..];
    }
  }

  method FindErrorFields(data: Bytes) returns (r: Scan<Option<ErrorFields>>)
    ensures r == FindError(data)
  {
    var bytes := data;
    while |bytes| >= 5
      invariant FindError(data) == FindError(bytes)
      decreases |bytes|
    {
      var kind := bytes[0];
      var length := I32At(bytes, 1);
      if kind == ERROR_RESPONSE {
        if 0 <= length < 4 {
          return Overflow;
        }
        if length >= 4 && |bytes| - 5 >= length - 4 {
          var f := ParseErrorFields(bytes[5..1 + length]);
          return Value(Some(f));
        }
        bytes := bytes[5..];
      } else if length > 4 && |bytes| - 5 >= length - 4 {
        bytes := bytes[1 + length..];
      } else {
        return Value(None);
      }
    }
    return Value(None);
  }

  // ---------------------------------------------------------------- frames

  predicate FitsI32(f: Frame) { 4 + |f.payload| < TWO31 }

  /** Fewer bytes than a header, or a header that announces more than is there. */
  predicate Incomplete(tail: Bytes) {
    |tail| < 5 || (I32At(tail, 1) >= 4 && 1 + I32At(tail, 1) > |tail|)
  }

  lemma FrontFrame(f: Frame, rest: Bytes)
    requires FitsI32(f)
    ensures var b := FrameBytes(f) + rest;
            && I32At(b, 1) == 4 + |f.payload| && b[0] == f.tag && b[5..5 + |f.payload|] == f.payload
            && b[5 + |f.payload|..] == rest
            && (f.payload != [] ==> b[5] == f.payload[0])
  {
    var b := FrameBytes(f) + rest;
    assert b[1..5] == Be32(4 + |f.payload|);
    Be32RoundTrip(4 + |f.payload|, b, 1);
  }

  lemma UnfoldFrames(fs: seq<Frame>, tail: Bytes)
    requires fs != []
    ensures FramesBytes(fs) + tail == FrameBytes(fs[0]) + (FramesBytes(fs[1..]) + tail)
  {
  }

  // ---------------------------------------------------------------- ReadyForQuery

  /** The status of the last ReadyForQuery frame. */
  function LastReady(fs: seq<Frame>, last: Option<byte>): (r: Option<byte>) {
    if fs == [] then last
    else LastReady(fs[1..], if fs[0].tag == READY_FOR_QUERY && fs[0].payload != [] then Some(fs[0].payload[0]) else last)
  }

  /** ReadyForQuery frames have length 5, complete or cut off. */
  predicate ReadyIsFive(fs: seq<Frame>, tail: Bytes) {
    && (forall i | 0 <= i < |fs| :: fs[i].tag == READY_FOR_QUERY ==> |fs[i].payload| == 1)
    && (tail != [] && tail[0] == READY_FOR_QUERY ==> |tail| <= 5)
  }

  /** On complete frames followed by an incomplete one, the scan returns the status of the last ReadyForQuery. */
  lemma {:induction false} ScanFindsLastReady(fs: seq<Frame>, tail: Bytes, at: nat, last: Option<byte>)
    requires forall i | 0 <= i < |fs| :: FitsI32(fs[i])
    requires Incomplete(tail) && ReadyIsFive(fs, tail)
    ensures LastStatus(FramesBytes(fs) + tail, at, last) == Value(LastReady(fs, last))
    decreases |fs|
  {
    hide FrameBytes, LastStatus;
    if fs == [] {
      assert FramesBytes(fs) + tail == tail;
      TailHasNoReady(tail, at, last);
    } else {
      var rest := FramesBytes(fs[1..]) + tail;
      UnfoldFrames(fs, tail);
      var last' := if fs[0].tag == READY_FOR_QUERY && fs[0].payload != [] then Some(fs[0].payload[0]) else last;
      ScanFindsLastReady(fs[1..], tail, at + 5 + |fs[0].payload|, last');
      ReadyStep(fs[0], rest, at, last);
    }
  }

  lemma TailHasNoReady(tail: Bytes, at: nat, last: Option<byte>)
    requires Incomplete(tail) && ReadyIsFive([], tail)
    ensures LastStatus(tail, at, last) == Value(last)
  {
  }

  lemma ReadyStep(f: Frame, rest: Bytes, at: nat, last: Option<byte>)
    requires FitsI32(f) && (f.tag == READY_FOR_QUERY ==> |f.payload| == 1)
    ensures LastStatus(FrameBytes(f) + rest, at, last) ==
            LastStatus(rest, at + 5 + |f.payload|, if f.tag == READY_FOR_QUERY && f.payload != [] then Some(f.payload[0]) else last)
  {
    hide FrameBytes;
    FrontFrame(f, rest);
  }

  /** After complete frames comes a header with a negative length whose magnitude the offset has reached. */
  ghost predicate NegativeLengthAfter(b: Bytes, fs: seq<Frame>, tail: Bytes, at: nat) {
    && b == FramesBytes(fs) + tail && (forall i | 0 <= i < |fs| :: FitsI32(fs[i]))
    && |tail| >= 5 && I32At(tail, 1) < 0 && at + |FramesBytes(fs)| + 1 >= -I32At(tail, 1)
  }

  ghost predicate OverflowsAfter(b: Bytes, at: nat) {
    exists fs, tail :: NegativeLengthAfter(b, fs, tail, at)
  }

  /** The ReadyForQuery scan overflows exactly on such reads, so never on frame-aligned ones. */
  lemma {:induction false} OverflowExactly(b: Bytes, at: nat, last: Option<byte>)
    ensures LastStatus(b, at, last) == Overflow <==> OverflowsAfter(b, at)
    decreases |b|
  {
    hide OverflowsAfter, I32At;
    if |b| >= 5 && SkipFrame(b, at).Next? {
      var size := SkipFrame(b, at).size;
      var last' := if b[0] == READY_FOR_QUERY && |b| >= 6 then Some(b[5]) else last;
      OverflowExactly(b[size..], at + size, last');
      OverflowsLater(b, at);
    } else {
      OverflowHere(b, at, last);
    }
  }

  lemma OverflowsLater(b: Bytes, at: nat)
    requires |b| >= 5 && SkipFrame(b, at).Next?
    ensures OverflowsAfter(b, at) <==> OverflowsAfter(b[SkipFrame(b, at).size..], at + SkipFrame(b, at).size)
  {
    hide NegativeLengthAfter, SkipFrame;
    if fs, tail :| NegativeLengthAfter(b, fs, tail, at) {
      NegativeLengthNotFirst(b, fs, tail, at);
    }
    var rest, next := b[SkipFrame(b, at).size..], at + SkipFrame(b, at).size;
    if fs, tail :| NegativeLengthAfter(rest, fs, tail, next) {
      NegativeLengthLater(b, fs, tail, at);
    }
  }

  lemma OverflowHere(b: Bytes, at: nat, last: Option<byte>)
    requires |b| < 5 || !SkipFrame(b, at).Next?
    ensures LastStatus(b, at, last) == Overflow <==> OverflowsAfter(b, at)
  {
    hide I32At;
    if LastStatus(b, at, last) == Overflow {
      assert FramesBytes([]) + b == b;
      assert NegativeLengthAfter(b, [], b, at);
    }
    if fs, tail :| NegativeLengthAfter(b, fs, tail, at) {
      NegativeLengthFirst(b, fs, tail, at);
    }
  }

  lemma NegativeLengthLater(b: Bytes, fs: seq<Frame>, tail: Bytes, at: nat)
    requires |b| >= 5 && SkipFrame(b, at).Next?
    requires NegativeLengthAfter(b[SkipFrame(b, at).size..], fs, tail, at + SkipFrame(b, at).size)
    ensures NegativeLengthAfter(b, [Frame(b[0], b[5..SkipFrame(b, at).size])] + fs, tail, at)
  {
    hide I32At;
    var size := SkipFrame(b, at).size;
    var f := Frame(b[0], b[5..size]);
    Be32Inverse(b, 1);
    assert b == FrameBytes(f) + b[size..];
    hide FrameBytes;
    UnfoldFrames([f] + fs, tail);
    assert ([f] + fs)[1..] == fs;
  }

  lemma NegativeLengthNotFirst(b: Bytes, fs: seq<Frame>, tail: Bytes, at: nat)
    requires NegativeLengthAfter(b, fs, tail, at) && |b| >= 5 && SkipFrame(b, at).Next?
    ensures fs != [] && NegativeLengthAfter(b[SkipFrame(b, at).size..], fs[1..], tail, at + SkipFrame(b, at).size)
    ensures fs[0].tag == b[0]
  {
    assert FramesBytes([]) + tail == tail;
    if fs != [] {
      UnfoldFrames(fs, tail);
      FrontFrame(fs[0], FramesBytes(fs[1..]) + tail);
    }
  }

  lemma NegativeLengthFirst(b: Bytes, fs: seq<Frame>, tail: Bytes, at: nat)
    requires NegativeLengthAfter(b, fs, tail, at) && (|b| < 5 || !SkipFrame(b, at).Next?)
    ensures fs == [] && b == tail
  {
    if fs != [] {
      UnfoldFrames(fs, tail);
      FrontFrame(fs[0], FramesBytes(fs[1..]) + tail);
    }
  }

  /** A read that begins one byte before the length field of a NULL column. */
  lemma OverflowWitness(rest: Bytes)
    ensures LastStatus([0, 0xFF, 0xFF, 0xFF, 0xFF] + rest, 0, None) == Overflow
  {
    MinusOne([0, 0xFF, 0xFF, 0xFF, 0xFF] + rest);
  }

  lemma MinusOne(b: Bytes)
    requires |b| >= 5 && b[1..5] == [0xFF, 0xFF, 0xFF, 0xFF]
    ensures I32At(b, 1) == -1
  {
    var ones: Bytes := [0xFF, 0xFF, 0xFF, 0xFF];
    assert FromBigEndian(ones) == 0xFFFF_FFFF by {
      assert ones[..3] == [0xFF, 0xFF, 0xFF] && ones[..3][..2] == [0xFF, 0xFF] && ones[..3][..2][..1] == [0xFF];
      assert FromBigEndian(ones[..3][..2][..1]) == 0xFF;
      assert FromBigEndian(ones[..3][..2]) == 0xFFFF;
      assert FromBigEndian(ones[..3]) == 0xFF_FFFF;
    }
  }

  predicate Completes(tag: byte) { tag == COMMAND_COMPLETE || tag == READY_FOR_QUERY }

  predicate AnyCompletes(fs: seq<Frame>) {
    exists i | 0 <= i < |fs| :: Completes(fs[i].tag)
  }

  lemma {:induction false} CompletionExactly(fs: seq<Frame>, tail: Bytes, at: nat)
    requires forall i | 0 <= i < |fs| :: FitsI32(fs[i])
    requires Incomplete(tail)
    ensures HasCompletion(FramesBytes(fs) + tail, at) == Value(AnyCompletes(fs) || (|tail| >= 5 && Completes(tail[0])))
    decreases |fs|
  {
    hide FrameBytes, HasCompletion, Incomplete, AnyCompletes;
    if fs == [] {
      assert FramesBytes(fs) + tail == tail;
      CompletionTail(tail, at);
    } else {
      hide FramesBytes;
      UnfoldFrames(fs, tail);
      CompletionFront(fs[0], FramesBytes(fs[1..]) + tail, at);
      CompletionExactly(fs[1..], tail, at + 5 + |fs[0].payload|);
      AnyCompletesFirst(fs);
    }
  }

  lemma CompletionTail(tail: Bytes, at: nat)
    requires Incomplete(tail)
    ensures HasCompletion(tail, at) == Value(|tail| >= 5 && Completes(tail[0]))
    ensures !AnyCompletes([])
  {
    hide I32At;
  }

  lemma AnyCompletesFirst(fs: seq<Frame>)
    requires fs != []
    ensures AnyCompletes(fs) <==> Completes(fs[0].tag) || AnyCompletes(fs[1..])
  {
    if i :| 0 < i < |fs| && Completes(fs[i].tag) {
      assert fs[1..][i - 1] == fs[i];
    }
  }

  lemma CompletionFront(f: Frame, rest: Bytes, at: nat)
    requires FitsI32(f)
    ensures HasCompletion(FrameBytes(f) + rest, at) ==
            if f.tag == COMMAND_COMPLETE || f.tag == READY_FOR_QUERY then Value(true)
            else HasCompletion(rest, at + 5 + |f.payload|)
  {
    hide I32At;
    FrontFrame(f, rest);
  }

  /** The completion scan overflows on such a header too, unless it has met a completion by then. */
  ghost predicate CompletionOverflows(b: Bytes, at: nat) {
    exists fs, tail :: Uncompleted(b, fs, tail, at)
  }

  ghost predicate Uncompleted(b: Bytes, fs: seq<Frame>, tail: Bytes, at: nat) {
    NegativeLengthAfter(b, fs, tail, at) && !AnyCompletes(fs) && !Completes(tail[0])
  }

  lemma {:induction false} CompletionOverflowExactly(b: Bytes, at: nat)
    ensures HasCompletion(b, at) == Overflow <==> CompletionOverflows(b, at)
    decreases |b|
  {
    hide CompletionOverflows, I32At;
    if |b| >= 5 && SkipFrame(b, at).Next? {
      var size := SkipFrame(b, at).size;
      CompletionOverflowExactly(b[size..], at + size);
      CompletionOverflowsLater(b, at);
    } else {
      CompletionOverflowHere(b, at);
    }
  }

  lemma CompletionOverflowsLater(b: Bytes, at: nat)
    requires |b| >= 5 && SkipFrame(b, at).Next?
    ensures CompletionOverflows(b, at) <==>
            !Completes(b[0]) && CompletionOverflows(b[SkipFrame(b, at).size..], at + SkipFrame(b, at).size)
  {
    hide NegativeLengthAfter, SkipFrame, AnyCompletes, Completes;
    if fs, tail :| Uncompleted(b, fs, tail, at) {
      NegativeLengthNotFirst(b, fs, tail, at);
      AnyCompletesFirst(fs);
      assert Uncompleted(b[SkipFrame(b, at).size..], fs[1..], tail, at + SkipFrame(b, at).size);
    }
    var rest, next := b[SkipFrame(b, at).size..], at + SkipFrame(b, at).size;
    if fs, tail :| Uncompleted(rest, fs, tail, next) {
      NegativeLengthLater(b, fs, tail, at);
      var all := [Frame(b[0], b[5..SkipFrame(b, at).size])] + fs;
      AnyCompletesFirst(all);
      assert all[1..] == fs;
      assert !Completes(b[0]) ==> Uncompleted(b, all, tail, at);
    }
  }

  lemma CompletionOverflowHere(b: Bytes, at: nat)
    requires |b| < 5 || !SkipFrame(b, at).Next?
    ensures HasCompletion(b, at) == Overflow <==> CompletionOverflows(b, at)
  {
    hide I32At;
    if HasCompletion(b, at) == Overflow {
      assert FramesBytes([]) + b == b;
      assert Uncompleted(b, [], b, at);
    }
    if fs, tail :| Uncompleted(b, fs, tail, at) {
      NegativeLengthFirst(b, fs, tail, at);
    }
  }

  /** One read overflows both scans; with a completing header only the ReadyForQuery scan. */
  lemma CompletionOverflowWitness(rest: Bytes)
    ensures HasCompletion([0, 0xFF, 0xFF, 0xFF, 0xFF] + rest, 0) == Overflow
    ensures HasCompletion([COMMAND_COMPLETE, 0xFF, 0xFF, 0xFF, 0xFF] + rest, 0) == Value(true)
    ensures LastStatus([COMMAND_COMPLETE, 0xFF, 0xFF, 0xFF, 0xFF] + rest, 0, None) == Overflow
  {
    MinusOne([0, 0xFF, 0xFF, 0xFF, 0xFF] + rest);
    MinusOne([COMMAND_COMPLETE, 0xFF, 0xFF, 0xFF, 0xFF] + rest);
  }

  // ---------------------------------------------------------------- ErrorResponse

  /** The first ErrorResponse with no empty frame before it. */
  function FirstError(fs: seq<Frame>): (r: Option<Bytes>) {
    if fs == [] then None
    else if fs[0].tag == ERROR_RESPONSE then Some(fs[0].payload)
    else if fs[0].payload == [] then None
    else FirstError(fs[1..])
  }

  /** Frames the search passes over: not errors, and with a payload. */
  predicate Passable(fs: seq<Frame>) {
    fs == [] || (fs[0].tag != ERROR_RESPONSE && fs[0].payload != [] && Passable(fs[1..]))
  }

  /** The search meets the first ErrorResponse of a read exactly when every frame before it has a payload: a
      ParseComplete, BindComplete or NoData ahead of the error hides it. If all frames are passed over and the cut-off tail
      is an ErrorResponse, the search goes on behind its header. */
  lemma {:induction false} FindErrorExactly(fs: seq<Frame>, tail: Bytes)
    requires forall i | 0 <= i < |fs| :: FitsI32(fs[i])
    requires Incomplete(tail)
    ensures FindError(FramesBytes(fs) + tail) ==
            if FirstError(fs).Some? then Value(Some(ParseFields(FirstError(fs).value, NoFields)))
            else if Passable(fs) && |tail| >= 5 && tail[0] == ERROR_RESPONSE then FindError(tail[5..])
            else Value(None)
    decreases |fs|
  {
    hide ParseFields;
    if fs == [] {
      assert FramesBytes(fs) + tail == tail;
    } else {
      var rest := FramesBytes(fs[1..]) + tail;
      UnfoldFrames(fs, tail);
      FrontFrame(fs[0], rest);
      FindErrorExactly(fs[1..], tail);
    }
  }

  /** `FirstError` is the first ErrorResponse at all if and only if no earlier frame is empty. */
  lemma {:induction false} FirstErrorExactly(fs: seq<Frame>, k: nat)
    requires k < |fs| && fs[k].tag == ERROR_RESPONSE
    requires forall i | 0 <= i < k :: fs[i].tag != ERROR_RESPONSE
    ensures FirstError(fs) == if exists i | 0 <= i < k :: fs[i].payload == [] then None else Some(fs[k].payload)
    decreases k
  {
    if k > 0 {
      FirstErrorExactly(fs[1..], k - 1);
      assert forall i | 0 <= i < k - 1 :: fs[1..][i] == fs[i + 1];
      assert (exists i | 0 <= i < k :: fs[i].payload == []) <==>
             fs[0].payload == [] || exists i | 0 <= i < k - 1 :: fs[1..][i].payload == [] by {
        if i :| 0 < i < k && fs[i].payload == [] {
          assert fs[1..][i - 1].payload == [];
        }
      }
    }
  }

  /** The fields of an ErrorResponse as a backend or the proxy writes them. */
  function FieldBytes(fields: seq<(byte, Bytes)>): (b: Bytes) {
    if fields == [] then [0] else [fields[0].0] + fields[0].1 + [0] + FieldBytes(fields[1..])
  }

  predicate FieldsWellFormed(fields: seq<(byte, Bytes)>) {
    forall i | 0 <= i < |fields| :: fields[i].0 != 0 && NulFree(fields[i].1)
  }

  function FoldFields(fields: seq<(byte, Bytes)>, f: ErrorFields): (r: ErrorFields) {
    if fields == [] then f else FoldFields(fields[1..], SetField(f, fields[0].0, fields[0].1))
  }

  lemma {:induction false} ParseFieldsOf(fields: seq<(byte, Bytes)>, f: ErrorFields)
    requires FieldsWellFormed(fields)
    ensures ParseFields(FieldBytes(fields), f) == FoldFields(fields, f)
    decreases |fields|
  {
    hide SetField;
    if fields != [] {
      var (kind, value) := fields[0];
      var rest := FieldBytes(fields[1..]);
      var b := FieldBytes(fields);
      assert b == [kind] + value + [0] + rest;
      NulIndexUnique(b, 1, 1 + |value|);
      assert b[1..1 + |value|] == value;
      assert b[2 + |value|..] == rest;
      ParseFieldsOf(fields[1..], SetField(f, kind, value));
    }
  }

  /** The published form of an error: severity and SQLSTATE only. */
  function Scrubbed(f: ErrorFields): (r: Option<Bytes>) { Joined(f.severity, f.sqlstate) }

  /** The full form: severity and message. */
  function FullError(f: ErrorFields): (r: Option<Bytes>) { Joined(f.severity, f.message) }

  function Joined(a: Option<Bytes>, b: Option<Bytes>): (r: Option<Bytes>) {
    match (a, b)
    case (Some(x), Some(y)) => Some(x + Ascii(": ") + y)
    case (Some(x), None) => Some(x)
    case (None, other) => other
  }

  /** The S and C fields, in order. */
  function Safe(fields: seq<(byte, Bytes)>): (r: seq<(byte, Bytes)>) {
    if fields == [] then []
    else if fields[0].0 == 83 || fields[0].0 == 67 then [fields[0]] + Safe(fields[1..])
    else Safe(fields[1..])
  }

  lemma {:induction false} FoldIgnoresOthers(fields: seq<(byte, Bytes)>, f: ErrorFields, g: ErrorFields)
    requires f.severity == g.severity && f.sqlstate == g.sqlstate
    ensures var a, b := FoldFields(fields, f), FoldFields(Safe(fields), g);
            a.severity == b.severity && a.sqlstate == b.sqlstate
    decreases |fields|
  {
    if fields != [] {
      var safe := fields[0].0 == 83 || fields[0].0 == 67;
      var f' := SetField(f, fields[0].0, fields[0].1);
      if safe {
        var g' := SetField(g, fields[0].0, fields[0].1);
        FoldIgnoresOthers(fields[1..], f', g');
        assert ([fields[0]] + Safe(fields[1..]))[1..] == Safe(fields[1..]);
      } else {
        FoldIgnoresOthers(fields[1..], f', g);
      }
    }
  }

  /** Two ErrorResponses that differ only in fields other than S and C publish the same scrubbed text: no message, detail
      or hint, which may echo query literals, reaches an anonymized event. */
  lemma ScrubbedHidesOtherFields(fields: seq<(byte, Bytes)>, others: seq<(byte, Bytes)>, rest: Bytes, rest': Bytes)
    requires FieldsWellFormed(fields) && FieldsWellFormed(others) && Safe(fields) == Safe(others)
    requires FitsI32(Frame(ERROR_RESPONSE, FieldBytes(fields))) && FitsI32(Frame(ERROR_RESPONSE, FieldBytes(others)))
    ensures var a := FindError(FrameBytes(Frame(ERROR_RESPONSE, FieldBytes(fields))) + rest);
            var b := FindError(FrameBytes(Frame(ERROR_RESPONSE, FieldBytes(others))) + rest');
            && a.Value? && a.value.Some? && b.Value? && b.value.Some?
            && Scrubbed(a.value.value) == Scrubbed(b.value.value)
  {
    LeadingError(fields, rest);
    LeadingError(others, rest');
    FoldIgnoresOthers(fields, NoFields, NoFields);
    FoldIgnoresOthers(others, NoFields, NoFields);
  }

  /** An ErrorResponse at the front of a read is found whatever follows it. */
  lemma LeadingError(fields: seq<(byte, Bytes)>, rest: Bytes)
    requires FieldsWellFormed(fields) && FitsI32(Frame(ERROR_RESPONSE, FieldBytes(fields)))
    ensures FindError(FrameBytes(Frame(ERROR_RESPONSE, FieldBytes(fields))) + rest) == Value(Some(FoldFields(fields, NoFields)))
  {
    hide FieldBytes, FrameBytes;
    FrontFrame(Frame(ERROR_RESPONSE, FieldBytes(fields)), rest);
    ParseFieldsOf(fields, NoFields);
  }

  // ---------------------------------------------------------------- the error search on any read

  /** What the search passes over: a whole frame that is no error and has a payload, or the header of an ErrorResponse whose
      payload is not all there, of which it skips five bytes. */
  datatype Passed = Whole(f: Frame) | Cut(length: int)

  function PassedBytes(p: Passed): (b: Bytes)
    requires p.Cut? ==> -TWO31 <= p.length < TWO31
    ensures |b| >= 5
  {
    match p
    case Whole(f) => FrameBytes(f)
    case Cut(length) => [ERROR_RESPONSE] + Be32(length)
  }

  predicate PassedOver(p: Passed, rest: Bytes) {
    match p
    case Whole(f) => f.tag != ERROR_RESPONSE && f.payload != [] && FitsI32(f)
    case Cut(length) => -TWO31 <= length < TWO31 && (length < 0 || (length >= 4 && |rest| < length - 4))
  }

  /** The search comes from `b` to `rest`, passing over `ps`. */
  ghost predicate Reaches(b: Bytes, ps: seq<Passed>, rest: Bytes)
    decreases |ps|
  {
    if ps == [] then b == rest
    else exists more :: PassesOne(b, ps[0], more) && Reaches(more, ps[1..], rest)
  }

  ghost predicate PassesOne(b: Bytes, p: Passed, more: Bytes) {
    PassedOver(p, more) && b == PassedBytes(p) + more
  }

  predicate ShortError(b: Bytes) { |b| >= 5 && b[0] == ERROR_RESPONSE && 0 <= I32At(b, 1) < 4 }

  predicate WholeError(b: Bytes) { |b| >= 5 && b[0] == ERROR_RESPONSE && I32At(b, 1) >= 4 && |b| - 5 >= I32At(b, 1) - 4 }

  ghost predicate OverflowsIn(b: Bytes) { exists ps, rest :: Reaches(b, ps, rest) && ShortError(rest) }

  ghost predicate FindsIn(b: Bytes, f: ErrorFields) {
    exists ps, rest :: Reaches(b, ps, rest) && WholeError(rest) && f == ParseFields(rest[5..1 + I32At(rest, 1)], NoFields)
  }

  /** The one step the search can take at the front of a read. */
  function StepSize(b: Bytes): (n: nat)
    ensures n <= |b|
  {
    if |b| < 5 then 0
    else
      var length := I32At(b, 1);
      if b[0] == ERROR_RESPONSE then (if length < 0 || (length >= 4 && |b| - 5 < length - 4) then 5 else 0)
      else if length > 4 && |b| - 5 >= length - 4 then 1 + length
      else 0
  }

  lemma StepTaken(b: Bytes)
    requires StepSize(b) > 0
    ensures exists p :: PassesOne(b, p, b[StepSize(b)..])
  {
    hide I32At;
    var n := StepSize(b);
    Be32Inverse(b, 1);
    if b[0] == ERROR_RESPONSE {
      assert PassesOne(b, Cut(I32At(b, 1)), b[n..]);
    } else {
      var f := Frame(b[0], b[5..n]);
      assert b == FrameBytes(f) + b[n..];
      assert PassesOne(b, Whole(f), b[n..]);
    }
  }

  lemma StepOnly(b: Bytes, p: Passed, more: Bytes)
    requires PassesOne(b, p, more)
    ensures StepSize(b) > 0 && more == b[StepSize(b)..]
  {
    hide I32At;
    match p
    case Whole(f) => FrontFrame(f, more);
    case Cut(length) =>
      assert b[1..5] == Be32(length);
      Be32RoundTrip(length, b, 1);
      assert b[5..] == more;
  }

  /** From the front of a read the search stays, or takes its one step. */
  lemma ReachesExactly(b: Bytes, ps: seq<Passed>, rest: Bytes)
    requires Reaches(b, ps, rest)
    ensures ps == [] ==> b == rest
    ensures ps != [] ==> StepSize(b) > 0 && Reaches(b[StepSize(b)..], ps[1..], rest)
  {
    hide StepSize, PassesOne;
    if ps != [] {
      var more :| PassesOne(b, ps[0], more) && Reaches(more, ps[1..], rest);
      StepOnly(b, ps[0], more);
    }
  }

  lemma ReachesLater(b: Bytes, ps: seq<Passed>, rest: Bytes) returns (qs: seq<Passed>)
    requires StepSize(b) > 0 && Reaches(b[StepSize(b)..], ps, rest)
    ensures Reaches(b, qs, rest)
  {
    hide StepSize, PassesOne;
    StepTaken(b);
    var p :| PassesOne(b, p, b[StepSize(b)..]);
    qs := [p] + ps;
    assert qs[1..] == ps;
  }

  lemma OverflowsStep(b: Bytes)
    ensures OverflowsIn(b) <==> if StepSize(b) > 0 then OverflowsIn(b[StepSize(b)..]) else ShortError(b)
  {
    hide Reaches, I32At;
    if ps, rest :| Reaches(b, ps, rest) && ShortError(rest) {
      ReachesExactly(b, ps, rest);
    }
    var n := StepSize(b);
    if n > 0 {
      var next := b[n..];
      if ps, rest :| Reaches(next, ps, rest) && ShortError(rest) {
        var qs := ReachesLater(b, ps, rest);
      }
    }
    ReachesItself(b);
  }

  lemma ReachesItself(b: Bytes)
    ensures Reaches(b, [], b)
  {
  }

  lemma FindsStep(b: Bytes, f: ErrorFields)
    ensures FindsIn(b, f) <==>
            if StepSize(b) > 0 then FindsIn(b[StepSize(b)..], f)
            else WholeError(b) && f == ParseFields(b[5..1 + I32At(b, 1)], NoFields)
  {
    hide Reaches, I32At, ParseFields;
    if ps, rest :| Reaches(b, ps, rest) && WholeError(rest) && f == ParseFields(rest[5..1 + I32At(rest, 1)], NoFields) {
      ReachesExactly(b, ps, rest);
    }
    var n := StepSize(b);
    if n > 0 {
      var next := b[n..];
      if ps, rest :| Reaches(next, ps, rest) && WholeError(rest) && f == ParseFields(rest[5..1 + I32At(rest, 1)], NoFields) {
        var qs := ReachesLater(b, ps, rest);
      }
    }
    ReachesItself(b);
  }

  lemma SearchStep(b: Bytes)
    ensures FindError(b) ==
            if StepSize(b) > 0 then FindError(b[StepSize(b)..])
            else if ShortError(b) then Overflow
            else if WholeError(b) then Value(Some(ParseFields(b[5..1 + I32At(b, 1)], NoFields)))
            else Value(None)
  {
    hide I32At, ParseFields;
  }

  /** On every read: the search overflows exactly when, past what it passes over, it comes to an ErrorResponse header whose
      length is less than its own four bytes; and it finds fields exactly when it comes to a whole ErrorResponse. */
  lemma {:induction false} SearchExactly(b: Bytes, f: ErrorFields)
    ensures FindError(b) == Overflow <==> OverflowsIn(b)
    ensures FindError(b) == Value(Some(f)) <==> FindsIn(b, f)
    decreases |b|
  {
    hide FindError, OverflowsIn, FindsIn, StepSize, ShortError, WholeError, I32At, ParseFields;
    SearchStep(b);
    OverflowsStep(b);
    FindsStep(b, f);
    if StepSize(b) > 0 {
      SearchExactly(b[StepSize(b)..], f);
    } else {
      ShortIsNotWhole(b);
    }
  }

  lemma ShortIsNotWhole(b: Bytes)
    ensures !(ShortError(b) && WholeError(b))
  {
  }

  /** A read that begins at the last character of a column that ends in `E`, followed by a column of three bytes. */
  lemma SearchOverflowWitness(rest: Bytes)
    ensures FindError([ERROR_RESPONSE, 0, 0, 0, 3] + rest) == Overflow
  {
    var b: Bytes := [ERROR_RESPONSE, 0, 0, 0, 3] + rest;
    var three: Bytes := [0, 0, 0, 3];
    assert b[1..5] == three;
    assert FromBigEndian(three) == 3 by {
      assert three[..3] == [0, 0, 0] && three[..3][..2] == [0, 0] && three[..3][..2][..1] == [0];
      assert FromBigEndian(three[..3][..2][..1]) == 0;
      assert FromBigEndian(three[..3][..2]) == 0;
      assert FromBigEndian(three[..3]) == 0;
    }
  }

  /** An ErrorResponse behind a ParseComplete is not found. */
  lemma HiddenErrorWitness(payload: Bytes)
    requires FitsI32(Frame(ERROR_RESPONSE, payload))
    ensures FindError(FrameBytes(Frame(49, [])) + FrameBytes(Frame(ERROR_RESPONSE, payload))) == Value(None)
  {
    hide FrameBytes, FindError;
    var a, e := Frame(49, []), Frame(ERROR_RESPONSE, payload);
    var fs := [a, e];
    assert fs[1..] == [e] && |[e][1..]| == 0;
    assert FramesBytes([e]) == FrameBytes(e) + [];
    assert FramesBytes(fs) + [] == FrameBytes(a) + FrameBytes(e);
    FindErrorExactly(fs, []);
  }

  // ---------------------------------------------------------------- a completing header, on any read

  /** Whole frames and then the header of a CommandComplete or a ReadyForQuery. */
  ghost predicate CompletesAfter(b: Bytes, fs: seq<Frame>, rest: Bytes) {
    && b == FramesBytes(fs) + rest && (forall i | 0 <= i < |fs| :: FitsI32(fs[i]))
    && |rest| >= 5 && (rest[0] == 67 || rest[0] == 90)
  }

  ghost predicate CompletesIn(b: Bytes) { exists fs, rest :: CompletesAfter(b, fs, rest) }

  lemma CompletesInStep(b: Bytes, at: nat)
    requires |b| >= 5 && SkipFrame(b, at).Next?
    ensures CompletesIn(b) <==> b[0] == 67 || b[0] == 90 || CompletesIn(b[SkipFrame(b, at).size..])
  {
    hide I32At;
    var size := SkipFrame(b, at).size;
    var f, more := Frame(b[0], b[5..size]), b[size..];
    Be32Inverse(b, 1);
    assert b == FrameBytes(f) + more;
    if fs, rest :| CompletesAfter(b, fs, rest) {
      if fs == [] {
        assert b == rest;
      } else {
        UnfoldFrames(fs, rest);
        FrontFrame(fs[0], FramesBytes(fs[1..]) + rest);
        assert CompletesAfter(more, fs[1..], rest);
      }
    }
    if b[0] == 67 || b[0] == 90 {
      assert FramesBytes([]) + b == b;
      assert CompletesAfter(b, [], b);
    }
    if fs, rest :| CompletesAfter(more, fs, rest) {
      var all := [f] + fs;
      assert all[1..] == fs;
      UnfoldFrames(all, rest);
      assert CompletesAfter(b, all, rest);
    }
  }

  lemma CompletesInHere(b: Bytes, at: nat)
    requires |b| < 5 || !SkipFrame(b, at).Next?
    ensures CompletesIn(b) <==> |b| >= 5 && (b[0] == 67 || b[0] == 90)
  {
    hide I32At;
    if fs, rest :| CompletesAfter(b, fs, rest) {
      if fs == [] {
        assert b == rest;
      } else {
        UnfoldFrames(fs, rest);
        FrontFrame(fs[0], FramesBytes(fs[1..]) + rest);
      }
    }
    if |b| >= 5 && (b[0] == 67 || b[0] == 90) {
      assert FramesBytes([]) + b == b;
      assert CompletesAfter(b, [], b);
    }
  }

  /** On every read the completion scan says yes exactly when whole frames lead to such a header. */
  lemma {:induction false} CompletionFound(b: Bytes, at: nat)
    ensures HasCompletion(b, at) == Value(true) <==> CompletesIn(b)
    decreases |b|
  {
    hide CompletesIn, I32At;
    if |b| >= 5 && SkipFrame(b, at).Next? {
      CompletesInStep(b, at);
      CompletionFound(b[SkipFrame(b, at).size..], at + SkipFrame(b, at).size);
    } else {
      CompletesInHere(b, at);
    }
  }

  // ---------------------------------------------------------------- which fields are read

  /** A field of this kind with a readable value. */
  predicate Readable(field: (byte, Bytes), kind: byte) { field.0 == kind && Utf8(field.1) }

  ghost predicate LastField(fields: seq<(byte, Bytes)>, kind: byte, value: Bytes) {
    exists i | 0 <= i < |fields| ::
      fields[i] == (kind, value) && Readable(fields[i], kind) && forall j | i < j < |fields| :: !Readable(fields[j], kind)
  }

  ghost predicate NoField(fields: seq<(byte, Bytes)>, kind: byte) {
    forall j | 0 <= j < |fields| :: !Readable(fields[j], kind)
  }

  function FieldOf(f: ErrorFields, kind: byte): (r: Option<Bytes>)
    requires kind == 83 || kind == 67 || kind == 77
  {
    if kind == 83 then f.severity else if kind == 67 then f.sqlstate else f.message
  }

  lemma LastFieldFirst(fields: seq<(byte, Bytes)>, kind: byte, value: Bytes)
    requires fields != []
    ensures LastField(fields, kind, value) <==>
            LastField(fields[1..], kind, value) || (NoField(fields[1..], kind) && fields[0] == (kind, value) && Utf8(value))
    ensures NoField(fields, kind) <==> !Readable(fields[0], kind) && NoField(fields[1..], kind)
  {
    hide Readable;
    var more := fields[1..];
    assert forall j | 0 < j < |fields| :: fields[j] == more[j - 1];
    assert forall j | 0 <= j < |more| :: more[j] == fields[j + 1];
    assert Readable((kind, value), kind) <==> Utf8(value) by { ReadableMeans(kind, value); }
    if i :| 0 <= i < |fields| && fields[i] == (kind, value) && Readable(fields[i], kind)
            && forall j | i < j < |fields| :: !Readable(fields[j], kind) {
      if i > 0 {
        assert more[i - 1] == (kind, value);
      }
    }
    if i :| 0 <= i < |more| && more[i] == (kind, value) && Readable(more[i], kind)
            && forall j | i < j < |more| :: !Readable(more[j], kind) {
      assert fields[i + 1] == (kind, value);
    }
  }

  lemma ReadableMeans(kind: byte, value: Bytes)
    ensures Readable((kind, value), kind) <==> Utf8(value)
  {
  }

  /** Severity, code and message are each the last UTF-8 value of their kind. */
  lemma {:induction false} FieldsExactly(fields: seq<(byte, Bytes)>, f: ErrorFields, kind: byte, value: Bytes)
    requires kind == 83 || kind == 67 || kind == 77
    ensures FieldOf(FoldFields(fields, f), kind) == Some(value) <==>
            LastField(fields, kind, value) || (NoField(fields, kind) && FieldOf(f, kind) == Some(value))
    decreases |fields|
  {
    if fields != [] {
      hide LastField, NoField, Utf8;
      FieldsExactly(fields[1..], SetField(f, fields[0].0, fields[0].1), kind, value);
      LastFieldFirst(fields, kind, value);
      OneLast(fields[1..], kind, value);
    }
  }

  lemma OneLast(fields: seq<(byte, Bytes)>, kind: byte, value: Bytes)
    ensures LastField(fields, kind, value) ==> !NoField(fields, kind)
  {
  }
}
