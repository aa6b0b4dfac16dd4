/** Messages the proxy writes to clients: error responses and the admin console's answers. */
module AdminResponse {
  import opened WireBytes
  import opened BackendScan
  import opened TextOps
  import opened Transaction
  import Wire = FrontendWire

  // ---------------------------------------------------------------- ErrorResponse

  function ErrorPayload(severity: Bytes, code: Bytes, message: Bytes): (b: Bytes) {
    [83] + severity + [0] + [67] + code + [0] + [77] + message + [0] + [0]
  }

  /** `build_error_response`: the length field is the payload length plus four, cast to `i32`. */
  function BuildErrorResponse(severity: Bytes, code: Bytes, message: Bytes): (b: Bytes) {
    FrameBytes(Frame(ERROR_RESPONSE, ErrorPayload(severity, code, message)))
  }

  function ErrorParts(severity: Bytes, code: Bytes, message: Bytes): (r: seq<(byte, Bytes)>) {
    [(83, severity), (67, code), (77, message)]
  }

  lemma ErrorPayloadFields(severity: Bytes, code: Bytes, message: Bytes)
    ensures ErrorPayload(severity, code, message) == FieldBytes(ErrorParts(severity, code, message))
  {
    var fields: seq<(byte, Bytes)> := ErrorParts(severity, code, message);
    assert fields[1..] == [(67, code), (77, message)];
    assert fields[1..][1..] == [(77, message)];
    assert |fields[1..]| == 2 && |fields[1..][1..]| == 1;
    assert FieldBytes(fields[1..][1..]) == [77] + message + [0] + [0];
    assert FieldBytes(fields[1..]) == [67] + code + [0] + ([77] + message + [0] + [0]);
  }

  /** Reading a built error back, whatever follows it: the full form is severity and message, the scrubbed form
      severity and code. */
  lemma ErrorRoundTrip(severity: Bytes, code: Bytes, message: Bytes, rest: Bytes)
    requires Text(severity) && Text(code) && Text(message)
    requires FitsI32(Frame(ERROR_RESPONSE, ErrorPayload(severity, code, message)))
    ensures var r := FindError(BuildErrorResponse(severity, code, message) + rest);
            && r == Value(Some(ErrorFields(Some(severity), Some(code), Some(message))))
            && FullError(r.value.value) == Some(severity + Ascii(": ") + message)
            && Scrubbed(r.value.value) == Some(severity + Ascii(": ") + code)
  {
    hide FrameBytes, ErrorPayload, FieldBytes, Utf8;
    var fields: seq<(byte, Bytes)> := ErrorParts(severity, code, message);
    ErrorPayloadFields(severity, code, message);
    LeadingError(fields, rest);
    assert fields[1..] == [(67, code), (77, message)];
    assert fields[1..][1..] == [(77, message)];
    assert |fields[1..]| == 2 && |fields[1..][1..]| == 1;
    var f1 := SetField(NoFields, 83, severity);
    var f2 := SetField(f1, 67, code);
    assert FoldFields(fields[1..][1..], f2) == SetField(f2, 77, message);
    assert FoldFields(fields[1..], f1) == SetField(f2, 77, message);
  }

  // ---------------------------------------------------------------- the admin console

  datatype Response =
    | RowSet(columns: seq<Bytes>, rows: seq<seq<Bytes>>)
    | Complete(tag: Bytes)
    | Failed(message: Bytes)

  /** A text column: name, no table, type 25, variable size, no modifier, text format. */
  function ColumnBytes(name: Bytes): (b: Bytes) {
    name + [0] + Be32(0) + Be16(0) + Be32(25) + Be16(-1) + Be32(-1) + Be16(0)
  }

  function ColumnsBytes(columns: seq<Bytes>): (b: Bytes) {
    if columns == [] then [] else ColumnBytes(columns[0]) + ColumnsBytes(columns[1..])
  }

  /** Each value with its length: the same layout as the parameters of a Bind. */
  function ValuesBytes(row: seq<Bytes>): (b: Bytes) {
    if row == [] then [] else Be32(|row[0]|) + row[0] + ValuesBytes(row[1..])
  }

  function RowDescription(columns: seq<Bytes>): (f: Frame) { Frame(84, Be16(|columns|) + ColumnsBytes(columns)) }

  function DataRow(row: seq<Bytes>): (f: Frame) { Frame(68, Be16(|row|) + ValuesBytes(row)) }

  function CommandComplete(tag: Bytes): (f: Frame) { Frame(COMMAND_COMPLETE, tag + [0]) }

  function DataRows(rows: seq<seq<Bytes>>): (r: seq<Frame>)
    ensures |r| == |rows|
  {
    if rows == [] then [] else [DataRow(rows[0])] + DataRows(rows[1..])
  }

  /** The frames of a response before its ReadyForQuery. */
  function Body(r: Response): (fs: seq<Frame>) {
    match r
    case RowSet(columns, rows) =>
      [RowDescription(columns)] + DataRows(rows) + [CommandComplete(Ascii("SELECT ") + Digits(|rows|))]
    case Complete(tag) => [CommandComplete(tag)]
    case Failed(message) => [Frame(ERROR_RESPONSE, ErrorPayload(Ascii("ERROR"), Ascii("42000"), message))]
  }

  // The builders append to a buffer; each is proved to produce one frame of `Body`.

  method BuildRowDescription(columns: seq<Bytes>) returns (msg: Bytes)
    ensures msg == FrameBytes(RowDescription(columns))
  {
    var fields: Bytes := [];
    for i := 0 to |columns|
      invariant fields + ColumnsBytes(columns[i..]) == ColumnsBytes(columns)
    {
      assert columns[i..][1..] == columns[i + 1..];
      fields := fields + ColumnBytes(columns[i]);
    }
    assert columns[|columns|..] == [];
    msg := [84] + Be32(4 + 2 + |fields|) + Be16(|columns|) + fields;
  }

  method BuildDataRow(row: seq<Bytes>) returns (msg: Bytes)
    ensures msg == FrameBytes(DataRow(row))
  {
    hide Be32, Be16;
    var columns: Bytes := [];
    for i := 0 to |row|
      invariant columns + ValuesBytes(row[i..]) == ValuesBytes(row)
    {
      assert row[i..][1..] == row[i + 1..];
      columns := columns + Be32(|row[i]|);
      columns := columns + row[i];
    }
    assert row[|row|..] == [];
    msg := [68] + Be32(4 + 2 + |columns|) + Be16(|row|) + columns;
  }

  method ToWire(r: Response) returns (wire: Bytes)
    ensures wire == FramesBytes(Body(r)) + ReadyForQuery(Idle)
  {
    hide FrameBytes, ErrorPayload, RowDescription, DataRow, CommandComplete;
    match r
    case RowSet(columns, rows) =>
      wire := BuildRowDescription(columns);
      ghost var first := [RowDescription(columns)];
      OneFrame(RowDescription(columns));
      for i := 0 to |rows|
        invariant wire == FramesBytes(first + DataRows(rows[..i]))
      {
        var row := BuildDataRow(rows[i]);
        assert rows[..i + 1] == rows[..i] + [rows[i]];
        DataRowsAppend(rows[..i], rows[i]);
        assert first + (DataRows(rows[..i]) + [DataRow(rows[i])]) == (first + DataRows(rows[..i])) + [DataRow(rows[i])];
        AppendFrame(first + DataRows(rows[..i]), DataRow(rows[i]));
        wire := wire + row;
      }
      assert rows[..|rows|] == rows;
      var tag := CommandComplete(Ascii("SELECT ") + Digits(|rows|));
      AppendFrame(first + DataRows(rows), tag);
      wire := wire + FrameBytes(tag);
      wire := wire + ReadyForQuery(Idle);
    case Complete(tag) =>
      OneFrame(CommandComplete(tag));
      wire := FrameBytes(CommandComplete(tag)) + ReadyForQuery(Idle);
    case Failed(message) =>
      OneFrame(Frame(ERROR_RESPONSE, ErrorPayload(Ascii("ERROR"), Ascii("42000"), message)));
      wire := BuildErrorResponse(Ascii("ERROR"), Ascii("42000"), message) + ReadyForQuery(Idle);
  }

  lemma OneFrame(f: Frame)
    ensures FramesBytes([f]) == FrameBytes(f)
  {
    assert [f][1..] == [];
  }

  lemma {:induction false} DataRowsAppend(rows: seq<seq<Bytes>>, row: seq<Bytes>)
    ensures DataRows(rows + [row]) == DataRows(rows) + [DataRow(row)]
    decreases |rows|
  {
    if rows == [] {
      assert rows + [row] == [row] && |[row][1..]| == 0;
    } else {
      DataRowsAppend(rows[1..], row);
      assert (rows + [row])[1..] == rows[1..] + [row];
    }
  }

  lemma {:induction false} DataRowsTags(rows: seq<seq<Bytes>>, i: nat)
    requires i < |rows|
    ensures DataRows(rows)[i] == DataRow(rows[i])
    decreases |rows|
  {
    if i > 0 {
      DataRowsTags(rows[1..], i - 1);
    }
  }

  /** Every admin response scans as complete and idle. */
  lemma AdminScansIdle(r: Response)
    requires forall i | 0 <= i < |Body(r)| :: FitsI32(Body(r)[i])
    ensures LastStatus(FramesBytes(Body(r)) + ReadyForQuery(Idle), 0, None) == Value(Some(StatusByte(Idle)))
    ensures HasCompletion(FramesBytes(Body(r)) + ReadyForQuery(Idle), 0) == Value(true)
  {
    hide FrameBytes, ErrorPayload, LastStatus, HasCompletion, FramesBytes;
    var fs := Body(r);
    NoReadyInBody(r);
    ReadyRestores(Idle, Idle, fs);
    var ready := Frame(READY_FOR_QUERY, [StatusByte(Idle)]);
    ReadyIsAFrame(Idle);
    AppendFrame(fs, ready);
    assert (fs + [ready])[|fs|] == ready;
    CompletionExactly(fs + [ready], [], 0);
    assert FramesBytes(fs + [ready]) + [] == FramesBytes(fs + [ready]);
  }

  /** A failed admin response scans as the error it carries. */
  lemma AdminErrorFound(message: Bytes)
    requires Text(message) && FitsI32(Body(Failed(message))[0])
    ensures FindError(FramesBytes(Body(Failed(message))) + ReadyForQuery(Idle)) ==
            Value(Some(ErrorFields(Some(Ascii("ERROR")), Some(Ascii("42000")), Some(message))))
  {
    hide FindError, FrameBytes, ErrorPayload, Utf8;
    OneFrame(Body(Failed(message))[0]);
    AdminCodesAreText();
    ErrorRoundTrip(Ascii("ERROR"), Ascii("42000"), message, ReadyForQuery(Idle));
  }

  lemma AdminCodesAreText()
    ensures Text(Ascii("ERROR")) && Text(Ascii("42000"))
  {
    hide Utf8;
    AsciiIsUtf8(Ascii("ERROR"));
    AsciiIsUtf8(Ascii("42000"));
  }

  lemma NoReadyInBody(r: Response)
    ensures forall i | 0 <= i < |Body(r)| :: Body(r)[i].tag != READY_FOR_QUERY
  {
    if r.RowSet? {
      forall i | 0 <= i < |r.rows|
        ensures DataRows(r.rows)[i].tag == 68
      {
        DataRowsTags(r.rows, i);
      }
    }
  }

  /** A reader of section 55.7 gets the values of a row back. */
  lemma DataRowRoundTrip(row: seq<Bytes>, rest: Bytes)
    requires |row| < TWO15 && forall i | 0 <= i < |row| :: |row[i]| < TWO31
    ensures var s := DataRow(row).payload + rest;
            && Wire.TakeI16(s) == Some((|row|, ValuesBytes(row) + rest))
            && Wire.TakeParams(|row|, ValuesBytes(row) + rest, |s|) == Wire.Values(Present(row))
  {
    hide Wire.TakeParams, Wire.ParamBytes;
    var s := DataRow(row).payload + rest;
    assert s == Be16(|row|) + (ValuesBytes(row) + rest);
    Wire.TakeI16Of(|row|, ValuesBytes(row) + rest);
    ValuesAreParams(row);
    Wire.TakeParamsOf(Present(row), 0, rest, |s|);
    Wire.NoParams(rest, |s|);
    assert Present(row) + [] == Present(row);
  }

  function Present(row: seq<Bytes>): (r: seq<Option<Bytes>>)
    ensures |r| == |row|
  {
    seq(|row|, i requires 0 <= i < |row| => Some(row[i]))
  }

  lemma {:induction false} ValuesAreParams(row: seq<Bytes>)
    ensures ValuesBytes(row) == Wire.ParamsBytes(Present(row))
  {
    if row != [] {
      ValuesAreParams(row[1..]);
      assert Present(row)[1..] == Present(row[1..]);
    }
  }

  // ---------------------------------------------------------------- a reader of RowDescription

  /** One column as section 55.7 lists its fields. */
  datatype Column = Column(name: Bytes, table: nat, attribute: int, typeOid: nat, size: int, modifier: int, format: int)

  function TakeColumn(b: Bytes): (r: Option<(Column, Bytes)>) {
    var n := NulIndex(b, 0);
    if |b| - n < 19 then None
    else
      Some((Column(b[..n], U32At(b, n + 1), I16At(b, n + 5), U32At(b, n + 7), I16At(b, n + 11), I32At(b, n + 13),
                   I16At(b, n + 17)),
            b[n + 19..]))
  }

  function TakeColumns(count: nat, b: Bytes): (r: Option<(seq<Column>, Bytes)>) {
    if count == 0 then Some(([], b))
    else match TakeColumn(b)
      case None => None
      case Some((c, rest)) =>
        match TakeColumns(count - 1, rest)
        case None => None
        case Some((cs, left)) => Some(([c] + cs, left))
  }

  /** A text column of no table: type 25, variable size, no modifier, text format. */
  function TextColumn(name: Bytes): (c: Column) { Column(name, 0, 0, 25, -1, -1, 0) }

  function TextColumns(names: seq<Bytes>): (cs: seq<Column>)
    ensures |cs| == |names|
  {
    seq(|names|, i requires 0 <= i < |names| => TextColumn(names[i]))
  }

  lemma TextColumnTaken(name: Bytes, rest: Bytes)
    requires NulFree(name)
    ensures TakeColumn(ColumnBytes(name) + rest) == Some((TextColumn(name), rest))
  {
    hide Be32, Be16, U32At, I16At, I32At;
    var b, n := ColumnBytes(name) + rest, |name|;
    NulIndexUnique(b, 0, n);
    assert b[..n] == name && b[n + 19..] == rest;
    assert b[n + 1..n + 5] == Be32(0) && b[n + 5..n + 7] == Be16(0) && b[n + 7..n + 11] == Be32(25);
    assert b[n + 11..n + 13] == Be16(-1) && b[n + 13..n + 17] == Be32(-1) && b[n + 17..n + 19] == Be16(0);
    Be32RoundTrip(0, b, n + 1);
    Be16RoundTrip(0, b, n + 5);
    Be32RoundTrip(25, b, n + 7);
    Be16RoundTrip(-1, b, n + 11);
    Be32RoundTrip(-1, b, n + 13);
    Be16RoundTrip(0, b, n + 17);
  }

  lemma {:induction false} TextColumnsTaken(names: seq<Bytes>, rest: Bytes)
    requires forall i | 0 <= i < |names| :: NulFree(names[i])
    ensures TakeColumns(|names|, ColumnsBytes(names) + rest) == Some((TextColumns(names), rest))
  {
    hide ColumnBytes, TakeColumn;
    if names == [] {
      assert ColumnsBytes(names) + rest == rest;
    } else {
      var more := ColumnsBytes(names[1..]) + rest;
      TextColumnsTaken(names[1..], rest);
      TextColumnTaken(names[0], more);
      assert ColumnsBytes(names) + rest == ColumnBytes(names[0]) + more;
      assert TextColumns(names) == [TextColumn(names[0])] + TextColumns(names[1..]);
    }
  }

  /** A reader of section 55.7 gets the column names back, in order, each as a text column. */
  lemma RowDescriptionRoundTrip(names: seq<Bytes>, rest: Bytes)
    requires |names| < TWO15 && forall i | 0 <= i < |names| :: NulFree(names[i])
    ensures var s := RowDescription(names).payload + rest;
            && Wire.TakeI16(s) == Some((|names|, ColumnsBytes(names) + rest))
            && TakeColumns(|names|, ColumnsBytes(names) + rest) == Some((TextColumns(names), rest))
  {
    var s := RowDescription(names).payload + rest;
    assert s == Be16(|names|) + (ColumnsBytes(names) + rest);
    Wire.TakeI16Of(|names|, ColumnsBytes(names) + rest);
    TextColumnsTaken(names, rest);
  }

  /** A row set is a description of its columns, one row for each of its rows in order, and a tag that counts them. */
  lemma RowSetReadBack(columns: seq<Bytes>, rows: seq<seq<Bytes>>)
    ensures var fs := Body(RowSet(columns, rows));
            && |fs| == |rows| + 2 && fs[0] == RowDescription(columns)
            && (forall i | 0 <= i < |rows| :: fs[i + 1] == DataRow(rows[i]))
            && fs[|rows| + 1].tag == COMMAND_COMPLETE
            && exists digits :: fs[|rows| + 1].payload == Ascii("SELECT ") + digits + [0] && Decimal(digits) == |rows|
  {
    hide Ascii, Digits, RowDescription, DataRow;
    var fs := Body(RowSet(columns, rows));
    forall i | 0 <= i < |rows|
      ensures fs[i + 1] == DataRow(rows[i])
    {
      DataRowsTags(rows, i);
    }
    DecimalOfDigits(|rows|);
    assert fs[|rows| + 1].payload == Ascii("SELECT ") + Digits(|rows|) + [0];
  }
}
