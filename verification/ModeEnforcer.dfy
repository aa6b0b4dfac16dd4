/** `ModeEnforcer`: the commands strict transaction pooling refuses. */
module ModeEnforcer {
  import opened WireBytes
  import opened CommandDetector
  import opened ConnectionState
  import AdminResponse

  datatype PoolingMode = SessionMode | TransactionMode | HybridMode

  /** `validate`; a text on which `detect` panics ends the caller. */
  datatype Verdict = Allowed | Refused(message: Bytes) | ValidatePanics

  const NO_VARIABLES := "session variables not supported in transaction pooling mode"
  const NO_TEMP_TABLES := "temporary tables not supported in transaction pooling mode"
  const NO_HELD_CURSORS := "cursors WITH HOLD not supported in transaction pooling mode"
  const NO_LOCKS := "advisory locks not supported in transaction pooling mode"

  function Validate(mode: PoolingMode, sql: Bytes, inTransaction: bool): (v: Verdict) {
    if mode != TransactionMode then Allowed
    else match Detect(sql)
      case DetectPanics => ValidatePanics
      case Found(Set(_, _)) => if inTransaction then Allowed else Refused(Ascii(NO_VARIABLES))
      case Found(CreateTempTable(_)) => Refused(Ascii(NO_TEMP_TABLES))
      case Found(DeclareCursor(_, hold)) => if hold then Refused(Ascii(NO_HELD_CURSORS)) else Allowed
      case Found(AdvisoryLock(_)) => Refused(Ascii(NO_LOCKS))
      case _ => Allowed
  }

  /** The refusal sent to the client: SQLSTATE 0A000, feature not supported. */
  function Refusal(message: Bytes): (b: Bytes) {
    AdminResponse.BuildErrorResponse(Ascii("ERROR"), Ascii("0A000"), message)
  }

  /** What a text let through creates, taken as one statement: besides channels, exactly a statement of unknown effect, a
      SET in a transaction, or a cursor without hold. */
  lemma AllowedAcquires(sql: Bytes, inTransaction: bool)
    ensures var c := Classify(sql);
            Validate(TransactionMode, sql, inTransaction) == Allowed && (exists r: Resource :: !r.Channel? && Acquires(Executed(c), r)) <==>
            || c.Unknown?
            || (c.Stateful? && c.command.Set? && inTransaction)
            || (c.Stateful? && c.command.DeclareCursor? && !c.command.withHold)
  {
    hide Detect, KnownClean;
    var c := Classify(sql);
    match c
    case Unknown => assert Acquires(Executed(c), UnknownEffect);
    case Stateful(Set(n, _)) => assert Acquires(Executed(c), Variable(n));
    case Stateful(DeclareCursor(n, _)) => assert Acquires(Executed(c), Cursor(n));
    case _ =>
  }

  /** A resource strict transaction pooling does not let a statement create. */
  ghost predicate Forbidden(c: Class, r: Resource, inTransaction: bool) {
    && Acquires(Executed(c), r)
    && match r
       case Variable(_) => !inTransaction
       case TempTable(_) => true
       case Cursor(n) => c == Stateful(DeclareCursor(n, true))
       case Lock(_) => true
       case _ => false
  }

  /** Refused exactly in transaction mode, for a statement that would create such a resource or take an advisory lock
      whose key cannot be read. */
  lemma RefusedExactly(mode: PoolingMode, sql: Bytes, inTransaction: bool)
    ensures Validate(mode, sql, inTransaction).Refused? <==>
            && mode == TransactionMode
            && (Classify(sql) == Stateful(AdvisoryLock(None)) || exists r :: Forbidden(Classify(sql), r, inTransaction))
  {
    hide Detect, KnownClean;
    match Detect(sql)
    case Found(Set(n, v)) => assert inTransaction || Forbidden(Classify(sql), Variable(n), inTransaction);
    case Found(CreateTempTable(n)) => assert Forbidden(Classify(sql), TempTable(n), inTransaction);
    case Found(DeclareCursor(n, hold)) => assert hold ==> Forbidden(Classify(sql), Cursor(n), inTransaction);
    case Found(AdvisoryLock(Some(k))) => assert Forbidden(Classify(sql), Lock(k), inTransaction);
    case _ =>
  }

  /** So prepared statements and LISTEN are not all that can pin in transaction mode: a statement of unknown effect is
      let through and pins. */
  lemma AllowedUnknownPins(max: nat)
    ensures Validate(TransactionMode, [88], false) == Allowed
    ensures Pinned(Apply(Fresh(max), Executed(Classify([88]))))
  {
    hide Detect, KnownClean;
    XIsUnknown([88]);
  }
}
