/** `TransactionTracker`, and the ReadyForQuery message the proxy builds from it. */
module Transaction {
  import opened WireBytes
  import opened BackendScan

  datatype TxnState = Idle | InTransaction | InError

  /** An unknown status byte keeps the current state. */
  function Update(s: TxnState, status: byte): (r: TxnState) {
    if status == 73 then Idle else if status == 84 then InTransaction else if status == 69 then InError else s
  }

  function StatusByte(s: TxnState): (b: byte) {
    match s
    case Idle => 73
    case InTransaction => 84
    case InError => 69
  }

  predicate InTxn(s: TxnState) { s.InTransaction? || s.InError? }

  /** `build_ready_for_query`. */
  function ReadyForQuery(s: TxnState): (b: Bytes) { [READY_FOR_QUERY, 0, 0, 0, 5, StatusByte(s)] }

  class TransactionTracker {
    var state: TxnState

    constructor ()
      ensures state == Idle
    {
      state := Idle;
    }

    method UpdateFromReadyForQuery(status: byte)
      modifies this
      ensures state == Update(old(state), status)
    {
      match status
      case 73 => state := Idle;
      case 84 => state := InTransaction;
      case 69 => state := InError;
      case _ =>
    }
  }

  lemma ReadyIsAFrame(s: TxnState)
    ensures ReadyForQuery(s) == FrameBytes(Frame(READY_FOR_QUERY, [StatusByte(s)]))
  {
    var four: Bytes := [0, 0, 0, 5];
    assert FromBigEndian(four) == 5 by {
      assert four[..3] == [0, 0, 0] && four[..3][..2] == [0, 0] && four[..3][..2][..1] == [0];
      assert FromBigEndian(four[..3][..2][..1]) == 0;
      assert FromBigEndian(four[..3][..2]) == 0;
      assert FromBigEndian(four[..3]) == 0;
    }
    BigEndianInverse(four);
  }

  /** Building a ReadyForQuery, scanning it behind any frames and updating any tracker restores the state. */
  lemma ReadyRestores(s: TxnState, any: TxnState, fs: seq<Frame>)
    requires forall i | 0 <= i < |fs| :: FitsI32(fs[i]) && (fs[i].tag == READY_FOR_QUERY ==> |fs[i].payload| == 1)
    ensures LastStatus(FramesBytes(fs) + ReadyForQuery(s), 0, None) == Value(Some(StatusByte(s)))
    ensures Update(any, StatusByte(s)) == s
  {
    var ready := Frame(READY_FOR_QUERY, [StatusByte(s)]);
    ReadyIsAFrame(s);
    AppendFrame(fs, ready);
    LastReadyAppend(fs, ready, None);
    ScanFindsLastReady(fs + [ready], [], 0, None);
    assert FramesBytes(fs + [ready]) + [] == FramesBytes(fs + [ready]);
  }

  lemma {:induction false} AppendFrame(fs: seq<Frame>, f: Frame)
    ensures FramesBytes(fs + [f]) == FramesBytes(fs) + FrameBytes(f)
  {
    if fs == [] {
      assert [f][1..] == [];
      assert fs + [f] == [f];
    } else {
      AppendFrame(fs[1..], f);
      assert (fs + [f])[1..] == fs[1..] + [f];
    }
  }

  lemma {:induction false} LastReadyAppend(fs: seq<Frame>, f: Frame, last: Option<byte>)
    requires f.tag == READY_FOR_QUERY && f.payload != []
    ensures LastReady(fs + [f], last) == Some(f.payload[0])
    decreases |fs|
  {
    if fs == [] {
      assert fs + [f] == [f] && |[f][1..]| == 0;
    } else {
      var last' := if fs[0].tag == READY_FOR_QUERY && fs[0].payload != [] then Some(fs[0].payload[0]) else last;
      LastReadyAppend(fs[1..], f, last');
      assert (fs + [f])[1..] == fs[1..] + [f];
    }
  }

  /** The state follows the letters of the protocol, and any other byte leaves it. */
  lemma UpdateExactly(s: TxnState, b: byte)
    ensures Update(s, b) == if b == 'I' as int then Idle else if b == 'T' as int then InTransaction
                            else if b == 'E' as int then InError else s
    ensures StatusByte(Idle) == 'I' as int && StatusByte(InTransaction) == 'T' as int && StatusByte(InError) == 'E' as int
  {
  }

  function UpdateAll(s: TxnState, statuses: Bytes): (r: TxnState) {
    if statuses == [] then s else Update(UpdateAll(s, statuses[..|statuses| - 1]), statuses[|statuses| - 1])
  }

  /** After any statuses the state is that of the last known one. */
  lemma {:induction false} LastKnownStatus(s: TxnState, statuses: Bytes, i: nat, t: TxnState)
    requires i < |statuses| && statuses[i] == StatusByte(t)
    requires forall j | i < j < |statuses| :: statuses[j] != 73 && statuses[j] != 84 && statuses[j] != 69
    ensures UpdateAll(s, statuses) == t
  {
    if i < |statuses| - 1 {
      LastKnownStatus(s, statuses[..|statuses| - 1], i, t);
    }
  }
}
