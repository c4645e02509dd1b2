/**
  The state machine of a block opened for writing, as a pure transition system.
  A writer is its lifecycle state and the history of chunks that Append accepted;
  its bytes are those chunks laid end to end.
 */
module WriterModel {
  import opened BlockTypes

  datatype State = Clean | Dirty | Flushing | Closed

  datatype Writer = Writer(state: State, appends: seq<seq<uint8>>)

  /** The writer after an operation, and what the operation returned. */
  datatype Step = Step(next: Writer, status: Status)

  datatype Op = AppendOp(bytes: seq<uint8>) | FlushOp | CloseOp

  /** A freshly created block: clean and empty. */
  const Fresh := Writer(Clean, [])

  /** The chunks laid end to end, in order. */
  function Concat(chunks: seq<seq<uint8>>): seq<uint8>
  {
    if chunks == [] then [] else Concat(chunks[..|chunks| - 1]) + chunks[|chunks| - 1]
  }

  /** The sum of the chunks' lengths. */
  function TotalLength(chunks: seq<seq<uint8>>): nat
  {
    if chunks == [] then 0 else TotalLength(chunks[..|chunks| - 1]) + |chunks[|chunks| - 1]|
  }

  lemma {:induction false} ConcatLength(chunks: seq<seq<uint8>>)
    ensures |Concat(chunks)| == TotalLength(chunks)
  {
    if chunks != [] {
      ConcatLength(chunks[..|chunks| - 1]);
    }
  }

  lemma {:induction false} ConcatAppend(a: seq<seq<uint8>>, b: seq<seq<uint8>>)
    ensures Concat(a + b) == Concat(a) + Concat(b)
  {
    if b == [] {
      assert a + b == a;
    } else {
      var b' := b[..|b| - 1];
      assert (a + b)[..|a + b| - 1] == a + b';
      ConcatAppend(a, b');
    }
  }

  function Data(w: Writer): seq<uint8>
  {
    Concat(w.appends)
  }

  /** The number of bytes accepted so far: the total length of the accepted chunks. */
  function BytesAppended(w: Writer): (n: nat)
    ensures n == TotalLength(w.appends)
  {
    ConcatLength(w.appends);
    |Data(w)|
  }

  /** The states mean what their names say: CLEAN holds no dirty data, DIRTY some. */
  ghost predicate WellFormed(w: Writer)
  {
    && (w.state == Clean ==> Data(w) == [])
    && (w.state == Dirty ==> Data(w) != [])
  }

  /** Data may still be appended: neither FlushDataAsync nor Close has been called. */
  predicate Writable(s: State)
  {
    s == Clean || s == Dirty
  }

  function Append(w: Writer, bytes: seq<uint8>): (s: Step)
    ensures s.status.Ok? <==> Writable(w.state)
    ensures s.status.Ok? ==> s.next.appends == w.appends + [bytes] && Writable(s.next.state)
    ensures s.status.Ok? ==> Data(s.next) == Data(w) + bytes
    ensures s.status.Error? ==> s.status.kind == IllegalState && s.next == w
    ensures WellFormed(w) ==> WellFormed(s.next)
  {
    if Writable(w.state) then
      Step(Writer(if bytes == [] then w.state else Dirty, w.appends + [bytes]), Ok)
    else
      Step(w, Error(IllegalState))
  }

  function FlushDataAsync(w: Writer): (s: Step)
    ensures s.status.Ok? <==> w.state != Closed
    ensures s.status.Ok? ==> s.next.state == Flushing && s.next.appends == w.appends
    ensures s.status.Ok? ==> !Writable(s.next.state)
    ensures s.status.Error? ==> s.status.kind == IllegalState && s.next == w
  {
    if w.state == Closed then Step(w, Error(IllegalState))
    else Step(Writer(Flushing, w.appends), Ok)
  }

  function Close(w: Writer): (s: Step)
    ensures s.status.Ok? <==> w.state != Closed
    ensures s.next.state == Closed && Data(s.next) == Data(w)
    ensures s.status.Error? ==> s.status.kind == IllegalState && s.next == w
  {
    if w.state == Closed then Step(w, Error(IllegalState))
    else Step(Writer(Closed, w.appends), Ok)
  }

  function Apply(w: Writer, op: Op): Step
  {
    match op
    case AppendOp(bytes) => Append(w, bytes)
    case FlushOp => FlushDataAsync(w)
    case CloseOp => Close(w)
  }

  /** The writer after a sequence of calls, failed ones included. */
  function Run(w: Writer, ops: seq<Op>): Writer
    decreases |ops|
  {
    if ops == [] then w else Run(Apply(w, ops[0]).next, ops[1..])
  }

  /**
    A reference definition of what a writer keeps: the chunks of the Append calls
    that come before the first FlushDataAsync or Close, in call order.
   */
  function AcceptedAppends(ops: seq<Op>): seq<seq<uint8>>
  {
    if ops == [] then []
    else match ops[0]
      case AppendOp(bytes) => [bytes] + AcceptedAppends(ops[1..])
      case _ => []
  }

  lemma {:induction false} RunSnoc(w: Writer, ops: seq<Op>, op: Op)
    ensures Run(w, ops + [op]) == Apply(Run(w, ops), op).next
    decreases |ops|
  {
    if ops == [] {
      assert [] + [op] == [op];
    } else {
      assert (ops + [op])[1..] == ops[1..] + [op];
      RunSnoc(Apply(w, ops[0]).next, ops[1..], op);
    }
  }

  /** After FlushDataAsync or Close nothing more is appended, whatever is called. */
  lemma {:induction false} RunSealed(w: Writer, ops: seq<Op>)
    requires !Writable(w.state)
    ensures Run(w, ops).appends == w.appends && !Writable(Run(w, ops).state)
    decreases |ops|
  {
    if ops != [] {
      RunSealed(Apply(w, ops[0]).next, ops[1..]);
    }
  }

  /** Appends are kept in call order, exactly up to the first flush or close. */
  lemma {:induction false} RunWritable(w: Writer, ops: seq<Op>)
    requires Writable(w.state)
    ensures Run(w, ops).appends == w.appends + AcceptedAppends(ops)
    decreases |ops|
  {
    if ops == [] {
      assert w.appends + [] == w.appends;
    } else {
      var s := Apply(w, ops[0]);
      match ops[0]
      case AppendOp(bytes) =>
        RunWritable(s.next, ops[1..]);
        assert w.appends + [bytes] + AcceptedAppends(ops[1..]) == w.appends + ([bytes] + AcceptedAppends(ops[1..]));
      case FlushOp =>
        RunSealed(s.next, ops[1..]);
        assert w.appends + [] == w.appends;
      case CloseOp =>
        RunSealed(s.next, ops[1..]);
        assert w.appends + [] == w.appends;
    }
  }

  /** The bytes of any writer after any calls are its bytes before, followed by the accepted chunks. */
  lemma RunData(w: Writer, ops: seq<Op>)
    ensures Writable(w.state) ==> Data(Run(w, ops)) == Data(w) + Concat(AcceptedAppends(ops))
    ensures !Writable(w.state) ==> Data(Run(w, ops)) == Data(w)
  {
    if Writable(w.state) {
      RunWritable(w, ops);
      ConcatAppend(w.appends, AcceptedAppends(ops));
    } else {
      RunSealed(w, ops);
    }
  }

  /** BytesAppended never decreases. */
  lemma BytesAppendedMonotone(w: Writer, ops: seq<Op>)
    ensures BytesAppended(Run(w, ops)) >= BytesAppended(w)
  {
    RunData(w, ops);
  }

  /** No call changes a closed writer. */
  lemma {:induction false} ClosedIsFinal(w: Writer, ops: seq<Op>)
    requires w.state == Closed
    ensures Run(w, ops) == w
    decreases |ops|
  {
    if ops != [] {
      ClosedIsFinal(Apply(w, ops[0]).next, ops[1..]);
    }
  }

  /** Every transition keeps the states' meaning. */
  lemma {:induction false} RunWellFormed(w: Writer, ops: seq<Op>)
    requires WellFormed(w)
    ensures WellFormed(Run(w, ops))
    decreases |ops|
  {
    if ops != [] {
      RunWellFormed(Apply(w, ops[0]).next, ops[1..]);
    }
  }

  /** A fresh block written by any calls and then closed holds exactly the accepted chunks, in call order. */
  lemma WriteThenClose(ops: seq<Op>)
    ensures Run(Fresh, ops + [CloseOp]).state == Closed
    ensures Data(Run(Fresh, ops + [CloseOp])) == Concat(AcceptedAppends(ops))
    ensures BytesAppended(Run(Fresh, ops + [CloseOp])) == TotalLength(AcceptedAppends(ops))
  {
    RunSnoc(Fresh, ops, CloseOp);
    RunData(Fresh, ops);
    assert Data(Fresh) == [];
    assert [] + Concat(AcceptedAppends(ops)) == Concat(AcceptedAppends(ops));
    ConcatLength(AcceptedAppends(ops));
  }
}
