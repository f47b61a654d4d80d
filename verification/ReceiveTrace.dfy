/**
 What the operations of src/file_receive.c answer and do to state and byte count, storage apart, and how that
 refines the progress machine of src/session.c: call by call, and over every run of operations.
 */
module ReceiveTrace {
  import opened Bytes
  import opened Wire
  import T = Transfer

  datatype ReceiveState = Idle | Receiving | Complete | Failed | Aborted

  datatype ReceiveResult =
    | ReceiveOk
    | InvalidArgument
    | InvalidState
    | ChunkTooLarge
    | ExceedsExpectedSize
    | Incomplete
    | SinkError
    | IntegrityError
    | IntegrityMismatch

  // What a call answers and does to state and count, apart from storage.

  /** pd_file_receiver_write, from state `s` with `n` of `e` bytes in. */
  predicate WriteResult(s: ReceiveState, e: nat, n: nat, size: nat, r: ReceiveResult, s': ReceiveState, n': nat)
  {
    (r == InvalidState <==> s != Receiving) &&
    (r == InvalidArgument <==> s == Receiving && size == 0) &&
    (r == ChunkTooLarge <==> s == Receiving && size > FRAME_MAX_PAYLOAD) &&
    (r == ExceedsExpectedSize <==> s == Receiving && 0 < size <= FRAME_MAX_PAYLOAD && n + size > e) &&
    r != Incomplete && r != IntegrityMismatch &&
    s' == (match r case ReceiveOk => Receiving case SinkError => Failed case IntegrityError => Failed case _ => s) &&
    n' == if r == ReceiveOk then n + size else n
  }

  /** pd_file_receiver_finish */
  predicate FinishResult(s: ReceiveState, e: nat, n: nat, r: ReceiveResult, s': ReceiveState)
  {
    (r == InvalidState <==> s != Receiving) &&
    (r == Incomplete <==> s == Receiving && n < e) &&
    r in {ReceiveOk, InvalidState, Incomplete, IntegrityMismatch, SinkError, IntegrityError} &&
    s' == match r case ReceiveOk => Complete case InvalidState => s case Incomplete => s case _ => Failed
  }

  // The abstract progress machine of src/session.c a receiver stands for.

  function Mirrored(s: ReceiveState, e: nat, n: nat): T.Progress
  {
    T.Progress(e, n,
               match s
               case Idle => T.Waiting
               case Receiving => if n == 0 then T.Waiting else T.Receiving
               case Complete => T.Complete
               case Failed => T.Failed
               case Aborted => T.Failed)
  }

  /** The chunks this receiver refuses and the machine does not: before begin, and above the frame limit. */
  predicate RefusesAlone(s: ReceiveState, e: nat, n: nat, size: nat)
  {
    0 < size && n + size <= e && (s == Idle || (s == Receiving && size > FRAME_MAX_PAYLOAD))
  }

  /** The finish this receiver refuses and the machine does not: of an empty file, before begin. */
  predicate RefusesFinishAlone(s: ReceiveState, e: nat) { s == Idle && e == 0 }

  /** The machine's calls that a write stands for. */
  function WriteCalls(s: ReceiveState, e: nat, n: nat, size: nat, r: ReceiveResult): seq<T.Call>
  {
    if r == SinkError || r == IntegrityError then [T.CallFail]
    else if RefusesAlone(s, e, n, size) && r != ReceiveOk then []
    else [T.CallAccept(size)]
  }

  function FinishCalls(s: ReceiveState, e: nat, r: ReceiveResult): seq<T.Call>
  {
    if r == ReceiveOk then [T.CallVerify, T.CallComplete]
    else if r == IntegrityMismatch || r == SinkError || r == IntegrityError then [T.CallVerify, T.CallFail]
    else if RefusesFinishAlone(s, e) then []
    else [T.CallVerify]
  }

  /** A write makes the machine's move; the two refuse together except where this one refuses alone. */
  lemma WriteMirrors(s: ReceiveState, e: nat, n: nat, size: nat, r: ReceiveResult, s': ReceiveState, n': nat)
    requires WriteResult(s, e, n, size, r, s', n') && n <= e && (s == Idle ==> n == 0)
    ensures T.RunCalls(Mirrored(s, e, n), WriteCalls(s, e, n, size, r)) == Mirrored(s', e, n')
    ensures var accepted := T.AcceptChunk(Mirrored(s, e, n), size).1 == T.TransferOk;
            accepted && r !in {ReceiveOk, SinkError, IntegrityError} <==> RefusesAlone(s, e, n, size)
  {
    hide T.RunCalls;
    T.RunOne(Mirrored(s, e, n), T.CallFail);
    T.RunOne(Mirrored(s, e, n), T.CallAccept(size));
    RunNone(Mirrored(s, e, n));
  }

  lemma FinishMirrors(s: ReceiveState, e: nat, n: nat, r: ReceiveResult, s': ReceiveState)
    requires FinishResult(s, e, n, r, s') && n <= e && (s == Idle ==> n == 0)
    ensures T.RunCalls(Mirrored(s, e, n), FinishCalls(s, e, r)) == Mirrored(s', e, n)
    ensures T.CanVerify(Mirrored(s, e, n)) && r in {InvalidState, Incomplete} <==> RefusesFinishAlone(s, e)
    ensures r !in {InvalidState, Incomplete} ==> T.CanVerify(Mirrored(s, e, n))
  {
    hide T.RunCalls;
    T.RunOne(Mirrored(s, e, n), T.CallVerify);
    T.RunTwo(Mirrored(s, e, n), T.CallVerify, T.CallComplete);
    T.RunTwo(Mirrored(s, e, n), T.CallVerify, T.CallFail);
    RunNone(Mirrored(s, e, n));
  }

  lemma RunNone(p: T.Progress)
    ensures T.RunCalls(p, []) == p
  {
  }

  // Runs of operations.

  datatype Operation = BeginFile | WriteChunk(data: ByteString) | FinishFile | AbortFile

  /** State and count between two operations. */
  datatype Point = Point(s: ReceiveState, n: nat)

  /** What an operation answers, and where it leads; aborting answers nothing, which is taken as OK. */
  predicate OpResult(op: Operation, e: nat, p: Point, r: ReceiveResult, q: Point)
  {
    match op
    case BeginFile =>
      q.n == p.n &&
      if p.s != Idle then r == InvalidState && q.s == p.s
      else r in {ReceiveOk, SinkError, IntegrityError} && q.s == if r == ReceiveOk then Receiving else Failed
    case WriteChunk(data) => WriteResult(p.s, e, p.n, |data|, r, q.s, q.n)
    case FinishFile => FinishResult(p.s, e, p.n, r, q.s) && q.n == p.n
    case AbortFile => r == ReceiveOk && q == Point(if p.s == Receiving then Aborted else p.s, p.n)
  }

  /** The calls of the progress machine an operation stands for. */
  function OpCalls(op: Operation, e: nat, p: Point, r: ReceiveResult): seq<T.Call>
  {
    match op
    case BeginFile => if p.s == Idle && r != ReceiveOk then [T.CallFail] else []
    case WriteChunk(data) => WriteCalls(p.s, e, p.n, |data|, r)
    case FinishFile => FinishCalls(p.s, e, r)
    case AbortFile => if p.s == Receiving then [T.CallFail] else []
  }

  /** The operation was turned down without effect. */
  predicate Refused(op: Operation, r: ReceiveResult)
  {
    match op
    case WriteChunk(_) => r !in {ReceiveOk, SinkError, IntegrityError}
    case FinishFile => r in {InvalidState, Incomplete}
    case _ => false
  }

  /** The machine would not turn it down. */
  predicate MachineTakes(op: Operation, m: T.Progress)
  {
    match op
    case WriteChunk(data) => T.AcceptChunk(m, |data|).1 == T.TransferOk
    case FinishFile => T.CanVerify(m)
    case _ => true
  }

  predicate RefusedAlone(op: Operation, e: nat, p: Point)
  {
    match op
    case WriteChunk(data) => RefusesAlone(p.s, e, p.n, |data|)
    case FinishFile => RefusesFinishAlone(p.s, e)
    case _ => false
  }

  predicate Possible(e: nat, p: Point) { p.n <= e && (p.s == Idle ==> p.n == 0) }

  /** Each operation is its calls; it is turned down together with them, but for the exact exceptions. */
  lemma OpMirrors(op: Operation, e: nat, p: Point, r: ReceiveResult, q: Point)
    requires OpResult(op, e, p, r, q) && Possible(e, p)
    ensures T.RunCalls(Mirrored(p.s, e, p.n), OpCalls(op, e, p, r)) == Mirrored(q.s, e, q.n) && Possible(e, q)
    ensures Refused(op, r) && MachineTakes(op, Mirrored(p.s, e, p.n)) <==> RefusedAlone(op, e, p)
    ensures MachineTakes(op, Mirrored(p.s, e, p.n)) || Refused(op, r)
  {
    hide T.RunCalls;
    RunNone(Mirrored(p.s, e, p.n));
    T.RunOne(Mirrored(p.s, e, p.n), T.CallFail);
    match op {
      case WriteChunk(data) => WriteMirrors(p.s, e, p.n, |data|, r, q.s, q.n);
      case FinishFile => FinishMirrors(p.s, e, p.n, r, q.s);
      case _ =>
    }
  }

  /** The results of a sequence of operations on a new receiver for `e` bytes, and the points between them. */
  predicate TraceOf(ops: seq<Operation>, results: seq<ReceiveResult>, points: seq<Point>, e: nat)
  {
    |results| == |ops| && |points| == |ops| + 1 && points[0] == Point(Idle, 0) &&
    forall i | 0 <= i < |ops| :: OpResult(ops[i], e, points[i], results[i], points[i + 1])
  }

  /** The calls the first `i` of them stand for. */
  function CallsOf(ops: seq<Operation>, results: seq<ReceiveResult>, points: seq<Point>, e: nat, i: nat): seq<T.Call>
    requires i <= |ops| == |results| < |points|
  {
    if i == 0 then [] else
      CallsOf(ops, results, points, e, i - 1) + OpCalls(ops[i - 1], e, points[i - 1], results[i - 1])
  }

  /** Every run of operations is a run of the progress machine, step by step and with the same bytes counted. */
  lemma {:induction false} TraceMirrors(ops: seq<Operation>, results: seq<ReceiveResult>, points: seq<Point>, e: nat,
                                        i: nat)
    requires TraceOf(ops, results, points, e) && i <= |ops|
    ensures T.RunCalls(T.Progress(e, 0, T.Waiting), CallsOf(ops, results, points, e, i)) ==
            Mirrored(points[i].s, e, points[i].n)
    ensures Possible(e, points[i])
  {
    hide T.RunCalls, OpResult, OpCalls;
    RunNone(T.Progress(e, 0, T.Waiting));
    if i > 0 {
      TraceMirrors(ops, results, points, e, i - 1);
      OpMirrors(ops[i - 1], e, points[i - 1], results[i - 1], points[i]);
      T.RunCallsOn(T.Progress(e, 0, T.Waiting), CallsOf(ops, results, points, e, i - 1),
                   OpCalls(ops[i - 1], e, points[i - 1], results[i - 1]));
    }
  }

  /** Every one of the calls, made in turn from `m`, is a move of the state diagram. */
  predicate AllLegal(m: T.Progress, calls: seq<T.Call>)
  {
    forall j | 0 <= j < |calls| :: T.Legal(T.RunCalls(m, calls[..j]), T.After(T.RunCalls(m, calls[..j]), calls[j]))
  }

  /** The finish of an empty file that was begun: its verification is the move that is not drawn. */
  predicate FinishesEmpty(op: Operation, e: nat, p: Point) { op.FinishFile? && p.s == Receiving && e == 0 }

  lemma AllLegalUpToTwo(m: T.Progress, calls: seq<T.Call>)
    requires |calls| <= 2
    ensures AllLegal(m, calls) <==>
            (|calls| >= 1 ==> T.Legal(m, T.After(m, calls[0]))) &&
            (|calls| == 2 ==> T.Legal(T.After(m, calls[0]), T.After(T.After(m, calls[0]), calls[1])))
  {
    hide T.RunCalls, T.Legal, T.After;
    RunNone(m);
    if |calls| >= 1 {
      T.RunOne(m, calls[0]);
      assert calls[..0] == [] && calls[..1] == [calls[0]];
    }
  }

  lemma OpLegalExactlyWhen(op: Operation, e: nat, p: Point, r: ReceiveResult, q: Point)
    requires OpResult(op, e, p, r, q) && Possible(e, p)
    ensures AllLegal(Mirrored(p.s, e, p.n), OpCalls(op, e, p, r)) <==> !FinishesEmpty(op, e, p)
  {
    hide T.RunCalls, AllLegal;
    AllLegalUpToTwo(Mirrored(p.s, e, p.n), OpCalls(op, e, p, r));
  }

  /** The `i`-th operation and its calls are turned down together, and are drawn, with exactly the stated exceptions. */
  predicate StepMatches(ops: seq<Operation>, results: seq<ReceiveResult>, points: seq<Point>, e: nat, i: nat)
    requires i < |ops| == |results| < |points|
  {
    var m := T.RunCalls(T.Progress(e, 0, T.Waiting), CallsOf(ops, results, points, e, i));
    (Refused(ops[i], results[i]) && MachineTakes(ops[i], m) <==> RefusedAlone(ops[i], e, points[i])) &&
    (MachineTakes(ops[i], m) || Refused(ops[i], results[i])) &&
    (AllLegal(m, OpCalls(ops[i], e, points[i], results[i])) <==> !FinishesEmpty(ops[i], e, points[i]))
  }

  /** So it is along every run. */
  lemma TraceMatches(ops: seq<Operation>, results: seq<ReceiveResult>, points: seq<Point>, e: nat, i: nat)
    requires TraceOf(ops, results, points, e) && i < |ops|
    ensures StepMatches(ops, results, points, e, i)
  {
    hide T.RunCalls, OpResult, OpCalls, CallsOf, Refused, MachineTakes, RefusedAlone, AllLegal, FinishesEmpty;
    TraceMirrors(ops, results, points, e, i);
    OpMirrors(ops[i], e, points[i], results[i], points[i + 1]);
    OpLegalExactlyWhen(ops[i], e, points[i], results[i], points[i + 1]);
  }

  /** The bytes of the chunks that were accepted, in order. */
  function AcceptedBytes(ops: seq<Operation>, results: seq<ReceiveResult>): ByteString
    requires |ops| == |results|
  {
    if ops == [] then [] else
      var n := |ops| - 1;
      AcceptedBytes(ops[..n], results[..n]) +
      if ops[n].WriteChunk? && results[n] == ReceiveOk then ops[n].data else []
  }

  lemma AcceptedOn(ops: seq<Operation>, results: seq<ReceiveResult>, op: Operation, r: ReceiveResult)
    requires |ops| == |results|
    ensures AcceptedBytes(ops + [op], results + [r]) ==
            AcceptedBytes(ops, results) + if op.WriteChunk? && r == ReceiveOk then op.data else []
  {
    assert (ops + [op])[..|ops|] == ops && (results + [r])[..|ops|] == results;
  }
}
