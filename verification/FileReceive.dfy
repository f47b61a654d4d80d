/**
 src/file_receive.c, with the digest comparison of src/integrity.c: one file on its
 way from accepted chunks to a committed file.
 */
module FileReceive {
  import opened Bytes
  import Bits
  import opened Fips180
  import opened Wire
  import opened Storage
  import opened ReceiveTrace
  import T = Transfer

  /** pd_digest_equal: no early exit, and true exactly for equal digests. */
  method DigestEqual(left: ByteString, right: ByteString) returns (equal: bool)
    requires |left| == DIGEST_SIZE && |right| == DIGEST_SIZE
    ensures equal <==> left == right
  {
    hide Bits.Or, Bits.Xor;
    var difference: nat := 0;
    for i := 0 to DIGEST_SIZE
      invariant difference == 0 <==> left[..i] == right[..i]
    {
      Bits.XorIsZero(left[i], right[i]);
      Bits.OrIsZero(difference, Bits.Xor(left[i], right[i]));
      difference := Bits.Or(difference, Bits.Xor(left[i], right[i]));
      assert left[..i + 1] == left[..i] + [left[i]] && right[..i + 1] == right[..i] + [right[i]];
    }
    assert left[..DIGEST_SIZE] == left && right[..DIGEST_SIZE] == right;
    return difference == 0;
  }

  class FileReceiver {
    const sink: FileSink
    const hash: HashContext
    var expectedSha256: ByteString
    var expectedBytes: nat
    var receivedBytes: nat
    var state: ReceiveState
    var sinkStarted: bool
    var integrityConfigured: bool
    var integrityStarted: bool

    /** Nothing is held any more, short of a cleanup call the system refused. */
    ghost predicate Released()
      reads this, sink, hash
    {
      !sink.handleOpen && !hash.active &&
      (!sink.CleanupFailed() ==> !sink.systemHandle && sink.staging.None?)
    }

    /** A storage or hashing call has failed, cleanup apart. */
    ghost predicate Faulted()
      reads this, sink, hash
    {
      sink.Faulted() || hash.Faulted()
    }

    ghost predicate Valid()
      reads this, sink, hash
    {
      sink.Valid() && |expectedSha256| == DIGEST_SIZE && receivedBytes <= expectedBytes &&
      (sinkStarted <==> state == Receiving) &&
      (integrityStarted <==> state == Receiving && integrityConfigured) && (hash.active <==> integrityStarted) &&
      (state == Receiving ==>
         sink.handleOpen && |sink.staging.value| == receivedBytes &&
         (integrityConfigured ==> hash.fed == sink.staging.value)) &&
      (state != Receiving ==> Released()) &&
      (sink.final.Some? <==> state == Complete) &&
      (state == Complete ==> Committed(sink.final.value)) &&
      sink.aborts <= (if state == Failed || state == Aborted then 1 else 0) &&
      (state == Idle ==> receivedBytes == 0) &&
      (state == Idle || state == Receiving ==> !sink.CleanupFailed())
    }

    /** What may stand at the final path. */
    ghost predicate Committed(content: ByteString)
      reads this
    {
      |content| == expectedBytes == receivedBytes && (integrityConfigured ==> Sha256(content) == expectedSha256)
    }

    ghost function Mirror(): T.Progress
      reads this
    {
      Mirrored(state, expectedBytes, receivedBytes)
    }

    constructor (sink: FileSink, hash: HashContext)
      requires sink.Untouched() && !hash.active
      ensures Valid() && this.sink == sink && this.hash == hash && state == Idle && receivedBytes == 0
    {
      this.sink, this.hash := sink, hash;
      expectedSha256, expectedBytes, receivedBytes, state := Fips180.Zeros(DIGEST_SIZE), 0, 0, Idle;
      sinkStarted, integrityConfigured, integrityStarted := false, false, false;
    }

    /** pd_file_receiver_init over a freshly initialized sink and hash. */
    method Init(expected: nat)
      requires sink.Untouched() && !hash.active
      modifies this
      ensures Valid() && state == Idle && expectedBytes == expected && !integrityConfigured
    {
      expectedSha256, expectedBytes, receivedBytes, state := Fips180.Zeros(DIGEST_SIZE), expected, 0, Idle;
      sinkStarted, integrityConfigured, integrityStarted := false, false, false;
    }

    /** pd_file_receiver_configure_integrity */
    method ConfigureIntegrity(sha256: ByteString) returns (r: ReceiveResult)
      requires Valid() && |sha256| == DIGEST_SIZE
      modifies this`expectedSha256, this`integrityConfigured
      ensures Valid()
      ensures old(state) != Idle ==> r == InvalidState && unchanged(this)
      ensures old(state) == Idle ==> r == ReceiveOk && integrityConfigured && expectedSha256 == sha256
    {
      if state != Idle || sinkStarted {
        return InvalidState;
      }
      expectedSha256, integrityConfigured := sha256, true;
      return ReceiveOk;
    }

    /** pd_file_receiver_abort_resources */
    method AbortResources()
      requires sink.Valid() && (sinkStarted ==> !sink.CleanupFailed() && (sink.handleOpen || !sink.systemHandle))
      requires !integrityStarted ==> !hash.active
      modifies this`sinkStarted, this`integrityStarted, sink, hash
      ensures sink.Valid() && !sinkStarted && !integrityStarted
      ensures old(sinkStarted) ==> Released() && sink.aborts == old(sink.aborts) + 1
      ensures !old(sinkStarted) ==> unchanged(sink) && !hash.active
      ensures sink.final == old(sink.final) && Faulted() == old(Faulted())
    {
      if integrityStarted {
        hash.Abort();
        integrityStarted := false;
      }
      if sinkStarted {
        sink.Abort();
        sinkStarted := false;
      }
    }

    /** pd_file_receiver_fail */
    method Fail(result: ReceiveResult) returns (r: ReceiveResult)
      requires sink.Valid() && sinkStarted && !sink.CleanupFailed() && (sink.handleOpen || !sink.systemHandle)
      requires (!integrityStarted ==> !hash.active) && sink.final.None? && sink.aborts == 0
      requires |expectedSha256| == DIGEST_SIZE && receivedBytes <= expectedBytes
      modifies this`state, this`sinkStarted, this`integrityStarted, sink, hash
      ensures Valid() && state == Failed && r == result && Faulted() == old(Faulted())
    {
      AbortResources();
      state := Failed;
      return result;
    }

    /** pd_file_receiver_begin */
    method Begin() returns (r: ReceiveResult)
      requires Valid()
      modifies this`state, this`sinkStarted, this`integrityStarted, sink, hash
      ensures Valid()
      ensures old(state) != Idle ==> r == InvalidState && unchanged(this) && unchanged(sink) && unchanged(hash)
      ensures old(state) == Idle ==> r == ReceiveOk || r == SinkError || r == IntegrityError
      ensures old(state) == Idle ==> state == if r == ReceiveOk then Receiving else Failed
      ensures r == ReceiveOk ==> sink.staging == Some([]) && Mirror() == old(Mirror())
      ensures old(Faulted()) ==> Faulted()
      ensures old(state) == Idle && r != ReceiveOk ==> Faulted() || !old(sink.initialized)
      ensures old(state) == Idle && r != ReceiveOk ==> Mirror() == T.MarkFailed(old(Mirror()))
    {
      if state != Idle {
        return InvalidState;
      }
      var begun := sink.Begin();
      if !begun {
        state := Failed;
        return SinkError;
      }
      sinkStarted := true;
      if integrityConfigured {
        var hashing := hash.Begin();
        if !hashing {
          r := Fail(IntegrityError);
          return;
        }
        integrityStarted := true;
      }
      state := Receiving;
      return ReceiveOk;
    }

    /** pd_file_receiver_write on `data[offset..offset + size]`. */
    method Write(data: array<Byte>, offset: nat, size: nat) returns (r: ReceiveResult)
      requires Valid() && offset + size <= data.Length
      modifies this`state, this`receivedBytes, this`sinkStarted, this`integrityStarted, sink, hash
      ensures Valid()
      ensures WriteResult(old(state), expectedBytes, old(receivedBytes), size, r, state, receivedBytes)
      ensures r == ReceiveOk ==> sink.staging == Some(old(sink.staging).value + data[offset..offset + size])
      ensures r == SinkError || r == IntegrityError ==> Faulted()
      ensures r !in {ReceiveOk, SinkError, IntegrityError} ==> unchanged(this) && unchanged(sink) && unchanged(hash)
      ensures old(Faulted()) ==> Faulted()
    {
      hide Sha256;
      if state != Receiving {
        return InvalidState;
      }
      if size == 0 {
        return InvalidArgument;
      }
      if size > FRAME_MAX_PAYLOAD {
        return ChunkTooLarge;
      }
      if receivedBytes > expectedBytes || size > expectedBytes - receivedBytes {
        return ExceedsExpectedSize;
      }
      r := Store(data, offset, size);
    }

    /** Lines 131-144: a chunk that fits goes to the sink and to the hash, or the file has failed. */
    method Store(data: array<Byte>, offset: nat, size: nat) returns (r: ReceiveResult)
      requires Valid() && offset + size <= data.Length
      requires state == Receiving && receivedBytes + size <= expectedBytes
      modifies this`state, this`receivedBytes, this`sinkStarted, this`integrityStarted, sink, hash
      ensures Valid() && (r == ReceiveOk || r == SinkError || r == IntegrityError)
      ensures state == if r == ReceiveOk then Receiving else Failed
      ensures receivedBytes == old(receivedBytes) + if r == ReceiveOk then size else 0
      ensures r == ReceiveOk ==> sink.staging == Some(old(sink.staging).value + data[offset..offset + size])
      ensures r != ReceiveOk || old(Faulted()) ==> Faulted()
    {
      hide Sha256;
      var ok, written := sink.Write(data, offset, size);
      if !ok || written != size {
        r := Fail(SinkError);
        return;
      }
      if integrityConfigured {
        var hashed := hash.Update(data, offset, size);
        if !hashed {
          r := Fail(IntegrityError);
          return;
        }
      }
      receivedBytes := receivedBytes + size;
      return ReceiveOk;
    }

    /** pd_file_receiver_finish: the only way a file reaches the final path. */
    method Finish() returns (r: ReceiveResult)
      requires Valid()
      modifies this`state, this`sinkStarted, this`integrityStarted, sink, hash
      ensures Valid()
      ensures FinishResult(old(state), expectedBytes, receivedBytes, r, state)
      ensures r == InvalidState || r == Incomplete ==> unchanged(this) && unchanged(sink) && unchanged(hash)
      ensures r == ReceiveOk ==> sink.final == old(sink.staging)
      ensures r == IntegrityMismatch ==> integrityConfigured && Sha256(old(sink.staging).value) != expectedSha256
      ensures r == SinkError || r == IntegrityError ==> Faulted()
      ensures old(Faulted()) ==> Faulted()
    {
      hide Sha256;
      if state != Receiving {
        return InvalidState;
      }
      if receivedBytes != expectedBytes {
        return Incomplete;
      }
      if integrityConfigured {
        r := CheckDigest();
        if r != ReceiveOk {
          return;
        }
      }
      r := CommitStaged();
    }

    /** Everything is in and, where a digest was asked for, it is the right one; only the commit is missing. */
    ghost predicate Verified()
      reads this, sink, hash
    {
      sink.Valid() && |expectedSha256| == DIGEST_SIZE && state == Receiving && receivedBytes == expectedBytes &&
      sinkStarted && !integrityStarted && !hash.active && sink.handleOpen && sink.final.None? &&
      sink.aborts == 0 && !sink.CleanupFailed() && Committed(sink.staging.value)
    }

    /** Lines 163-179: the digest of what was stored, against the announced one. */
    method CheckDigest() returns (r: ReceiveResult)
      requires Valid() && state == Receiving && receivedBytes == expectedBytes && integrityConfigured
      modifies this`state, this`sinkStarted, this`integrityStarted, sink, hash
      ensures r == ReceiveOk || r == IntegrityError || r == IntegrityMismatch
      ensures r == ReceiveOk ==> Verified() && unchanged(sink)
      ensures r != ReceiveOk ==> Valid() && state == Failed
      ensures r == IntegrityMismatch <==> Sha256(old(sink.staging).value) != expectedSha256 && r != IntegrityError
      ensures r == IntegrityError || old(Faulted()) ==> Faulted()
    {
      hide Sha256;
      var ok, actual := hash.Finish();
      if !ok {
        r := Fail(IntegrityError);
        return;
      }
      integrityStarted := false;
      var equal := DigestEqual(actual, expectedSha256);
      if !equal {
        r := FailMismatch();
        return;
      }
      return ReceiveOk;
    }

    /** Lines 172-177. */
    method FailMismatch() returns (r: ReceiveResult)
      requires sink.Valid() && sinkStarted && !sink.CleanupFailed() && sink.handleOpen && !integrityStarted &&
               !hash.active
      requires sink.final.None? && sink.aborts == 0 && |expectedSha256| == DIGEST_SIZE && receivedBytes <= expectedBytes
      modifies this`state, this`sinkStarted, sink
      ensures Valid() && state == Failed && r == IntegrityMismatch && Faulted() == old(Faulted())
    {
      if sinkStarted {
        sink.Abort();
        sinkStarted := false;
      }
      state := Failed;
      return IntegrityMismatch;
    }

    /** Lines 181-187. */
    method CommitStaged() returns (r: ReceiveResult)
      requires Verified() || (Valid() && state == Receiving && receivedBytes == expectedBytes && !integrityConfigured)
      modifies this`state, this`sinkStarted, this`integrityStarted, sink, hash
      ensures Valid() && (r == ReceiveOk || r == SinkError)
      ensures r == ReceiveOk ==> state == Complete && sink.final == old(sink.staging)
      ensures r == SinkError ==> state == Failed && Faulted()
      ensures old(Faulted()) ==> Faulted()
    {
      hide Sha256;
      var committed := sink.Commit();
      if !committed {
        r := Fail(SinkError);
        return;
      }
      sinkStarted := false;
      state := Complete;
      return ReceiveOk;
    }

    /** pd_file_receiver_abort */
    method Abort()
      requires Valid()
      modifies this`state, this`sinkStarted, this`integrityStarted, sink, hash
      ensures Valid()
      ensures old(state) != Receiving ==> unchanged(this) && unchanged(sink) && unchanged(hash)
      ensures old(state) == Receiving ==> state == Aborted && Mirror() == T.MarkFailed(old(Mirror()))
      ensures Faulted() == old(Faulted())
    {
      if state != Receiving {
        return;
      }
      AbortResources();
      state := Aborted;
    }

    /** The stored bytes are `content`: staged while receiving, in place once complete. */
    ghost predicate Holds(content: ByteString)
      reads this, sink
    {
      (state == Idle ==> content == []) && (state == Receiving ==> sink.staging == Some(content)) &&
      (state == Complete ==> sink.final == Some(content))
    }

    /** One operation. */
    method Do(op: Operation, ghost content: ByteString) returns (r: ReceiveResult)
      requires Valid() && Holds(content)
      modifies this`state, this`receivedBytes, this`sinkStarted, this`integrityStarted, sink, hash
      ensures Valid()
      ensures OpResult(op, expectedBytes, Point(old(state), old(receivedBytes)), r, Point(state, receivedBytes))
      ensures Holds(content + if op.WriteChunk? && r == ReceiveOk then op.data else [])
    {
      hide Sha256, AllGood;
      match op {
        case BeginFile =>
          r := Begin();
        case WriteChunk(data) =>
          var bytes := new Byte[|data|](i requires 0 <= i < |data| => data[i]);
          r := Write(bytes, 0, bytes.Length);
          assert bytes[0..bytes.Length] == data;
        case FinishFile =>
          r := Finish();
        case AbortFile =>
          Abort();
          r := ReceiveOk;
      }
      assert content + [] == content;
    }

    /**
     A whole run of operations: results and states are those of a trace, which is a run of the progress machine;
     what is stored is what was accepted.
     */
    method Operate(ops: seq<Operation>)
      returns (results: seq<ReceiveResult>, ghost points: seq<Point>, ghost calls: seq<T.Call>)
      requires Valid() && state == Idle
      modifies this`state, this`receivedBytes, this`sinkStarted, this`integrityStarted, sink, hash
      ensures Valid() && TraceOf(ops, results, points, expectedBytes)
      ensures points[|ops|] == Point(state, receivedBytes) && Holds(AcceptedBytes(ops, results))
      ensures calls == CallsOf(ops, results, points, expectedBytes, |ops|)
      ensures Mirror() == T.RunCalls(T.Progress(expectedBytes, 0, T.Waiting), calls) && T.Sound(Mirror())
      ensures forall i | 0 <= i < |ops| :: StepMatches(ops, results, points, expectedBytes, i)
    {
      hide Sha256, OpResult, OpCalls, Holds, T.RunCalls, T.Sound, CallsOf, AcceptedBytes, StepMatches;
      results, points := [], [Point(state, receivedBytes)];
      assert AcceptedBytes([], []) == [] && Holds([]) by { HoldsNothing(); }
      for i := 0 to |ops|
        invariant Valid() && TraceOf(ops[..i], results, points, expectedBytes)
        invariant points[i] == Point(state, receivedBytes) && Holds(AcceptedBytes(ops[..i], results))
      {
        var r := Do(ops[i], AcceptedBytes(ops[..i], results));
        AcceptedOn(ops[..i], results, ops[i], r);
        assert ops[..i + 1] == ops[..i] + [ops[i]];
        results, points := results + [r], points + [Point(state, receivedBytes)];
      }
      assert ops[..|ops|] == ops;
      calls := CallsOf(ops, results, points, expectedBytes, |ops|);
      TraceMirrors(ops, results, points, expectedBytes, |ops|);
      T.CompleteMeansAllBytes(expectedBytes, calls);
      forall i | 0 <= i < |ops|
        ensures StepMatches(ops, results, points, expectedBytes, i)
      {
        TraceMatches(ops, results, points, expectedBytes, i);
      }
    }

    lemma HoldsNothing()
      requires Valid() && state == Idle
      ensures Holds([]) && AcceptedBytes([], []) == []
    {
    }
  }
}
