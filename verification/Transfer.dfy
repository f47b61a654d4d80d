/**
 src/session.c: the abstract progress of one transfer. The functions are the
 transitions; the class is the structure the C functions update.
 */
module Transfer {
  datatype TransferState = Waiting | Receiving | Verifying | Complete | Failed

  datatype Progress = Progress(expected: nat, received: nat, state: TransferState)

  datatype TransferResult = TransferOk | TransferInvalidArgument | TransferInvalidState | TransferExceedsExpectedSize

  predicate Open(p: Progress) { p.state == Waiting || p.state == Receiving }

  function AcceptChunk(p: Progress, chunk: nat): (Progress, TransferResult)
  {
    if chunk == 0 then (p, TransferInvalidArgument)
    else if !Open(p) then (p, TransferInvalidState)
    else if p.received + chunk > p.expected then (p, TransferExceedsExpectedSize)
    else (p.(state := Receiving, received := p.received + chunk), TransferOk)
  }

  predicate CanVerify(p: Progress) { p.received == p.expected && Open(p) }

  function BeginVerification(p: Progress): Progress { if CanVerify(p) then p.(state := Verifying) else p }

  function MarkComplete(p: Progress): Progress { if p.state == Verifying then p.(state := Complete) else p }

  function MarkFailed(p: Progress): Progress { if p.state == Complete then p else p.(state := Failed) }

  /** The arrows of the state diagram in docs/architecture.md, as drawn. */
  predicate Drawn(from: TransferState, to: TransferState)
  {
    match from
    case Waiting => to == Receiving || to == Failed
    case Receiving => to == Verifying || to == Failed
    case Verifying => to == Complete || to == Failed
    case Complete => false
    case Failed => false
  }

  /**
   A move the diagram allows: an arrow, or more bytes in the same state, or nothing; never more bytes than expected.
   */
  predicate Legal(p: Progress, q: Progress)
  {
    p == q ||
    (p.expected == q.expected && p.received <= q.received && (p.received <= p.expected ==> q.received <= q.expected) &&
     (Drawn(p.state, q.state) || (p.state == Receiving && q.state == Receiving)))
  }

  datatype Call = CallAccept(chunk: nat) | CallVerify | CallComplete | CallFail

  function After(p: Progress, c: Call): Progress
  {
    match c
    case CallAccept(n) => AcceptChunk(p, n).0
    case CallVerify => BeginVerification(p)
    case CallComplete => MarkComplete(p)
    case CallFail => MarkFailed(p)
  }

  function RunCalls(p: Progress, cs: seq<Call>): Progress
  {
    if cs == [] then p else After(RunCalls(p, cs[..|cs| - 1]), cs[|cs| - 1])
  }

  lemma {:induction false} RunCallsOn(p: Progress, cs: seq<Call>, ds: seq<Call>)
    ensures RunCalls(p, cs + ds) == RunCalls(RunCalls(p, cs), ds)
  {
    if ds == [] {
      assert cs + ds == cs;
    } else {
      RunCallsOn(p, cs, ds[..|ds| - 1]);
      assert (cs + ds)[..|cs + ds| - 1] == cs + ds[..|ds| - 1];
    }
  }

  lemma RunOne(p: Progress, c: Call)
    ensures RunCalls(p, [c]) == After(p, c)
  {
    assert [c][..0] == [];
  }

  lemma RunTwo(p: Progress, c: Call, d: Call)
    ensures RunCalls(p, [c, d]) == After(After(p, c), d)
  {
    RunOne(p, c);
    assert [c, d][..1] == [c];
  }

  /** What the state says about the bytes. */
  predicate Sound(p: Progress)
  {
    p.received <= p.expected && (p.state == Waiting ==> p.received == 0) &&
    (p.state == Verifying || p.state == Complete ==> p.received == p.expected)
  }

  /** COMPLETE means every expected byte was accepted, over every run of calls. */
  lemma {:induction false} CompleteMeansAllBytes(expected: nat, cs: seq<Call>)
    ensures var p := RunCalls(Progress(expected, 0, Waiting), cs);
            p.expected == expected && Sound(p)
  {
    if cs != [] {
      CompleteMeansAllBytes(expected, cs[..|cs| - 1]);
    }
  }

  /** Verification of a file of which nothing is to come and nothing came. */
  predicate SkipsReceiving(p: Progress, c: Call)
  {
    c.CallVerify? && p.state == Waiting && p.expected == 0
  }

  /** What becomes of a chunk: the first thing wrong with it, or its bytes counted. */
  lemma ChunkByCase(p: Progress, n: nat)
    ensures var (q, r) := AcceptChunk(p, n);
            if n == 0 then r == TransferInvalidArgument && q == p
            else if p.state !in {Waiting, Receiving} then r == TransferInvalidState && q == p
            else if p.received + n > p.expected then r == TransferExceedsExpectedSize && q == p
            else r == TransferOk && q == Progress(p.expected, p.received + n, Receiving)
  {
  }

  /** Over every run of calls, the next call makes a move of the diagram unless it verifies an empty file that waits. */
  lemma LegalExactlyWhen(expected: nat, cs: seq<Call>, c: Call)
    ensures var p := RunCalls(Progress(expected, 0, Waiting), cs);
            Legal(p, After(p, c)) <==> !SkipsReceiving(p, c)
  {
    hide RunCalls;
    CompleteMeansAllBytes(expected, cs);
  }

  /** Such a call at once: WAITING goes to VERIFYING, which is not drawn. */
  lemma EmptyFileSkipsReceiving()
    ensures var p := RunCalls(Progress(0, 0, Waiting), []);
            After(p, CallVerify) == Progress(0, 0, Verifying) && !Legal(p, After(p, CallVerify))
  {
  }

  /** Nothing leaves COMPLETE or FAILED, in whatever state a transfer is. */
  lemma FinalStatesStay(p: Progress, c: Call)
    requires p.state == Complete || p.state == Failed
    ensures After(p, c) == p
  {
  }

  class TransferProgress {
    var expected: nat
    var received: nat
    var state: TransferState

    function View(): Progress
      reads this
    {
      Progress(expected, received, state)
    }

    constructor (expectedBytes: nat)
      ensures View() == Progress(expectedBytes, 0, Waiting)
    {
      expected, received, state := expectedBytes, 0, Waiting;
    }

    /** pd_transfer_accept_chunk; the size test is written so that 64-bit arithmetic cannot wrap. */
    method Accept(chunk: nat) returns (r: TransferResult)
      modifies this
      ensures (View(), r) == AcceptChunk(old(View()), chunk)
      ensures Legal(old(View()), View()) && (old(Sound(View())) ==> Sound(View()))
    {
      if chunk == 0 {
        return TransferInvalidArgument;
      }
      if state != Waiting && state != Receiving {
        return TransferInvalidState;
      }
      if received > expected || chunk > expected - received {
        return TransferExceedsExpectedSize;
      }
      state := Receiving;
      received := received + chunk;
      return TransferOk;
    }

    /** The one call that can leave the diagram. */
    method Verify() returns (ok: bool)
      modifies this
      ensures old(Sound(View())) ==>
              Sound(View()) &&
              (Legal(old(View()), View()) <==> !SkipsReceiving(old(View()), CallVerify))
      ensures ok == CanVerify(old(View())) && View() == BeginVerification(old(View()))
    {
      if received != expected || (state != Waiting && state != Receiving) {
        return false;
      }
      state := Verifying;
      return true;
    }

    /** Completes a verified transfer, of which every byte is in; nothing else happens to any other. */
    method Finish() returns (ok: bool)
      modifies this
      ensures View() == MarkComplete(old(View())) && (ok <==> old(state) == Verifying)
      ensures Legal(old(View()), View()) && (old(Sound(View())) ==> Sound(View()))
      ensures ok && old(Sound(View())) ==> state == Complete && received == expected
      ensures !ok ==> unchanged(this)
    {
      if state != Verifying {
        return false;
      }
      state := Complete;
      return true;
    }

    /** Afterwards the transfer has failed, or it had every byte and was complete before. */
    method Fail()
      modifies this
      ensures View() == MarkFailed(old(View()))
      ensures Legal(old(View()), View()) && (old(Sound(View())) ==> Sound(View()))
      ensures state == Failed || (unchanged(this) && state == Complete && (Sound(View()) ==> received == expected))
      ensures received == old(received) && expected == old(expected)
    {
      if state == Complete {
        return;
      }
      state := Failed;
    }
  }
}
