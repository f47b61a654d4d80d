/**
 Runs of the composed system in which nothing fails. Every step moves one message past
 one point, so the steps taken count exactly what has been passed.
 */
module Completion {
  import opened Bytes
  import opened Wire
  import opened Fips180
  import opened JsNumber
  import opened ReceiverSpec
  import opened Sender
  import opened Forwarding
  import opened Composition
  import PlanRun
  import Codecs
  import CCodec
  import Filename
  import Js = JsCodec

  /** The step is no fault: nobody stops or gives up, and storage and the ACK's sending succeed. */
  ghost predicate Faultless(w: World, s: Step)
  {
    match s
    case SenderFails => false
    case ReceiverFails => false
    case RelayUp(step) => !step.StopReader? && !step.StopWriter?
    case RelayDown(step) => !step.StopReader? && !step.StopWriter?
    case ReceiverTakes(o) =>
      o.delivered && w.up.inbox != [] && CCodec.RelayMessageDecode(w.up.inbox[0]).Some? &&
      var f := CCodec.RelayMessageDecode(w.up.inbox[0]).value;
      IdealStep(w.recv, f) != Failed ==> Accepts(w.recv, f, o)
    case _ => true
  }

  ghost predicate FaultlessRuns(job: Job, w: World, steps: seq<Step>, end: World)
    requires Startable(job)
    decreases |steps|
  {
    if steps == [] then end == w
    else
      Enabled(job, w, steps[0]) && Faultless(w, steps[0]) &&
      FaultlessRuns(job, Next(job, w, steps[0]), steps[1..], end)
  }

  /** Everybody is alive and the receiver has accepted all it took. */
  ghost predicate Smooth(job: Job, w: World)
    requires Startable(job) && Paced(job, w)
  {
    !w.sender.Rejected? && w.up.reader && w.up.writer && w.down.reader && w.down.writer &&
    w.acks == OkAcks(Frames(job, |w.up.consumed|)) && w.recv == IdealRun(Frames(job, |w.up.consumed|)) &&
    (w.running <==> |w.up.consumed| < FrameCount(job))
  }

  /** Points passed in one lane: sent, read, put in the channel, taken out, written, taken. */
  function Passed(l: Lane): nat
  {
    |l.sent| + |l.accepted| + (|l.delivered| + |Held(l.writing)| + |l.channel|) +
    (|l.delivered| + |Held(l.writing)|) + |l.delivered| + |l.consumed|
  }

  function Work(w: World): nat { Passed(w.up) + Passed(w.down) - |w.down.sent| }

  lemma MovePasses(l: Lane, step: LaneStep)
    requires CanMove(l, step) && !step.StopReader? && !step.StopWriter?
    ensures Passed(Move(l, step)) == Passed(l) + 1
    ensures Move(l, step).reader == l.reader && Move(l, step).writer == l.writer
  {
  }

  lemma PassedBounds(l: Lane)
    requires Conserved(l)
    ensures 6 * |l.consumed| <= Passed(l) <= 5 * |l.sent| + |l.consumed|
    ensures |l.consumed| <= |l.sent|
  {
  }

  /** A lane with something in flight can move it. */
  lemma LaneMoves(l: Lane)
    requires Conserved(l) && l.reader && l.writer && l.inbox == [] && InFlight(l) > 0
    requires l.outbox != [] ==> |l.outbox[0]| <= MESSAGE_MAX
    ensures exists step :: CanMove(l, step) && !step.StopReader? && !step.StopWriter?
  {
    if l.writing.Some? {
      assert CanMove(l, Write);
    } else if l.channel != [] {
      assert CanMove(l, Dequeue);
    } else if l.inHand.Some? {
      assert CanMove(l, Enqueue);
    } else {
      assert CanMove(l, Read);
    }
  }

  lemma ReceiverStays(job: Job, w: World, o: Outcome)
    requires Acceptable(job) && Inv(job, w) && Smooth(job, w)
    requires Enabled(job, w, ReceiverTakes(o)) && Faultless(w, ReceiverTakes(o))
    ensures var k := |w.up.consumed|;
            k < FrameCount(job) && o.delivered && o.next == IdealRun(Frames(job, k + 1)) &&
            OkAcks(Frames(job, k + 1)) == w.acks + [o.ack.value] &&
            (o.exit == Continue <==> k + 1 < FrameCount(job))
  {
    hide Sha256, Filename.Sanitized, IdealRun, IdealStep, OkAcks, PlanFrame, Message, AckMessage,
         CCodec.RelayMessageDecode, FrameCount;
    var k := |w.up.consumed|;
    TakesPlan(job, w);
    PlanRun.OneMore(job, k);
    PlanRun.AcceptableRuns(job, k + 1);
  }

  lemma SenderStays(job: Job, w: World)
    requires Acceptable(job) && Inv(job, w) && Smooth(job, w) && Enabled(job, w, SenderGets)
    ensures Matches(job, w.sender.k, Some(w.down.inbox[0]))
  {
    hide Sha256, Filename.Sanitized, IdealRun, OkAcks, PlanFrame, Message, AckMessage, Js.DecodeAck, FrameCount,
         Startable;
    var k := w.sender.k;
    TakeConserves(w.down);
    PlanRun.AcceptableRuns(job, k + 1);
    OkAcksLength(Frames(job, k));
    Codecs.JsDecodesExactlyAcks(w.down.inbox[0], ExpectedAck(job, k));
  }

  lemma RelayStays(job: Job, w: World, s: Step)
    requires Startable(job) && Inv(job, w) && Smooth(job, w) && Enabled(job, w, s) && Faultless(w, s)
    requires (s.RelayUp? || s.RelayDown?) && Paced(job, Next(job, w, s))
    ensures Smooth(job, Next(job, w, s)) && Work(Next(job, w, s)) == Work(w) + 1
  {
    hide Sha256, IdealRun, OkAcks, PlanFrame, Message, AckMessage, FrameCount, Startable, Move, CanMove, Passed;
    if s.RelayUp? {
      MovePasses(w.up, s.step);
      MoveConserves(w.up, s.step);
    } else {
      MovePasses(w.down, s.step);
      MoveConserves(w.down, s.step);
    }
  }

  /** A step without a fault keeps the run smooth and is one unit of work. */
  lemma SmoothStep(job: Job, w: World, s: Step)
    requires Acceptable(job) && Inv(job, w) && Smooth(job, w) && Enabled(job, w, s) && Faultless(w, s)
    requires Paced(job, Next(job, w, s))
    ensures Smooth(job, Next(job, w, s)) && Work(Next(job, w, s)) == Work(w) + 1
  {
    hide Sha256, Filename.Sanitized, IdealRun, IdealStep, OkAcks, PlanFrame, Message, AckMessage, FrameCount,
         CCodec.RelayMessageDecode, LoopStep;
    match s {
      case SenderSends =>
      case SenderGets =>
        SenderStays(job, w);
      case SenderMisses =>
        SenderMissesKeeps(job, w);
      case RelayUp(_) =>
        RelayStays(job, w, s);
      case RelayDown(_) =>
        RelayStays(job, w, s);
      case ReceiverTakes(o) =>
        ReceiverStays(job, w, o);
    }
  }

  lemma {:induction false} FaultlessRunKeeps(job: Job, w: World, steps: seq<Step>, end: World)
    requires Acceptable(job) && Inv(job, w) && Smooth(job, w) && FaultlessRuns(job, w, steps, end)
    ensures Inv(job, end) && Smooth(job, end) && Work(end) == Work(w) + |steps|
    decreases |steps|
  {
    hide Enabled, Next, Faultless, Filename.Sanitized, Smooth, Work, IdealRun, OkAcks, PlanFrame, Message, AckMessage,
         Sha256;
    if steps != [] {
      NextKeeps(job, w, steps[0]);
      SmoothStep(job, w, steps[0]);
      FaultlessRunKeeps(job, Next(job, w, steps[0]), steps[1..], end);
    }
  }

  lemma StartSmooth(job: Job)
    requires Startable(job)
    ensures Inv(job, START) && Smooth(job, START) && Work(START) == 0
  {
    hide Sha256, PlanFrame, Message, AckMessage;
    StartInv(job);
    assert Frames(job, 0) == [];
  }

  /** Eleven steps a frame: its sending, four moves of the relay each way, and a taking at either end. */
  lemma WorkAtEnd(job: Job, w: World)
    requires Startable(job) && Inv(job, w)
    ensures Work(w) <= 11 * FrameCount(job)
    ensures w.sender.Resolved? ==> Work(w) == 11 * FrameCount(job)
    ensures !w.sender.Resolved? && !w.sender.Rejected? ==> Work(w) < 11 * FrameCount(job)
  {
    hide Sha256, IdealRun, OkAcks, PlanFrame, Message, AckMessage, FrameCount, Startable, Passed;
    PassedBounds(w.up);
    PassedBounds(w.down);
  }

  // Until it has resolved, a smooth run can go on.

  ghost predicate CanGoOn(job: Job, w: World)
    requires Startable(job)
  {
    exists s :: Enabled(job, w, s) && Faultless(w, s)
  }

  lemma FrameMoves(job: Job, w: World)
    requires Acceptable(job) && Inv(job, w) && Smooth(job, w) && w.sender.Waiting? && |w.up.consumed| == w.sender.k
    ensures CanGoOn(job, w)
  {
    hide Sha256, Filename.Sanitized, IdealRun, OkAcks, PlanFrame, Message, AckMessage, FrameCount, ReceiverSound,
         CanMove, Conserved;
    if w.up.inbox != [] {
      ReceiverCanTake(job, w);
    } else {
      InFlightIsSentNotConsumed(w.up);
      OutboxFits(job, w);
      LaneMoves(w.up);
      var step :| CanMove(w.up, step) && !step.StopReader? && !step.StopWriter?;
      assert Enabled(job, w, RelayUp(step)) && Faultless(w, RelayUp(step));
    }
  }

  lemma OutboxFits(job: Job, w: World)
    requires Startable(job) && Inv(job, w)
    ensures w.up.outbox != [] ==> |w.up.outbox[0]| <= MESSAGE_MAX
    ensures w.down.outbox != [] ==> |w.down.outbox[0]| <= MESSAGE_MAX
  {
    hide Sha256, IdealRun, OkAcks, PlanFrame, FrameCount, Startable, ReceiverSound, Header, AckPayload;
    if w.up.outbox != [] {
      assert w.up.outbox[0] == w.up.sent[|w.up.accepted|];
    }
    if w.down.outbox != [] {
      assert w.down.outbox[0] == w.down.sent[|w.down.accepted|];
    }
  }

  lemma ReceiverCanTake(job: Job, w: World)
    requires Acceptable(job) && Inv(job, w) && Smooth(job, w) && w.up.inbox != []
    ensures CanGoOn(job, w)
  {
    hide Sha256, Filename.Sanitized, IdealRun, IdealStep, OkAcks, PlanFrame, Message, AckMessage, FrameCount,
         Conserved, CCodec.RelayMessageDecode;
    var k := |w.up.consumed|;
    TakesPlan(job, w);
    PlanRun.OneMore(job, k);
    PlanRun.AcceptableRuns(job, k + 1);
    var t := IdealStep(w.recv, PlanFrame(job, k));
    StepShape(w.recv, PlanFrame(job, k));
    var ack := Acknowledgement(PlanFrame(job, k).kind, ACK_OK, Got(t));
    assert ack == ExpectedAck(job, k) by {
      assert (w.acks + [ack])[|w.acks|] == (w.acks + [ExpectedAck(job, k)])[|w.acks|];
    }
    var o := Outcome(t, Some(ack), true, if t.Complete? then ExitOk else Continue);
    assert Accepts(w.recv, PlanFrame(job, k), o);
    assert Enabled(job, w, ReceiverTakes(o)) && Faultless(w, ReceiverTakes(o));
  }

  lemma AckMoves(job: Job, w: World)
    requires Acceptable(job) && Inv(job, w) && Smooth(job, w) && w.sender.Waiting? && |w.up.consumed| == w.sender.k + 1
    ensures CanGoOn(job, w)
  {
    hide Sha256, Filename.Sanitized, IdealRun, OkAcks, PlanFrame, Message, AckMessage, FrameCount, ReceiverSound,
         CanMove, Conserved;
    if w.down.inbox != [] {
      assert Enabled(job, w, SenderGets) && Faultless(w, SenderGets);
    } else {
      OkAcksLength(Frames(job, w.sender.k + 1));
      InFlightIsSentNotConsumed(w.down);
      OutboxFits(job, w);
      LaneMoves(w.down);
      var step :| CanMove(w.down, step) && !step.StopReader? && !step.StopWriter?;
      assert Enabled(job, w, RelayDown(step)) && Faultless(w, RelayDown(step));
    }
  }

  lemma GoesOn(job: Job, w: World)
    requires Acceptable(job) && Inv(job, w) && Smooth(job, w) && !w.sender.Resolved?
    ensures CanGoOn(job, w)
  {
    hide Sha256, Filename.Sanitized, IdealRun, OkAcks, PlanFrame, Message, AckMessage, FrameCount, ReceiverSound,
         Conserved;
    if w.sender.Ready? {
      assert Enabled(job, w, SenderSends) && Faultless(w, SenderSends);
    } else if |w.up.consumed| == w.sender.k {
      FrameMoves(job, w);
    } else {
      OkAcksLength(Frames(job, |w.up.consumed|));
      AckMoves(job, w);
    }
  }

  /**
   Without faults an acceptable transfer cannot get stuck and takes exactly eleven steps for each
   of its 2 + ceil(size / 49152) frames; it has resolved exactly when those are done.
   */
  lemma FaultFreeCompletion(job: Job, steps: seq<Step>, w: World)
    requires Acceptable(job) && FaultlessRuns(job, START, steps, w)
    ensures |steps| <= 11 * FrameCount(job)
    ensures w.sender.Resolved? <==> |steps| == 11 * FrameCount(job)
    ensures w.sender.Resolved? ==> |w.up.sent| == FrameCount(job) && Delivered(job, w)
    ensures !w.sender.Resolved? ==> CanGoOn(job, w)
    ensures forall i | 0 <= i < |w.acks| :: i < FrameCount(job) && w.acks[i] == ExpectedAck(job, i)
  {
    hide Sha256, Filename.Sanitized, IdealRun, OkAcks, PlanFrame, Message, AckMessage, FrameCount, FaultlessRuns,
         Work, ExpectedAck, Conserved;
    StartSmooth(job);
    FaultlessRunKeeps(job, START, steps, w);
    WorkAtEnd(job, w);
    if !w.sender.Resolved? {
      GoesOn(job, w);
    }
    AcksExpected(job, |w.up.consumed|);
  }

  lemma {:induction false} AcksExpected(job: Job, n: nat)
    requires Acceptable(job) && n <= FrameCount(job)
    ensures |OkAcks(Frames(job, n))| == n
    ensures forall i | 0 <= i < n :: OkAcks(Frames(job, n))[i] == ExpectedAck(job, i)
  {
    hide Sha256, Filename.Sanitized, IdealRun, OkAcks, PlanFrame, FrameCount, ExpectedAck;
    OkAcksLength(Frames(job, n));
    if n > 0 {
      AcksExpected(job, n - 1);
      PlanRun.AcceptableRuns(job, n);
    }
  }

  // Which jobs can be transferred at all.

  ghost predicate CanResolve(job: Job, w: World)
    requires Startable(job)
  {
    exists steps, end :: Runs(job, w, steps, end) && end.sender.Resolved?
  }

  lemma {:induction false} SmoothCanResolve(job: Job, w: World)
    requires Acceptable(job) && Inv(job, w) && Smooth(job, w)
    ensures CanResolve(job, w)
    decreases 11 * FrameCount(job) - Work(w)
  {
    hide Sha256, Filename.Sanitized, Enabled, Faultless, Next, Smooth, Work, FrameCount, IdealRun, OkAcks, PlanFrame,
         Message, AckMessage, ReceiverSound, Conserved, Carried;
    WorkAtEnd(job, w);
    if w.sender.Resolved? {
      assert Runs(job, w, [], w);
    } else {
      GoesOn(job, w);
      var s :| Enabled(job, w, s) && Faultless(w, s);
      NextKeeps(job, w, s);
      var v := Next(job, w, s);
      SmoothStep(job, w, s);
      WorkAtEnd(job, v);
      SmoothCanResolve(job, v);
      var steps, end :| Runs(job, v, steps, end) && end.sender.Resolved?;
      assert ([s] + steps)[1..] == steps;
      assert Runs(job, w, [s] + steps, end);
    }
  }

  /** A file can be sent if and only if its name has a sanitized form and the announced digest is its own. */
  lemma ResolvesExactlyWhen(job: Job)
    requires Startable(job)
    ensures CanResolve(job, START) <==> Filename.Sanitized(job.name).Ok? && Digest(job) == Sha256(job.file)
  {
    hide Sha256, Filename.Sanitized, Runs, Inv, Smooth;
    if Acceptable(job) {
      StartSmooth(job);
      SmoothCanResolve(job, START);
    }
    if CanResolve(job, START) {
      var steps, end :| Runs(job, START, steps, end) && end.sender.Resolved?;
      EndToEnd(job, steps, end);
    }
  }

  /** Any file the browser can count, hashed by the browser itself, gets through under any name in normal form. */
  lemma EveryFileCanBeSent(file: ByteString, name: ByteString)
    requires |file| <= MAX_SAFE_INTEGER && Filename.IsNormal(name)
    ensures Acceptable(Job(file, None, name)) && CanResolve(Job(file, None, name), START)
  {
    hide Filename.Sanitized, Inv, Smooth, CanResolve, FinalHash, HashBytes, Filename.IsReserved;
    var job := Job(file, None, name);
    Filename.NormalIsFixed(name);
    StartSmooth(job);
    SmoothCanResolve(job, START);
  }
}
