/**
 The whole transfer as a labelled transition system: sendFile on one end, a bridge
 with one sender and its two forwarding lanes, and the receive loop on the other,
 with timeouts, disconnects and storage failures wherever they can happen.
 */
module Composition {
  import opened Bytes
  import opened Wire
  import opened Fips180
  import opened ReceiverSpec
  import opened Sender
  import opened Forwarding
  import PlanRun
  import Codecs
  import CCodec
  import Filename
  import Js = JsCodec

  /** `Ready(k)` and `Waiting(k)`: frames before the `k`-th are answered, and that one is to be sent or is out. */
  datatype SenderState = Ready(k: nat) | Waiting(k: nat) | Resolved | Rejected

  /** `heard` are the messages waitForAck got to see, `acks` those the receiver got onto its socket. */
  datatype World = World(
    sender: SenderState,
    heard: seq<ByteString>,
    up: Lane,
    down: Lane,
    recv: RState,
    running: bool,
    acks: seq<Acknowledgement>)

  const START: World := World(Ready(0), [], IDLE, IDLE, WaitFile, true, [])

  datatype Step =
    | SenderSends
    | SenderGets
    | SenderMisses               // a message with nobody waiting for it
    | SenderFails                // timeout, closed socket or unreadable file
    | RelayUp(step: LaneStep)
    | RelayDown(step: LaneStep)
    | ReceiverTakes(outcome: Outcome)
    | ReceiverFails

  ghost predicate Enabled(job: Job, w: World, s: Step)
    requires Startable(job)
  {
    match s
    case SenderSends => w.sender.Ready? && w.sender.k < FrameCount(job)
    case SenderGets => w.sender.Waiting? && w.sender.k < FrameCount(job) && w.down.inbox != []
    case SenderMisses => !w.sender.Waiting? && w.down.inbox != []
    case SenderFails => w.sender.Ready? || w.sender.Waiting?
    case RelayUp(step) => CanMove(w.up, step)
    case RelayDown(step) => CanMove(w.down, step)
    case ReceiverTakes(o) =>
      w.running && w.up.inbox != [] && LoopStep(w.recv, w.up.inbox[0], o) &&
      (o.delivered ==> o.ack.Some? && ValidAck(o.ack.value))
    case ReceiverFails => w.running
  }

  /** waitForAck and the byte-count check after it. */
  function Replied(job: Job, k: nat, message: ByteString): SenderState
    requires Startable(job) && k < FrameCount(job)
  {
    if !Matches(job, k, Some(message)) then Rejected
    else if k + 1 == FrameCount(job) then Resolved
    else Ready(k + 1)
  }

  ghost function Next(job: Job, w: World, s: Step): World
    requires Startable(job) && Enabled(job, w, s)
  {
    match s
    case SenderSends => w.(sender := Waiting(w.sender.k), up := Send(w.up, Message(PlanFrame(job, w.sender.k))))
    case SenderGets =>
      var m := w.down.inbox[0];
      w.(sender := Replied(job, w.sender.k, m), heard := w.heard + [m], down := Take(w.down))
    case SenderMisses => w.(down := Take(w.down))
    case SenderFails => w.(sender := Rejected)
    case RelayUp(step) => w.(up := Move(w.up, step))
    case RelayDown(step) => w.(down := Move(w.down, step))
    case ReceiverTakes(o) =>
      var v := w.(up := Take(w.up), recv := o.next, running := o.exit == Continue);
      if o.delivered then v.(down := Send(w.down, AckMessage(o.ack.value)), acks := w.acks + [o.ack.value]) else v
    case ReceiverFails => w.(recv := Failed, running := false)
  }

  ghost predicate Runs(job: Job, w: World, steps: seq<Step>, end: World)
    requires Startable(job)
    decreases |steps|
  {
    if steps == [] then end == w
    else Enabled(job, w, steps[0]) && Runs(job, Next(job, w, steps[0]), steps[1..], end)
  }

  /** What can happen when: faults at any moment, the rest as soon as there is something to do. */
  lemma PossibleSteps(job: Job, w: World, o: Outcome)
    requires Startable(job)
    ensures w.sender.Ready? || w.sender.Waiting? ==> Enabled(job, w, SenderFails)
    ensures w.running ==> Enabled(job, w, ReceiverFails)
    ensures w.up.reader ==> Enabled(job, w, RelayUp(StopReader))
    ensures w.up.writer ==> Enabled(job, w, RelayUp(StopWriter))
    ensures w.down.reader ==> Enabled(job, w, RelayDown(StopReader))
    ensures w.down.writer ==> Enabled(job, w, RelayDown(StopWriter))
    ensures w.sender.Ready? && w.sender.k < FrameCount(job) ==> Enabled(job, w, SenderSends)
    ensures w.sender.Waiting? && w.sender.k < FrameCount(job) && |w.down.inbox| > 0 ==> Enabled(job, w, SenderGets)
    ensures !w.sender.Waiting? && |w.down.inbox| > 0 ==> Enabled(job, w, SenderMisses)
    ensures w.running && |w.up.inbox| > 0 && LoopStep(w.recv, w.up.inbox[0], o) ==>
            ((o.ack.Some? ==> ValidAck(o.ack.value)) ==> Enabled(job, w, ReceiverTakes(o)))
  {
    hide Sha256, CCodec.RelayMessageDecode, IdealStep, FrameCount, Startable;
  }

  /** A receiver that is open can always drop the connection, or refuse any frame it gets. */
  lemma PossibleOutcomes(s: RState, message: ByteString)
    requires Open(s)
    ensures LoopStep(s, message, Outcome(Failed, None, false, ReceiveError))
    ensures CCodec.RelayMessageDecode(message).Some? ==>
            var f := CCodec.RelayMessageDecode(message).value;
            var ack := if f.kind in {3, 4, 5} then Some(RefusalAck(s, f)) else None;
            LoopStep(s, message, Outcome(Failed, ack, false, ProtocolError)) &&
            (ack.Some? ==> LoopStep(s, message, Outcome(Failed, ack, true, ProtocolError)))
  {
    hide Sha256, CCodec.RelayMessageDecode, IdealStep, RefusalAck;
  }

  // What every run keeps.

  /** Each peer is ahead of the other by at most one message. */
  predicate Paced(job: Job, w: World)
  {
    |w.down.consumed| <= |w.acks| <= |w.up.consumed| <= |w.up.sent| <= FrameCount(job) &&
    |w.up.sent| <= |w.down.consumed| + 1
  }

  /** The lanes carry the plan's messages one way and the acknowledgements the other; the i-th answers the i-th. */
  predicate Carried(job: Job, w: World)
    requires Startable(job) && Paced(job, w)
  {
    |w.down.sent| == |w.acks| &&
    (forall i | 0 <= i < |w.up.sent| :: w.up.sent[i] == Message(PlanFrame(job, i))) &&
    (forall i | 0 <= i < |w.acks| ::
      ValidAck(w.acks[i]) && w.down.sent[i] == AckMessage(w.acks[i]) && w.acks[i].kind == PlanFrame(job, i).kind)
  }

  predicate SenderSound(job: Job, w: World)
    requires Paced(job, w)
  {
    match w.sender
    case Ready(k) => k < FrameCount(job) && |w.up.sent| == k == |w.down.consumed|
    case Waiting(k) => |w.up.sent| == k + 1 && |w.down.consumed| == k
    case Resolved => |w.down.consumed| == FrameCount(job) && w.acks[FrameCount(job) - 1].status == ACK_OK
    case Rejected => true
  }

  /** The receiver has followed the plan so far, and completes with the sender's file or not at all. */
  ghost predicate ReceiverSound(job: Job, w: World)
    requires Startable(job) && Paced(job, w)
  {
    var k := |w.up.consumed|;
    (w.running ==>
       k < FrameCount(job) && w.acks == OkAcks(Frames(job, k)) && w.recv == IdealRun(Frames(job, k)) && Open(w.recv)) &&
    (w.recv.Complete? ==> Delivered(job, w)) &&
    (|w.acks| == FrameCount(job) && w.acks[FrameCount(job) - 1].status == ACK_OK ==> w.recv.Complete?)
  }

  /** The receiver has moved exactly the sender's bytes into place, and the announced digest is theirs. */
  ghost predicate Delivered(job: Job, w: World)
  {
    w.recv == Complete(Meta(job), job.file) && Digest(job) == Sha256(job.file) && Filename.Sanitized(job.name).Ok?
  }

  ghost predicate Inv(job: Job, w: World)
    requires Startable(job)
  {
    Conserved(w.up) && Conserved(w.down) && Paced(job, w) && Carried(job, w) && SenderSound(job, w) &&
    ReceiverSound(job, w)
  }

  lemma StartInv(job: Job)
    requires Startable(job)
    ensures Inv(job, START)
  {
    hide Sha256, Filename.Sanitized, PlanFrame, Message, AckMessage;
    assert Frames(job, 0) == [];
  }

  lemma SenderSendsKeeps(job: Job, w: World)
    requires Startable(job) && Inv(job, w) && Enabled(job, w, SenderSends)
    ensures Inv(job, Next(job, w, SenderSends))
  {
    hide Sha256, Filename.Sanitized, IdealRun, OkAcks, PlanFrame, Message, AckMessage, FrameCount, Startable;
    SendConserves(w.up, Message(PlanFrame(job, w.sender.k)));
  }

  lemma SenderGetsKeeps(job: Job, w: World)
    requires Startable(job) && Inv(job, w) && Enabled(job, w, SenderGets)
    ensures Inv(job, Next(job, w, SenderGets))
  {
    hide Sha256, Filename.Sanitized, IdealRun, OkAcks, PlanFrame, Message, AckMessage, FrameCount, Startable,
         Js.DecodeAck;
    TakeConserves(w.down);
    var k := w.sender.k;
    Codecs.JsDecodesExactlyAcks(w.down.inbox[0], w.acks[k]);
  }

  lemma SenderMissesKeeps(job: Job, w: World)
    requires Startable(job) && Inv(job, w) && Enabled(job, w, SenderMisses)
    ensures Inv(job, Next(job, w, SenderMisses))
    ensures w.sender.Rejected?
  {
    hide Sha256, Filename.Sanitized, IdealRun, OkAcks, PlanFrame, Message, AckMessage, FrameCount, Startable;
    TakeConserves(w.down);
  }

  lemma RelayKeeps(job: Job, w: World, s: Step)
    requires Startable(job) && Inv(job, w) && Enabled(job, w, s) && (s.RelayUp? || s.RelayDown?)
    ensures Inv(job, Next(job, w, s))
  {
    hide Sha256, Filename.Sanitized, IdealRun, OkAcks, PlanFrame, Message, AckMessage, FrameCount, Startable, Move,
         CanMove;
    if s.RelayUp? {
      MoveConserves(w.up, s.step);
    } else {
      MoveConserves(w.down, s.step);
    }
  }

  lemma FailKeeps(job: Job, w: World, s: Step)
    requires Startable(job) && Inv(job, w) && Enabled(job, w, s) && (s.SenderFails? || s.ReceiverFails?)
    ensures Inv(job, Next(job, w, s))
  {
    hide Sha256, Filename.Sanitized, IdealRun, OkAcks, PlanFrame, Message, AckMessage, FrameCount, Startable;
    OkAcksLength(Frames(job, |w.up.consumed|));
  }

  /** The message the receiver takes is the next frame of the plan. */
  lemma TakesPlan(job: Job, w: World)
    requires Startable(job) && Inv(job, w) && w.up.inbox != []
    ensures |w.up.consumed| < FrameCount(job) && |w.up.consumed| < |w.up.sent|
    ensures Conserved(Take(w.up))
    ensures CCodec.RelayMessageDecode(w.up.inbox[0]) == Some(PlanFrame(job, |w.up.consumed|))
  {
    hide Sha256, Filename.Sanitized, IdealRun, OkAcks, PlanFrame, Message, AckMessage, FrameCount, Startable,
         CCodec.RelayMessageDecode;
    TakeConserves(w.up);
    var f := PlanFrame(job, |w.up.consumed|);
    Codecs.CDecodesExactlyMessages(w.up.inbox[0], f);
  }

  /** One loop step on the next frame of the plan. */
  lemma StepAlongPlan(job: Job, k: nat, recv: RState, message: ByteString, o: Outcome)
    requires Startable(job) && k < FrameCount(job) && recv == IdealRun(Frames(job, k)) && LoopStep(recv, message, o)
    requires CCodec.RelayMessageDecode(message) == Some(PlanFrame(job, k))
    ensures o.exit == Continue ==>
            k + 1 < FrameCount(job) && o.next == IdealRun(Frames(job, k + 1)) && Open(o.next) && o.delivered &&
            o.ack.Some? &&
            OkAcks(Frames(job, k + 1)) == OkAcks(Frames(job, k)) + [o.ack.value]
    ensures o.next.Complete? ==>
            k + 1 == FrameCount(job) && o.next == Complete(Meta(job), job.file) && Digest(job) == Sha256(job.file) &&
            Filename.Sanitized(job.name).Ok?
    ensures o.ack.Some? ==> o.ack.value.kind == PlanFrame(job, k).kind
    ensures o.ack.Some? && o.ack.value.status == ACK_OK && k + 1 == FrameCount(job) ==> o.next.Complete?
  {
    hide Sha256, Filename.Sanitized, IdealRun, IdealStep, OkAcks, PlanFrame, Startable, CCodec.RelayMessageDecode;
    PlanRun.PlanRuns(job, k);
    PlanRun.PlanRuns(job, k + 1);
    PlanRun.OneMore(job, k);
    StepShape(recv, PlanFrame(job, k));
  }

  lemma ReceiverTakesKeeps(job: Job, w: World, o: Outcome)
    requires Startable(job) && Inv(job, w) && Enabled(job, w, ReceiverTakes(o))
    ensures Inv(job, Next(job, w, ReceiverTakes(o)))
  {
    hide Sha256, Filename.Sanitized, IdealRun, OkAcks, PlanFrame, Message, AckMessage, FrameCount, Startable,
         CCodec.RelayMessageDecode, LoopStep;
    var k := |w.up.consumed|;
    TakesPlan(job, w);
    OkAcksLength(Frames(job, k));
    StepAlongPlan(job, k, w.recv, w.up.inbox[0], o);
    if o.delivered {
      SendConserves(w.down, AckMessage(o.ack.value));
    }
  }

  lemma NextKeeps(job: Job, w: World, s: Step)
    requires Startable(job) && Inv(job, w) && Enabled(job, w, s)
    ensures Inv(job, Next(job, w, s))
  {
    hide Inv, Enabled, Next, Startable;
    match s {
      case SenderSends => SenderSendsKeeps(job, w);
      case SenderGets => SenderGetsKeeps(job, w);
      case SenderMisses => SenderMissesKeeps(job, w);
      case ReceiverTakes(o) => ReceiverTakesKeeps(job, w, o);
      case RelayUp(_) => RelayKeeps(job, w, s);
      case RelayDown(_) => RelayKeeps(job, w, s);
      case SenderFails => FailKeeps(job, w, s);
      case ReceiverFails => FailKeeps(job, w, s);
    }
  }

  lemma {:induction false} RunKeeps(job: Job, w: World, steps: seq<Step>, end: World)
    requires Startable(job) && Inv(job, w) && Runs(job, w, steps, end)
    ensures Inv(job, end)
    decreases |steps|
  {
    hide Inv, Enabled, Next, Startable;
    if steps != [] {
      NextKeeps(job, w, steps[0]);
      RunKeeps(job, Next(job, w, steps[0]), steps[1..], end);
    }
  }

  // What that means for whole runs.

  /**
   End to end: whatever disconnects, times out or fails to store, if sendFile resolves then
   the receiver has moved exactly the sender's bytes into place under the announced digest;
   and it never moves anything else there, resolved or not.
   */
  lemma EndToEnd(job: Job, steps: seq<Step>, w: World)
    requires Startable(job) && Runs(job, START, steps, w)
    ensures w.sender.Resolved? ==> Delivered(job, w) && |w.up.sent| == FrameCount(job)
    ensures w.recv.Complete? ==> Delivered(job, w)
    ensures w.running && w.recv.Receiving? ==> w.recv.meta == Meta(job) && w.recv.got <= job.file
  {
    hide Sha256, Filename.Sanitized, Runs, IdealRun, OkAcks, PlanFrame, Message, AckMessage, Startable;
    StartInv(job);
    RunKeeps(job, START, steps, w);
    PlanRun.PlanRuns(job, |w.up.consumed|);
  }

  function InFlight(l: Lane): nat
  {
    |l.outbox| + |Held(l.inHand)| + |l.channel| + |Held(l.writing)| + |l.inbox|
  }

  lemma InFlightIsSentNotConsumed(l: Lane)
    requires Conserved(l)
    ensures InFlight(l) == |l.sent| - |l.consumed|
  {
  }

  /**
   Stop-and-wait: one frame or acknowledgement is outstanding at most. So a goroutine that holds
   a message finds its channel empty, an acknowledgement reaches the sender only while it waits
   for exactly that one, and it answers the frame sent last.
   */
  lemma StopAndWait(job: Job, steps: seq<Step>, w: World)
    requires Startable(job) && Runs(job, START, steps, w)
    ensures InFlight(w.up) + InFlight(w.down) <= 1
    ensures w.up.inHand.Some? ==> w.up.channel == [] && w.down.channel == []
    ensures w.down.inHand.Some? ==> w.up.channel == [] && w.down.channel == []
    ensures w.down.inbox != [] && !w.sender.Rejected? ==>
            w.sender.Waiting? && |w.acks| == w.sender.k + 1 == |w.up.sent| <= FrameCount(job) &&
            ValidAck(w.acks[w.sender.k]) && w.down.inbox[0] == AckMessage(w.acks[w.sender.k]) &&
            w.acks[w.sender.k].kind == PlanFrame(job, w.sender.k).kind
  {
    hide Sha256, Filename.Sanitized, Runs, IdealRun, OkAcks, PlanFrame, Message, AckMessage, Startable, FrameCount;
    StartInv(job);
    RunKeeps(job, START, steps, w);
    InFlightIsSentNotConsumed(w.up);
    InFlightIsSentNotConsumed(w.down);
    if w.down.inbox != [] {
      TakeConserves(w.down);
    }
  }
}
