/**
 The sender of the composed system against the contract of sendFile: what it has written and heard is a
 conversation as `SendFile` promises one, and the two agree on when it is over.
 */
module Conversation {
  import opened Bytes
  import opened Wire
  import opened Fips180
  import opened ReceiverSpec
  import opened Sender
  import opened Forwarding
  import opened Composition
  import Filename
  import Js = JsCodec

  /** Each frame written, with the reply that came while the sender waited for one. */
  function Log(w: World): seq<Exchange>
  {
    seq(|w.up.sent|, i requires 0 <= i < |w.up.sent| =>
      Exchange(w.up.sent[i], if i < |w.heard| then Some(w.heard[i]) else None))
  }

  predicate Conversing(job: Job, w: World)
    requires Startable(job)
  {
    w.heard <= w.down.consumed && |w.heard| <= |w.up.sent| && Follows(job, Log(w)) &&
    match w.sender
    case Ready(_) => w.heard == w.down.consumed && |w.heard| == |w.up.sent| && Answered(job, Log(w))
    case Waiting(_) => w.heard == w.down.consumed && |w.heard| == |w.up.sent| - 1
    case Resolved => Ended(job, Log(w), Confirmed)
    case Rejected => !Ended(job, Log(w), Confirmed)
  }

  lemma StartConverses(job: Job)
    requires Startable(job)
    ensures Conversing(job, START)
  {
    hide Sha256, PlanFrame, Message, Js.DecodeAck;
    assert Log(START) == [];
  }

  /** Sending adds an exchange without a reply. */
  lemma SendsConverses(job: Job, w: World)
    requires Startable(job) && Inv(job, w) && Conversing(job, w) && Enabled(job, w, SenderSends)
    ensures Conversing(job, Next(job, w, SenderSends))
  {
    hide Sha256, PlanFrame, Message, AckMessage, Js.DecodeAck, FrameCount, Startable, ReceiverSound, Carried,
         Conserved, ExpectedAck;
    var v := Next(job, w, SenderSends);
    assert Log(v) == Log(w) + [Exchange(Message(PlanFrame(job, w.sender.k)), None)];
  }

  /** Hearing gives the last exchange its reply. */
  lemma GetsConverses(job: Job, w: World)
    requires Startable(job) && Inv(job, w) && Conversing(job, w) && Enabled(job, w, SenderGets)
    ensures Conversing(job, Next(job, w, SenderGets))
  {
    hide Sha256, PlanFrame, Message, AckMessage, Js.DecodeAck, FrameCount, Startable, ReceiverSound, Carried,
         Conserved, ExpectedAck;
    var v, k, m := Next(job, w, SenderGets), w.sender.k, w.down.inbox[0];
    assert Log(v) == Log(w)[k := Exchange(Log(w)[k].message, Some(m))];
  }

  /** Failing ends a conversation that is not confirmed. */
  lemma FailsConverses(job: Job, w: World)
    requires Startable(job) && Inv(job, w) && Conversing(job, w) && Enabled(job, w, SenderFails)
    ensures Conversing(job, Next(job, w, SenderFails))
  {
    hide Sha256, PlanFrame, Message, AckMessage, Js.DecodeAck, FrameCount, Startable, ReceiverSound, Carried,
         Conserved, ExpectedAck;
    assert Log(Next(job, w, SenderFails)) == Log(w);
  }

  /** Nobody else has a part in it. */
  lemma OthersConverse(job: Job, w: World, s: Step)
    requires Startable(job) && Inv(job, w) && Conversing(job, w) && Enabled(job, w, s)
    requires !s.SenderSends? && !s.SenderGets? && !s.SenderFails?
    ensures Conversing(job, Next(job, w, s))
  {
    hide Sha256, PlanFrame, Message, AckMessage, Js.DecodeAck, FrameCount, Startable, ReceiverSound, Carried, Conserved,
         ExpectedAck, Follows, Answered, Ended, LoopStep;
    match s {
      case RelayUp(step) => MoveConserves(w.up, step);
      case RelayDown(step) => MoveConserves(w.down, step);
      case SenderMisses => SenderMissesKeeps(job, w);
      case _ =>
    }
    assert Log(Next(job, w, s)) == Log(w);
  }

  lemma {:induction false} RunConverses(job: Job, w: World, steps: seq<Step>, end: World)
    requires Startable(job) && Inv(job, w) && Conversing(job, w) && Runs(job, w, steps, end)
    ensures Conversing(job, end)
    decreases |steps|
  {
    hide Inv, Enabled, Next, Startable, Conversing;
    if steps != [] {
      var s := steps[0];
      match s {
        case SenderSends => SendsConverses(job, w);
        case SenderGets => GetsConverses(job, w);
        case SenderFails => FailsConverses(job, w);
        case _ => OthersConverse(job, w, s);
      }
      NextKeeps(job, w, s);
      RunConverses(job, Next(job, w, s), steps[1..], end);
    }
  }

  /** In every run the conversation is one of sendFile's, which resolves exactly when SendFile's contract says so. */
  lemma SenderFollowsContract(job: Job, steps: seq<Step>, w: World)
    requires Startable(job) && Runs(job, START, steps, w)
    ensures Follows(job, Log(w)) && w.heard <= w.down.consumed
    ensures w.sender.Resolved? <==> Ended(job, Log(w), Confirmed)
  {
    hide Sha256, Runs, PlanFrame, Message, AckMessage, Js.DecodeAck, Startable, ReceiverSound, Carried, Conserved,
         ExpectedAck, Follows, Filename.Sanitized;
    StartInv(job);
    RunKeeps(job, START, steps, w);
    StartConverses(job);
    RunConverses(job, START, steps, w);
    LogLength(w);
  }

  lemma LogLength(w: World)
    ensures |Log(w)| == |w.up.sent|
    ensures forall i | 0 <= i < |Log(w)| :: Log(w)[i].reply.Some? <==> i < |w.heard|
  {
  }
}
