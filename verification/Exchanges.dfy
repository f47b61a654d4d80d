/**
 Which conversations of sendFile the composed system can hold: exactly those whose replies the receiver would give.
 */
module Exchanges {
  import opened Bytes
  import opened Wire
  import opened Fips180
  import opened ReceiverSpec
  import opened Sender
  import opened Forwarding
  import opened Composition
  import opened Conversation
  import PlanRun
  import Codecs
  import CCodec
  import Filename
  import Js = JsCodec

  /** An acknowledgement the receiver can give the `i`-th frame of the plan. */
  predicate Gives(job: Job, i: nat, a: Acknowledgement)
    requires Startable(job) && i < FrameCount(job)
  {
    Open(IdealRun(Frames(job, i))) &&
    ((a == ExpectedAck(job, i) && IdealRun(Frames(job, i + 1)) != Failed) ||
     a == RefusalAck(IdealRun(Frames(job, i)), PlanFrame(job, i)))
  }

  ghost predicate CameOver(job: Job, i: nat, reply: Option<ByteString>)
    requires Startable(job) && i < FrameCount(job)
  {
    reply.Some? ==> exists a :: ValidAck(a) && Gives(job, i, a) && reply.value == AckMessage(a)
  }

  /** A conversation as `SendFile` promises one, with replies as the receiver gives them. */
  ghost predicate Exchangeable(job: Job, log: seq<Exchange>)
    requires Startable(job)
  {
    Follows(job, log) && forall i | 0 <= i < |log| :: CameOver(job, i, log[i].reply)
  }

  ghost predicate Happens(job: Job, log: seq<Exchange>)
    requires Startable(job)
  {
    exists steps, w :: Runs(job, START, steps, w) && Log(w) == log
  }

  // Every conversation of a run is such.

  predicate Given(job: Job, w: World)
    requires Startable(job) && Paced(job, w)
  {
    forall i | 0 <= i < |w.acks| :: Gives(job, i, w.acks[i])
  }

  lemma GivenStep(job: Job, k: nat, recv: RState, message: ByteString, o: Outcome)
    requires Startable(job) && k < FrameCount(job) && recv == IdealRun(Frames(job, k)) && LoopStep(recv, message, o)
    requires CCodec.RelayMessageDecode(message) == Some(PlanFrame(job, k)) && o.ack.Some?
    ensures Gives(job, k, o.ack.value)
  {
    hide Sha256, Filename.Sanitized, IdealRun, IdealStep, PlanFrame, Startable, CCodec.RelayMessageDecode, RefusalAck;
    PlanRun.PlanRuns(job, k + 1);
    PlanRun.OneMore(job, k);
  }

  lemma GivenKeeps(job: Job, w: World, s: Step)
    requires Startable(job) && Inv(job, w) && Given(job, w) && Enabled(job, w, s) && Paced(job, Next(job, w, s))
    ensures Given(job, Next(job, w, s))
  {
    hide Sha256, Gives, LoopStep, IdealRun, OkAcks, PlanFrame, Message, AckMessage, FrameCount, Startable, Conserved,
         Carried, SenderSound, CCodec.RelayMessageDecode, Take;
    if s.ReceiverTakes? && s.outcome.delivered {
      var k := |w.up.consumed|;
      TakesPlan(job, w);
      OkAcksLength(Frames(job, k));
      GivenStep(job, k, w.recv, w.up.inbox[0], s.outcome);
    }
  }

  lemma {:induction false} RunGiven(job: Job, w: World, steps: seq<Step>, end: World)
    requires Startable(job) && Inv(job, w) && Given(job, w) && Runs(job, w, steps, end)
    ensures Inv(job, end) && Given(job, end)
    decreases |steps|
  {
    hide Enabled, Next, Startable, Given, Conserved, Carried, SenderSound, ReceiverSound;
    if steps != [] {
      NextKeeps(job, w, steps[0]);
      GivenKeeps(job, w, steps[0]);
      RunGiven(job, Next(job, w, steps[0]), steps[1..], end);
    }
  }

  lemma HeardIsGiven(job: Job, w: World, i: nat)
    requires Startable(job) && Inv(job, w) && Given(job, w) && w.heard <= w.down.consumed && i < |Log(w)|
    ensures i < FrameCount(job) && CameOver(job, i, Log(w)[i].reply)
  {
    hide Sha256, Gives, PlanFrame, Message, AckMessage, FrameCount, Startable, SenderSound, ReceiverSound;
    if i < |w.heard| {
      assert w.heard[i] == w.down.consumed[i] == w.down.sent[i] == AckMessage(w.acks[i]);
    }
  }

  lemma RunIsExchangeable(job: Job, steps: seq<Step>, w: World)
    requires Startable(job) && Runs(job, START, steps, w)
    ensures Exchangeable(job, Log(w))
  {
    hide Sha256, Runs, Follows, CameOver, FrameCount, Inv, Given, Startable, Log;
    StartInv(job);
    assert Given(job, START) by { NothingGiven(job); }
    RunGiven(job, START, steps, w);
    SenderFollowsContract(job, steps, w);
    forall i | 0 <= i < |Log(w)|
      ensures i < FrameCount(job) && CameOver(job, i, Log(w)[i].reply)
    {
      HeardIsGiven(job, w, i);
    }
  }

  lemma NothingGiven(job: Job)
    requires Startable(job)
    ensures Paced(job, START) && Given(job, START)
  {
  }

  // Every such conversation is one of a run.

  lemma {:induction false} RunsOn(job: Job, w: World, steps: seq<Step>, v: World, s: Step)
    requires Startable(job) && Runs(job, w, steps, v) && Enabled(job, v, s)
    ensures Runs(job, w, steps + [s], Next(job, v, s))
    decreases |steps|
  {
    hide Enabled, Next, Startable;
    if steps == [] {
      assert [s][1..] == [];
    } else {
      RunsOn(job, Next(job, w, steps[0]), steps[1..], v, s);
      assert (steps + [s])[1..] == steps[1..] + [s];
    }
  }

  ghost predicate Reached(job: Job, w: World)
    requires Startable(job)
  {
    exists steps :: Runs(job, START, steps, w)
  }

  lemma Reaches(job: Job, w: World, s: Step)
    requires Startable(job) && Reached(job, w) && Enabled(job, w, s)
    ensures Reached(job, Next(job, w, s))
  {
    hide Enabled, Next, Startable, Runs;
    var steps :| Runs(job, START, steps, w);
    RunsOn(job, START, steps, w, s);
  }

  /** Nothing is under way and both goroutines are alive. */
  predicate Quiet(l: Lane)
  {
    l.outbox == [] && l.inHand.None? && l.channel == [] && l.writing.None? && l.inbox == [] && l.reader && l.writer
  }

  /** A message is at the far end. */
  function AtInbox(l: Lane, m: ByteString): Lane
  {
    l.(inbox := [m], sent := l.sent + [m], accepted := l.accepted + [m], delivered := l.delivered + [m])
  }

  /** A message has crossed the lane. */
  function Crossed(l: Lane, m: ByteString): Lane { AtInbox(l, m).(inbox := [], consumed := l.consumed + [m]) }

  lemma Crosses(l: Lane, m: ByteString)
    requires Quiet(l) && |m| <= MESSAGE_MAX
    ensures var a := Send(l, m);
            CanMove(a, Read) && var b := Move(a, Read);
            CanMove(b, Enqueue) && var c := Move(b, Enqueue);
            CanMove(c, Dequeue) && var d := Move(c, Dequeue);
            CanMove(d, Write) && Move(d, Write) == AtInbox(l, m)
    ensures Take(AtInbox(l, m)) == Crossed(l, m) && Quiet(Crossed(l, m))
  {
  }

  lemma CarriesUp(job: Job, w: World, l: Lane, m: ByteString)
    requires Startable(job) && Reached(job, w) && w.up == Send(l, m) && Quiet(l) && |m| <= MESSAGE_MAX
    ensures Reached(job, w.(up := AtInbox(l, m)))
  {
    hide Startable, Move, CanMove, Send, AtInbox, Reached, Quiet;
    Crosses(l, m);
    Reaches(job, w, RelayUp(Read));
    var a := w.(up := Move(w.up, Read));
    Reaches(job, a, RelayUp(Enqueue));
    var b := a.(up := Move(a.up, Enqueue));
    Reaches(job, b, RelayUp(Dequeue));
    Reaches(job, b.(up := Move(b.up, Dequeue)), RelayUp(Write));
  }

  lemma CarriesDown(job: Job, w: World, l: Lane, m: ByteString)
    requires Startable(job) && Reached(job, w) && w.down == Send(l, m) && Quiet(l) && |m| <= MESSAGE_MAX
    ensures Reached(job, w.(down := AtInbox(l, m)))
  {
    hide Startable, Move, CanMove, Send, AtInbox, Reached, Quiet;
    Crosses(l, m);
    Reaches(job, w, RelayDown(Read));
    var a := w.(down := Move(w.down, Read));
    Reaches(job, a, RelayDown(Enqueue));
    var b := a.(down := Move(a.down, Enqueue));
    Reaches(job, b, RelayDown(Dequeue));
    Reaches(job, b.(down := Move(b.down, Dequeue)), RelayDown(Write));
  }

  /** All `k` frames sent are answered as expected, and nothing is under way. */
  ghost predicate AtRest(job: Job, w: World, k: nat)
    requires Startable(job)
  {
    k <= FrameCount(job) && w.sender == (if k == FrameCount(job) then Resolved else Ready(k)) &&
    Quiet(w.up) && Quiet(w.down) && |w.up.sent| == k == |w.heard| &&
    w.recv == IdealRun(Frames(job, k)) && (k < FrameCount(job) ==> w.running && Open(w.recv))
  }

  /** The world after one exchange, with the acknowledgement the receiver gave. */
  function Exchanged(job: Job, w: World, k: nat, o: Outcome): World
    requires Startable(job) && k < FrameCount(job) && o.ack.Some? && ValidAck(o.ack.value)
  {
    var m, reply := Message(PlanFrame(job, k)), AckMessage(o.ack.value);
    World(Replied(job, k, reply), w.heard + [reply], Crossed(w.up, m), Crossed(w.down, reply), o.next,
          o.exit == Continue, w.acks + [o.ack.value])
  }

  lemma ExchangeHappens(job: Job, w: World, k: nat, o: Outcome)
    requires Startable(job) && k < FrameCount(job) && AtRest(job, w, k) && Reached(job, w)
    requires o.delivered && o.ack.Some? && ValidAck(o.ack.value) && LoopStep(w.recv, Message(PlanFrame(job, k)), o)
    ensures Reached(job, Exchanged(job, w, k, o))
  {
    hide Sha256, Startable, FrameCount, IdealRun, PlanFrame, Message, AckMessage, LoopStep, Reached, Replied, Move,
         CanMove, Quiet, Send, Take, AtInbox, Crossed;
    var m, reply := Message(PlanFrame(job, k)), AckMessage(o.ack.value);
    AckFits(o.ack.value);
    Reaches(job, w, SenderSends);
    var sent := w.(sender := Waiting(k), up := Send(w.up, m));
    CarriesUp(job, sent, w.up, m);
    Crosses(w.up, m);
    InboxHolds(w.up, m);
    var there := sent.(up := AtInbox(w.up, m));
    Reaches(job, there, ReceiverTakes(o));
    var taken := there.(up := Crossed(w.up, m), recv := o.next, running := o.exit == Continue,
                        down := Send(w.down, reply), acks := w.acks + [o.ack.value]);
    assert Next(job, there, ReceiverTakes(o)) == taken;
    CarriesDown(job, taken, w.down, reply);
    Crosses(w.down, reply);
    InboxHolds(w.down, reply);
    var back := taken.(down := AtInbox(w.down, reply));
    Reaches(job, back, SenderGets);
    assert Next(job, back, SenderGets) == Exchanged(job, w, k, o);
  }

  lemma InboxHolds(l: Lane, m: ByteString)
    ensures AtInbox(l, m).inbox == [m]
  {
  }

  lemma AckFits(a: Acknowledgement)
    requires ValidAck(a)
    ensures |AckMessage(a)| <= MESSAGE_MAX
  {
  }

  /** The loop step that gives the acknowledgement. */
  function OutcomeOf(job: Job, k: nat, a: Acknowledgement): Outcome
    requires Startable(job) && k < FrameCount(job)
  {
    var t := IdealRun(Frames(job, k + 1));
    if a.status == ACK_OK then Outcome(t, Some(a), true, if t.Complete? then ExitOk else Continue)
    else Outcome(Failed, Some(a), true, ProtocolError)
  }

  lemma GivesByStep(job: Job, k: nat, a: Acknowledgement)
    requires Startable(job) && k < FrameCount(job) && Gives(job, k, a)
    ensures LoopStep(IdealRun(Frames(job, k)), Message(PlanFrame(job, k)), OutcomeOf(job, k, a))
    ensures a.status == ACK_OK <==> a == ExpectedAck(job, k)
  {
    hide Sha256, Filename.Sanitized, IdealRun, IdealStep, PlanFrame, Startable, CCodec.RelayMessageDecode, Message,
         RefusalStatus;
    Codecs.CDecodesExactlyMessages(Message(PlanFrame(job, k)), PlanFrame(job, k));
    PlanRun.PlanRuns(job, k + 1);
    PlanRun.OneMore(job, k);
  }

  lemma StillOpenOn(job: Job, k: nat)
    requires Startable(job) && k < FrameCount(job) && IdealRun(Frames(job, k)) != Failed
    ensures Open(IdealRun(Frames(job, k)))
  {
    hide Sha256, Filename.Sanitized, IdealRun, Startable;
    PlanRun.PlanRuns(job, k);
  }

  /** The reply an exchange goes on with is the acknowledgement it waits for. */
  lemma MatchedReply(job: Job, k: nat, reply: Option<ByteString>)
    requires Startable(job) && k < FrameCount(job) && CameOver(job, k, reply) && Matches(job, k, reply)
    ensures reply == Some(AckMessage(ExpectedAck(job, k))) && Gives(job, k, ExpectedAck(job, k))
  {
    hide Sha256, Gives, AckMessage, Js.DecodeAck, ExpectedAck, Startable, FrameCount;
    Codecs.JsDecodesExactlyAcks(reply.value, ExpectedAck(job, k));
    var a :| ValidAck(a) && Gives(job, k, a) && reply.value == AckMessage(a);
    Codecs.JsDecodesExactlyAcks(reply.value, a);
  }

  lemma LogOfExchange(job: Job, w: World, k: nat, o: Outcome)
    requires Startable(job) && k < FrameCount(job) && |w.up.sent| == k == |w.heard|
    requires o.ack.Some? && ValidAck(o.ack.value)
    ensures Log(Exchanged(job, w, k, o)) ==
            Log(w) + [Exchange(Message(PlanFrame(job, k)), Some(AckMessage(o.ack.value)))]
  {
    hide Sha256, Message, AckMessage, PlanFrame, FrameCount, Startable, Replied;
  }

  /** After the awaited acknowledgement the system is at rest again, one frame on. */
  lemma RestsAgain(job: Job, w: World, k: nat)
    requires Startable(job) && k < FrameCount(job) && AtRest(job, w, k) && Reached(job, w)
    requires Gives(job, k, ExpectedAck(job, k))
    ensures var v := Exchanged(job, w, k, OutcomeOf(job, k, ExpectedAck(job, k)));
            Reached(job, v) && AtRest(job, v, k + 1)
  {
    hide Sha256, PlanFrame, IdealRun, Message, AckMessage, Js.DecodeAck, Startable, FrameCount, LoopStep, Reached,
         RefusalAck;
    var a := ExpectedAck(job, k);
    GivesByStep(job, k, a);
    ExchangeHappens(job, w, k, OutcomeOf(job, k, a));
    Codecs.JsDecodesExactlyAcks(AckMessage(a), a);
    GivesMoreOpen(job, k);
  }

  lemma GivesMoreOpen(job: Job, k: nat)
    requires Startable(job) && k < FrameCount(job) && Gives(job, k, ExpectedAck(job, k))
    ensures IdealRun(Frames(job, k + 1)) != Failed
    ensures k + 1 < FrameCount(job) ==> Open(IdealRun(Frames(job, k + 1)))
  {
    hide Sha256, PlanFrame, IdealRun, Startable, RefusalStatus;
    if k + 1 < FrameCount(job) {
      StillOpenOn(job, k + 1);
    }
  }

  ghost predicate RestsWith(job: Job, log: seq<Exchange>, w: World)
    requires Startable(job)
  {
    Reached(job, w) && AtRest(job, w, |log|) && Log(w) == log
  }

  lemma Prefix(job: Job, log: seq<Exchange>, n: nat)
    requires Startable(job) && Exchangeable(job, log) && n < |log|
    ensures Exchangeable(job, log[..n]) && Answered(job, log[..n])
  {
    hide Sha256, CameOver, Matches, PlanFrame, Message, FrameCount, Startable;
  }

  /** One more exchange with the awaited answer. */
  lemma RestsOn(job: Job, log: seq<Exchange>, w: World, e: Exchange) returns (v: World)
    requires Startable(job) && RestsWith(job, log, w) && |log| < FrameCount(job)
    requires e.message == Message(PlanFrame(job, |log|))
    requires CameOver(job, |log|, e.reply) && Matches(job, |log|, e.reply)
    ensures RestsWith(job, log + [e], v)
  {
    hide Sha256, CameOver, Matches, PlanFrame, Message, AckMessage, FrameCount, Startable, Gives, AtRest, Reached, Log,
         ExpectedAck, Exchanged;
    var n := |log|;
    var a := ExpectedAck(job, n);
    MatchedReply(job, n, e.reply);
    RestsAgain(job, w, n);
    GivesByStep(job, n, a);
    RestSizes(job, w, n);
    LogOfExchange(job, w, n, OutcomeOf(job, n, a));
    v := Exchanged(job, w, n, OutcomeOf(job, n, a));
  }

  lemma {:induction false} AnsweredRests(job: Job, log: seq<Exchange>) returns (w: World)
    requires Startable(job) && Exchangeable(job, log) && Answered(job, log)
    ensures RestsWith(job, log, w)
  {
    hide Sha256, CameOver, Matches, PlanFrame, Message, FrameCount, Startable, RestsWith;
    if log == [] {
      StartRests(job);
      w := START;
    } else {
      var n := |log| - 1;
      Prefix(job, log, n);
      w := AnsweredRests(job, log[..n]);
      w := RestsOn(job, log[..n], w, log[n]);
      assert log == log[..n] + [log[n]];
    }
  }

  lemma RestSizes(job: Job, w: World, k: nat)
    requires Startable(job) && AtRest(job, w, k)
    ensures |w.up.sent| == k == |w.heard|
  {
    hide Startable, FrameCount, IdealRun;
  }

  lemma StartRests(job: Job)
    requires Startable(job)
    ensures RestsWith(job, [], START)
  {
    hide Sha256, PlanFrame;
    NothingYet();
    assert Runs(job, START, [], START);
    assert Frames(job, 0) == [];
    assert Log(START) == [];
  }

  /** A last exchange that is not answered as expected: without a reply, or with a refusal. */
  lemma LastHappens(job: Job, w: World, k: nat, e: Exchange)
    requires Startable(job) && k < FrameCount(job) && AtRest(job, w, k) && Reached(job, w)
    requires e.message == Message(PlanFrame(job, k)) && CameOver(job, k, e.reply)
    ensures exists v :: Reached(job, v) && Log(v) == Log(w) + [e]
  {
    hide Sha256, PlanFrame, Message, AckMessage, FrameCount, Startable, Gives, Reached, IdealRun, ExpectedAck, LoopStep,
         Replied, Quiet;
    if e.reply.None? {
      Reaches(job, w, SenderSends);
      var v := Next(job, w, SenderSends);
      assert Log(v) == Log(w) + [e];
    } else {
      var a :| ValidAck(a) && Gives(job, k, a) && e.reply.value == AckMessage(a);
      GivesByStep(job, k, a);
      var o := OutcomeOf(job, k, a);
      ExchangeHappens(job, w, k, o);
      LogOfExchange(job, w, k, o);
    }
  }

  lemma ExchangeableHappens(job: Job, log: seq<Exchange>)
    requires Startable(job) && Exchangeable(job, log)
    ensures Happens(job, log)
  {
    hide Sha256, CameOver, Matches, PlanFrame, Message, FrameCount, Startable, AtRest, Log, Runs;
    if log == [] {
      StartRests(job);
    } else {
      var n := |log| - 1;
      Prefix(job, log, n);
      var w := AnsweredRests(job, log[..n]);
      LastHappens(job, w, n, log[n]);
      assert log == log[..n] + [log[n]];
    }
  }

  /** A conversation takes place in some run if and only if it is one of sendFile's with replies of the receiver's. */
  lemma HappensExactlyWhen(job: Job, log: seq<Exchange>)
    requires Startable(job)
    ensures Happens(job, log) <==> Exchangeable(job, log)
  {
    hide Exchangeable, Runs, Startable, Log;
    if Happens(job, log) {
      var steps, w :| Runs(job, START, steps, w) && Log(w) == log;
      RunIsExchangeable(job, steps, w);
    }
    if Exchangeable(job, log) {
      ExchangeableHappens(job, log);
    }
  }
}
