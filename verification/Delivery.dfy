/** The receive loop and sendFile themselves, put together on a platform and a connection where nothing fails. */
module Delivery {
  import opened Bytes
  import opened Wire
  import opened Fips180
  import opened Storage
  import opened ReceiverSpec
  import S = Sender
  import L = ReceiverLoop
  import PlanRun
  import Codecs
  import C = CCodec
  import Js = JsCodec
  import Filename

  /** The sender's messages by number, and FILE_END after the last. */
  function Planned(job: S.Job, i: nat): ByteString
    requires S.Startable(job)
  {
    if i < S.FrameCount(job) then Message(S.PlanFrame(job, i)) else Message(Frame(FILE_END, []))
  }

  ghost predicate NothingFails(platform: Platform, link: nat -> bool)
  {
    forall i: nat :: platform.calls(i) && platform.hashing(i) && platform.jobIds(i) && link(i)
  }

  lemma PlannedDecodes(job: S.Job, i: nat)
    requires S.Startable(job)
    ensures C.RelayMessageDecode(Planned(job, i)) ==
            Some(if i < S.FrameCount(job) then S.PlanFrame(job, i) else Frame(FILE_END, []))
  {
    hide Sha256, Message, S.PlanFrame, C.RelayMessageDecode, S.FrameCount;
    var f := if i < S.FrameCount(job) then S.PlanFrame(job, i) else Frame(FILE_END, []);
    Codecs.CDecodesExactlyMessages(Planned(job, i), f);
  }

  lemma {:induction false} PlannedFrames(job: S.Job, peer: nat -> ByteString, n: nat)
    requires S.Startable(job) && n <= S.FrameCount(job)
    requires forall i: nat :: peer(i) == Planned(job, i)
    ensures L.Decodable(peer, n) && L.Frames(peer, n) == S.Frames(job, n)
  {
    hide Sha256, Message, S.PlanFrame, C.RelayMessageDecode, S.FrameCount, Planned, S.Startable;
    if n > 0 {
      PlannedFrames(job, peer, n - 1);
      PlannedDecodes(job, n - 1);
      PlanRun.OneMore(job, n - 1);
    }
  }

  /** A run over the plan that nothing but the frames can end is the whole plan, and completes. */
  lemma RunsThrough(job: S.Job, peer: nat -> ByteString, handled: nat, acks: seq<Acknowledgement>, exit: Exit,
                    end: RState)
    requires S.Acceptable(job) && (forall i: nat :: peer(i) == Planned(job, i))
    requires L.Decodable(peer, handled) && RunSpec(L.Frames(peer, handled), acks, exit, end) && exit != Continue
    requires L.RunExplained(peer, handled, exit, false, false)
    ensures handled == S.FrameCount(job) && exit == ExitOk && end == Complete(S.Meta(job), job.file)
    ensures acks == OkAcks(S.Frames(job, handled))
  {
    hide Sha256, Message, S.PlanFrame, C.RelayMessageDecode, S.FrameCount, Planned, IdealRun, OkAcks, L.Frames,
         Filename.Sanitized;
    RunsNoFurther(job, peer, handled, acks, exit, end);
    PlannedFrames(job, peer, handled);
    PlanRun.AcceptableRuns(job, handled);
    assert peer(handled) == Planned(job, handled);
    PlannedDecodes(job, handled);
    if handled == S.FrameCount(job) {
      PlanRun.WholePlan(job);
    }
  }

  lemma RunsNoFurther(job: S.Job, peer: nat -> ByteString, handled: nat, acks: seq<Acknowledgement>, exit: Exit,
                      end: RState)
    requires S.Acceptable(job) && (forall i: nat :: peer(i) == Planned(job, i))
    requires L.Decodable(peer, handled) && RunSpec(L.Frames(peer, handled), acks, exit, end)
    ensures handled <= S.FrameCount(job)
  {
    hide Sha256, Message, S.PlanFrame, C.RelayMessageDecode, S.FrameCount, Planned, IdealRun, OkAcks, L.Frames, RunSpec,
         Filename.Sanitized;
    var n := S.FrameCount(job);
    if handled > n {
      PlannedFrames(job, peer, n);
      PlanRun.AcceptableRuns(job, n);
      StillOpen(L.Frames(peer, handled), acks, exit, end);
      FramesFront(peer, handled);
      EarlierOpen(peer, handled - 1, n);
    }
  }

  lemma FramesFront(peer: nat -> ByteString, n: nat)
    requires L.Decodable(peer, n) && n > 0
    ensures L.Frames(peer, n)[..n - 1] == L.Frames(peer, n - 1)
  {
    hide C.RelayMessageDecode;
  }

  /** What is still open was open before. */
  lemma {:induction false} EarlierOpen(peer: nat -> ByteString, n: nat, k: nat)
    requires L.Decodable(peer, n) && k <= n && Open(IdealRun(L.Frames(peer, n)))
    ensures Open(IdealRun(L.Frames(peer, k)))
  {
    hide C.RelayMessageDecode, IdealRun, IdealStep;
    if k < n {
      var f := C.RelayMessageDecode(peer(n - 1)).value;
      Unroll(L.Frames(peer, n - 1), f);
      OpenBefore(IdealRun(L.Frames(peer, n - 1)), f);
      EarlierOpen(peer, n - 1, k);
    }
  }

  lemma OpenBefore(s: RState, f: Frame)
    requires Open(IdealStep(s, f))
    ensures Open(s)
  {
    hide Sha256, Announces;
  }

  lemma AcksAsExpected(job: S.Job, n: nat)
    requires S.Acceptable(job) && n <= S.FrameCount(job)
    ensures |OkAcks(S.Frames(job, n))| == n
    ensures forall i | 0 <= i < n :: OkAcks(S.Frames(job, n))[i] == S.ExpectedAck(job, i)
    decreases n
  {
    hide Sha256, Filename.Sanitized, IdealRun, OkAcks, S.PlanFrame, S.FrameCount, S.ExpectedAck;
    OkAcksLength(S.Frames(job, n));
    if n > 0 {
      AcksAsExpected(job, n - 1);
      PlanRun.AcceptableRuns(job, n);
    }
  }

  /**
   The receive loop, given the frames of an acceptable file where nothing fails: it ends well, the file is in place, and
   exactly the acknowledgements the sender awaits have gone out.
   */
  method Receive(job: S.Job, peer: nat -> ByteString, platform: Platform, link: nat -> bool)
    returns (loop: L.Loop, exit: Exit)
    requires S.Acceptable(job) && NothingFails(platform, link) && (forall i: nat :: peer(i) == Planned(job, i))
    ensures exit == ExitOk && loop.protocol.handler.sink.final == Some(job.file)
    ensures |loop.sent| == S.FrameCount(job)
    ensures forall i | 0 <= i < |loop.sent| ::
              i < S.FrameCount(job) && loop.sent[i] == AckMessage(S.ExpectedAck(job, i))
  {
    hide Sha256, RunSpec, L.RunExplained, L.Decodable, S.FrameCount, Filename.Sanitized, AckMessage, S.ExpectedAck,
         AllGood, S.Startable;
    loop := new L.Loop(platform, link);
    var handled, acks;
    exit, handled, acks := loop.Run(peer);
    loop.protocol.handler.NeverFaulted(platform);
    GoodThroughout(link, 0, loop.linkUses);
    RunsThrough(job, peer, handled, acks, exit, loop.Abs());
    AcksAsExpected(job, handled);
  }

  /**
   Both ends themselves: the file of an acceptable job is received from its frames, and sendFile, hearing what the
   receiver then sent, resolves.
   */
  method Transfer(job: S.Job, peer: nat -> ByteString, platform: Platform, link: nat -> bool)
    returns (r: S.SendResult, loop: L.Loop)
    requires S.Acceptable(job) && NothingFails(platform, link) && (forall i: nat :: peer(i) == Planned(job, i))
    ensures r == S.Confirmed && loop.protocol.handler.sink.final == Some(job.file)
  {
    hide Sha256, S.FrameCount, Filename.Sanitized, AckMessage, S.ExpectedAck, S.Startable, S.Matches,
         Planned, S.EndedIn;
    var exit;
    loop, exit := Receive(job, peer, platform, link);
    var sent := loop.sent;
    var reply := (i: nat) => if i < |sent| then Some(sent[i]) else None;
    var around := S.Surroundings(_ => true, _ => true, _ => true, reply);
    var socket := new S.Socket(around);
    r := S.SendFile(job, socket);
    forall i | 0 <= i < S.FrameCount(job)
      ensures S.Matches(job, i, around.reply(i))
    {
      ExpectedMatches(job, i);
    }
    S.ResolvesExactlyIfAllWell(job, socket.log, r, around);
  }

  lemma ExpectedMatches(job: S.Job, i: nat)
    requires S.Startable(job) && i < S.FrameCount(job)
    ensures S.Matches(job, i, Some(AckMessage(S.ExpectedAck(job, i))))
  {
    hide Sha256, AckMessage, Js.DecodeAck, S.ExpectedAck;
    Codecs.JsDecodesExactlyAcks(AckMessage(S.ExpectedAck(job, i)), S.ExpectedAck(job, i));
  }
}
