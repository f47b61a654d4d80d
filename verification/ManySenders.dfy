/**
 One bridge over its whole life, with any number of senders one after the other on it: they share the channel to
 the receiver, and whatever the receiver answers may reach any of them, in any order, late, or never. A sender
 that had to leave may go on with what still reaches it; nothing it writes gets through any more.
 */
module ManySenders {
  import opened Bytes
  import opened Wire
  import opened Fips180
  import opened ReceiverSpec
  import opened Sender
  import opened Forwarding
  import C = Composition
  import Codecs
  import CCodec
  import Js = JsCodec

  /**
   The senders in order of arrival, with their jobs and how far they have got; the last is the one attached. `air`
   are the acknowledgements on their way to anyone. The rest is history: `line` are the frames that reached or can
   reach the receiver, in order; the first `own` of them are from sender `owner`; `claimed` is the sender that has
   had the OK for a FILE_BEGIN.
   */
  datatype World = World(
    jobs: seq<Job>,
    states: seq<C.SenderState>,
    up: Lane,
    air: multiset<Acknowledgement>,
    recv: RState,
    running: bool,
    line: seq<Frame>,
    owner: nat,
    own: nat,
    claimed: Option<nat>)

  const START: World := World([], [], IDLE, multiset{}, WaitFile, true, [], 0, 0, None)

  /** The one acknowledgement that lets a sender go on from its FILE_BEGIN. */
  const TOKEN: Acknowledgement := Acknowledgement(FILE_BEGIN, ACK_OK, 0)

  datatype Step =
    | Arrives(job: Job)
    | Sends(who: nat)
    | Gets(who: nat, ack: Acknowledgement)
    | Fails(who: nat)
    | Loses(ack: Acknowledgement)
    | Forwards(step: LaneStep)
    | ReceiverTakes(outcome: Outcome)
    | ReceiverFails

  /** A sender of the system, in a state its job can be in. */
  predicate Typed(jobs: seq<Job>, states: seq<C.SenderState>, who: nat)
  {
    who < |jobs| == |states| && Fits(jobs[who], states[who])
  }

  predicate Fits(job: Job, s: C.SenderState)
  {
    Startable(job) && (s.Ready? || s.Waiting? ==> s.k < FrameCount(job))
  }

  ghost predicate Enabled(w: World, s: Step)
  {
    match s
    case Arrives(job) => Startable(job)
    case Sends(who) => Typed(w.jobs, w.states, who) && w.states[who].Ready?
    case Gets(who, a) => Typed(w.jobs, w.states, who) && w.states[who].Waiting? && a in w.air && ValidAck(a)
    case Fails(who) => Typed(w.jobs, w.states, who) && (w.states[who].Ready? || w.states[who].Waiting?)
    case Loses(a) => a in w.air
    case Forwards(step) => CanMove(w.up, step)
    case ReceiverTakes(o) =>
      w.running && w.up.inbox != [] && LoopStep(w.recv, w.up.inbox[0], o) &&
      (o.delivered ==> o.ack.Some? && ValidAck(o.ack.value))
    case ReceiverFails => w.running
  }

  function Arrived(w: World, job: Job): World
  {
    var up := NewPeer(w.up);
    var length := |up.consumed| + |Pending(up)|;
    w.(jobs := w.jobs + [job], states := w.states + [C.Ready(0)], up := up,
       line := if length <= |w.line| then w.line[..length] else w.line, own := Min(w.own, length))
  }

  /** The attached sender's frame joins the line; it opens it, goes on with it, or comes after somebody else's. */
  function Written(w: World, f: Frame): World
    requires w.jobs != [] && ValidFrame(f)
  {
    var who := |w.jobs| - 1;
    var v := w.(up := Send(w.up, Message(f)), line := w.line + [f]);
    if w.line == [] then v.(owner := who, own := 1)
    else if w.owner == who then v.(own := w.own + 1)
    else v
  }

  ghost function Next(w: World, s: Step): World
    requires Enabled(w, s)
  {
    match s
    case Arrives(job) => Arrived(w, job)
    case Sends(who) =>
      var k := w.states[who].k;
      var v := if who == |w.jobs| - 1 then Written(w, PlanFrame(w.jobs[who], k)) else w;
      v.(states := w.states[who := C.Waiting(k)])
    case Gets(who, a) =>
      var next := C.Replied(w.jobs[who], w.states[who].k, AckMessage(a));
      w.(states := w.states[who := next], air := w.air - multiset{a},
         claimed := if next == C.Ready(1) then Some(who) else w.claimed)
    case Fails(who) => w.(states := w.states[who := C.Rejected])
    case Loses(a) => w.(air := w.air - multiset{a})
    case Forwards(step) => w.(up := Move(w.up, step))
    case ReceiverTakes(o) =>
      w.(up := Take(w.up), recv := o.next, running := o.exit == Continue,
         air := w.air + if o.delivered then multiset{o.ack.value} else multiset{})
    case ReceiverFails => w.(recv := Failed, running := false)
  }

  ghost predicate Runs(w: World, steps: seq<Step>, end: World)
    decreases |steps|
  {
    if steps == [] then end == w else Enabled(w, steps[0]) && Runs(Next(w, steps[0]), steps[1..], end)
  }

  /** What can happen when: a sender arrives, fails or loses an answer at any moment, and takes any answer there is. */
  lemma PossibleSteps(w: World, job: Job, who: nat, a: Acknowledgement)
    ensures Startable(job) ==> Enabled(w, Arrives(job))
    ensures a in w.air ==> Enabled(w, Loses(a))
    ensures Typed(w.jobs, w.states, who) && w.states[who].Ready? ==> Enabled(w, Sends(who)) && Enabled(w, Fails(who))
    ensures Typed(w.jobs, w.states, who) && w.states[who].Waiting? ==>
            Enabled(w, Fails(who)) && (a in w.air && ValidAck(a) ==> Enabled(w, Gets(who, a)))
    ensures w.running ==> Enabled(w, ReceiverFails)
    ensures w.up.reader ==> Enabled(w, Forwards(StopReader))
    ensures w.up.writer ==> Enabled(w, Forwards(StopWriter))
  {
    hide Startable, FrameCount;
  }

  // What every run keeps, part by part.

  predicate AllTyped(jobs: seq<Job>, states: seq<C.SenderState>)
  {
    |states| == |jobs| && forall i | 0 <= i < |jobs| :: Fits(jobs[i], states[i])
  }

  /** The line is what the receiver has taken and what is under way to it. */
  predicate Lined(messages: seq<ByteString>, line: seq<Frame>)
  {
    |line| == |messages| && forall i | 0 <= i < |line| :: ValidFrame(line[i]) && messages[i] == Message(line[i])
  }

  function Messages(l: Lane): seq<ByteString> { l.consumed + Pending(l) }

  /** The line starts with frames of one plan, and goes on, if at all, with a FILE_BEGIN after that sender has left. */
  ghost predicate Owned(jobs: seq<Job>, line: seq<Frame>, owner: nat, own: nat)
  {
    if line == [] then own == 0
    else
      owner < |jobs| && Startable(jobs[owner]) && 1 <= own <= |line| && own <= FrameCount(jobs[owner]) &&
      line[..own] == Frames(jobs[owner], own) &&
      (own < |line| ==> owner < |jobs| - 1 && line[own].kind == FILE_BEGIN)
  }

  /** Where the attached sender stands in a line of `length` frames. */
  predicate Standing(states: seq<C.SenderState>, length: nat, owner: nat, own: nat)
  {
    states != [] ==>
      var mine := length > 0 && owner == |states| - 1;
      match states[|states| - 1]
      case Ready(k) => if mine then own == length == k else k == 0 || own < length
      case Waiting(k) => if mine then own == length == k + 1 else own < length
      case _ => true
  }

  /** With `c` frames taken, the receiver has followed the owner's plan, and completes with the owner's file only. */
  ghost predicate Received(jobs: seq<Job>, owner: nat, own: nat, c: nat, recv: RState, running: bool)
  {
    (running ==>
       c <= own && Open(recv) &&
       if own == 0 then recv == WaitFile
       else owner < |jobs| && Startable(jobs[owner]) && c <= FrameCount(jobs[owner]) &&
            recv == IdealRun(Frames(jobs[owner], c))) &&
    (recv.Complete? ==> owner < |jobs| && Placed(recv, jobs[owner]) && own == FrameCount(jobs[owner]) <= c)
  }

  /** Exactly the bytes of that job are in place, and their hash is the digest it announced. */
  predicate Placed(recv: RState, job: Job)
  {
    recv == Complete(Meta(job), job.file) && Digest(job) == Sha256(job.file)
  }

  predicate Advanced(s: C.SenderState)
  {
    match s
    case Ready(k) => k >= 1
    case Waiting(k) => k >= 1
    case Resolved => true
    case Rejected => false
  }

  /** There is one OK for a FILE_BEGIN at most; who has had it is the only one to go on. */
  predicate Tokens(states: seq<C.SenderState>, air: multiset<Acknowledgement>, c: nat, owner: nat, own: nat,
                   claimed: Option<nat>)
  {
    air[TOKEN] <= 1 && (claimed.Some? ==> TOKEN !in air) && (c == 0 ==> claimed.None? && TOKEN !in air) &&
    (own >= 2 ==> claimed == Some(owner)) &&
    (forall i | 0 <= i < |states| :: Advanced(states[i]) ==> claimed == Some(i))
  }

  /** The OK for a FILE_END is about a file in place. */
  predicate Finals(states: seq<C.SenderState>, air: multiset<Acknowledgement>, recv: RState)
  {
    (forall a | a in air :: a.kind == FILE_END && a.status == ACK_OK ==> recv.Complete?) &&
    (forall i | 0 <= i < |states| :: states[i].Resolved? ==> recv.Complete?)
  }

  ghost predicate Inv(w: World)
  {
    AllTyped(w.jobs, w.states) && Lined(Messages(w.up), w.line) && Owned(w.jobs, w.line, w.owner, w.own) &&
    Standing(w.states, |w.line|, w.owner, w.own) &&
    Received(w.jobs, w.owner, w.own, |w.up.consumed|, w.recv, w.running) &&
    Tokens(w.states, w.air, |w.up.consumed|, w.owner, w.own, w.claimed) && Finals(w.states, w.air, w.recv)
  }

  lemma StartInv()
    ensures Inv(START)
  {
    hide Sha256;
  }

  // Each step, with the parts it does not concern hidden.

  lemma FailsKeeps(w: World, who: nat)
    requires Inv(w) && Enabled(w, Fails(who))
    ensures Inv(Next(w, Fails(who)))
  {
    hide Sha256, Lined, Owned, Messages, Received, Fits;
    FitsRejected(w.jobs[who], w.states[who]);
  }

  lemma FitsRejected(job: Job, s: C.SenderState)
    requires Fits(job, s)
    ensures Fits(job, C.Rejected)
  {
    hide Startable, FrameCount;
  }

  lemma LosesKeeps(w: World, a: Acknowledgement)
    requires Inv(w) && Enabled(w, Loses(a))
    ensures Inv(Next(w, Loses(a)))
  {
    hide Sha256, Lined, Owned, Messages, Received, AllTyped, Standing, Advanced;
  }

  lemma ReceiverFailsKeeps(w: World)
    requires Inv(w) && Enabled(w, ReceiverFails)
    ensures Inv(Next(w, ReceiverFails))
  {
    hide Sha256, Lined, Owned, Messages, AllTyped, Standing, Tokens, IdealRun, Startable, FrameCount;
  }

  lemma ForwardsKeeps(w: World, step: LaneStep)
    requires Inv(w) && Enabled(w, Forwards(step))
    ensures Inv(Next(w, Forwards(step)))
  {
    hide Sha256, Lined, Owned, AllTyped, Standing, Received, Tokens, Finals, Pending, Move, CanMove;
    MovePending(w.up, step);
  }

  /** The line is cut behind what the receiver took and what is in the channel for it. */
  lemma CutLine(jobs: seq<Job>, line: seq<Frame>, owner: nat, own: nat, length: nat, job: Job)
    requires Owned(jobs, line, owner, own) && length <= |line|
    ensures Owned(jobs + [job], line[..length], owner, Min(own, length))
  {
    hide Sha256, PlanFrame, FrameCount, Startable;
    if line != [] {
      var cut := Min(own, length);
      assert line[..length][..cut] == line[..own][..cut];
      assert Frames(jobs[owner], cut) == Frames(jobs[owner], own)[..cut];
    }
  }

  /** A later sender, and a shorter line, are no matter to the receiver. */
  lemma CutReceived(jobs: seq<Job>, owner: nat, own: nat, c: nat, recv: RState, running: bool, length: nat, job: Job)
    requires Received(jobs, owner, own, c, recv, running) && c <= length
    ensures Received(jobs + [job], owner, Min(own, length), c, recv, running)
  {
    hide Sha256, PlanFrame, FrameCount, IdealRun, Startable;
    NothingYet();
    if own > 0 && running {
      assert Frames(jobs[owner], 0) == [];
    }
  }

  lemma CutMessages(l: Lane, line: seq<Frame>)
    requires Lined(Messages(l), line)
    ensures var length := |l.consumed| + |Pending(NewPeer(l))|;
            length <= |line| && Lined(Messages(NewPeer(l)), line[..length])
  {
    hide Message, Pending;
    NewPeerPending(l);
  }

  lemma ArrivesKeeps(w: World, job: Job)
    requires Inv(w) && Enabled(w, Arrives(job))
    ensures Inv(Next(w, Arrives(job)))
  {
    hide Sha256, Lined, Owned, Received, Pending, Messages, FrameCount;
    var v := Arrived(w, job);
    var length := |v.up.consumed| + |Pending(v.up)|;
    CutMessages(w.up, w.line);
    CutLine(w.jobs, w.line, w.owner, w.own, length, job);
    CutReceived(w.jobs, w.owner, w.own, |w.up.consumed|, w.recv, w.running, length, job);
    FirstIsBegin(job);
    OwnerIsThere(w.jobs, w.line, w.owner, w.own);
  }

  lemma OwnerIsThere(jobs: seq<Job>, line: seq<Frame>, owner: nat, own: nat)
    requires Owned(jobs, line, owner, own)
    ensures own <= |line| && (line != [] ==> own >= 1 && owner < |jobs|) && (own < |line| ==> owner < |jobs| - 1)
  {
  }

  lemma FirstIsBegin(job: Job)
    requires Startable(job)
    ensures PlanFrame(job, 0).kind == FILE_BEGIN && ExpectedAck(job, 0) == TOKEN && FrameCount(job) >= 2
    ensures var last := ExpectedAck(job, FrameCount(job) - 1); last.kind == FILE_END && last.status == ACK_OK
    ensures forall k | 1 <= k < FrameCount(job) :: PlanFrame(job, k).kind != FILE_BEGIN
    ensures forall k | 0 <= k < FrameCount(job) - 1 :: PlanFrame(job, k).kind != FILE_END
  {
    hide Sha256;
  }

  lemma SendMessages(l: Lane, line: seq<Frame>, f: Frame)
    requires Lined(Messages(l), line) && ValidFrame(f)
    ensures Lined(Messages(Send(l, Message(f))), line + [f])
  {
    hide Message, Pending;
    SendPending(l, Message(f));
  }

  /** The next frame of the attached sender, at the end of the line. */
  lemma ExtendLine(jobs: seq<Job>, line: seq<Frame>, owner: nat, own: nat, k: nat)
    requires jobs != [] && Owned(jobs, line, owner, own)
    requires Startable(jobs[|jobs| - 1]) && k < FrameCount(jobs[|jobs| - 1])
    requires if line != [] && owner == |jobs| - 1 then own == |line| == k else k == 0 || own < |line|
    ensures var who := |jobs| - 1; var f := PlanFrame(jobs[who], k);
            if line == [] then Owned(jobs, line + [f], who, 1)
            else Owned(jobs, line + [f], owner, if owner == who then own + 1 else own)
  {
    hide Sha256, PlanFrame, FrameCount, Startable;
    var who := |jobs| - 1;
    var f := PlanFrame(jobs[who], k);
    FirstIsBegin(jobs[who]);
    if line == [] {
      assert line + [f] == [f] == Frames(jobs[who], 1);
    } else if owner == who {
      assert line[..own] == line;
      assert Frames(jobs[who], own + 1) == Frames(jobs[who], own) + [f];
    } else {
      assert (line + [f])[..own] == line[..own];
    }
  }

  /** Nor does a longer line matter to it. */
  lemma ExtendReceived(jobs: seq<Job>, owner: nat, own: nat, c: nat, recv: RState, running: bool,
                       owner': nat, own': nat)
    requires Received(jobs, owner, own, c, recv, running)
    requires owner' < |jobs| && Startable(jobs[owner']) && 1 <= own' <= FrameCount(jobs[owner'])
    requires if own == 0 then c == 0 else owner' == owner && own <= own'
    ensures Received(jobs, owner', own', c, recv, running)
  {
    hide Sha256, PlanFrame, IdealRun, Startable;
    NothingYet();
    assert Frames(jobs[owner'], 0) == [];
  }

  lemma SendsKeeps(w: World, who: nat)
    requires Inv(w) && Enabled(w, Sends(who))
    ensures Inv(Next(w, Sends(who)))
  {
    hide Sha256, Lined, Owned, Messages, Received, PlanFrame, Fits, Written;
    FitsWaiting(w.jobs[who], w.states[who].k);
    if who == |w.jobs| - 1 {
      WrittenKeeps(w, w.states[who].k);
    }
  }

  lemma FitsWaiting(job: Job, k: nat)
    requires Fits(job, C.Ready(k))
    ensures Fits(job, C.Waiting(k)) && Startable(job) && k < FrameCount(job)
  {
    hide Startable, FrameCount;
  }

  lemma FitsAnswered(job: Job, k: nat)
    requires Fits(job, C.Waiting(k))
    ensures Startable(job) && k < FrameCount(job) && Fits(job, C.Rejected) && Fits(job, C.Resolved)
    ensures k + 1 < FrameCount(job) ==> Fits(job, C.Ready(k + 1))
  {
    hide Startable, FrameCount;
  }

  lemma WrittenKeeps(w: World, k: nat)
    requires Inv(w) && w.jobs != [] && w.states[|w.jobs| - 1] == C.Ready(k)
    ensures var v := Written(w, PlanFrame(w.jobs[|w.jobs| - 1], k));
            v == w.(up := v.up, line := v.line, owner := v.owner, own := v.own) && v.up.consumed == w.up.consumed &&
            Lined(Messages(v.up), v.line) && Owned(v.jobs, v.line, v.owner, v.own) &&
            Received(v.jobs, v.owner, v.own, |v.up.consumed|, v.recv, v.running) &&
            (if v.owner == |w.jobs| - 1 then v.own == |v.line| == k + 1 else v.own < |v.line|) &&
            (v.own >= 2 ==> w.claimed == Some(v.owner))
  {
    hide Sha256, Lined, Owned, Messages, Received, PlanFrame, Fits, Finals, Message;
    var who := |w.jobs| - 1;
    FitsWaiting(w.jobs[who], k);
    OwnerIsThere(w.jobs, w.line, w.owner, w.own);
    SendMessages(w.up, w.line, PlanFrame(w.jobs[who], k));
    ExtendLine(w.jobs, w.line, w.owner, w.own, k);
    WrittenReceived(w, k);
  }

  lemma WrittenReceived(w: World, k: nat)
    requires Inv(w) && w.jobs != [] && w.states[|w.jobs| - 1] == C.Ready(k)
    ensures var v := Written(w, PlanFrame(w.jobs[|w.jobs| - 1], k));
            Received(v.jobs, v.owner, v.own, |v.up.consumed|, v.recv, v.running)
  {
    hide Sha256, PlanFrame, Tokens, Finals, IdealRun, Received, Pending, Message, FrameCount, Startable;
    var v := Written(w, PlanFrame(w.jobs[|w.jobs| - 1], k));
    FirstIsBegin(w.jobs[|w.jobs| - 1]);
    ExtendReceived(w.jobs, w.owner, w.own, |w.up.consumed|, w.recv, w.running, v.owner, v.own);
  }

  /** What a sender takes for its answer. */
  lemma RepliedMeans(job: Job, k: nat, a: Acknowledgement)
    requires Startable(job) && k < FrameCount(job) && ValidAck(a)
    ensures C.Replied(job, k, AckMessage(a)) ==
            if a != ExpectedAck(job, k) then C.Rejected
            else if k + 1 == FrameCount(job) then C.Resolved else C.Ready(k + 1)
  {
    hide Sha256, AckMessage, Js.DecodeAck, ExpectedAck, FrameCount, Startable;
    Codecs.JsDecodesExactlyAcks(AckMessage(a), a);
  }

  /** Having the OK for a FILE_BEGIN takes it from everybody else; nothing else passes it on. */
  lemma GetsTokens(states: seq<C.SenderState>, air: multiset<Acknowledgement>, c: nat, owner: nat, own: nat,
                   claimed: Option<nat>, who: nat, k: nat, a: Acknowledgement, next: C.SenderState)
    requires Tokens(states, air, c, owner, own, claimed) && who < |states| && states[who] == C.Waiting(k) && a in air
    requires Advanced(next) ==> (if k == 0 then a == TOKEN && next == C.Ready(1) else next != C.Ready(1))
    ensures Tokens(states[who := next], air - multiset{a}, c, owner, own,
                   if next == C.Ready(1) then Some(who) else claimed)
  {
  }

  lemma GetsKeeps(w: World, who: nat, a: Acknowledgement)
    requires Inv(w) && Enabled(w, Gets(who, a))
    ensures Inv(Next(w, Gets(who, a)))
  {
    hide Sha256, Lined, Owned, Messages, Received, PlanFrame, FrameCount, Fits, AckMessage, ExpectedAck, C.Replied,
         Tokens;
    var k := w.states[who].k;
    FitsAnswered(w.jobs[who], k);
    RepliedMeans(w.jobs[who], k, a);
    FirstIsBegin(w.jobs[who]);
    GetsTokens(w.states, w.air, |w.up.consumed|, w.owner, w.own, w.claimed, who, k, a,
               C.Replied(w.jobs[who], k, AckMessage(a)));
  }

  /** What comes of the receiver's next step, for the receiver and for the senders. */
  ghost predicate Taken(jobs: seq<Job>, owner: nat, own: nat, c: nat, o: Outcome)
  {
    Received(jobs, owner, own, c + 1, o.next, o.exit == Continue) &&
    (o.ack == Some(TOKEN) ==> c == 0) &&
    (o.ack.Some? && o.ack.value.kind == FILE_END && o.ack.value.status == ACK_OK ==> o.next.Complete?)
  }

  /** A frame of the owner is a step along its plan. */
  lemma TakesOwn(jobs: seq<Job>, owner: nat, own: nat, c: nat, recv: RState, m: ByteString, o: Outcome)
    requires Received(jobs, owner, own, c, recv, true) && own > 0 && owner < |jobs| && Startable(jobs[owner])
    requires c < own <= FrameCount(jobs[owner]) && LoopStep(recv, m, o)
    requires CCodec.RelayMessageDecode(m) == Some(PlanFrame(jobs[owner], c))
    ensures Taken(jobs, owner, own, c, o)
  {
    hide Sha256, PlanFrame, FrameCount, IdealRun, Startable, LoopStep, CCodec.RelayMessageDecode;
    C.StepAlongPlan(jobs[owner], c, recv, m, o);
    FirstIsBegin(jobs[owner]);
  }

  /** Anything after it is a FILE_BEGIN, which a receiver that has begun a file refuses. */
  lemma TakesOther(jobs: seq<Job>, owner: nat, own: nat, recv: RState, m: ByteString, f: Frame, o: Outcome)
    requires Received(jobs, owner, own, own, recv, true) && own > 0 && LoopStep(recv, m, o)
    requires CCodec.RelayMessageDecode(m) == Some(f) && f.kind == FILE_BEGIN
    ensures Taken(jobs, owner, own, own, o)
  {
    hide Sha256, FrameCount, IdealRun, Startable, CCodec.RelayMessageDecode, Announces;
    NotWaiting(Frames(jobs[owner], own));
  }

  lemma TakeMessages(l: Lane, line: seq<Frame>)
    requires Lined(Messages(l), line) && l.inbox != []
    ensures |l.consumed| < |line| && CCodec.RelayMessageDecode(l.inbox[0]) == Some(line[|l.consumed|])
    ensures Lined(Messages(Take(l)), line) && |Take(l).consumed| == |l.consumed| + 1
  {
    hide Message, Pending, CCodec.RelayMessageDecode;
    TakePending(l);
    assert Messages(Take(l)) == Messages(l);
    assert Messages(l)[|l.consumed|] == l.inbox[0];
    Codecs.CDecodesExactlyMessages(l.inbox[0], line[|l.consumed|]);
  }

  lemma LineAt(jobs: seq<Job>, line: seq<Frame>, owner: nat, own: nat, c: nat)
    requires Owned(jobs, line, owner, own) && c < |line| && c <= own
    ensures own > 0 && owner < |jobs| && Startable(jobs[owner]) && own <= FrameCount(jobs[owner])
    ensures if c < own then line[c] == PlanFrame(jobs[owner], c) else line[c].kind == FILE_BEGIN
  {
    hide Sha256, PlanFrame, FrameCount, Startable;
    assert c < own ==> line[c] == line[..own][c];
  }

  lemma TakesKeeps(w: World, o: Outcome)
    requires Inv(w) && Enabled(w, ReceiverTakes(o))
    ensures Inv(Next(w, ReceiverTakes(o)))
  {
    hide Sha256, Lined, Owned, Messages, PlanFrame, FrameCount, Startable, IdealRun, LoopStep, AllTyped, Standing,
         Advanced, CCodec.RelayMessageDecode, Take;
    var c := |w.up.consumed|;
    TakeMessages(w.up, w.line);
    LineAt(w.jobs, w.line, w.owner, w.own, c);
    if c < w.own {
      TakesOwn(w.jobs, w.owner, w.own, c, w.recv, w.up.inbox[0], o);
    } else {
      TakesOther(w.jobs, w.owner, w.own, w.recv, w.up.inbox[0], w.line[c], o);
    }
  }

  lemma NextKeeps(w: World, s: Step)
    requires Inv(w) && Enabled(w, s)
    ensures Inv(Next(w, s))
  {
    hide Inv, Enabled, Next;
    match s {
      case Arrives(job) => ArrivesKeeps(w, job);
      case Sends(who) => SendsKeeps(w, who);
      case Gets(who, a) => GetsKeeps(w, who, a);
      case Fails(who) => FailsKeeps(w, who);
      case Loses(a) => LosesKeeps(w, a);
      case Forwards(step) => ForwardsKeeps(w, step);
      case ReceiverTakes(o) => TakesKeeps(w, o);
      case ReceiverFails => ReceiverFailsKeeps(w);
    }
  }

  lemma {:induction false} RunKeeps(w: World, steps: seq<Step>, end: World)
    requires Inv(w) && Runs(w, steps, end)
    ensures Inv(end)
    decreases |steps|
  {
    hide Inv, Enabled, Next;
    if steps != [] {
      NextKeeps(w, steps[0]);
      RunKeeps(Next(w, steps[0]), steps[1..], end);
    }
  }

  /**
   End to end, with any number of senders on the bridge: a sendFile that has resolved, whether still attached or
   not, has its own bytes in place under their digest; so one of them resolves at most. And what is in place is
   always the whole file of one of them.
   */
  lemma EndToEnd(steps: seq<Step>, w: World)
    requires Runs(START, steps, w)
    ensures |w.states| == |w.jobs|
    ensures forall i | 0 <= i < |w.jobs| && w.states[i].Resolved? :: Placed(w.recv, w.jobs[i])
    ensures forall i, j | 0 <= i < |w.jobs| && 0 <= j < |w.jobs| ::
              w.states[i].Resolved? && w.states[j].Resolved? ==> i == j
    ensures w.recv.Complete? ==> w.owner < |w.jobs| && Placed(w.recv, w.jobs[w.owner])
  {
    hide Sha256, Runs, Lined, Owned, Messages, Startable, IdealRun, Standing;
    StartInv();
    RunKeeps(START, steps, w);
  }
}
