/**
 What the receiver is for, without its five layers: the state one session is in
 after a sequence of frames when nothing fails, and what one iteration of the
 receive loop may do when anything can.
 */
module ReceiverSpec {
  import opened Bytes
  import opened Wire
  import opened Fips180
  import Filename
  import CCodec
  import Codecs

  datatype RState =
    | WaitFile
    | Receiving(meta: FileMeta, got: ByteString)
    | Complete(meta: FileMeta, got: ByteString)
    | Failed

  /** The next state when storage and hashing succeed; `Failed` when the frame has to be refused. */
  function IdealStep(s: RState, f: Frame): RState
  {
    match s
    case WaitFile =>
      if f.kind == FILE_BEGIN && Announces(f.payload)
      then Receiving(CCodec.FileBeginDecode(f.payload).value, [])
      else Failed
    case Receiving(meta, got) =>
      if f.kind == CHUNK && f.payload != [] && |got| + |f.payload| <= meta.size then Receiving(meta, got + f.payload)
      else if f.kind == FILE_END && f.payload == [] && |got| == meta.size && Sha256(got) == meta.digest
      then Complete(meta, got)
      else Failed
    case _ => Failed
  }

  /** A FILE_BEGIN payload the receiver can start a file with. */
  predicate Announces(payload: ByteString)
  {
    var meta := CCodec.FileBeginDecode(payload);
    meta.Some? && Filename.Sanitized(meta.value.name).Ok?
  }

  function IdealRun(frames: seq<Frame>): RState
  {
    if frames == [] then WaitFile else IdealStep(IdealRun(frames[..|frames| - 1]), frames[|frames| - 1])
  }

  /** Bytes accepted so far, as ACKs report them. */
  function Got(s: RState): nat
  {
    match s
    case Receiving(_, got) => |got|
    case Complete(_, got) => |got|
    case _ => 0
  }

  /** FILE_END arrives before the last byte: the frame after which the handler lets go too early. */
  predicate EndsEarly(s: RState, f: Frame)
  {
    s.Receiving? && f.kind == FILE_END && f.payload == [] && |s.got| < s.meta.size
  }

  datatype Exit = Continue | ExitOk | ReceiveError | ProtocolError | SendError

  /** What the loop does with one message, if it gets to see it. */
  datatype Outcome = Outcome(next: RState, ack: Option<Acknowledgement>, delivered: bool, exit: Exit)

  /** The frame is accepted, and acknowledged with OK and the byte count reached. */
  predicate Accepts(s: RState, f: Frame, o: Outcome)
  {
    var t := IdealStep(s, f);
    t != Failed && o.ack == Some(Acknowledgement(f.kind, ACK_OK, Got(t))) &&
    if o.delivered then o.next == t && o.exit == (if t.Complete? then ExitOk else Continue)
    else o.next == (if t.Complete? then t else Failed) && o.exit == SendError
  }

  /** What a refused frame is told: it depends on the frame and the state alone, whatever made the refusal necessary. */
  function RefusalStatus(s: RState, f: Frame): (status: nat)
    ensures status in {ACK_PROTOCOL_ERROR, ACK_STORAGE_ERROR, ACK_REJECTED}
  {
    if s.WaitFile? && f.kind == FILE_BEGIN then
      if Announces(f.payload) then ACK_STORAGE_ERROR else ACK_REJECTED
    else if s.Receiving? && f.kind == CHUNK && f.payload != [] then ACK_STORAGE_ERROR
    else if s.Receiving? && f.kind == FILE_END && f.payload == [] then ACK_STORAGE_ERROR
    else ACK_PROTOCOL_ERROR
  }

  function RefusalAck(s: RState, f: Frame): Acknowledgement { Acknowledgement(f.kind, RefusalStatus(s, f), Got(s)) }

  /** The frame is refused; a data frame is told so, with the byte count it found. */
  predicate Refuses(s: RState, f: Frame, o: Outcome)
  {
    o.next == Failed && o.exit == ProtocolError &&
    (o.delivered ==> o.ack.Some?) &&
    o.ack == if AckableKind(f.kind) then Some(RefusalAck(s, f)) else None
  }

  /** The connection gives up, or hands over something that is not a frame. */
  predicate Drops(o: Outcome) { o == Outcome(Failed, None, false, ReceiveError) }

  ghost predicate LoopStep(s: RState, message: ByteString, o: Outcome)
  {
    (s.WaitFile? || s.Receiving?) &&
    (Drops(o) ||
     (CCodec.RelayMessageDecode(message).Some? &&
      var f := CCodec.RelayMessageDecode(message).value;
      Accepts(s, f, o) || Refuses(s, f, o)))
  }

  // Whole runs.

  predicate Open(s: RState) { s.WaitFile? || s.Receiving? }

  /** The acknowledgements of a sequence of accepted frames. */
  function OkAcks(frames: seq<Frame>): seq<Acknowledgement>
  {
    if frames == [] then []
    else OkAcks(frames[..|frames| - 1]) + [Acknowledgement(frames[|frames| - 1].kind, ACK_OK, Got(IdealRun(frames)))]
  }

  /** The frames handled, the ACKs attempted and the state left by one whole run of the loop. */
  predicate RunSpec(frames: seq<Frame>, acks: seq<Acknowledgement>, exit: Exit, end: RState)
  {
    match exit
    case Continue => acks == OkAcks(frames) && end == IdealRun(frames) && Open(end)
    case ExitOk => acks == OkAcks(frames) && end == IdealRun(frames) && end.Complete?
    case ReceiveError => acks == OkAcks(frames) && end == Failed && Open(IdealRun(frames))
    case SendError =>
      acks == OkAcks(frames) && IdealRun(frames) != Failed && frames != [] &&
      end == (if IdealRun(frames).Complete? then IdealRun(frames) else Failed)
    case ProtocolError =>
      frames != [] && end == Failed &&
      var last := frames[|frames| - 1];
      var before := frames[..|frames| - 1];
      Open(IdealRun(before)) &&
      acks == OkAcks(before) + if AckableKind(last.kind) then [RefusalAck(IdealRun(before), last)] else []
  }

  lemma Unroll(frames: seq<Frame>, f: Frame)
    ensures IdealRun(frames + [f]) == IdealStep(IdealRun(frames), f)
    ensures OkAcks(frames + [f]) == OkAcks(frames) + [Acknowledgement(f.kind, ACK_OK, Got(IdealRun(frames + [f])))]
    ensures |OkAcks(frames)| == |frames|
  {
    hide IdealStep;
    assert (frames + [f])[..|frames|] == frames;
    OkAcksLength(frames);
  }

  /** A step never goes back to waiting; it finishes on FILE_END and otherwise only data frames get through. */
  lemma StepShape(s: RState, f: Frame)
    ensures IdealStep(s, f) != WaitFile
    ensures IdealStep(s, f) != Failed ==> AckableKind(f.kind) && (IdealStep(s, f).Complete? <==> f.kind == FILE_END)
    ensures s.Receiving? && IdealStep(s, f).Receiving? ==>
            Got(s) < Got(IdealStep(s, f)) <= s.meta.size == IdealStep(s, f).meta.size
    ensures EndsEarly(s, f) ==> IdealStep(s, f) == Failed
  {
    hide Sha256, Announces, CCodec.FileBeginDecode;
  }

  /** Adding one loop step to a run that is still going. */
  lemma RunExtends(frames: seq<Frame>, acks: seq<Acknowledgement>, s: RState, f: Frame, o: Outcome)
    requires RunSpec(frames, acks, Continue, s) && (Accepts(s, f, o) || Refuses(s, f, o))
    ensures RunSpec(frames + [f], acks + (if o.ack.Some? then [o.ack.value] else []), o.exit, o.next)
  {
    hide IdealStep, IdealRun, OkAcks;
    Unroll(frames, f);
    StepShape(s, f);
    var all := frames + [f];
    assert all[..|all| - 1] == frames && all[|all| - 1] == f;
    if Accepts(s, f, o) {
      assert acks + [o.ack.value] == OkAcks(all);
    }
  }

  /** Every loop step takes a running run to a run; the ones that go on use up the announced bytes. */
  lemma RunStep(frames: seq<Frame>, acks: seq<Acknowledgement>, s: RState, message: ByteString, o: Outcome)
    requires RunSpec(frames, acks, Continue, s) && LoopStep(s, message, o)
    ensures o.exit == ReceiveError ==> o.ack.None? && !o.delivered && RunSpec(frames, acks, ReceiveError, o.next)
    ensures o.exit != ReceiveError ==>
            CCodec.RelayMessageDecode(message).Some? &&
            RunSpec(frames + [CCodec.RelayMessageDecode(message).value],
                    acks + (if o.ack.Some? then [o.ack.value] else []), o.exit, o.next)
    ensures o.exit == Continue ==>
            o.ack.Some? && o.delivered && o.next.Receiving? &&
            (s.Receiving? ==> Got(s) < Got(o.next) <= s.meta.size == o.next.meta.size)
    ensures !Open(o.next) || o.exit == Continue
    ensures o.exit == ExitOk ==> o.ack.Some? && o.delivered
    ensures o.exit != ReceiveError && EndsEarly(s, CCodec.RelayMessageDecode(message).value) ==> o.exit == ProtocolError
  {
    hide CCodec.RelayMessageDecode, RunSpec, IdealStep;
    if Drops(o) {
      RunDrops(frames, acks, s);
    } else {
      var f := CCodec.RelayMessageDecode(message).value;
      StepShape(s, f);
      RunExtends(frames, acks, s, f, o);
    }
  }

  lemma RunDrops(frames: seq<Frame>, acks: seq<Acknowledgement>, s: RState)
    requires RunSpec(frames, acks, Continue, s)
    ensures RunSpec(frames, acks, ReceiveError, Failed)
  {
  }

  lemma {:induction false} OkAcksLength(frames: seq<Frame>)
    ensures |OkAcks(frames)| == |frames|
  {
    if frames != [] {
      OkAcksLength(frames[..|frames| - 1]);
    }
  }

  function Joined(parts: seq<Frame>): ByteString
  {
    if parts == [] then [] else Joined(parts[..|parts| - 1]) + parts[|parts| - 1].payload
  }

  lemma WithoutEnds(frames: seq<Frame>)
    requires |frames| >= 2
    ensures frames[1..][..|frames[1..]| - 1] == frames[..|frames| - 1][1..]
  {
  }

  /** A receiving step either appends a non-empty chunk or starts the file. */
  lemma ReceivingStep(s: RState, f: Frame)
    requires IdealStep(s, f).Receiving?
    ensures s.Receiving? || s.WaitFile?
    ensures var t := IdealStep(s, f);
            if s.Receiving?
            then f.payload != [] && t == Receiving(s.meta, s.got + f.payload) && |t.got| <= t.meta.size
            else t.got == []
  {
    hide Sha256, Announces, CCodec.FileBeginDecode;
  }

  /** A file being received is the in-order concatenation of the chunks after FILE_BEGIN, each of them non-empty. */
  lemma {:induction false} ReceivingContent(frames: seq<Frame>)
    requires IdealRun(frames).Receiving?
    ensures frames != [] && IdealRun(frames[..1]) == Receiving(IdealRun(frames).meta, [])
    ensures IdealRun(frames).got == Joined(frames[1..])
    ensures |frames| - 1 <= |IdealRun(frames).got| <= IdealRun(frames).meta.size
  {
    hide IdealStep;
    var n := |frames|;
    var before := frames[..n - 1];
    ReceivingStep(IdealRun(before), frames[n - 1]);
    if IdealRun(before).Receiving? {
      ReceivingContent(before);
      assert before[..1] == frames[..1];
      WithoutEnds(frames);
    } else {
      if n > 1 {
        NotWaiting(before);
      }
      assert frames[..1] == frames;
    }
  }

  lemma NothingYet()
    ensures IdealRun([]) == WaitFile
  {
  }

  lemma NotWaiting(frames: seq<Frame>)
    requires frames != []
    ensures IdealRun(frames) != WaitFile
  {
  }

  /** A completed file is what the chunks between FILE_BEGIN and FILE_END say, of the announced size and digest. */
  lemma CompleteContent(frames: seq<Frame>)
    requires IdealRun(frames).Complete?
    ensures |frames| >= 2 && frames[|frames| - 1].kind == FILE_END
    ensures var end := IdealRun(frames);
            IdealRun(frames[..1]) == Receiving(end.meta, []) && end.got == Joined(frames[1..|frames| - 1]) &&
            |end.got| == end.meta.size && Sha256(end.got) == end.meta.digest
  {
    hide Sha256, Announces, CCodec.FileBeginDecode;
    var before := frames[..|frames| - 1];
    ReceivingContent(before);
    assert before[..1] == frames[..1];
    assert before[1..] == frames[1..|frames| - 1];
  }

  /** The size announced by the first frame, if it started a file. */
  function AnnouncedSize(frames: seq<Frame>): nat
  {
    if frames != [] && IdealRun(frames[..1]).Receiving? then IdealRun(frames[..1]).meta.size else 0
  }

  /** No peer can make the loop go round more often than the announced size and two. */
  lemma RunIsBounded(frames: seq<Frame>, acks: seq<Acknowledgement>, exit: Exit, end: RState)
    requires RunSpec(frames, acks, exit, end)
    ensures |frames| + (if exit == ReceiveError then 1 else 0) <= AnnouncedSize(frames) + 2
  {
    hide Sha256, IdealStep;
    if exit == ReceiveError && frames != [] {
      NotWaiting(frames);
      ReceivingContent(frames);
    } else if |frames| >= 2 {
      var before := frames[..|frames| - 1];
      StillOpen(frames, acks, exit, end);
      NotWaiting(before);
      ReceivingContent(before);
      assert before[..1] == frames[..1];
    }
  }

  lemma StillOpen(frames: seq<Frame>, acks: seq<Acknowledgement>, exit: Exit, end: RState)
    requires RunSpec(frames, acks, exit, end) && frames != []
    ensures Open(IdealRun(frames[..|frames| - 1]))
  {
    hide Sha256;
  }

  // The two promises of a run, in terms of the frames alone.

  /** A run ends with a file in place only if its frames say so; a lost last ACK does not undo it. */
  lemma CommitGate(frames: seq<Frame>, acks: seq<Acknowledgement>, exit: Exit, end: RState)
    requires RunSpec(frames, acks, exit, end)
    ensures end.Complete? ==>
            (exit == ExitOk || exit == SendError) && |frames| >= 2 &&
            IdealRun(frames[..1]) == Receiving(end.meta, []) && end.got == Joined(frames[1..|frames| - 1]) &&
            |end.got| == end.meta.size && Sha256(end.got) == end.meta.digest
    ensures exit == ExitOk ==> end.Complete?
    ensures exit == SendError ==> (end.Complete? <==> frames[|frames| - 1].kind == FILE_END)
  {
    hide Sha256, IdealStep, OkAcks;
    if end.Complete? {
      CompleteContent(frames);
    }
    if exit == SendError {
      StepShape(IdealRun(frames[..|frames| - 1]), frames[|frames| - 1]);
    }
  }

  /** The bytes acknowledged are the chunk bytes so far. */
  lemma GotIsJoined(frames: seq<Frame>)
    requires frames != [] && IdealRun(frames) != Failed
    ensures Got(IdealRun(frames)) == |Joined(frames[1..])|
  {
    hide Sha256, Announces, CCodec.FileBeginDecode;
    NotWaiting(frames);
    if IdealRun(frames).Receiving? {
      ReceivingContent(frames);
    } else {
      CompleteContent(frames);
      var rest := frames[1..];
      assert rest[..|rest| - 1] == frames[1..|frames| - 1];
    }
  }

  /** Each OK acknowledgement is for its own frame and counts the chunk bytes up to it. */
  predicate Acknowledges(frames: seq<Frame>, i: nat, a: Acknowledgement)
    requires i < |frames|
  {
    a == Acknowledgement(frames[i].kind, ACK_OK, |Joined(frames[1..i + 1])|)
  }

  /** Later frames do not matter to an acknowledgement. */
  lemma AcknowledgesOn(before: seq<Frame>, frames: seq<Frame>, i: nat, a: Acknowledgement)
    requires before <= frames && i < |before|
    ensures Acknowledges(before, i, a) <==> Acknowledges(frames, i, a)
  {
    hide Joined;
    assert before[1..i + 1] == frames[1..i + 1];
  }

  predicate AllAcknowledged(frames: seq<Frame>, acks: seq<Acknowledgement>)
  {
    |acks| == |frames| &&
    (forall i | 0 <= i < |frames| :: Acknowledges(frames, i, acks[i])) &&
    (forall i | 0 <= i < |frames| :: AckableKind(frames[i].kind))
  }

  lemma AllAcknowledgedOn(frames: seq<Frame>, acks: seq<Acknowledgement>, f: Frame, a: Acknowledgement)
    requires AllAcknowledged(frames, acks) && AckableKind(f.kind) && Acknowledges(frames + [f], |frames|, a)
    ensures AllAcknowledged(frames + [f], acks + [a])
  {
    hide Joined, Acknowledges;
    forall i | 0 <= i < |frames|
      ensures Acknowledges(frames + [f], i, acks[i])
    {
      AcknowledgesOn(frames, frames + [f], i, acks[i]);
    }
  }

  /** The acknowledgement of an accepted frame. */
  lemma LastAcknowledged(frames: seq<Frame>, f: Frame)
    requires IdealRun(frames + [f]) != Failed
    ensures AckableKind(f.kind) && IdealRun(frames) != Failed
    ensures Acknowledges(frames + [f], |frames|, Acknowledgement(f.kind, ACK_OK, Got(IdealRun(frames + [f]))))
  {
    hide IdealStep, Joined, IdealRun, OkAcks;
    var all := frames + [f];
    Unroll(frames, f);
    StepShape(IdealRun(frames), f);
    FailedIsFinal(f);
    GotIsJoined(all);
    assert all[1..|frames| + 1] == all[1..];
  }

  lemma {:induction false} OkAcksCount(frames: seq<Frame>)
    requires IdealRun(frames) != Failed
    ensures AllAcknowledged(frames, OkAcks(frames))
  {
    hide IdealStep, Joined, IdealRun, OkAcks, Acknowledges, Got;
    if frames == [] {
      OkAcksLength(frames);
    } else {
      var before, f := frames[..|frames| - 1], frames[|frames| - 1];
      assert frames == before + [f];
      LastAcknowledged(before, f);
      Unroll(before, f);
      OkAcksCount(before);
      AllAcknowledgedOn(before, OkAcks(before), f, Acknowledgement(f.kind, ACK_OK, Got(IdealRun(frames))));
    }
  }

  lemma FailedIsFinal(f: Frame)
    ensures IdealStep(Failed, f) == Failed
  {
  }

  /**
   The ACK trace of every run: in order, one for each FILE_BEGIN, CHUNK or FILE_END frame handled;
   an OK one counts the chunk bytes accepted so far, and only the last can be a refusal, which is the one its
   frame and the frames before it determine.
   */
  lemma AckTrace(frames: seq<Frame>, acks: seq<Acknowledgement>, exit: Exit, end: RState)
    requires RunSpec(frames, acks, exit, end)
    ensures |acks| == |frames| - (if frames != [] && !AckableKind(frames[|frames| - 1].kind) then 1 else 0)
    ensures forall i | 0 <= i < |frames| - 1 :: AckableKind(frames[i].kind)
    ensures forall i | 0 <= i < |acks| ::
              Acknowledges(frames, i, acks[i]) ||
              (i == |frames| - 1 && exit == ProtocolError && acks[i] == RefusalAck(IdealRun(frames[..i]), frames[i]))
  {
    hide Sha256, IdealStep, OkAcks, Joined, RefusalAck, IdealRun;
    if exit != ProtocolError {
      OkAcksCount(frames);
    } else {
      var before := frames[..|frames| - 1];
      OkAcksCount(before);
      forall i | 0 <= i < |before|
        ensures Acknowledges(frames, i, acks[i]) && AckableKind(frames[i].kind)
      {
        AcknowledgesOn(before, frames, i, OkAcks(before)[i]);
      }
    }
  }

  /** The integrity status of the wire format is never sent, in any run. */
  lemma NeverIntegrityStatus(frames: seq<Frame>, acks: seq<Acknowledgement>, exit: Exit, end: RState)
    requires RunSpec(frames, acks, exit, end)
    ensures forall i | 0 <= i < |acks| :: acks[i].status != ACK_INTEGRITY_ERROR
  {
    hide Sha256, IdealStep, OkAcks, Joined, IdealRun, Announces, RunSpec;
    AckTrace(frames, acks, exit, end);
  }

  /** All announced bytes are in and their digest is not the announced one. */
  predicate Mismatches(s: RState) { s.Receiving? && |s.got| == s.meta.size && Sha256(s.got) != s.meta.digest }

  /** A digest mismatch ends every run that sees the FILE_END, and the peer is told of a storage error. */
  lemma MismatchIsStorageError(before: seq<Frame>, acks: seq<Acknowledgement>, exit: Exit, end: RState)
    requires Mismatches(IdealRun(before)) && RunSpec(before + [Frame(FILE_END, [])], acks, exit, end)
    ensures exit == ProtocolError && end == Failed
    ensures acks == OkAcks(before) + [Acknowledgement(FILE_END, ACK_STORAGE_ERROR, Got(IdealRun(before)))]
  {
    hide Sha256, OkAcks, IdealRun, Announces;
    var frames := before + [Frame(FILE_END, [])];
    Unroll(before, Frame(FILE_END, []));
    assert frames[..|frames| - 1] == before;
  }

  function Altered(digest: ByteString): (r: ByteString)
    requires digest != []
    ensures |r| == |digest| && r != digest
  {
    var first: int := digest[0];
    var r := [(first + 1) % 256] + digest[1..];
    assert r[0] != digest[0];
    r
  }

  /** An empty file under a digest that differs from its own in the first byte. */
  function WrongFile(): (meta: FileMeta)
    ensures ValidMeta(meta) && meta.digest != Sha256([]) && meta.size == 0 && meta.name == [0x61]
  {
    hide Sha256;
    FileMeta(0, Altered(Sha256([])), [0x61])
  }

  lemma MismatchHappens()
    ensures Mismatches(IdealRun([Frame(FILE_BEGIN, MetaPayload(WrongFile()))]))
  {
    hide Sha256, MetaPayload, WrongFile, IdealRun;
    StartsWith(WrongFile());
  }

  /** A file of the plain name "a" is always begun. */
  lemma StartsWith(meta: FileMeta)
    requires ValidMeta(meta) && meta.name == [0x61]
    ensures IdealRun([Frame(FILE_BEGIN, MetaPayload(meta))]) == Receiving(meta, [])
  {
    hide Sha256, CCodec.FileBeginDecode, MetaPayload, Filename.Sanitized;
    var payload := MetaPayload(meta);
    Codecs.CDecodesExactlyMetaPayloads(payload, meta);
    assert Filename.Base([0x61]) == [0x61] by {
      assert [0x61][1..] == [];
    }
    Filename.NormalIsFixed([0x61]);
    assert [Frame(FILE_BEGIN, payload)][..0] == [];
  }

  // The states and the refusals of every run, in the frames' own terms.

  /** The first frame announces a file, and all others are non-empty chunks that fit. */
  predicate Receivable(frames: seq<Frame>)
  {
    frames != [] && frames[0].kind == 3 && Announces(frames[0].payload) &&
    (forall i | 1 <= i < |frames| :: frames[i].kind == 4 && frames[i].payload != []) &&
    |Joined(frames[1..])| <= CCodec.FileBeginDecode(frames[0].payload).value.size
  }

  lemma ReceivableOn(frames: seq<Frame>, f: Frame)
    requires frames != []
    ensures Joined((frames + [f])[1..]) == Joined(frames[1..]) + f.payload
    ensures Receivable(frames + [f]) <==>
            Receivable(frames) && f.kind == 4 && f.payload != [] &&
            |Joined(frames[1..])| + |f.payload| <= CCodec.FileBeginDecode(frames[0].payload).value.size
  {
    hide Announces, CCodec.FileBeginDecode;
    var all := frames + [f];
    assert all[1..] == frames[1..] + [f];
    assert all[1..][..|all| - 2] == frames[1..];
    if Receivable(all) {
      assert forall i | 1 <= i < |frames| :: all[i] == frames[i];
    }
  }

  /** A file is being received exactly after such frames, and it is what they say. */
  lemma {:induction false} ReceivingExactlyWhen(frames: seq<Frame>)
    ensures IdealRun(frames).Receiving? <==> Receivable(frames)
    ensures Receivable(frames) ==>
            IdealRun(frames) == Receiving(CCodec.FileBeginDecode(frames[0].payload).value, Joined(frames[1..]))
  {
    hide Sha256, Announces, CCodec.FileBeginDecode, Receivable;
    if |frames| <= 1 {
      SingleFrame(frames);
    } else {
      var before, f := frames[..|frames| - 1], frames[|frames| - 1];
      assert frames == before + [f];
      ReceivingExactlyWhen(before);
      ReceivableOn(before, f);
      NotWaiting(before);
    }
  }

  lemma SingleFrame(frames: seq<Frame>)
    requires |frames| <= 1
    ensures IdealRun(frames).Receiving? <==> Receivable(frames)
    ensures Receivable(frames) ==>
            IdealRun(frames) == Receiving(CCodec.FileBeginDecode(frames[0].payload).value, Joined(frames[1..]))
  {
    hide Sha256, Announces, CCodec.FileBeginDecode;
    NothingYet();
    if frames != [] {
      assert frames[..0] == [] && frames[1..] == [];
    }
  }

  /** A file is complete exactly after such frames and an empty FILE_END, with all bytes and the right digest. */
  lemma CompleteExactlyWhen(frames: seq<Frame>)
    ensures IdealRun(frames).Complete? <==>
            |frames| >= 2 && frames[|frames| - 1].kind == 5 && frames[|frames| - 1].payload == [] &&
            Receivable(frames[..|frames| - 1]) &&
            var meta := CCodec.FileBeginDecode(frames[0].payload).value;
            var got := Joined(frames[1..|frames| - 1]);
            |got| == meta.size && Sha256(got) == meta.digest
  {
    hide Sha256, Announces, CCodec.FileBeginDecode, Receivable;
    if frames != [] {
      var before := frames[..|frames| - 1];
      ReceivingExactlyWhen(before);
      NothingYet();
      ReceivableNotEmpty(before);
      if |frames| >= 2 {
        assert before[1..] == frames[1..|frames| - 1] && before[0] == frames[0];
      }
    }
  }

  lemma ReceivableNotEmpty(frames: seq<Frame>)
    ensures Receivable(frames) ==> frames != []
  {
    hide Announces, CCodec.FileBeginDecode;
  }

  /** The status a refused data frame is told, by what it is and where it comes. */
  predicate ToldStatus(before: seq<Frame>, f: Frame, status: nat)
  {
    if before == [] then
      if f.kind == 3 then status == if Announces(f.payload) then 2 else 4
      else status == 1
    else
      if f.kind == 3 then status == 1
      else if f.kind == 4 then status == if f.payload == [] then 1 else 2
      else status == if f.payload == [] then 2 else 1
  }

  /**
   Every refusal of every run: a CHUNK or FILE_END before any FILE_BEGIN, a FILE_BEGIN after one, an empty CHUNK
   and a FILE_END with a payload are protocol errors; an unacceptable announcement is rejected; the rest is storage.
   Other frames end the run without an answer.
   */
  lemma RefusalsByCase(before: seq<Frame>, f: Frame, acks: seq<Acknowledgement>, end: RState)
    requires RunSpec(before + [f], acks, ProtocolError, end)
    ensures f.kind !in {3, 4, 5} ==> acks == OkAcks(before)
    ensures f.kind in {3, 4, 5} ==>
            |acks| == |before| + 1 && acks[..|before|] == OkAcks(before) && acks[|before|].kind == f.kind &&
            ToldStatus(before, f, acks[|before|].status)
  {
    hide Sha256, IdealRun, OkAcks, RefusalStatus, ToldStatus;
    var frames := before + [f];
    assert frames[..|frames| - 1] == before;
    OkAcksLength(before);
    if f.kind in {3, 4, 5} {
      StatusByCase(before, f);
    }
  }

  lemma StatusByCase(before: seq<Frame>, f: Frame)
    requires Open(IdealRun(before)) && f.kind in {3, 4, 5}
    ensures ToldStatus(before, f, RefusalStatus(IdealRun(before), f))
  {
    hide IdealRun, Announces;
    NothingYet();
    if before != [] {
      NotWaiting(before);
    }
  }

  /** A frame out of turn ends every run that gets to it. */
  lemma OutOfTurnEnds(before: seq<Frame>, f: Frame, acks: seq<Acknowledgement>, exit: Exit, end: RState)
    requires RunSpec(before + [f], acks, exit, end)
    requires if before == [] then f.kind != 3 else
               f.kind !in {4, 5} || (f.kind == 4 && f.payload == []) || (f.kind == 5 && f.payload != [])
    ensures exit == ProtocolError && end == Failed
  {
    hide Sha256, OkAcks, Announces, IdealRun;
    var frames := before + [f];
    Unroll(before, f);
    assert frames[..|frames| - 1] == before;
    NothingYet();
    if before != [] {
      NotWaiting(before);
    }
  }

  // The frames that make the handler leak: a one-byte file, ended before its byte.

  const SHORT_FILE: FileMeta := FileMeta(1, Zeros(DIGEST_SIZE), [0x61])

  lemma EarlyEndHappens()
    ensures ValidMeta(SHORT_FILE)
    ensures EndsEarly(IdealRun([Frame(FILE_BEGIN, MetaPayload(SHORT_FILE))]), Frame(FILE_END, []))
  {
    hide Sha256, MetaPayload;
    StartsWith(SHORT_FILE);
  }
}
