/**
 src/receiver_loop.c over the relay client's one message buffer: a received payload
 is a view into the buffer every ACK is encoded into.
 */
module ReceiverLoop {
  import opened Bytes
  import opened Wire
  import opened Fips180
  import opened Storage
  import C = CCodec
  import Codecs
  import P = ReceiverProtocol
  import opened ReceiverSpec

  /** pd_loop_error_status */
  function ErrorStatus(r: P.ProtocolResult): (status: nat)
    ensures status == ACK_STORAGE_ERROR <==> r == P.HandlerError
    ensures status == ACK_REJECTED <==> r == P.InvalidMetadata
    ensures status in {ACK_PROTOCOL_ERROR, ACK_STORAGE_ERROR, ACK_REJECTED}
  {
    match r
    case HandlerError => ACK_STORAGE_ERROR
    case InvalidMetadata => ACK_REJECTED
    case _ => ACK_PROTOCOL_ERROR
  }

  /** The two layers together give the status the specification determines. */
  lemma RefusalAgrees(s: RState, f: Frame)
    requires Open(s)
    ensures ErrorStatus(P.RefusalResult(s, f)) == RefusalStatus(s, f)
  {
    hide Announces;
  }

  class Loop {
    const protocol: P.Protocol
    const buffer: array<Byte>
    var sent: seq<ByteString>
    const link: nat -> bool
    var linkUses: nat

    /** The connection has failed, on receiving or on sending. */
    ghost predicate Disconnected()
      reads this`linkUses
    {
      !AllGood(link, 0, linkUses)
    }

    ghost function Repr(): set<object>
      reads this, protocol
    {
      protocol.Repr() + {this, buffer}
    }

    ghost predicate Valid()
      reads this, protocol, protocol.Repr()
    {
      protocol.Valid() && buffer.Length == MESSAGE_MAX
    }

    ghost function Abs(): RState
      reads this, protocol, protocol.Repr()
      requires Valid()
    {
      protocol.Abs()
    }

    constructor (platform: Platform, link: nat -> bool)
      ensures Valid() && Abs() == WaitFile && sent == [] && fresh(Repr())
      ensures !protocol.handler.Leaked() && !protocol.handler.Faulted() && !Disconnected()
      ensures protocol.handler.On(platform) && this.link == link
    {
      protocol := new P.Protocol(platform);
      buffer := new Byte[MESSAGE_MAX](_ => 0);
      sent, linkUses := [], 0;
      this.link := link;
    }

    method UseLink() returns (ok: bool)
      modifies this`linkUses
      ensures linkUses == old(linkUses) + 1 && ok == link(old(linkUses))
      ensures Disconnected() <==> old(Disconnected()) || !ok
    {
      ok := link(linkUses);
      linkUses := linkUses + 1;
    }

    /** pd_win32_relay_client_receive_frame: the message lands in the buffer and is decoded there. */
    method ReceiveFrame(message: ByteString) returns (ok: bool, header: C.FrameHeader, size: nat)
      requires buffer.Length == MESSAGE_MAX
      modifies buffer, this`linkUses
      ensures !ok ==> Disconnected() || C.RelayMessageDecode(message).None?
      ensures old(Disconnected()) ==> Disconnected()
      ensures ok ==> HEADER_SIZE + size <= MESSAGE_MAX && P.Plausible(header, size) && header.kind >= 0
      ensures ok ==> C.RelayMessageDecode(message) == Some(Frame(header.kind, buffer[HEADER_SIZE..HEADER_SIZE + size]))
    {
      hide C.ReadBe;
      header, size := C.FrameHeader(0, 0, 0), 0;
      var alive := UseLink();
      if !alive || |message| > MESSAGE_MAX {
        return false, header, size;
      }
      forall i | 0 <= i < |message| {
        buffer[i] := message[i];
      }
      assert buffer[..|message|] == message;
      if C.RelayMessageDecode(buffer[..|message|]).None? {
        return false, header, size;
      }
      header := C.FrameDecodeHeader(buffer[..|message|]).header;
      size := |message| - HEADER_SIZE;
      assert buffer[HEADER_SIZE..HEADER_SIZE + size] == message[HEADER_SIZE..];
      return true, header, size;
    }

    /** The ACK replaces the received message in the buffer; encoding one cannot fail. */
    method EncodeAck(ack: Acknowledgement) returns (size: nat)
      requires buffer.Length == MESSAGE_MAX && ValidAck(ack)
      modifies buffer
      ensures size <= MESSAGE_MAX && buffer[..size] == AckMessage(ack)
    {
      hide Message, AckPayload;
      var payload := new Byte[ACK_SIZE];
      var encoded := C.AckEncode(ack, payload);
      assert encoded == C.AckEncoded;
      var result;
      result, size := C.RelayMessageEncode(C.FrameHeader(ACK, 0, ACK_SIZE), payload[..], buffer);
      assert result == C.MessageOk;
    }

    /** pd_loop_send_ack */
    method SendAck(kind: nat, status: nat) returns (ok: bool)
      requires Valid() && AckableKind(kind) && status <= ACK_REJECTED && protocol.Progress() < U64_LIMIT
      modifies this`sent, this`linkUses, buffer
      ensures Valid() && Abs() == old(Abs())
      ensures Disconnected() <==> old(Disconnected()) || !ok
      ensures sent == old(sent) + if ok then [AckMessage(Acknowledgement(kind, status, protocol.Progress()))] else []
    {
      hide AckMessage, Sha256;
      var size := EncodeAck(Acknowledgement(kind, status, protocol.Progress()));
      ok := UseLink();
      if ok {
        sent := sent + [buffer[..size]];
      }
    }

    /** Lines 82-122: one message, from the socket to the answer, as the specification's loop step. */
    method Iterate(message: ByteString) returns (exit: Exit, ack: Option<Acknowledgement>, delivered: bool)
      requires Valid() && (Abs().WaitFile? || Abs().Receiving?)
      modifies Repr()
      ensures Valid() && LoopStep(old(Abs()), message, Outcome(Abs(), ack, delivered, exit))
      ensures (delivered ==> ack.Some?) && (ack.Some? ==> ValidAck(ack.value))
      ensures sent == old(sent) + if delivered then [AckMessage(ack.value)] else []
      ensures protocol.handler.Leaked() <==>
              exit != ReceiveError && EndsEarly(old(Abs()), C.RelayMessageDecode(message).value)
      ensures Explained(old(Abs()), message, exit, protocol.handler.Faulted(), Disconnected())
    {
      hide C.RelayMessageDecode, IdealStep, Accepts, Refuses, EndsEarly, AckMessage, P.Handled, AllGood, Sha256;
      ghost var before := Abs();
      protocol.ProgressFits();
      var ok, header, size := ReceiveFrame(message);
      if !ok {
        protocol.Abort();
        return ReceiveError, None, false;
      }
      ghost var f := C.RelayMessageDecode(message).value;
      ghost var leaked := protocol.handler.Leaked();
      var r := protocol.Handle(header, buffer, HEADER_SIZE, size);
      exit, ack, delivered := Answer(header.kind, r, before, f, leaked);
    }

    /** Lines 98-122: the acknowledgement of a frame already handled, and whether to go on. */
    method Answer(kind: nat, r: P.ProtocolResult, ghost before: RState, ghost f: Frame, ghost leaked: bool)
      returns (exit: Exit, ack: Option<Acknowledgement>, delivered: bool)
      requires Valid() && kind == f.kind && (before.WaitFile? || before.Receiving?) && Got(before) < U64_LIMIT
      requires P.Handled(before, f, true, r, Abs(), protocol.Progress(), leaked, protocol.handler.Leaked(),
                         protocol.handler.Faulted())
      modifies this`sent, this`linkUses, buffer, protocol`state, protocol`fileActive, protocol.handler`active,
               protocol.handler.sink, protocol.handler.hash, protocol.handler.receiver
      ensures Valid() && protocol.handler.Leaked() == EndsEarly(before, f)
      ensures var o := Outcome(Abs(), ack, delivered, exit);
              Accepts(before, f, o) || Refuses(before, f, o)
      ensures exit != ReceiveError && (exit == SendError ==> Disconnected())
      ensures exit == ProtocolError ==> protocol.handler.Faulted() || IdealStep(before, f) == Failed
      ensures (delivered ==> ack.Some?) && (ack.Some? ==> ValidAck(ack.value))
      ensures sent == old(sent) + if delivered then [AckMessage(ack.value)] else []
    {
      hide IdealStep, AckMessage, EndsEarly, Sha256, RefusalStatus, P.RefusalResult;
      protocol.ProgressFits();
      StepShape(before, f);
      RefusalAgrees(before, f);
      if r != P.ProtocolOk {
        ack, delivered := Refuse(kind, ErrorStatus(r));
        return ProtocolError, ack, delivered;
      }
      ack := Some(Acknowledgement(kind, ACK_OK, protocol.Progress()));
      delivered := Confirm(kind);
      return if !delivered then SendError else if kind == FILE_END then ExitOk else Continue, ack, delivered;
    }

    /** Lines 99-107: a data frame is told the status, and the session is over either way. */
    method Refuse(kind: nat, status: nat) returns (ack: Option<Acknowledgement>, delivered: bool)
      requires Valid() && Abs() == Failed && status <= ACK_REJECTED && protocol.Progress() < U64_LIMIT
      modifies this`sent, this`linkUses, buffer, protocol`state, protocol`fileActive, protocol.handler`active,
               protocol.handler.sink, protocol.handler.hash, protocol.handler.receiver
      ensures Valid() && Abs() == Failed && protocol.handler.Leaked() == old(protocol.handler.Leaked())
      ensures protocol.handler.Faulted() == old(protocol.handler.Faulted())
      ensures ack == if AckableKind(kind) then Some(Acknowledgement(kind, status, old(protocol.Progress()))) else None
      ensures delivered ==> ack.Some?
      ensures sent == old(sent) + if delivered then [AckMessage(ack.value)] else []
    {
      hide AckMessage, Sha256;
      ack, delivered := None, false;
      if AckableKind(kind) {
        ack := Some(Acknowledgement(kind, status, protocol.Progress()));
        delivered := SendAck(kind, status);
      }
      protocol.Abort();
    }

    /** Lines 108-113: the frame is confirmed, or the session is over unless it was complete. */
    method Confirm(kind: nat) returns (delivered: bool)
      requires Valid() && AckableKind(kind) && protocol.Progress() < U64_LIMIT
      modifies this`sent, this`linkUses, buffer, protocol`state, protocol`fileActive, protocol.handler`active,
               protocol.handler.sink, protocol.handler.hash, protocol.handler.receiver
      ensures Valid() && protocol.handler.Leaked() == old(protocol.handler.Leaked())
      ensures Abs() == if delivered || old(Abs()).Complete? then old(Abs()) else Failed
      ensures !delivered ==> Disconnected()
      ensures sent == old(sent) +
                      if delivered then [AckMessage(Acknowledgement(kind, ACK_OK, old(protocol.Progress())))] else []
    {
      hide AckMessage, Sha256;
      delivered := SendAck(kind, ACK_OK);
      if !delivered {
        protocol.Abort();
      }
    }

    /**
     pd_receiver_loop_run, against any peer. `peer(i)` is the i-th message; `handled`
     is how many became frames, `acks` the acknowledgements attempted.
     */
    method Run(peer: nat -> ByteString) returns (exit: Exit, handled: nat, acks: seq<Acknowledgement>)
      requires Valid() && Abs() == WaitFile && !protocol.handler.Leaked() && sent == []
      modifies Repr()
      ensures Valid() && exit != Continue && Decodable(peer, handled)
      ensures RunSpec(Frames(peer, handled), acks, exit, Abs())
      ensures AllValid(acks) && sent <= AckMessages(acks) && |sent| + 1 >= |acks|
      ensures exit == ExitOk ==> sent == AckMessages(acks)
      // Termination, and what is left behind.
      ensures handled + (if exit == ReceiveError then 1 else 0) <= AnnouncedSize(Frames(peer, handled)) + 2
      ensures protocol.handler.sink.final.Some? <==> Abs().Complete?
      ensures Abs().Complete? ==> protocol.handler.sink.final == Some(Abs().got)
      ensures protocol.handler.Leaked() <==> EndedEarly(peer, handled, exit)
      ensures !protocol.handler.Leaked() <==> protocol.handler.receiver.Released()
      ensures protocol.handler.sink.aborts <= (if Abs().Complete? || protocol.handler.Leaked() then 0 else 1)
      ensures !protocol.handler.filenameRefused
      // Only a failed call, a lost connection or the frames themselves end it other than well.
      ensures RunExplained(peer, handled, exit, protocol.handler.Faulted(), Disconnected())
    {
      hide AllGood, Sha256, RunSpec, C.RelayMessageDecode, IdealRun, AnnouncedSize, RunExplained, EndedEarly;
      exit, handled, acks := Continue, 0, [];
      RunStarts();
      NothingExplained(peer);
      while exit == Continue
        invariant Traced(peer, exit, handled, acks)
        invariant RunExplained(peer, handled, exit, protocol.handler.Faulted(), Disconnected())
        decreases exit == Continue, Abs().WaitFile?, Remaining(Abs())
      {
        exit, handled, acks := Step(peer, handled, acks);
      }
      RunIsBounded(Frames(peer, handled), acks, exit, Abs());
      protocol.EndState();
    }

    /** The loop's invariant: the run so far, and everything it has answered. */
    ghost predicate Traced(peer: nat -> ByteString, exit: Exit, handled: nat, acks: seq<Acknowledgement>)
      reads this, protocol, protocol.Repr()
    {
      Valid() && TraceOk(peer, exit, handled, acks, sent, Abs(), protocol.handler.Leaked())
    }

    method Step(peer: nat -> ByteString, handled: nat, acks: seq<Acknowledgement>)
      returns (exit: Exit, handled': nat, acks': seq<Acknowledgement>)
      requires Traced(peer, Continue, handled, acks)
      modifies Repr()
      ensures Traced(peer, exit, handled', acks')
      ensures RunExplained(peer, handled', exit, protocol.handler.Faulted(), Disconnected())
      ensures exit == Continue ==>
              !Abs().WaitFile? &&
              (old(Abs()).WaitFile? || Remaining(Abs()) < Remaining(old(Abs())))
    {
      hide EndsEarly, C.RelayMessageDecode, AckMessage, AckMessages;
      ghost var before, sentBefore := Abs(), sent;
      var ack, delivered;
      exit, ack, delivered := Iterate(peer(handled));
      TraceStep(peer, handled, acks, sentBefore, before, Outcome(Abs(), ack, delivered, exit),
                protocol.handler.Leaked());
      RunExplains(peer, handled, acks, before, exit, protocol.handler.Faulted(), Disconnected());
      acks' := if ack.Some? then acks + [ack.value] else acks;
      handled' := if exit == ReceiveError then handled else handled + 1;
    }
  }

  /** What it took to end the loop after `message`. */
  ghost predicate Explained(s: RState, message: ByteString, exit: Exit, faulted: bool, disconnected: bool)
  {
    match exit
    case ReceiveError => disconnected || C.RelayMessageDecode(message).None?
    case SendError => disconnected
    case ProtocolError =>
      faulted || (C.RelayMessageDecode(message).Some? && IdealStep(s, C.RelayMessageDecode(message).value) == Failed)
    case _ => true
  }

  /** The same over a whole run. */
  ghost predicate RunExplained(peer: nat -> ByteString, handled: nat, exit: Exit, faulted: bool, disconnected: bool)
    requires Decodable(peer, handled)
  {
    match exit
    case ReceiveError => disconnected || C.RelayMessageDecode(peer(handled)).None?
    case SendError => disconnected
    case ProtocolError => faulted || IdealRun(Frames(peer, handled)) == Failed
    case _ => true
  }

  lemma RunExplains(peer: nat -> ByteString, handled: nat, acks: seq<Acknowledgement>, s: RState,
                    exit: Exit, faulted: bool, disconnected: bool)
    requires Decodable(peer, handled) && RunSpec(Frames(peer, handled), acks, Continue, s)
    requires exit != ReceiveError ==> C.RelayMessageDecode(peer(handled)).Some?
    requires Explained(s, peer(handled), exit, faulted, disconnected)
    ensures var n := if exit == ReceiveError then handled else handled + 1;
            Decodable(peer, n) && RunExplained(peer, n, exit, faulted, disconnected)
  {
    hide IdealStep, IdealRun, OkAcks, C.RelayMessageDecode;
    if exit == ProtocolError {
      Unroll(Frames(peer, handled), C.RelayMessageDecode(peer(handled)).value);
    }
  }

  /** What went out is what was acknowledged, in order; only the last can be missing, and only at the end. */
  ghost predicate Acked(acks: seq<Acknowledgement>, sent: seq<ByteString>, exit: Exit)
  {
    AllValid(acks) && sent <= AckMessages(acks) &&
    |acks| - |sent| <= if exit == SendError || exit == ProtocolError then 1 else 0
  }

  ghost predicate TraceOk(peer: nat -> ByteString, exit: Exit, handled: nat, acks: seq<Acknowledgement>,
                          sent: seq<ByteString>, s: RState, leaked: bool)
  {
    Decodable(peer, handled) && Acked(acks, sent, exit) && RunSpec(Frames(peer, handled), acks, exit, s) &&
    (exit == Continue <==> Open(s)) && (leaked <==> EndedEarly(peer, handled, exit))
  }

  lemma AckedStep(acks: seq<Acknowledgement>, sent: seq<ByteString>, o: Outcome)
    requires Acked(acks, sent, Continue) && (o.exit == Continue || o.exit == ExitOk ==> o.delivered)
    requires o.exit == ReceiveError ==> o.ack.None? && !o.delivered
    requires (o.delivered ==> o.ack.Some?) && (o.ack.Some? ==> ValidAck(o.ack.value))
    ensures Acked(if o.ack.Some? then acks + [o.ack.value] else acks,
                  sent + (if o.delivered then [AckMessage(o.ack.value)] else []), o.exit)
  {
    hide AckMessage;
    if o.ack.Some? {
      AckMessagesExtend(acks, o.ack.value);
    }
  }

  lemma LeakStep(peer: nat -> ByteString, handled: nat, acks: seq<Acknowledgement>, s: RState, o: Outcome, leaked: bool)
    requires Decodable(peer, handled) && RunSpec(Frames(peer, handled), acks, Continue, s) &&
             LoopStep(s, peer(handled), o)
    requires leaked <==> o.exit != ReceiveError && EndsEarly(s, C.RelayMessageDecode(peer(handled)).value)
    ensures var n := if o.exit == ReceiveError then handled else handled + 1;
            Decodable(peer, n) && (leaked <==> EndedEarly(peer, n, o.exit))
  {
    hide IdealStep, IdealRun, OkAcks, C.RelayMessageDecode, Accepts, Refuses, EndsEarly;
    RunStep(Frames(peer, handled), acks, s, peer(handled), o);
  }

  lemma TraceStep(peer: nat -> ByteString, handled: nat, acks: seq<Acknowledgement>, sent: seq<ByteString>,
                  s: RState, o: Outcome, leaked: bool)
    requires TraceOk(peer, Continue, handled, acks, sent, s, false) && LoopStep(s, peer(handled), o)
    requires (o.delivered ==> o.ack.Some?) && (o.ack.Some? ==> ValidAck(o.ack.value))
    requires leaked <==> o.exit != ReceiveError && EndsEarly(s, C.RelayMessageDecode(peer(handled)).value)
    ensures TraceOk(peer, o.exit, if o.exit == ReceiveError then handled else handled + 1,
                    if o.ack.Some? then acks + [o.ack.value] else acks,
                    sent + (if o.delivered then [AckMessage(o.ack.value)] else []), o.next, leaked)
    ensures o.exit == Continue ==> !o.next.WaitFile? && (s.WaitFile? || Remaining(o.next) < Remaining(s))
  {
    hide IdealStep, IdealRun, OkAcks, C.RelayMessageDecode, AckMessage, LoopStep, RunSpec, EndedEarly, EndsEarly, Acked;
    RunStep(Frames(peer, handled), acks, s, peer(handled), o);
    AckedStep(acks, sent, o);
    LeakStep(peer, handled, acks, s, o, leaked);
    assert acks + [] == acks;
    if o.exit != Continue {
      assert !Open(o.next);
    }
  }

  /** Bytes of the announced file still to come. */
  ghost function Remaining(s: RState): int { if s.Receiving? then s.meta.size - |s.got| else 0 }

  ghost predicate Decodable(peer: nat -> ByteString, n: nat)
  {
    forall i :: 0 <= i < n ==> C.RelayMessageDecode(peer(i)).Some?
  }

  ghost function Frames(peer: nat -> ByteString, n: nat): (frames: seq<Frame>)
    requires Decodable(peer, n)
    ensures |frames| == n
  {
    if n == 0 then [] else Frames(peer, n - 1) + [C.RelayMessageDecode(peer(n - 1)).value]
  }

  /** The run was ended by a FILE_END that came before the last byte. */
  ghost predicate EndedEarly(peer: nat -> ByteString, handled: nat, exit: Exit)
    requires Decodable(peer, handled)
  {
    exit != Continue && exit != ReceiveError && handled > 0 &&
    EndsEarly(IdealRun(Frames(peer, handled - 1)), C.RelayMessageDecode(peer(handled - 1)).value)
  }

  ghost predicate AllValid(acks: seq<Acknowledgement>)
  {
    forall i :: 0 <= i < |acks| ==> ValidAck(acks[i])
  }

  ghost function AckMessages(acks: seq<Acknowledgement>): (messages: seq<ByteString>)
    requires AllValid(acks)
    ensures |messages| == |acks|
  {
    seq(|acks|, i requires 0 <= i < |acks| => AckMessage(acks[i]))
  }

  lemma AckMessagesExtend(acks: seq<Acknowledgement>, ack: Acknowledgement)
    requires AllValid(acks) && ValidAck(ack)
    ensures AckMessages(acks + [ack]) == AckMessages(acks) + [AckMessage(ack)]
  {
    hide AckMessage;
  }

  lemma RunStarts()
    ensures RunSpec([], [], Continue, WaitFile)
  {
  }

  lemma NothingExplained(peer: nat -> ByteString)
    ensures Decodable(peer, 0) && Frames(peer, 0) == [] && !EndedEarly(peer, 0, Continue)
    ensures forall faulted, disconnected :: RunExplained(peer, 0, Continue, faulted, disconnected)
  {
  }

  // The leak, on the two frames of `EarlyEndHappens`.

  /** FILE_BEGIN of a one-byte file, and then FILE_END over and over. */
  function Shortcut(i: nat): ByteString
  {
    EarlyEndHappens();
    if i == 0 then Message(Frame(FILE_BEGIN, MetaPayload(SHORT_FILE))) else Message(Frame(FILE_END, []))
  }

  lemma ShortcutFrames(i: nat)
    ensures ValidMeta(SHORT_FILE)
    ensures C.RelayMessageDecode(Shortcut(i)) ==
            Some(if i == 0 then Frame(FILE_BEGIN, MetaPayload(SHORT_FILE)) else Frame(FILE_END, []))
  {
    hide Message, MetaPayload, C.RelayMessageDecode, EndsEarly;
    EarlyEndHappens();
    var f := if i == 0 then Frame(FILE_BEGIN, MetaPayload(SHORT_FILE)) else Frame(FILE_END, []);
    Codecs.CDecodesExactlyMessages(Shortcut(i), f);
  }

  lemma ShortcutStarts()
    ensures Decodable(Shortcut, 1) && ValidMeta(SHORT_FILE)
    ensures Frames(Shortcut, 1) == [Frame(FILE_BEGIN, MetaPayload(SHORT_FILE))]
    ensures EndsEarly(IdealRun(Frames(Shortcut, 1)), Frame(FILE_END, []))
  {
    hide C.RelayMessageDecode, Sha256, MetaPayload, Shortcut, IdealRun, EndsEarly;
    EarlyEndHappens();
    ShortcutFrames(0);
    assert Frames(Shortcut, 0) == [];
  }

  /** A run over them cannot end before the second, unless something fails. */
  lemma ShortcutTakesMore(handled: nat, acks: seq<Acknowledgement>, exit: Exit, end: RState)
    requires Decodable(Shortcut, handled) && RunSpec(Frames(Shortcut, handled), acks, exit, end) && exit != Continue
    requires RunExplained(Shortcut, handled, exit, false, false)
    ensures handled >= 2 && exit != ReceiveError
  {
    hide C.RelayMessageDecode, Sha256, MetaPayload, Shortcut, IdealStep, OkAcks, IdealRun;
    ShortcutFrames(handled);
    NothingYet();
    if handled == 1 {
      ShortcutStarts();
    }
  }

  /** Nor does it go on after the second. */
  lemma ShortcutTakesTwo(handled: nat, acks: seq<Acknowledgement>, exit: Exit, end: RState)
    requires Decodable(Shortcut, handled) && RunSpec(Frames(Shortcut, handled), acks, exit, end) && exit != Continue
    requires RunExplained(Shortcut, handled, exit, false, false)
    ensures handled == 2 && exit == ProtocolError
  {
    hide C.RelayMessageDecode, Sha256, MetaPayload, Shortcut, IdealStep, OkAcks, IdealRun;
    ShortcutTakesMore(handled, acks, exit, end);
    AfterShortcut(handled);
    if handled >= 3 {
      StillOpen(Frames(Shortcut, handled), acks, exit, end);
      AfterShortcut(handled - 1);
    }
  }

  lemma ShortcutLeaks(handled: nat, acks: seq<Acknowledgement>, exit: Exit, end: RState)
    requires Decodable(Shortcut, handled) && RunSpec(Frames(Shortcut, handled), acks, exit, end) && exit != Continue
    requires RunExplained(Shortcut, handled, exit, false, false)
    ensures EndedEarly(Shortcut, handled, exit)
  {
    hide C.RelayMessageDecode, Sha256, MetaPayload, Shortcut, IdealRun, RunSpec, RunExplained;
    ShortcutTakesTwo(handled, acks, exit, end);
    ShortcutStarts();
    ShortcutFrames(1);
  }

  lemma {:induction false} AfterShortcut(n: nat)
    requires n >= 2 && Decodable(Shortcut, n)
    ensures IdealRun(Frames(Shortcut, n)) == Failed
  {
    hide C.RelayMessageDecode, Sha256, MetaPayload, Shortcut, IdealStep, IdealRun;
    ShortcutStarts();
    ShortcutFrames(n - 1);
    var last := Frame(FILE_END, []);
    Unroll(Frames(Shortcut, n - 1), last);
    if n == 2 {
      StepShape(IdealRun(Frames(Shortcut, 1)), last);
    } else {
      AfterShortcut(n - 1);
      FailedIsFinal(last);
    }
  }

  /** A new loop fed with them leaks, unless a call or the connection fails first. */
  method LeakOnShortcut(platform: Platform, link: nat -> bool) returns (loop: Loop)
    ensures loop.protocol.handler.Leaked() || loop.protocol.handler.Faulted() || loop.Disconnected()
    ensures loop.protocol.handler.Leaked() ==> loop.Valid() && !loop.protocol.handler.receiver.Released()
  {
    hide RunSpec, RunExplained, EndedEarly, Decodable, Sha256;
    loop := new Loop(platform, link);
    var exit, handled, acks := loop.Run(Shortcut);
    if !loop.protocol.handler.Faulted() && !loop.Disconnected() {
      ShortcutLeaks(handled, acks, exit, loop.Abs());
    }
  }
}
