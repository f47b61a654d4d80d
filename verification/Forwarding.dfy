/**
 servePeer, relay/server.go lines 338-382, for one direction of a bridge with one
 sender: the reader goroutine of one peer, a channel of capacity one, and the writer
 goroutine of the other. Either goroutine can stop at any point; what it then holds
 stays with it for good.
 */
module Forwarding {
  import opened Bytes
  import opened Wire

  datatype Lane = Lane(
    outbox: seq<ByteString>,      // written by the peer, not read by the relay
    inHand: Option<ByteString>,   // read, not yet in the channel
    channel: seq<ByteString>,
    writing: Option<ByteString>,  // out of the channel, being written
    inbox: seq<ByteString>,       // written, not taken by the other peer
    reader: bool,
    writer: bool,
    // What has passed each point since the bridge was made.
    sent: seq<ByteString>,
    accepted: seq<ByteString>,
    delivered: seq<ByteString>,
    consumed: seq<ByteString>)

  const IDLE: Lane := Lane([], None, [], None, [], true, true, [], [], [], [])

  datatype LaneStep = Read | Enqueue | Dequeue | Write | StopReader | StopWriter

  predicate CanMove(l: Lane, step: LaneStep)
  {
    match step
    case Read => l.reader && l.inHand.None? && l.outbox != [] && |l.outbox[0]| <= MESSAGE_MAX
    case Enqueue => l.reader && l.inHand.Some? && |l.channel| < 1
    case Dequeue => l.writer && l.writing.None? && l.channel != []
    case Write => l.writer && l.writing.Some?
    case StopReader => l.reader
    case StopWriter => l.writer
  }

  function Move(l: Lane, step: LaneStep): Lane
    requires CanMove(l, step)
  {
    match step
    case Read => l.(outbox := l.outbox[1..], inHand := Some(l.outbox[0]), accepted := l.accepted + [l.outbox[0]])
    case Enqueue => l.(inHand := None, channel := l.channel + [l.inHand.value])
    case Dequeue => l.(channel := l.channel[1..], writing := Some(l.channel[0]))
    case Write =>
      l.(writing := None, inbox := l.inbox + [l.writing.value], delivered := l.delivered + [l.writing.value])
    case StopReader => l.(reader := false)
    case StopWriter => l.(writer := false)
  }

  function Send(l: Lane, m: ByteString): Lane { l.(outbox := l.outbox + [m], sent := l.sent + [m]) }

  function Take(l: Lane): Lane
    requires l.inbox != []
  {
    l.(inbox := l.inbox[1..], consumed := l.consumed + [l.inbox[0]])
  }

  function Held(m: Option<ByteString>): seq<ByteString> { if m.Some? then [m.value] else [] }

  /** Messages are conserved in order at every point, and the channel never overfills. */
  predicate Conserved(l: Lane)
  {
    l.sent == l.accepted + l.outbox &&
    l.accepted == l.delivered + Held(l.writing) + l.channel + Held(l.inHand) &&
    l.delivered == l.consumed + l.inbox &&
    |l.channel| <= 1
  }

  lemma ReadConserves(l: Lane)
    requires Conserved(l) && CanMove(l, Read)
    ensures Conserved(Move(l, Read))
  {
    assert l.outbox == [l.outbox[0]] + l.outbox[1..];
  }

  lemma EnqueueConserves(l: Lane)
    requires Conserved(l) && CanMove(l, Enqueue)
    ensures Conserved(Move(l, Enqueue))
  {
  }

  lemma DequeueConserves(l: Lane)
    requires Conserved(l) && CanMove(l, Dequeue)
    ensures Conserved(Move(l, Dequeue))
  {
    assert l.channel == [l.channel[0]] + l.channel[1..];
  }

  lemma WriteConserves(l: Lane)
    requires Conserved(l) && CanMove(l, Write)
    ensures Conserved(Move(l, Write))
  {
  }

  lemma MoveConserves(l: Lane, step: LaneStep)
    requires Conserved(l) && CanMove(l, step)
    ensures Conserved(Move(l, step))
    ensures Move(l, step).sent == l.sent && Move(l, step).consumed == l.consumed
  {
    match step {
      case Read => ReadConserves(l);
      case Enqueue => EnqueueConserves(l);
      case Dequeue => DequeueConserves(l);
      case Write => WriteConserves(l);
      case _ =>
    }
  }

  lemma SendConserves(l: Lane, m: ByteString)
    requires Conserved(l)
    ensures Conserved(Send(l, m))
  {
  }

  lemma TakeConserves(l: Lane)
    requires Conserved(l) && l.inbox != []
    ensures Conserved(Take(l))
    ensures |l.consumed| < |l.sent| && l.inbox[0] == l.sent[|l.consumed|]
  {
    assert l.inbox == [l.inbox[0]] + l.inbox[1..];
  }

  // What is under way, wherever it is.

  function Pending(l: Lane): seq<ByteString>
  {
    l.inbox + Held(l.writing) + l.channel + Held(l.inHand) + l.outbox
  }

  lemma ReadPending(l: Lane)
    requires CanMove(l, Read)
    ensures Pending(Move(l, Read)) == Pending(l)
  {
    var front := l.inbox + Held(l.writing) + l.channel;
    assert Held(l.inHand) == [];
    assert l.outbox == [l.outbox[0]] + l.outbox[1..];
    assert front + [] + l.outbox == front + [l.outbox[0]] + l.outbox[1..];
  }

  lemma EnqueuePending(l: Lane)
    requires CanMove(l, Enqueue)
    ensures Pending(Move(l, Enqueue)) == Pending(l)
  {
    var front := l.inbox + Held(l.writing);
    assert front + (l.channel + [l.inHand.value]) + [] + l.outbox == front + l.channel + [l.inHand.value] + l.outbox;
  }

  lemma DequeuePending(l: Lane)
    requires CanMove(l, Dequeue)
    ensures Pending(Move(l, Dequeue)) == Pending(l)
  {
    assert l.channel == [l.channel[0]] + l.channel[1..];
    assert l.inbox + [l.channel[0]] + l.channel[1..] == l.inbox + [] + l.channel;
  }

  lemma WritePending(l: Lane)
    requires CanMove(l, Write)
    ensures Pending(Move(l, Write)) == Pending(l)
  {
    assert l.inbox + [l.writing.value] + [] == l.inbox + [l.writing.value];
  }

  /** The relay moves messages along and keeps their order. */
  lemma MovePending(l: Lane, step: LaneStep)
    requires CanMove(l, step)
    ensures Pending(Move(l, step)) == Pending(l) && Move(l, step).consumed == l.consumed
  {
    match step {
      case Read => ReadPending(l);
      case Enqueue => EnqueuePending(l);
      case Dequeue => DequeuePending(l);
      case Write => WritePending(l);
      case _ =>
    }
  }

  lemma SendPending(l: Lane, m: ByteString)
    ensures Pending(Send(l, m)) == Pending(l) + [m]
  {
  }

  lemma TakePending(l: Lane)
    requires l.inbox != []
    ensures Pending(l) == [l.inbox[0]] + Pending(Take(l))
  {
    assert l.inbox == [l.inbox[0]] + l.inbox[1..];
  }

  /** Another peer writes into the lane: what the relay had not yet put into the channel for the last one is lost. */
  function NewPeer(l: Lane): Lane { l.(outbox := [], inHand := None, reader := true) }

  lemma NewPeerPending(l: Lane)
    ensures Pending(NewPeer(l)) <= Pending(l)
  {
  }

  datatype Event = PeerSends(message: ByteString) | Relays(step: LaneStep) | PeerTakes

  predicate Possible(l: Lane, e: Event)
  {
    match e
    case PeerSends(_) => true
    case Relays(step) => CanMove(l, step)
    case PeerTakes => l.inbox != []
  }

  function After(l: Lane, e: Event): Lane
    requires Possible(l, e)
  {
    match e
    case PeerSends(m) => Send(l, m)
    case Relays(step) => Move(l, step)
    case PeerTakes => Take(l)
  }

  ghost predicate LaneRuns(l: Lane, es: seq<Event>, k: Lane)
    decreases |es|
  {
    if es == [] then k == l else Possible(l, es[0]) && LaneRuns(After(l, es[0]), es[1..], k)
  }

  /** A message is read if and only if the reader is free and it has at most 61440 bytes. */
  lemma ReadExactlyWhen(l: Lane)
    ensures CanMove(l, Read) <==> l.reader && l.inHand == None && |l.outbox| > 0 && |l.outbox[0]| <= 61440
    ensures CanMove(l, Enqueue) <==> l.reader && l.inHand != None && |l.channel| == 0
    ensures CanMove(l, Dequeue) <==> l.writer && l.writing == None && |l.channel| > 0
    ensures CanMove(l, Write) <==> l.writer && l.writing != None
  {
  }

  /** What each move moves; a goroutine that has stopped moves nothing more. */
  lemma MovesByCase(l: Lane, step: LaneStep)
    requires CanMove(l, step)
    ensures var k := Move(l, step);
            match step
            case Read => k.inHand == Some(l.outbox[0]) && [l.outbox[0]] + k.outbox == l.outbox
            case Enqueue => k.inHand == None && k.channel == l.channel + [l.inHand.value]
            case Dequeue => k.writing == Some(l.channel[0]) && [l.channel[0]] + k.channel == l.channel
            case Write => k.writing == None && k.inbox == l.inbox + [l.writing.value]
            case StopReader => k == l.(reader := false) && !CanMove(k, Read) && !CanMove(k, Enqueue)
            case StopWriter => k == l.(writer := false) && !CanMove(k, Dequeue) && !CanMove(k, Write)
  {
  }

  /** With another peer nothing of the last one's is left but what is in the channel or beyond. */
  lemma NewPeerStarts(l: Lane)
    ensures var k := NewPeer(l);
            k.outbox == [] && k.inHand == None && k.reader && k.channel == l.channel && k.writing == l.writing &&
            k.inbox == l.inbox && k.consumed == l.consumed
  {
  }

  predicate AllFit(messages: seq<ByteString>) { forall i | 0 <= i < |messages| :: |messages[i]| <= 61440 }

  /** Over every run, no message the relay accepted is longer than that. */
  lemma {:induction false} AcceptedFit(l: Lane, es: seq<Event>, k: Lane)
    requires AllFit(l.accepted) && LaneRuns(l, es, k)
    ensures AllFit(k.accepted)
    decreases |es|
  {
    if es != [] {
      AcceptedFit(After(l, es[0]), es[1..], k);
    }
  }

  /** Over every run of a lane: nothing is lost, duplicated, reordered or invented on the way. */
  lemma {:induction false} ForwardingConserves(l: Lane, es: seq<Event>, k: Lane)
    requires Conserved(l) && LaneRuns(l, es, k)
    ensures Conserved(k)
    ensures k.consumed <= k.delivered <= k.accepted <= k.sent
    decreases |es|
  {
    if es != [] {
      match es[0] {
        case PeerSends(m) => SendConserves(l, m);
        case Relays(step) => MoveConserves(l, step);
        case PeerTakes => TakeConserves(l);
      }
      ForwardingConserves(After(l, es[0]), es[1..], k);
    }
  }
}
