/**
 web/sender.js: hashing a file in slices and sending it frame by frame, each frame
 answered before the next. The plan, indexed by frame number, is the conversation the
 code's offset loop has to produce.
 */
module Sender {
  import opened Bytes
  import opened Wire
  import opened Fips180
  import opened JsNumber
  import Js = JsCodec
  import Hash = JsSha256
  import Filename

  const FILE_CHUNK_SIZE: nat := 48 * 1024

  /** The arguments of sendFile that matter; `given` is its optional sha256Digest. */
  datatype Job = Job(file: ByteString, given: Option<ByteString>, name: ByteString)

  function Digest(job: Job): ByteString { if job.given.Some? then job.given.value else Sha256(job.file) }

  function Meta(job: Job): FileMeta { FileMeta(|job.file|, Digest(job), job.name) }

  /** sendFile gets as far as sending anything. */
  predicate Startable(job: Job) { |job.file| <= MAX_SAFE_INTEGER && ValidMeta(Meta(job)) }

  /** The receiver can store the file under its name, and the digest is the file's. */
  predicate Acceptable(job: Job)
  {
    Startable(job) && Filename.Sanitized(job.name).Ok? && Digest(job) == Sha256(job.file)
  }

  function Min(a: int, b: int): int { if a <= b then a else b }

  function ChunkCount(job: Job): nat { (|job.file| + FILE_CHUNK_SIZE - 1) / FILE_CHUNK_SIZE }

  function FrameCount(job: Job): nat { 2 + ChunkCount(job) }

  /** Bytes of the file covered by the first `k` chunks. */
  function Offset(job: Job, k: nat): (o: nat)
    ensures o <= |job.file|
  {
    Min(k * FILE_CHUNK_SIZE, |job.file|)
  }

  /** The `k`-th frame of the transfer. None of them is too large for a relay message. */
  function PlanFrame(job: Job, k: nat): (f: Frame)
    requires Startable(job) && k < FrameCount(job)
    ensures ValidFrame(f) && AckableKind(f.kind)
  {
    hide Sha256;
    if k == 0 then Frame(FILE_BEGIN, MetaPayload(Meta(job)))
    else if k <= ChunkCount(job) then Frame(CHUNK, job.file[Offset(job, k - 1)..Offset(job, k)])
    else Frame(FILE_END, [])
  }

  /** The only acknowledgement with which sendFile goes on from its `k`-th frame. */
  function ExpectedAck(job: Job, k: nat): (a: Acknowledgement)
    requires Startable(job) && k < FrameCount(job)
    ensures ValidAck(a)
  {
    hide Sha256, PlanFrame;
    Acknowledgement(PlanFrame(job, k).kind, ACK_OK, Offset(job, k))
  }

  function Frames(job: Job, n: nat): (fs: seq<Frame>)
    requires Startable(job) && n <= FrameCount(job)
    ensures |fs| == n
  {
    seq(n, i requires 0 <= i < n => PlanFrame(job, i))
  }

  /** The plan in numbers: 2 + ceil(size / 49152) frames, every chunk but the last of 49152 bytes, and the counts. */
  lemma PlanInNumbers(job: Job, k: nat)
    requires Startable(job) && k < FrameCount(job)
    ensures FrameCount(job) == 2 + (|job.file| + 49151) / 49152
    ensures k == 0 ==> PlanFrame(job, k) == Frame(3, MetaPayload(Meta(job))) && ExpectedAck(job, k).received == 0
    ensures 0 < k < FrameCount(job) - 1 ==>
            PlanFrame(job, k).kind == 4 && PlanFrame(job, k).payload != [] &&
            (k < FrameCount(job) - 2 ==>
               PlanFrame(job, k).payload == job.file[49152 * (k - 1)..49152 * k] &&
               ExpectedAck(job, k).received == 49152 * k) &&
            (k == FrameCount(job) - 2 ==>
               PlanFrame(job, k).payload == job.file[49152 * (k - 1)..] && ExpectedAck(job, k).received == |job.file|)
    ensures k == FrameCount(job) - 1 ==> PlanFrame(job, k) == Frame(5, []) && ExpectedAck(job, k).received == |job.file|
    ensures ExpectedAck(job, k).kind == PlanFrame(job, k).kind && ExpectedAck(job, k).status == 0
  {
    hide Sha256;
  }

  // hashFileIncremental

  datatype HashResult = Hashed(digest: ByteString) | InvalidConfiguration | SliceFailed

  /** One slice, copied into a typed array of its own, into the hasher. */
  method Feed(hasher: Hash.IncrementalSha256, part: ByteString)
    requires hasher.Valid() && !hasher.finished && |hasher.fed| + |part| <= MAX_SAFE_INTEGER
    modifies hasher, hasher.state, hasher.buffer, hasher.words
    ensures hasher.Valid() && !hasher.finished && hasher.fed == old(hasher.fed) + part
  {
    hide Hash.Absorbs, FinalHash;
    var bytes := new Byte[|part|](i requires 0 <= i < |part| => part[i]);
    assert bytes[..] == part;
    var _ := hasher.Update(bytes);
  }

  /** Every slice of `size` bytes that starts inside the file can be read. */
  ghost predicate AllReadable(file: ByteString, size: int, readable: nat -> bool)
  {
    forall i: nat :: SliceStart(i, size) < |file| ==> readable(i)
  }

  function SliceStart(i: nat, size: int): int { i * size }

  /** The digest does not depend on the slice size; it fails exactly if a slice cannot be read. */
  method HashFileIncremental(file: ByteString, chunkSize: int, readable: nat -> bool) returns (r: HashResult)
    ensures r.InvalidConfiguration? <==> |file| > MAX_SAFE_INTEGER || chunkSize <= 0 || chunkSize > MAX_SAFE_INTEGER
    ensures !r.InvalidConfiguration? ==> (r.SliceFailed? <==> !AllReadable(file, chunkSize, readable))
    ensures r.Hashed? ==> r.digest == Sha256(file)
  {
    hide Sha256, Hash.Absorbs, FinalHash, SliceStart;
    if |file| > MAX_SAFE_INTEGER || chunkSize <= 0 || chunkSize > MAX_SAFE_INTEGER {
      return InvalidConfiguration;
    }
    var hasher := new Hash.IncrementalSha256();
    hasher.NewIsValid();
    var processed, slice := 0, 0;
    SlicesAdvance(chunkSize);
    while processed < |file|
      invariant 0 <= processed <= |file| && processed == Min(SliceStart(slice, chunkSize), |file|)
      invariant forall i: nat :: i < slice ==> readable(i)
      invariant hasher.Valid() && !hasher.finished && hasher.fed == file[..processed]
      decreases |file| - processed
    {
      // A sum past the exact range is larger than the size in any rounding.
      var end := Min(processed + chunkSize, |file|);
      if !readable(slice) {
        return SliceFailed;
      }
      Feed(hasher, file[processed..end]);
      assert file[..end] == file[..processed] + file[processed..end];
      processed, slice := end, slice + 1;
    }
    assert file[..processed] == file;
    var digest := hasher.Array();
    return Hashed(digest);
  }

  lemma SlicesAdvance(size: int)
    requires size > 0
    ensures SliceStart(0, size) == 0
    ensures forall i: nat :: SliceStart(i + 1, size) == SliceStart(i, size) + size
    ensures forall i: nat, j: nat :: i <= j ==> SliceStart(i, size) <= SliceStart(j, size)
  {
    forall i: nat, j: nat | i <= j
      ensures SliceStart(i, size) <= SliceStart(j, size)
    {
      LaterSlice(i, j, size);
    }
  }

  lemma LaterSlice(i: nat, j: nat, size: int)
    requires size > 0 && i <= j
    ensures SliceStart(i, size) <= SliceStart(j, size)
  {
    assert (j - i) * size >= 0;
    assert j * size == i * size + (j - i) * size;
  }

  function Joined(parts: seq<ByteString>): ByteString
  {
    if parts == [] then [] else Joined(parts[..|parts| - 1]) + parts[|parts| - 1]
  }

  /** Any splitting of the input into updates, empty ones included, has one digest, and asking again repeats it. */
  method DigestOfUpdates(parts: seq<ByteString>) returns (digest: ByteString, again: ByteString)
    requires |Joined(parts)| <= MAX_SAFE_INTEGER
    ensures digest == again == Sha256(Joined(parts))
  {
    hide Sha256, Hash.Absorbs, FinalHash;
    var hasher := new Hash.IncrementalSha256();
    hasher.NewIsValid();
    for i := 0 to |parts|
      invariant hasher.Valid() && !hasher.finished && hasher.fed == Joined(parts[..i])
    {
      JoinedBound(parts, i + 1);
      assert parts[..i + 1][..i] == parts[..i];
      Feed(hasher, parts[i]);
    }
    assert parts[..|parts|] == parts;
    digest := hasher.Array();
    again := hasher.Array();
  }

  lemma {:induction false} JoinedBound(parts: seq<ByteString>, i: nat)
    requires i <= |parts|
    ensures |Joined(parts[..i])| <= |Joined(parts)|
    decreases |parts|
  {
    if i < |parts| {
      JoinedBound(parts[..|parts| - 1], i);
      assert parts[..|parts| - 1][..i] == parts[..i];
    } else {
      assert parts[..i] == parts;
    }
  }

  // sendFile

  /** One frame written to the socket and what waitForAck got: no value for a timeout, an error or a close. */
  datatype Exchange = Exchange(message: ByteString, reply: Option<ByteString>)

  /** How sendFile or one of its exchanges ends; all but `Confirmed` are thrown errors. */
  datatype SendResult = Confirmed | InvalidInput | Unreadable | NotConnected | BadReply

  /**
   What sendFile meets: whether the socket is open at the start and before each frame, whether each slice for hashing
   and each chunk can be read, and what comes back, if anything, for each frame.
   */
  datatype Surroundings = Surroundings(
    connected: nat -> bool,
    hashable: nat -> bool,
    readable: nat -> bool,
    reply: nat -> Option<ByteString>)

  /** Nothing is sent exactly if the socket is closed; a frame sent is confirmed exactly if `ack` comes back. */
  predicate Asked(a: Surroundings, before: seq<Exchange>, after: seq<Exchange>, f: Frame, ack: Acknowledgement,
                  r: SendResult)
  {
    var n := |before|;
    if !a.connected(n + 1) then r == NotConnected && after == before
    else if !ValidFrame(f) then r == InvalidInput && after == before
    else
      after == before + [Exchange(Message(f), a.reply(n))] &&
      r == if a.reply(n).Some? && Js.DecodeAck(a.reply(n).value) == Some(ack) then Confirmed else BadReply
  }

  class Socket {
    const around: Surroundings
    var log: seq<Exchange>

    constructor (around: Surroundings)
      ensures log == [] && this.around == around
    {
      log := [];
      this.around := around;
    }

    method Ask(message: ByteString) returns (reply: Option<ByteString>)
      modifies this
      ensures reply == around.reply(|old(log)|) && log == old(log) + [Exchange(message, reply)]
    {
      reply := around.reply(|log|);
      log := log + [Exchange(message, reply)];
    }

    /** sendFrameAndWait: the frame goes out whole or not at all, and only the awaited ACK is success. */
    method SendFrameAndWait(kind: nat, payload: ByteString, expected: nat) returns (r: SendResult)
      modifies this
      ensures Asked(around, old(log), log, Frame(kind, payload), Acknowledgement(kind, ACK_OK, expected), r)
    {
      hide Js.DecodeAck, Message;
      if !around.connected(|log| + 1) {
        return NotConnected;
      }
      var message := Js.EncodeFrame(kind, payload);
      if message.None? {
        return InvalidInput;
      }
      var reply := Ask(message.value);
      if reply.None? {
        return BadReply;
      }
      var ack := Js.DecodeAck(reply.value);
      if ack.None? || ack.value.kind != kind || ack.value.status != ACK_OK || ack.value.received != expected {
        return BadReply;
      }
      return Confirmed;
    }
  }

  predicate Matches(job: Job, k: nat, reply: Option<ByteString>)
    requires Startable(job) && k < FrameCount(job)
  {
    reply.Some? && Js.DecodeAck(reply.value) == Some(ExpectedAck(job, k))
  }

  /** The messages written are the plan's, in order, and each but the last was answered as expected. */
  predicate Follows(job: Job, log: seq<Exchange>)
    requires Startable(job)
  {
    |log| <= FrameCount(job) &&
    (forall i | 0 <= i < |log| :: log[i].message == Message(PlanFrame(job, i))) &&
    (forall i | 0 <= i < |log| - 1 :: Matches(job, i, log[i].reply))
  }

  predicate Answered(job: Job, log: seq<Exchange>)
    requires Startable(job)
  {
    Follows(job, log) && (log != [] ==> Matches(job, |log| - 1, log[|log| - 1].reply))
  }

  /** How far the conversation got and what ended it. */
  predicate Ended(job: Job, log: seq<Exchange>, r: SendResult)
    requires Startable(job)
  {
    Follows(job, log) &&
    match r
    case Confirmed => Answered(job, log) && |log| == FrameCount(job)
    case BadReply => !Answered(job, log)
    case InvalidInput => false
    case _ => Answered(job, log) && |log| < FrameCount(job)
  }

  /** The digest is given, or every slice it takes to compute it can be read. */
  ghost predicate Digestible(job: Job, a: Surroundings)
  {
    job.given.Some? || AllReadable(job.file, 1024 * 1024, a.hashable)
  }

  /** A digest that is not given is computed over slices of 2^20 bytes. */
  lemma DigestibleInNumbers(job: Job, a: Surroundings)
    ensures Digestible(job, a) <==> job.given.Some? || AllReadable(job.file, 1048576, a.hashable)
  {
    hide AllReadable;
  }

  /** Whatever it takes to get the first `n` frames out and heard of was there. */
  ghost predicate Undisturbed(job: Job, log: seq<Exchange>, a: Surroundings)
    requires Startable(job)
  {
    (forall i | 0 <= i < |log| :: Clear(job, i, log[i], a)) && (log != [] ==> a.connected(0) && Digestible(job, a))
  }

  /** The `i`-th frame could be made and sent, and this is the reply to it. */
  predicate Clear(job: Job, i: nat, e: Exchange, a: Surroundings)
  {
    a.connected(i + 1) && (1 <= i <= ChunkCount(job) ==> a.readable(i - 1)) && e.reply == a.reply(i)
  }

  /** The conversation and its end: what ended it is the first thing that was not as it should. */
  ghost predicate EndedIn(job: Job, log: seq<Exchange>, r: SendResult, a: Surroundings)
    requires Startable(job)
  {
    Ended(job, log, r) && Undisturbed(job, log, a) &&
    match r
    case NotConnected =>
      if log == [] && !a.connected(0) then true
      else !a.connected(|log| + 1) && (log == [] ==> Digestible(job, a)) &&
           (1 <= |log| <= ChunkCount(job) ==> a.readable(|log| - 1))
    case Unreadable =>
      if log == [] then a.connected(0) && !Digestible(job, a)
      else |log| <= ChunkCount(job) && !a.readable(|log| - 1)
    case _ => true
  }

  /** Nothing goes wrong: always connected, everything readable, and every reply the one awaited. */
  ghost predicate AllWell(job: Job, a: Surroundings)
    requires Startable(job)
  {
    (forall i | 0 <= i <= FrameCount(job) :: a.connected(i)) && Digestible(job, a) &&
    (forall i | 0 <= i < ChunkCount(job) :: a.readable(i)) &&
    (forall i | 0 <= i < FrameCount(job) :: Matches(job, i, a.reply(i)))
  }

  /** sendFile resolves if and only if nothing goes wrong. */
  lemma ResolvesExactlyIfAllWell(job: Job, log: seq<Exchange>, r: SendResult, a: Surroundings)
    requires Startable(job) && EndedIn(job, log, r, a)
    ensures r == Confirmed <==> AllWell(job, a)
  {
    hide Sha256, Message, PlanFrame, Matches, Startable, AllReadable;
    if r == Confirmed {
      forall i | 0 <= i < FrameCount(job)
        ensures Matches(job, i, a.reply(i))
      {
        assert Clear(job, i, log[i], a);
      }
      forall i | 0 <= i <= FrameCount(job)
        ensures a.connected(i)
      {
        assert i > 0 ==> Clear(job, i - 1, log[i - 1], a);
      }
      forall i | 0 <= i < ChunkCount(job)
        ensures a.readable(i)
      {
        assert Clear(job, i + 1, log[i + 1], a);
      }
    }
  }

  /** Asking for the next frame of the plan carries the conversation on by one, or ends it. */
  lemma FollowsExtends(job: Job, a: Surroundings, before: seq<Exchange>, after: seq<Exchange>, f: Frame,
                       ack: Acknowledgement, r: SendResult)
    requires Startable(job) && Answered(job, before) && |before| < FrameCount(job) && Undisturbed(job, before, a)
    requires before == [] ==> a.connected(0) && Digestible(job, a)
    requires 1 <= |before| <= ChunkCount(job) ==> a.readable(|before| - 1)
    requires Asked(a, before, after, f, ack, r) && f == PlanFrame(job, |before|) && ack == ExpectedAck(job, |before|)
    ensures r == Confirmed ==> Answered(job, after) && |after| == |before| + 1 && Undisturbed(job, after, a)
    ensures r != Confirmed || |after| == FrameCount(job) ==> EndedIn(job, after, r, a)
  {
    hide Sha256, Message, PlanFrame, FrameCount, Startable, Js.DecodeAck, Digestible, Undisturbed, Follows, Answered;
    var n := |before|;
    if a.connected(n + 1) {
      var e := Exchange(Message(f), a.reply(n));
      AnsweredExtends(job, before, e);
      UndisturbedExtends(job, before, e, a);
    } else {
      AnsweredFollows(job, before);
    }
    FramesFit(job, n);
  }

  lemma FramesFit(job: Job, k: nat)
    requires Startable(job) && k < FrameCount(job)
    ensures ValidFrame(PlanFrame(job, k))
  {
    hide Sha256, PlanFrame;
  }

  lemma AnsweredExtends(job: Job, log: seq<Exchange>, e: Exchange)
    requires Startable(job) && Answered(job, log) && |log| < FrameCount(job)
    requires e.message == Message(PlanFrame(job, |log|))
    ensures Follows(job, log + [e]) && (Answered(job, log + [e]) <==> Matches(job, |log|, e.reply))
  {
    hide Sha256, Message, PlanFrame, FrameCount, Startable, Matches;
  }

  lemma UndisturbedExtends(job: Job, log: seq<Exchange>, e: Exchange, a: Surroundings)
    requires Startable(job) && Undisturbed(job, log, a) && Clear(job, |log|, e, a)
    requires log == [] ==> a.connected(0) && Digestible(job, a)
    ensures Undisturbed(job, log + [e], a)
  {
    hide Startable, Digestible, Clear;
  }

  lemma NothingSaidYet(job: Job, a: Surroundings)
    ensures Startable(job) ==> Follows(job, []) && Answered(job, []) && Undisturbed(job, [], a)
  {
  }

  /** The loop's next chunk is the plan's. */
  lemma NextChunk(job: Job, k: nat, offset: nat)
    requires Startable(job) && offset == Offset(job, k) && k <= ChunkCount(job)
    ensures offset == |job.file| <==> k == ChunkCount(job)
    ensures offset < |job.file| ==>
            var end := Min(offset + FILE_CHUNK_SIZE, |job.file|);
            end == Offset(job, k + 1) && PlanFrame(job, k + 1) == Frame(CHUNK, job.file[offset..end])
  {
    hide Sha256, Startable;
  }

  /** sendFile: the whole plan, frame by frame, up to the first thing that goes wrong. */
  method SendFile(job: Job, socket: Socket) returns (r: SendResult)
    requires socket.log == []
    modifies socket
    ensures var a := socket.around;
            !Startable(job) ==>
              socket.log == [] &&
              r == if |job.file| > MAX_SAFE_INTEGER then InvalidInput
                   else if !a.connected(0) then NotConnected
                   else if !Digestible(job, a) then Unreadable
                   else InvalidInput
    ensures Startable(job) ==> EndedIn(job, socket.log, r, socket.around)
  {
    hide Sha256, Asked, Answered, Follows, Filename.Sanitized, AllReadable, Undisturbed;
    ghost var a := socket.around;
    NothingSaidYet(job, a);
    if |job.file| > MAX_SAFE_INTEGER {
      return InvalidInput;
    }
    if !socket.around.connected(0) {
      return NotConnected;
    }
    var digest;
    if job.given.Some? {
      digest := job.given.value;
    } else {
      var hashed := HashFileIncremental(job.file, 1024 * 1024, socket.around.hashable);
      if !hashed.Hashed? {
        return Unreadable;
      }
      digest := hashed.digest;
    }
    var begin := Js.EncodeFileBegin(FileMeta(|job.file|, digest, job.name));
    if begin.None? {
      return InvalidInput;
    }
    ghost var before := socket.log;
    r := socket.SendFrameAndWait(FILE_BEGIN, begin.value, 0);
    FollowsExtends(job, a, before, socket.log, PlanFrame(job, 0), ExpectedAck(job, 0), r);
    if r != Confirmed {
      return;
    }
    r := SendChunks(job, socket);
    if r != Confirmed {
      return;
    }
    NextChunk(job, ChunkCount(job), |job.file|);
    before := socket.log;
    r := socket.SendFrameAndWait(FILE_END, [], |job.file|);
    FollowsExtends(job, a, before, socket.log, PlanFrame(job, |before|), ExpectedAck(job, |before|), r);
  }

  /** Lines 211-226: the loop over the chunks. */
  method SendChunks(job: Job, socket: Socket) returns (r: SendResult)
    requires Startable(job) && |socket.log| == 1
    requires Answered(job, socket.log) && Undisturbed(job, socket.log, socket.around)
    modifies socket
    ensures r == Confirmed ==>
            |socket.log| == ChunkCount(job) + 1 &&
            Answered(job, socket.log) && Undisturbed(job, socket.log, socket.around)
    ensures r != Confirmed ==> EndedIn(job, socket.log, r, socket.around)
  {
    hide Sha256, Asked, Answered, Follows, Undisturbed, AllReadable;
    ghost var a := socket.around;
    var offset, k := 0, 0;
    while offset < |job.file|
      invariant k <= ChunkCount(job) && offset == Offset(job, k)
      invariant |socket.log| == k + 1 && Answered(job, socket.log) && Undisturbed(job, socket.log, a)
      decreases |job.file| - offset
    {
      NextChunk(job, k, offset);
      ghost var before := socket.log;
      var end := Min(offset + FILE_CHUNK_SIZE, |job.file|);
      if !socket.around.readable(k) {
        AnsweredFollows(job, socket.log);
        return Unreadable;
      }
      r := socket.SendFrameAndWait(CHUNK, job.file[offset..end], end);
      FollowsExtends(job, a, before, socket.log, PlanFrame(job, k + 1), ExpectedAck(job, k + 1), r);
      if r != Confirmed {
        return;
      }
      offset, k := end, k + 1;
    }
    NextChunk(job, k, offset);
    return Confirmed;
  }

  lemma AnsweredFollows(job: Job, log: seq<Exchange>)
    requires Startable(job) && Answered(job, log)
    ensures Follows(job, log)
  {
  }
}
