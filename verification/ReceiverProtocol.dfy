/** src/receiver_protocol.c: which frame may come when, over one handler. */
module ReceiverProtocol {
  import opened Bytes
  import opened Wire
  import opened Fips180
  import opened Storage
  import CCodec
  import Filename
  import RT = ReceiveTrace
  import opened ReceiveHandler
  import S = ReceiverSpec

  datatype ProtocolState = WaitFile | Receiving | Complete | Failed

  datatype ProtocolResult =
    | ProtocolOk
    | InvalidState
    | MalformedFrame
    | UnexpectedMessage
    | InvalidMetadata
    | HandlerError

  /** The result a frame is refused with, whatever made the refusal necessary. */
  function RefusalResult(s: S.RState, f: Frame): ProtocolResult
  {
    if s.WaitFile? then
      if f.kind != FILE_BEGIN then UnexpectedMessage
      else if S.Announces(f.payload) then HandlerError else InvalidMetadata
    else if f.kind == CHUNK then if f.payload == [] then MalformedFrame else HandlerError
    else if f.kind == FILE_END then if f.payload == [] then HandlerError else MalformedFrame
    else UnexpectedMessage
  }

  /**
   What handling frame `f` in `before` amounts to: a refusal needs a reason in the frame or a failed
   call. `leak` is about a file nothing can finish or abort any more.
   */
  ghost predicate Handled(before: S.RState, f: Frame, plausible: bool, r: ProtocolResult,
                          after: S.RState, progress: nat, leakBefore: bool, leakAfter: bool, faulted: bool)
  {
    if before.Complete? || before.Failed? then
      r == InvalidState && after == before && leakAfter == leakBefore
    else
      (leakAfter <==> plausible && S.EndsEarly(before, f)) &&
      if r == ProtocolOk
      then after == S.IdealStep(before, f) && after != S.Failed && progress == S.Got(after)
      else after == S.Failed && progress == S.Got(before) &&
           (!plausible || faulted || S.IdealStep(before, f) == S.Failed) &&
           r == if plausible then RefusalResult(before, f) else MalformedFrame
  }

  class Protocol {
    const handler: Handler
    var state: ProtocolState
    var fileActive: bool
    var currentFile: FileMeta
    var sanitizedFilename: ByteString

    /** Everything a call may change. */
    ghost function Repr(): set<object>
      reads this
    {
      {this, handler, handler.sink, handler.hash, handler.receiver}
    }

    /** The receiver is configured for the announced file. */
    ghost predicate Configured()
      reads this, handler, handler.receiver
    {
      var r := handler.receiver;
      r.expectedBytes == currentFile.size && r.expectedSha256 == currentFile.digest && r.integrityConfigured &&
      ValidMeta(currentFile)
    }

    ghost predicate Valid()
      reads this, handler, handler.sink, handler.hash, handler.receiver
    {
      handler.Valid() && (fileActive <==> state == Receiving) && !handler.filenameRefused &&
      match state
      case WaitFile => !handler.active && handler.receiver.state == RT.Idle
      case Receiving => handler.active && handler.receiver.state == RT.Receiving && Configured()
      case Complete => !handler.active && handler.receiver.state == RT.Complete && Configured()
      case Failed => !handler.active && handler.receiver.state != RT.Complete
    }

    /** The specification state this object is in. */
    ghost function Abs(): S.RState
      reads this, handler, handler.sink, handler.hash, handler.receiver
      requires Valid()
    {
      match state
      case WaitFile => S.WaitFile
      case Receiving => S.Receiving(currentFile, handler.sink.staging.value)
      case Complete => S.Complete(currentFile, handler.sink.final.value)
      case Failed => S.Failed
    }

    /** Runtime progress, which ACKs report. */
    function Progress(): nat
      reads this, handler, handler.receiver
    {
      handler.receiver.receivedBytes
    }

    constructor (platform: Platform)
      ensures Valid() && Abs() == S.WaitFile && fresh(Repr()) && !handler.Faulted() && handler.On(platform)
    {
      handler := new Handler(platform);
      state, fileActive, sanitizedFilename := WaitFile, false, [];
      currentFile := FileMeta(0, [], []);
    }

    /** What the file system and the resources look like once the protocol is over. */
    lemma EndState()
      requires Valid()
      ensures handler.sink.final.Some? <==> Abs().Complete?
      ensures Abs().Complete? ==> handler.sink.final == Some(Abs().got)
      ensures Abs().Complete? || Abs().Failed? ==> (handler.Leaked() <==> !handler.receiver.Released())
      ensures Abs().Complete? || handler.Leaked() ==> handler.sink.aborts == 0
      ensures handler.sink.aborts <= 1
    {
    }

    lemma ProgressFits()
      requires Valid()
      ensures S.Got(Abs()) < U64_LIMIT
    {
      hide Sha256;
    }

    /** pd_receiver_protocol_fail */
    method Fail(result: ProtocolResult) returns (r: ProtocolResult)
      requires handler.Valid() && !handler.filenameRefused
      requires fileActive || !handler.active
      requires handler.receiver.state != RT.Complete
      modifies this`state, this`fileActive, handler`active, handler.sink, handler.hash, handler.receiver
      ensures Valid() && state == Failed && r == result && Progress() == old(Progress())
      ensures handler.Leaked() == old(handler.Leaked()) && handler.Faulted() == old(handler.Faulted())
    {
      if fileActive {
        handler.Abort();
        fileActive := false;
      }
      state := Failed;
      return result;
    }

    /** pd_receiver_protocol_begin_file */
    method BeginFile(buffer: array<Byte>, offset: nat, size: nat) returns (r: ProtocolResult)
      requires Valid() && state == WaitFile && offset + size <= buffer.Length
      modifies Repr()
      ensures Valid() && (r == ProtocolOk || r == InvalidMetadata || r == HandlerError)
      ensures r == InvalidMetadata <==> !S.Announces(buffer[offset..offset + size])
      ensures r == ProtocolOk ==> Abs() == S.Receiving(CCodec.FileBeginDecode(buffer[offset..offset + size]).value, [])
      ensures r != ProtocolOk ==> state == Failed && !handler.Leaked()
      ensures Progress() == 0
      ensures (r == HandlerError || old(handler.Faulted())) ==> handler.Faulted()
      ensures unchanged(buffer)
    {
      hide CCodec.FileBeginDecode, Filename.IsNormal, Filename.Sanitized, Sha256;
      ghost var payload := buffer[offset..offset + size];
      var decoded := CCodec.FileBeginDecode(buffer[offset..offset + size]);
      if decoded.None? {
        r := Fail(InvalidMetadata);
        return;
      }
      var meta := decoded.value;
      DecodedMetaIsValid(payload);
      var fits, name := SanitizeName(meta.name);
      if !fits {
        r := Fail(InvalidMetadata);
        return;
      }
      var ok := handler.Begin(meta, name);
      if !ok {
        r := Fail(HandlerError);
        return;
      }
      currentFile, sanitizedFilename := meta, name;
      fileActive, state := true, Receiving;
      return ProtocolOk;
    }

    /** pd_receiver_protocol_write_chunk */
    method WriteChunk(buffer: array<Byte>, offset: nat, size: nat) returns (r: ProtocolResult)
      requires Valid() && state == Receiving && offset + size <= buffer.Length
      modifies this`state, this`fileActive, handler`active, handler.sink, handler.hash, handler.receiver
      ensures Valid()
      ensures r == ProtocolOk ==> size > 0 && currentFile == old(currentFile) &&
                                  |old(Abs()).got| + size <= currentFile.size &&
                                  Abs() == S.Receiving(currentFile, old(Abs()).got + buffer[offset..offset + size])
      ensures r != ProtocolOk ==> state == Failed && !handler.Leaked() && Progress() == old(Progress())
      ensures r == ProtocolOk || r == MalformedFrame || r == HandlerError
      ensures r == MalformedFrame <==> size == 0 || size > FRAME_MAX_PAYLOAD
      ensures r == HandlerError ==> handler.Faulted() || |old(Abs()).got| + size > currentFile.size
      ensures old(handler.Faulted()) ==> handler.Faulted()
      ensures unchanged(buffer)
    {
      if size == 0 || size > FRAME_MAX_PAYLOAD {
        r := Fail(MalformedFrame);
        return;
      }
      var ok := handler.Chunk(buffer, offset, size);
      if !ok {
        r := Fail(HandlerError);
        return;
      }
      return ProtocolOk;
    }

    /** pd_receiver_protocol_finish_file */
    method FinishFile(size: nat) returns (r: ProtocolResult)
      requires Valid() && state == Receiving
      modifies this`state, this`fileActive, handler`active, handler.sink, handler.hash, handler.receiver
      ensures Valid() && Progress() == old(Progress())
      ensures r == ProtocolOk ==>
              size == 0 && |old(Abs()).got| == currentFile.size && Sha256(old(Abs()).got) == currentFile.digest &&
              Abs() == S.Complete(currentFile, old(Abs()).got)
      ensures r != ProtocolOk ==> state == Failed
      ensures handler.Leaked() <==> size == 0 && |old(Abs()).got| < currentFile.size
      ensures r == ProtocolOk || r == MalformedFrame || r == HandlerError
      ensures r == MalformedFrame <==> size != 0
      ensures r == HandlerError ==>
              handler.Faulted() || |old(Abs()).got| < currentFile.size || Sha256(old(Abs()).got) != currentFile.digest
      ensures old(handler.Faulted()) ==> handler.Faulted()
    {
      hide Sha256;
      if size != 0 {
        r := Fail(MalformedFrame);
        return;
      }
      var ok := handler.Finish();
      if !ok {
        r := Fail(HandlerError);
        return;
      }
      fileActive, state := false, Complete;
      return ProtocolOk;
    }

    /** pd_receiver_protocol_handle refines the specification's step. */
    method Handle(header: CCodec.FrameHeader, buffer: array<Byte>, offset: nat, size: nat) returns (r: ProtocolResult)
      requires Valid() && offset + size <= buffer.Length && header.kind >= 0
      modifies Repr()
      ensures Valid()
      ensures Handled(old(Abs()), Frame(header.kind, buffer[offset..offset + size]), Plausible(header, size),
                      r, Abs(), Progress(), old(handler.Leaked()), handler.Leaked(), handler.Faulted())
      ensures old(handler.Faulted()) ==> handler.Faulted()
      ensures old(state) == Complete || old(state) == Failed ==> r == InvalidState
      ensures old(state) == WaitFile && Plausible(header, size) && header.kind != 3 ==> r == UnexpectedMessage
      ensures old(state) == Receiving && Plausible(header, size) && header.kind !in {4, 5} ==> r == UnexpectedMessage
      ensures old(state) == WaitFile || old(state) == Receiving ==> (!Plausible(header, size) ==> r == MalformedFrame)
      ensures old(state) == Receiving && Plausible(header, size) && header.kind == 4 && size == 0 ==>
              r == MalformedFrame
      ensures old(state) == Receiving && Plausible(header, size) && header.kind == 5 && size > 0 ==>
              r == MalformedFrame
      ensures unchanged(buffer)
    {
      hide CCodec.FileBeginDecode, Sha256, S.Announces, AllGood;
      if state == Complete || state == Failed {
        return InvalidState;
      }
      if !Plausible(header, size) {
        r := Fail(MalformedFrame);
        return;
      }
      if state == WaitFile {
        if header.kind != FILE_BEGIN {
          r := Fail(UnexpectedMessage);
          return;
        }
        r := BeginFile(buffer, offset, size);
        return;
      }
      if header.kind == CHUNK {
        r := WriteChunk(buffer, offset, size);
        return;
      }
      if header.kind == FILE_END {
        r := FinishFile(size);
        return;
      }
      r := Fail(UnexpectedMessage);
    }

    /** pd_receiver_protocol_abort */
    method Abort()
      requires Valid()
      modifies this`state, this`fileActive, handler`active, handler.sink, handler.hash, handler.receiver
      ensures Valid()
      ensures old(state) == Complete || old(state) == Failed ==> Abs() == old(Abs()) && unchanged(handler.sink)
      ensures old(state) == WaitFile || old(state) == Receiving ==> Abs() == S.Failed
      ensures handler.Leaked() == old(handler.Leaked()) && handler.Faulted() == old(handler.Faulted())
    {
      if state == Complete || state == Failed {
        return;
      }
      if fileActive {
        handler.Abort();
        fileActive := false;
      }
      state := Failed;
    }
  }

  /** Lines 120-122: a header that describes its payload. */
  predicate Plausible(header: CCodec.FrameHeader, size: nat)
  {
    ValidKind(header.kind % 256) && header.flags == 0 && header.payloadLength <= FRAME_MAX_PAYLOAD &&
    header.payloadLength == size
  }

  lemma DecodedMetaIsValid(payload: ByteString)
    requires CCodec.FileBeginDecode(payload).Some?
    ensures ValidMeta(CCodec.FileBeginDecode(payload).value)
  {
    hide CCodec.ReadBe;
    CCodec.ReadBeValue(payload[..8]);
    SpanValues();
  }

  /** Lines 53-58: the name to store the file under, if there is one. */
  method SanitizeName(input: ByteString) returns (ok: bool, name: ByteString)
    requires 0 !in input
    ensures ok <==> Filename.Sanitized(input).Ok?
    ensures ok ==> name == Filename.Sanitized(input).name && Filename.IsNormal(name) && 0 !in name
  {
    hide Filename.Sanitized, Filename.IsNormal;
    var sanitized := new Byte[121](_ => 0);
    var status, required := Filename.Sanitize(input, sanitized);
    NameFits(input);
    NameIsNormal(input);
    if status != Filename.SanitizeOk {
      return false, [];
    }
    name := sanitized[..required - 1];
    assert name == Filename.Sanitized(input).name;
    return true, name;
  }

  lemma NameFits(name: ByteString)
    ensures Filename.Sanitized(name).Ok? ==> |Filename.Sanitized(name).name| <= FILENAME_MAX
  {
    hide Filename.Sanitized;
    Filename.ResultIsNormal(name);
  }

  lemma NameIsNormal(name: ByteString)
    ensures Filename.Sanitized(name).Ok? ==>
            Filename.IsNormal(Filename.Sanitized(name).name) && 0 !in Filename.Sanitized(name).name
  {
    hide Filename.Sanitized;
    Filename.ResultIsNormal(name);
  }
}
