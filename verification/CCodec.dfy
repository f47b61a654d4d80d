/**
 The C receiver's codecs: src/frame.c, src/relay_message.c, src/ack.c and
 src/file_begin.c. Encoders write into the caller's buffer; decoders only read.
 */
module CCodec {
  import opened Bytes
  import opened Bits
  import opened Wire

  // Big-endian helpers: shifts joined with bitwise or, and shifts with truncation.

  /** The or of the first `n` bytes of `s`, each shifted to its place in an |s|-byte integer. */
  function OrShifted(s: ByteString, n: nat): nat
    requires n <= |s|
  {
    if n == 0 then 0 else Or(OrShifted(s, n - 1), s[n - 1] * Span(|s| - n))
  }

  function ReadBe(s: ByteString): nat { OrShifted(s, |s|) }

  lemma {:induction false} SpanIsPow2(n: nat)
    ensures Span(n) == Pow2(8 * n)
  {
    if n > 0 {
      SpanIsPow2(n - 1);
      Pow2Plus(8 * (n - 1), 8);
      Pow2Values();
    }
  }

  lemma OrOfNeighbours(high: nat, low: Byte, k: nat)
    ensures Or(high * Span(k + 1), low * Span(k)) == (high * 256 + low) * Span(k)
  {
    hide Or, Pow2, Span;
    var unit := Span(k);
    assert Span(k + 1) == 256 * unit by { SpanStep(k); }
    SpanIsPow2(k + 1);
    assert low * unit <= 255 * unit;
    OrDisjoint(8 * (k + 1), high, low * unit);
    assert high * (256 * unit) == (high * 256) * unit;
  }

  lemma SpanStep(k: nat)
    ensures Span(k + 1) == 256 * Span(k)
  {
  }

  lemma {:induction false} OrShiftedValue(s: ByteString, n: nat)
    requires n <= |s|
    ensures OrShifted(s, n) == FromBigEndian(s[..n]) * Span(|s| - n)
  {
    hide Or, Span;
    if n > 0 {
      OrShiftedValue(s, n - 1);
      assert s[..n][..n - 1] == s[..n - 1];
      OrOfNeighbours(FromBigEndian(s[..n - 1]), s[n - 1], |s| - n);
    }
  }

  lemma ReadBeValue(s: ByteString)
    ensures ReadBe(s) == FromBigEndian(s)
  {
    hide OrShifted, FromBigEndian;
    OrShiftedValue(s, |s|);
    assert s[..|s|] == s;
  }

  // src/frame.c

  datatype FrameHeader = FrameHeader(kind: int, flags: int, payloadLength: int)

  datatype FrameResult = FrameOk | BadMagic | UnsupportedVersion | InvalidType | UnsupportedFlags | PayloadTooLarge

  datatype DecodedHeader = Decoded(header: FrameHeader) | Undecodable(reason: FrameResult)

  /** pd_frame_encode_header: nothing is written unless everything checks out. */
  method FrameEncodeHeader(header: FrameHeader, output: array<Byte>) returns (r: FrameResult)
    requires output.Length >= HEADER_SIZE && 0 <= header.payloadLength < U32_LIMIT
    modifies output
    ensures r.InvalidType? <==> !ValidKind(header.kind % 256)
    ensures r.UnsupportedFlags? <==> ValidKind(header.kind % 256) && header.flags != 0
    ensures r.PayloadTooLarge? <==>
            ValidKind(header.kind % 256) && header.flags == 0 && header.payloadLength > FRAME_MAX_PAYLOAD
    ensures !r.BadMagic? && !r.UnsupportedVersion?
    ensures r.FrameOk? ==> output[..HEADER_SIZE] == Header(header.kind % 256, header.payloadLength)
    ensures output[HEADER_SIZE..] == old(output[HEADER_SIZE..])
    ensures !r.FrameOk? ==> output[..] == old(output[..])
  {
    hide BigEndian;
    if !ValidKind(header.kind % 256) {
      return InvalidType;
    }
    if header.flags != 0 {
      return UnsupportedFlags;
    }
    if header.payloadLength > FRAME_MAX_PAYLOAD {
      return PayloadTooLarge;
    }
    output[0] := 0x50;
    output[1] := 0x44;
    output[2] := 0x52;
    output[3] := 0x50;
    output[4] := 1;
    output[5] := header.kind % 256;
    output[6] := header.flags / 256 % 256;
    output[7] := header.flags % 256;
    ghost var start := output[..8];
    WriteU32(output, 8, header.payloadLength);
    assert output[..12] == start + BigEndian(4, header.payloadLength);
    return FrameOk;
  }

  /** pd_write_u32_be */
  method WriteU32(output: array<Byte>, at: nat, value: nat)
    requires at + 4 <= output.Length
    modifies output
    ensures output[..at] == old(output[..at]) && output[at + 4..] == old(output[at + 4..])
    ensures output[at..at + 4] == BigEndian(4, value)
  {
    hide BigEndian, ShiftedBytes;
    output[at] := value / 0x100_0000 % 256;
    output[at + 1] := value / 0x1_0000 % 256;
    output[at + 2] := value / 0x100 % 256;
    output[at + 3] := value % 256;
    FourShifted(value);
  }

  lemma FourShifted(v: nat)
    ensures BigEndian(4, v) == [v / 0x100_0000 % 256, v / 0x1_0000 % 256, v / 0x100 % 256, v % 256]
  {
    hide BigEndian;
    ShiftedBytesAreBigEndian(v);
  }

  /** pd_frame_decode_header */
  function FrameDecodeHeader(input: ByteString): DecodedHeader
    requires |input| >= HEADER_SIZE
  {
    if input[0] != 0x50 || input[1] != 0x44 || input[2] != 0x52 || input[3] != 0x50 then Undecodable(BadMagic)
    else if input[4] != 1 then Undecodable(UnsupportedVersion)
    else if !ValidKind(input[5]) then Undecodable(InvalidType)
    else if ReadBe(input[6..8]) != 0 then Undecodable(UnsupportedFlags)
    else if ReadBe(input[8..12]) > FRAME_MAX_PAYLOAD then Undecodable(PayloadTooLarge)
    else Decoded(FrameHeader(input[5], ReadBe(input[6..8]), ReadBe(input[8..12])))
  }

  // src/relay_message.c

  datatype MessageResult = MessageOk | MessagePayloadTooLarge | MessageBufferTooSmall | MessageMalformed

  /** pd_relay_message_encode */
  method RelayMessageEncode(header: FrameHeader, payload: ByteString, output: array<Byte>)
    returns (r: MessageResult, written: nat)
    requires 0 <= header.payloadLength < U32_LIMIT
    modifies output
    ensures r.MessagePayloadTooLarge? <==> |payload| > MAX_PAYLOAD || header.payloadLength != |payload|
    ensures r.MessageBufferTooSmall? <==> !r.MessagePayloadTooLarge? && output.Length < HEADER_SIZE + |payload|
    ensures r.MessageMalformed? <==> !r.MessagePayloadTooLarge? && !r.MessageBufferTooSmall? &&
                                     (!ValidKind(header.kind % 256) || header.flags != 0)
    ensures r.MessageOk? ==> written == HEADER_SIZE + |payload| <= output.Length &&
                             output[..written] == Message(Frame(header.kind % 256, payload)) &&
                             output[written..] == old(output[written..])
    ensures !r.MessageOk? ==> written == 0 && output[..] == old(output[..])
  {
    hide BigEndian;
    written := 0;
    if |payload| > MAX_PAYLOAD || header.payloadLength != |payload| {
      return MessagePayloadTooLarge, 0;
    }
    var required := HEADER_SIZE + |payload|;
    if output.Length < required {
      return MessageBufferTooSmall, 0;
    }
    var h := FrameEncodeHeader(header, output);
    if h != FrameOk {
      return MessageMalformed, 0;
    }
    ghost var head := output[..HEADER_SIZE];
    forall i | 0 <= i < |payload| {
      output[HEADER_SIZE + i] := payload[i];
    }
    assert output[..required] == head + payload;
    assert output[required..] == old(output[required..]);
    return MessageOk, required;
  }

  /** pd_relay_message_decode */
  function RelayMessageDecode(message: ByteString): Option<Frame>
  {
    if |message| < HEADER_SIZE || |message| > MESSAGE_MAX then None
    else
      match FrameDecodeHeader(message)
      case Undecodable(_) => None
      case Decoded(header) =>
        var payloadSize := |message| - HEADER_SIZE;
        if payloadSize > MAX_PAYLOAD || header.payloadLength != payloadSize then None
        else Some(Frame(header.kind, message[HEADER_SIZE..]))
  }

  // src/ack.c

  datatype AckResult = AckEncoded | AckInvalidType | AckInvalidStatus | AckMalformed

  datatype DecodedAck = AckDecoded(ack: Acknowledgement) | AckRefused(reason: AckResult)

  /** pd_ack_encode */
  method AckEncode(ack: Acknowledgement, output: array<Byte>) returns (r: AckResult)
    requires output.Length == ACK_SIZE && ack.received < U64_LIMIT
    modifies output
    ensures r.AckInvalidType? <==> !AckableKind(ack.kind)
    ensures r.AckInvalidStatus? <==> AckableKind(ack.kind) && ack.status % 256 > ACK_REJECTED
    ensures !r.AckMalformed?
    ensures r.AckEncoded? && ack.status < 256 ==> output[..] == AckPayload(ack)
    ensures !r.AckEncoded? ==> output[..] == old(output[..])
  {
    hide BigEndian, ShiftedBytes;
    if !AckableKind(ack.kind) {
      return AckInvalidType;
    }
    if ack.status % 256 > ACK_REJECTED {
      return AckInvalidStatus;
    }
    output[0] := ack.kind;
    output[1] := ack.status % 256;
    output[2] := 0;
    output[3] := 0;
    var shifted := ShiftedBytes(ack.received);
    forall i | 0 <= i < 8 {
      output[4 + i] := shifted[i];
    }
    ShiftedBytesAreBigEndian(ack.received);
    assert output[..] == [ack.kind, ack.status % 256, 0, 0] + shifted;
    return AckEncoded;
  }

  /** pd_ack_decode */
  function AckDecode(input: ByteString): DecodedAck
  {
    if |input| != ACK_SIZE || input[2] != 0 || input[3] != 0 then AckRefused(AckMalformed)
    else if !AckableKind(input[0]) then AckRefused(AckInvalidType)
    else if input[1] > ACK_REJECTED then AckRefused(AckInvalidStatus)
    else AckDecoded(Acknowledgement(input[0], input[1], ReadBe(input[4..])))
  }

  // src/file_begin.c

  datatype FileBeginResult = FileBeginOk | FileBeginInvalidFilename | FileBeginBufferTooSmall

  /** pd_file_begin_encode; the name is a C string, so it holds no NUL. */
  method FileBeginEncode(meta: FileMeta, output: array<Byte>) returns (r: FileBeginResult, written: nat)
    requires meta.size < U64_LIMIT && |meta.digest| == DIGEST_SIZE && 0 !in meta.name
    modifies output
    ensures r.FileBeginInvalidFilename? <==> |meta.name| == 0 || |meta.name| > FILENAME_MAX
    ensures r.FileBeginBufferTooSmall? <==> ValidMeta(meta) && output.Length < FILE_BEGIN_FIXED_SIZE + |meta.name|
    ensures r.FileBeginOk? ==> ValidMeta(meta) && written == |MetaPayload(meta)| <= output.Length &&
                               output[..written] == MetaPayload(meta) && output[written..] == old(output[written..])
    ensures !r.FileBeginOk? ==> written == 0 && output[..] == old(output[..])
  {
    hide BigEndian, ShiftedBytes;
    if |meta.name| == 0 || |meta.name| > FILENAME_MAX {
      return FileBeginInvalidFilename, 0;
    }
    var required := FILE_BEGIN_FIXED_SIZE + |meta.name|;
    if output.Length < required {
      return FileBeginBufferTooSmall, 0;
    }
    var size, length := ShiftedBytes(meta.size), ShiftedBytes(|meta.name|)[6..];
    var bytes := size + meta.digest + length + meta.name;
    forall i | 0 <= i < required {
      output[i] := bytes[i];
    }
    ShiftedBytesAreBigEndian(meta.size);
    ShiftedBytesAreBigEndian(|meta.name|);
    assert output[..required] == bytes;
    assert output[required..] == old(output[required..]);
    return FileBeginOk, required;
  }

  /** pd_file_begin_decode */
  function FileBeginDecode(payload: ByteString): Option<FileMeta>
  {
    if |payload| < FILE_BEGIN_FIXED_SIZE then None
    else
      var nameLength := ReadBe(payload[40..42]);
      if nameLength == 0 || nameLength > FILENAME_MAX || |payload| != FILE_BEGIN_FIXED_SIZE + nameLength then None
      else if 0 in payload[FILE_BEGIN_FIXED_SIZE..] then None
      else Some(FileMeta(ReadBe(payload[..8]), payload[8..40], payload[FILE_BEGIN_FIXED_SIZE..]))
  }
}
