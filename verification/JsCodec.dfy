/**
 The browser sender's codecs, web/protocol.js. A thrown error is `None`; DataView
 accessors are big-endian by definition, and TextEncoder's output is a parameter.
 */
module JsCodec {
  import opened Bytes
  import opened Wire

  /** encodeFrame */
  method EncodeFrame(kind: int, payload: ByteString) returns (r: Option<ByteString>)
    ensures r.Some? <==> ValidKind(kind) && |payload| <= MAX_PAYLOAD
    ensures r.Some? ==> r.value == Message(Frame(kind, payload))
  {
    hide BigEndian;
    if !ValidKind(kind) || |payload| > MAX_PAYLOAD {
      return None;
    }
    var message := new Byte[HEADER_SIZE + |payload|](_ => 0);
    message[0], message[1], message[2], message[3] := 0x50, 0x44, 0x52, 0x50;
    message[4] := 1;
    message[5] := kind;
    message[6], message[7] := 0, 0;
    var length := BigEndian(4, |payload|);
    forall i | 0 <= i < 4 {
      message[8 + i] := length[i];
    }
    assert message[..12] == Header(kind, |payload|);
    forall i | 0 <= i < |payload| {
      message[HEADER_SIZE + i] := payload[i];
    }
    assert message[..] == Header(kind, |payload|) + payload;
    return Some(message[..]);
  }

  /** decodeFrame */
  function DecodeFrame(message: ByteString): Option<Frame>
  {
    if |message| < HEADER_SIZE || |message| > MESSAGE_MAX then None
    else if message[..4] != [0x50, 0x44, 0x52, 0x50] then None
    else if message[4] != 1 then None
    else if !ValidKind(message[5]) then None
    else if FromBigEndian(message[6..8]) != 0 then None
    else
      var payloadLength := FromBigEndian(message[8..12]);
      if payloadLength > MAX_PAYLOAD || HEADER_SIZE + payloadLength != |message| then None
      else Some(Frame(message[5], message[HEADER_SIZE..]))
  }

  /** encodeFileBegin; `filenameBytes` is the UTF-8 form of the name. */
  method EncodeFileBegin(meta: FileMeta) returns (r: Option<ByteString>)
    ensures r.Some? <==> ValidMeta(meta)
    ensures r.Some? ==> r.value == MetaPayload(meta)
  {
    hide BigEndian;
    if meta.size >= U64_LIMIT || |meta.digest| != DIGEST_SIZE {
      return None;
    }
    if |meta.name| == 0 || 0 in meta.name || |meta.name| > FILENAME_MAX {
      return None;
    }
    var payload := new Byte[FILE_BEGIN_FIXED_SIZE + |meta.name|](_ => 0);
    var size, length := BigEndian(8, meta.size), BigEndian(2, |meta.name|);
    forall i | 0 <= i < 8 {
      payload[i] := size[i];
    }
    forall i | 0 <= i < DIGEST_SIZE {
      payload[8 + i] := meta.digest[i];
    }
    assert payload[..40] == size + meta.digest;
    payload[40], payload[41] := length[0], length[1];
    forall i | 0 <= i < |meta.name| {
      payload[FILE_BEGIN_FIXED_SIZE + i] := meta.name[i];
    }
    assert payload[..40] == size + meta.digest;
    assert payload[40..42] == length && payload[42..] == meta.name;
    assert payload[..] == payload[..40] + payload[40..42] + payload[42..];
    return Some(payload[..]);
  }

  /** decodeAck */
  function DecodeAck(message: ByteString): Option<Acknowledgement>
  {
    match DecodeFrame(message)
    case None => None
    case Some(frame) =>
      if frame.kind != ACK || |frame.payload| != ACK_SIZE then None
      else
        var p := frame.payload;
        if !AckableKind(p[0]) then None
        else if p[1] > ACK_REJECTED then None
        else if p[2] != 0 || p[3] != 0 then None
        else Some(Acknowledgement(p[0], p[1], FromBigEndian(p[4..])))
  }
}
