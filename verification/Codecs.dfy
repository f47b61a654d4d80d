/**
 What the two independently written codecs have to do with each other: they accept
 the same byte strings, and what they accept is the one encoding of what they return.
 */
module Codecs {
  import opened Bytes
  import opened Wire
  import C = CCodec
  import Js = JsCodec

  /** A header splits back into the fields it was made of. */
  lemma HeaderFields(kind: Byte, length: nat, payload: ByteString)
    requires length < U32_LIMIT
    ensures var m := Header(kind, length) + payload;
            m[..4] == [0x50, 0x44, 0x52, 0x50] && m[4] == 1 && m[5] == kind &&
            m[6..8] == [0, 0] && FromBigEndian(m[8..12]) == length && m[HEADER_SIZE..] == payload
  {
    hide BigEndian, FromBigEndian;
    var m := Header(kind, length) + payload;
    assert m[8..12] == BigEndian(4, length);
    SpanValues();
    DecodeEncodeInteger(4, length);
  }

  lemma TwoZeros(s: ByteString)
    requires |s| == 2
    ensures FromBigEndian(s) == 0 <==> s == [0, 0]
  {
    assert s[..1][..0] == [];
    assert FromBigEndian(s) == FromBigEndian(s[..1]) * 256 + s[1];
    assert FromBigEndian(s[..1]) == s[0];
  }

  /** decodeFrame accepts exactly the encodings of valid frames. */
  lemma JsDecodesExactlyMessages(m: ByteString, f: Frame)
    ensures Js.DecodeFrame(m) == Some(f) <==> ValidFrame(f) && m == Message(f)
  {
    hide BigEndian, FromBigEndian;
    if Js.DecodeFrame(m) == Some(f) {
      TwoZeros(m[6..8]);
      EncodeDecodeInteger(m[8..12]);
      assert m == m[..4] + [m[4], m[5]] + m[6..8] + m[8..12] + m[12..];
    }
    if ValidFrame(f) && m == Message(f) {
      HeaderFields(f.kind, |f.payload|, f.payload);
      TwoZeros(m[6..8]);
    }
  }

  /** The C and the JavaScript message decoders are the same function. */
  lemma DecodersAgree(m: ByteString)
    ensures C.RelayMessageDecode(m) == Js.DecodeFrame(m)
  {
    hide BigEndian, FromBigEndian, C.ReadBe;
    if |m| >= HEADER_SIZE {
      C.ReadBeValue(m[6..8]);
      C.ReadBeValue(m[8..12]);
      assert m[..4] == [m[0], m[1], m[2], m[3]];
    }
  }

  lemma CDecodesExactlyMessages(m: ByteString, f: Frame)
    ensures C.RelayMessageDecode(m) == Some(f) <==> ValidFrame(f) && m == Message(f)
  {
    hide Message, C.RelayMessageDecode, Js.DecodeFrame;
    DecodersAgree(m);
    JsDecodesExactlyMessages(m, f);
  }

  /** pd_ack_decode accepts exactly the payloads of valid acknowledgements. */
  lemma CDecodesExactlyAckPayloads(p: ByteString, a: Acknowledgement)
    ensures C.AckDecode(p) == C.AckDecoded(a) <==> ValidAck(a) && p == AckPayload(a)
  {
    hide BigEndian, FromBigEndian, C.ReadBe;
    SpanValues();
    if |p| == ACK_SIZE {
      C.ReadBeValue(p[4..]);
      EncodeDecodeInteger(p[4..]);
      assert p == [p[0], p[1], p[2], p[3]] + p[4..];
    }
    if ValidAck(a) {
      DecodeEncodeInteger(8, a.received);
      assert AckPayload(a)[4..] == BigEndian(8, a.received);
    }
  }

  /** decodeAck looks at a payload exactly as pd_ack_decode does. */
  lemma AckDecodersAgree(m: ByteString)
    ensures Js.DecodeAck(m) ==
            match Js.DecodeFrame(m)
            case None => None
            case Some(f) =>
              var decoded := C.AckDecode(f.payload);
              if f.kind == ACK && decoded.AckDecoded? then Some(decoded.ack) else None
  {
    hide FromBigEndian, C.ReadBe, Js.DecodeFrame;
    if Js.DecodeFrame(m).Some? && |Js.DecodeFrame(m).value.payload| == ACK_SIZE {
      C.ReadBeValue(Js.DecodeFrame(m).value.payload[4..]);
    }
  }

  /** decodeAck accepts exactly the messages of valid acknowledgements. */
  lemma JsDecodesExactlyAcks(m: ByteString, a: Acknowledgement)
    ensures Js.DecodeAck(m) == Some(a) <==> ValidAck(a) && m == AckMessage(a)
  {
    hide Message, AckPayload, C.AckDecode, Js.DecodeFrame, Js.DecodeAck;
    AckDecodersAgree(m);
    match Js.DecodeFrame(m) {
      case None =>
        if ValidAck(a) {
          JsDecodesExactlyMessages(m, Frame(ACK, AckPayload(a)));
        }
      case Some(f) =>
        JsDecodesExactlyMessages(m, f);
        CDecodesExactlyAckPayloads(f.payload, a);
        if ValidAck(a) {
          JsDecodesExactlyMessages(m, Frame(ACK, AckPayload(a)));
        }
    }
  }

  /** What pd_frame_decode_header makes of twelve bytes: the first thing wrong, or the fields. */
  lemma HeaderDecodesByCase(input: ByteString)
    requires |input| >= 12
    ensures var r := C.FrameDecodeHeader(input); var length := FromBigEndian(input[8..12]);
            if input[..4] != [0x50, 0x44, 0x52, 0x50] then r == C.Undecodable(C.BadMagic)
            else if input[4] != 1 then r == C.Undecodable(C.UnsupportedVersion)
            else if input[5] < 1 || input[5] > 7 then r == C.Undecodable(C.InvalidType)
            else if input[6] != 0 || input[7] != 0 then r == C.Undecodable(C.UnsupportedFlags)
            else if length > 1048576 then r == C.Undecodable(C.PayloadTooLarge)
            else r == C.Decoded(C.FrameHeader(input[5], 0, length))
  {
    hide FromBigEndian, C.ReadBe;
    C.ReadBeValue(input[6..8]);
    C.ReadBeValue(input[8..12]);
    TwoZeros(input[6..8]);
    assert input[..4] == [input[0], input[1], input[2], input[3]];
  }

  /** What pd_ack_decode makes of a payload: the first thing wrong, or the fields. */
  lemma AckDecodesByCase(p: ByteString)
    ensures var r := C.AckDecode(p);
            if |p| != 12 || p[2] != 0 || p[3] != 0 then r == C.AckRefused(C.AckMalformed)
            else if p[0] !in {3, 4, 5} then r == C.AckRefused(C.AckInvalidType)
            else if p[1] > 4 then r == C.AckRefused(C.AckInvalidStatus)
            else r == C.AckDecoded(Acknowledgement(p[0], p[1], FromBigEndian(p[4..])))
  {
    hide FromBigEndian, C.ReadBe;
    if |p| == 12 {
      C.ReadBeValue(p[4..]);
    }
  }

  // The wire format at fixed inputs.

  /** A FILE_END, a two-byte CHUNK, an OK for 258 bytes, and the announcement of a 258-byte file "a". */
  lemma WireExamples(digest: ByteString)
    requires |digest| == 32
    ensures Message(Frame(5, [])) == [0x50, 0x44, 0x52, 0x50, 1, 5, 0, 0, 0, 0, 0, 0]
    ensures Message(Frame(4, [7, 9])) == [0x50, 0x44, 0x52, 0x50, 1, 4, 0, 0, 0, 0, 0, 2, 7, 9]
    ensures AckPayload(Acknowledgement(4, 0, 258)) == [4, 0, 0, 0, 0, 0, 0, 0, 0, 0, 1, 2]
    ensures MetaPayload(FileMeta(258, digest, [0x61])) == [0, 0, 0, 0, 0, 0, 1, 2] + digest + [0, 1, 0x61]
  {
    hide BigEndian;
    FewBytes(0);
    FewBytes(2);
    FewBytes(258);
    FewBytes(1);
    assert BigEndian(8, 258) + digest + BigEndian(2, 1) + [0x61] == BigEndian(8, 258) + digest + ([0, 1] + [0x61]);
  }

  /** Integers below 65536 in two, four and eight bytes. */
  lemma FewBytes(v: nat)
    requires v < 0x1_0000
    ensures BigEndian(2, v) == [v / 256, v % 256]
    ensures BigEndian(4, v) == [0, 0, v / 256, v % 256]
    ensures BigEndian(8, v) == [0, 0, 0, 0, 0, 0, v / 256, v % 256]
  {
    hide BigEndian;
    ShiftedBytesAreBigEndian(v);
    assert ShiftedBytes(v) == [0, 0, 0, 0, 0, 0, v / 256, v % 256];
  }

  /** pd_file_begin_decode accepts exactly what encodeFileBegin can produce, and returns what went in. */
  lemma CDecodesExactlyMetaPayloads(p: ByteString, meta: FileMeta)
    ensures C.FileBeginDecode(p) == Some(meta) <==> ValidMeta(meta) && p == MetaPayload(meta)
  {
    hide BigEndian, FromBigEndian, C.ReadBe;
    SpanValues();
    if C.FileBeginDecode(p) == Some(meta) {
      C.ReadBeValue(p[40..42]);
      C.ReadBeValue(p[..8]);
      EncodeDecodeInteger(p[40..42]);
      EncodeDecodeInteger(p[..8]);
      assert p == p[..8] + p[8..40] + p[40..42] + p[42..];
    }
    if ValidMeta(meta) && p == MetaPayload(meta) {
      MetaFields(meta);
      C.ReadBeValue(p[40..42]);
      C.ReadBeValue(p[..8]);
    }
  }

  lemma MetaFields(meta: FileMeta)
    requires ValidMeta(meta)
    ensures var p := MetaPayload(meta);
            FromBigEndian(p[..8]) == meta.size && p[8..40] == meta.digest &&
            FromBigEndian(p[40..42]) == |meta.name| && p[42..] == meta.name
  {
    hide BigEndian, FromBigEndian;
    var p := MetaPayload(meta);
    SpanValues();
    DecodeEncodeInteger(8, meta.size);
    DecodeEncodeInteger(2, |meta.name|);
    assert p[..8] == BigEndian(8, meta.size);
    assert p[40..42] == BigEndian(2, |meta.name|);
  }
}
