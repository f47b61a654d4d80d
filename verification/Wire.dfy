/**
 The wire format both ends speak: one frame per WebSocket message, a 12-byte
 header and a payload, and the two payloads with structure of their own.
 */
module Wire {
  import opened Bytes

  const HEADER_SIZE: nat := 12
  const MESSAGE_MAX: nat := 60 * 1024
  const MAX_PAYLOAD: nat := MESSAGE_MAX - HEADER_SIZE
  const FRAME_MAX_PAYLOAD: nat := 1024 * 1024
  const FILE_BEGIN_FIXED_SIZE: nat := 42
  const FILENAME_MAX: nat := 120
  const DIGEST_SIZE: nat := 32
  const ACK_SIZE: nat := 12

  // Message types and ACK statuses.
  const HELLO: nat := 1
  const FILE_BEGIN: nat := 3
  const CHUNK: nat := 4
  const FILE_END: nat := 5
  const ACK: nat := 6
  const ERROR: nat := 7

  const ACK_OK: nat := 0
  const ACK_PROTOCOL_ERROR: nat := 1
  const ACK_STORAGE_ERROR: nat := 2
  const ACK_INTEGRITY_ERROR: nat := 3
  const ACK_REJECTED: nat := 4

  datatype Frame = Frame(kind: nat, payload: ByteString)

  datatype FileMeta = FileMeta(size: nat, digest: ByteString, name: ByteString)

  datatype Acknowledgement = Acknowledgement(kind: nat, status: nat, received: nat)

  predicate ValidKind(kind: int) { HELLO <= kind <= ERROR }

  predicate ValidFrame(f: Frame) { ValidKind(f.kind) && |f.payload| <= MAX_PAYLOAD }

  predicate AckableKind(kind: int) { kind == FILE_BEGIN || kind == CHUNK || kind == FILE_END }

  predicate ValidAck(a: Acknowledgement)
  {
    AckableKind(a.kind) && a.status <= ACK_REJECTED && a.received < U64_LIMIT
  }

  predicate ValidMeta(m: FileMeta)
  {
    m.size < U64_LIMIT && |m.digest| == DIGEST_SIZE && 0 < |m.name| <= FILENAME_MAX && 0 !in m.name
  }

  function Header(kind: Byte, length: nat): (h: ByteString)
    ensures |h| == HEADER_SIZE
  {
    [0x50, 0x44, 0x52, 0x50, 1, kind, 0, 0] + BigEndian(4, length)
  }

  /** The one encoding of a frame. */
  function Message(f: Frame): (m: ByteString)
    requires ValidFrame(f)
    ensures |m| == HEADER_SIZE + |f.payload|
  {
    Header(f.kind, |f.payload|) + f.payload
  }

  function AckPayload(a: Acknowledgement): (p: ByteString)
    requires ValidAck(a)
    ensures |p| == ACK_SIZE
  {
    [a.kind, a.status, 0, 0] + BigEndian(8, a.received)
  }

  function AckMessage(a: Acknowledgement): ByteString
    requires ValidAck(a)
  {
    Message(Frame(ACK, AckPayload(a)))
  }

  function MetaPayload(m: FileMeta): (p: ByteString)
    requires ValidMeta(m)
    ensures |p| == FILE_BEGIN_FIXED_SIZE + |m.name|
  {
    BigEndian(8, m.size) + m.digest + BigEndian(2, |m.name|) + m.name
  }
}
