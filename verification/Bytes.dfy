/**
 Byte strings, big-endian integers, and the option type shared by every part of
 the model. A byte is an integer below 256; a byte string is a sequence of them.
 */
module Bytes {

  type Byte = x: int | 0 <= x < 256
  type ByteString = seq<Byte>

  const U16_LIMIT: nat := 0x1_0000
  const U32_LIMIT: nat := 0x1_0000_0000
  const U64_LIMIT: nat := 0x1_0000_0000_0000_0000

  datatype Option<+T> = None | Some(value: T)

  /** 256 to the power `width`. */
  function Span(width: nat): (s: nat)
    ensures s > 0
  {
    if width == 0 then 1 else 256 * Span(width - 1)
  }

  lemma SpanValues()
    ensures Span(1) == 256 && Span(2) == U16_LIMIT && Span(4) == U32_LIMIT && Span(8) == U64_LIMIT
  {
    assert Span(2) == 256 * Span(1);
    assert Span(3) == 256 * Span(2);
    assert Span(4) == 256 * Span(3);
    assert Span(5) == 256 * Span(4);
    assert Span(6) == 256 * Span(5);
    assert Span(7) == 256 * Span(6);
    assert Span(8) == 256 * Span(7);
  }

  /** The `width` low-order bytes of `v`, most significant first. */
  function BigEndian(width: nat, v: nat): (s: ByteString)
    ensures |s| == width
  {
    if width == 0 then [] else BigEndian(width - 1, v / 256) + [v % 256]
  }

  function FromBigEndian(s: ByteString): (v: nat)
    ensures v < Span(|s|)
  {
    if s == [] then 0 else FromBigEndian(s[..|s| - 1]) * 256 + s[|s| - 1]
  }

  lemma {:induction false} DecodeEncodeInteger(width: nat, v: nat)
    requires v < Span(width)
    ensures FromBigEndian(BigEndian(width, v)) == v
  {
    if width > 0 {
      var s := BigEndian(width, v);
      assert s[..|s| - 1] == BigEndian(width - 1, v / 256);
      DecodeEncodeInteger(width - 1, v / 256);
    }
  }

  lemma {:induction false} EncodeDecodeInteger(s: ByteString)
    ensures BigEndian(|s|, FromBigEndian(s)) == s
  {
    if s != [] {
      EncodeDecodeInteger(s[..|s| - 1]);
      assert FromBigEndian(s) / 256 == FromBigEndian(s[..|s| - 1]);
    }
  }

  /** The shift-and-truncate form in which the C writers produce the same bytes. */
  function ShiftedBytes(v: nat): (s: ByteString)
    ensures |s| == 8
  {
    [v / 0x100_0000_0000_0000 % 256, v / 0x1_0000_0000_0000 % 256, v / 0x100_0000_0000 % 256, v / 0x1_0000_0000 % 256,
     v / 0x100_0000 % 256, v / 0x1_0000 % 256, v / 0x100 % 256, v % 256]
  }

  lemma Shifts(v: nat)
    ensures v / 0x100 / 0x100 == v / 0x1_0000
    ensures v / 0x1_0000 / 0x100 == v / 0x100_0000
    ensures v / 0x100_0000 / 0x100 == v / 0x1_0000_0000
    ensures v / 0x1_0000_0000 / 0x100 == v / 0x100_0000_0000
    ensures v / 0x100_0000_0000 / 0x100 == v / 0x1_0000_0000_0000
    ensures v / 0x1_0000_0000_0000 / 0x100 == v / 0x100_0000_0000_0000
  {
  }

  lemma {:induction false} ShiftedBytesAreBigEndian(v: nat)
    ensures ShiftedBytes(v) == BigEndian(8, v)
    ensures ShiftedBytes(v)[4..] == BigEndian(4, v)
    ensures ShiftedBytes(v)[6..] == BigEndian(2, v)
  {
    Shifts(v);
    assert BigEndian(2, v) == [v / 0x100 % 256, v % 256] by { BigEndianPair(0, v); }
    assert BigEndian(4, v) == ShiftedBytes(v)[4..] by {
      BigEndianPair(0, v / 0x1_0000);
      BigEndianPair(2, v);
    }
    BigEndianPair(0, v / 0x1_0000_0000_0000);
    BigEndianPair(2, v / 0x1_0000_0000);
    BigEndianPair(4, v / 0x1_0000);
    BigEndianPair(6, v);
  }

  lemma BigEndianPair(width: nat, v: nat)
    ensures BigEndian(width + 2, v) == BigEndian(width, v / 0x1_0000) + [v / 0x100 % 256, v % 256]
  {
    Shifts(v);
    assert BigEndian(width + 1, v / 0x100) == BigEndian(width, v / 0x100 / 0x100) + [v / 0x100 % 256];
  }
}
