/**
 SHA-256 as FIPS 180-4 defines it: one-shot, over the whole message. Section
 numbers refer to that standard. Everything here is stated without reference to
 the incremental implementation in web/sha256.js.
 */
module Fips180 {
  import opened Bytes
  import opened Bits

  type HashValue = h: seq<Word> | |h| == 8 witness [0, 0, 0, 0, 0, 0, 0, 0]
  type Block = b: ByteString | |b| == 64 witness seq(64, _ => 0)

  // Section 4.2.2: the constants K, and section 5.3.3: the initial hash value.

  const IV: HashValue :=
    [0x6a09e667, 0xbb67ae85, 0x3c6ef372, 0xa54ff53a, 0x510e527f, 0x9b05688c, 0x1f83d9ab, 0x5be0cd19]

  function Constant(t: nat): Word
    requires t < 64
  {
    match t
    case 0 => 0x428a2f98 case 1 => 0x71374491 case 2 => 0xb5c0fbcf case 3 => 0xe9b5dba5
    case 4 => 0x3956c25b case 5 => 0x59f111f1 case 6 => 0x923f82a4 case 7 => 0xab1c5ed5
    case 8 => 0xd807aa98 case 9 => 0x12835b01 case 10 => 0x243185be case 11 => 0x550c7dc3
    case 12 => 0x72be5d74 case 13 => 0x80deb1fe case 14 => 0x9bdc06a7 case 15 => 0xc19bf174
    case 16 => 0xe49b69c1 case 17 => 0xefbe4786 case 18 => 0x0fc19dc6 case 19 => 0x240ca1cc
    case 20 => 0x2de92c6f case 21 => 0x4a7484aa case 22 => 0x5cb0a9dc case 23 => 0x76f988da
    case 24 => 0x983e5152 case 25 => 0xa831c66d case 26 => 0xb00327c8 case 27 => 0xbf597fc7
    case 28 => 0xc6e00bf3 case 29 => 0xd5a79147 case 30 => 0x06ca6351 case 31 => 0x14292967
    case 32 => 0x27b70a85 case 33 => 0x2e1b2138 case 34 => 0x4d2c6dfc case 35 => 0x53380d13
    case 36 => 0x650a7354 case 37 => 0x766a0abb case 38 => 0x81c2c92e case 39 => 0x92722c85
    case 40 => 0xa2bfe8a1 case 41 => 0xa81a664b case 42 => 0xc24b8b70 case 43 => 0xc76c51a3
    case 44 => 0xd192e819 case 45 => 0xd6990624 case 46 => 0xf40e3585 case 47 => 0x106aa070
    case 48 => 0x19a4c116 case 49 => 0x1e376c08 case 50 => 0x2748774c case 51 => 0x34b0bcb5
    case 52 => 0x391c0cb3 case 53 => 0x4ed8aa4a case 54 => 0x5b9cca4f case 55 => 0x682e6ff3
    case 56 => 0x748f82ee case 57 => 0x78a5636f case 58 => 0x84c87814 case 59 => 0x8cc70208
    case 60 => 0x90befffa case 61 => 0xa4506ceb case 62 => 0xbef9a3f7 case _ => 0xc67178f2
  }

  // Section 2.2.2 and 3.2: operations on 32-bit words.

  function Mod32(x: int): Word { x % 0x1_0000_0000 }

  function Shr(n: nat, x: Word): Word { Quotient(x, Pow2(n)) }

  function Rotr(n: nat, x: Word): Word
    requires n <= 32
  {
    OrWord(Shr(n, x), Mod32(x * Pow2(32 - n)))
  }

  function Complement(x: Word): Word { 0xFFFF_FFFF - x }

  // Section 4.1.2: the logical functions.

  function Ch(x: Word, y: Word, z: Word): Word { XorWord(AndWord(x, y), AndWord(Complement(x), z)) }

  function Maj(x: Word, y: Word, z: Word): Word
  {
    XorWord(XorWord(AndWord(x, y), AndWord(x, z)), AndWord(y, z))
  }

  function BigSigma0(x: Word): Word { XorWord(XorWord(Rotr(2, x), Rotr(13, x)), Rotr(22, x)) }

  function BigSigma1(x: Word): Word { XorWord(XorWord(Rotr(6, x), Rotr(11, x)), Rotr(25, x)) }

  function SmallSigma0(x: Word): Word { XorWord(XorWord(Rotr(7, x), Rotr(18, x)), Shr(3, x)) }

  function SmallSigma1(x: Word): Word { XorWord(XorWord(Rotr(17, x), Rotr(19, x)), Shr(10, x)) }

  // Section 5.1.1: padding to a multiple of 64 bytes.

  /** The number of zero bytes between the 0x80 marker and the length. */
  function ZeroCount(length: nat): (k: nat)
    ensures k < 64 && (length + 1 + k) % 64 == 56
  {
    (119 - length % 64) % 64
  }

  function Zeros(n: nat): (s: ByteString)
    ensures |s| == n
  {
    seq(n, _ => 0)
  }

  lemma FillsBlock(n: nat)
    requires n % 64 == 56
    ensures (n + 8) % 64 == 0
  {
  }

  function Padded(message: ByteString): (p: ByteString)
    ensures |p| % 64 == 0
  {
    FillsBlock(|message| + 1 + ZeroCount(|message|));
    message + [0x80] + Zeros(ZeroCount(|message|)) + BigEndian(8, 8 * |message|)
  }

  // Section 6.2.2: the hash computation.

  /** Step 1, the message schedule. */
  function Schedule(block: Block, t: nat): Word
  {
    if t < 16 then
      FourBytes(block[4 * t..4 * t + 4])
    else
      Mod32(SmallSigma1(Schedule(block, t - 2)) + Schedule(block, t - 7) +
            SmallSigma0(Schedule(block, t - 15)) + Schedule(block, t - 16))
  }

  /** Section 5.2.1: a word is four bytes of the block, most significant first. */
  function FourBytes(s: ByteString): Word
    requires |s| == 4
  {
    SpanValues();
    FromBigEndian(s)
  }

  datatype Working = Working(a: Word, b: Word, c: Word, d: Word, e: Word, f: Word, g: Word, h: Word)

  /** Step 3, one round of the compression function. */
  function Round(v: Working, k: Word, w: Word): Working
  {
    var t1 := Mod32(v.h + BigSigma1(v.e) + Ch(v.e, v.f, v.g) + k + w);
    var t2 := Mod32(BigSigma0(v.a) + Maj(v.a, v.b, v.c));
    Working(Mod32(t1 + t2), v.a, v.b, v.c, Mod32(v.d + t1), v.e, v.f, v.g)
  }

  /** Steps 2 and 3 for the first `t` rounds. */
  function Rounds(h: HashValue, block: Block, t: nat): Working
    requires t <= 64
  {
    if t == 0 then
      Working(h[0], h[1], h[2], h[3], h[4], h[5], h[6], h[7])
    else
      Round(Rounds(h, block, t - 1), Constant(t - 1), Schedule(block, t - 1))
  }

  /** Step 4, the next intermediate hash value. */
  function Compress(h: HashValue, block: Block): HashValue
  {
    AddWorking(h, Rounds(h, block, 64))
  }

  function AddWorking(h: HashValue, v: Working): HashValue
  {
    [Mod32(h[0] + v.a), Mod32(h[1] + v.b), Mod32(h[2] + v.c), Mod32(h[3] + v.d),
     Mod32(h[4] + v.e), Mod32(h[5] + v.f), Mod32(h[6] + v.g), Mod32(h[7] + v.h)]
  }

  /** The intermediate hash value after the first `n` blocks of `data`. */
  function Chain(data: ByteString, n: nat): HashValue
    requires 64 * n <= |data|
  {
    if n == 0 then IV else Compress(Chain(data, n - 1), data[64 * (n - 1)..64 * n])
  }

  function HashBytes(h: seq<Word>): (s: ByteString)
    ensures |s| == 4 * |h|
  {
    if h == [] then [] else HashBytes(h[..|h| - 1]) + BigEndian(4, h[|h| - 1])
  }

  function FinalHash(message: ByteString): HashValue
  {
    var p := Padded(message);
    Chain(p, |p| / 64)
  }

  function Sha256(message: ByteString): (digest: ByteString)
    ensures |digest| == 32
  {
    HashBytes(FinalHash(message))
  }

  /** Only the hashed blocks matter to the chaining value. */
  lemma {:induction false} ChainPrefix(x: ByteString, y: ByteString, n: nat)
    requires 64 * n <= |x| && 64 * n <= |y|
    requires x[..64 * n] == y[..64 * n]
    ensures Chain(x, n) == Chain(y, n)
  {
    hide Compress, IV;
    if n > 0 {
      assert x[..64 * (n - 1)] == x[..64 * n][..64 * (n - 1)];
      assert y[..64 * (n - 1)] == y[..64 * n][..64 * (n - 1)];
      ChainPrefix(x, y, n - 1);
      assert x[64 * (n - 1)..64 * n] == x[..64 * n][64 * (n - 1)..];
      assert y[64 * (n - 1)..64 * n] == y[..64 * n][64 * (n - 1)..];
    }
  }

  /** Section 5.1.1 asks for the smallest number of zeros that fills the block. */
  lemma ZeroCountIsLeast(length: nat, k: nat)
    requires (length + 1 + k) % 64 == 56
    ensures ZeroCount(length) <= k
  {
  }
}
