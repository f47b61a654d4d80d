/**
 The word expressions of web/sha256.js, written with JavaScript's signed 32-bit
 operators, and the words of FIPS 180-4 each of them denotes modulo 2^32.
 */
module JsSha256Words {
  import opened Bytes
  import opened Bits
  import opened JsNumber
  import opened Fips180

  predicate Denotes(x: int, u: Word)
  {
    x == u || x == u - 0x1_0000_0000
  }

  lemma Signed(x: int)
    ensures Denotes(ToInt32(x), ToUint32(x))
  {
  }

  lemma DenotedWord(x: int, u: Word)
    requires Denotes(x, u)
    ensures ToUint32(x) == u
  {
  }

  function JsRotr(value: int, bits: nat): int
    requires 0 < bits < 32
  {
    BitOr(ShiftRightUnsigned(value, bits), ShiftLeft(value, 32 - bits))
  }

  lemma RotrAgrees(x: Word, n: nat)
    requires 0 < n < 32
    ensures Denotes(JsRotr(x, n), Rotr(n, x))
  {
    hide OrWord, BitOr, Pow2, Denotes, ToInt32;
    assert n % 32 == n && (32 - n) % 32 == 32 - n;
    WordIsItself(x);
    WordIsItself(ShiftRightUnsigned(x, n));
    SignedView(x * Pow2(32 - n));
    OrAgrees(ShiftRightUnsigned(x, n), ShiftLeft(x, 32 - n));
  }

  lemma OrAgrees(x: int, y: int)
    ensures Denotes(BitOr(x, y), OrWord(ToUint32(x), ToUint32(y)))
  {
    Signed(OrWord(ToUint32(x), ToUint32(y)));
  }

  lemma XorAgrees(x: int, y: int, u: Word, v: Word)
    requires Denotes(x, u) && Denotes(y, v)
    ensures Denotes(BitXor(x, y), XorWord(u, v))
  {
    DenotedWord(x, u);
    DenotedWord(y, v);
    Signed(XorWord(u, v));
  }

  lemma AndAgrees(x: int, y: int, u: Word, v: Word)
    requires Denotes(x, u) && Denotes(y, v)
    ensures Denotes(BitAnd(x, y), AndWord(u, v))
  {
    DenotedWord(x, u);
    DenotedWord(y, v);
    Signed(AndWord(u, v));
  }

  lemma NotAgrees(x: Word)
    ensures Denotes(BitNot(x), Complement(x))
  {
  }

  /** The three rotations, exclusive-ored, of both Sigma functions. */
  function JsSigma(x: Word, i: nat, j: nat, k: nat): int
    requires 0 < i < 32 && 0 < j < 32 && 0 < k < 32
  {
    BitXor(BitXor(JsRotr(x, i), JsRotr(x, j)), JsRotr(x, k))
  }

  /** Two rotations and a shift, exclusive-ored, of both sigma functions. */
  function JsSmallSigma(x: Word, i: nat, j: nat, k: nat): int
    requires 0 < i < 32 && 0 < j < 32 && k < 32
  {
    BitXor(BitXor(JsRotr(x, i), JsRotr(x, j)), ShiftRightUnsigned(x, k))
  }

  function JsCh(e: Word, f: Word, g: Word): int { BitXor(BitAnd(e, f), BitAnd(BitNot(e), g)) }

  function JsMaj(a: Word, b: Word, c: Word): int
  {
    BitXor(BitXor(BitAnd(a, b), BitAnd(a, c)), BitAnd(b, c))
  }

  lemma SigmaAgrees(x: Word, i: nat, j: nat, k: nat)
    requires 0 < i < 32 && 0 < j < 32 && 0 < k < 32
    ensures Denotes(JsSigma(x, i, j, k), XorWord(XorWord(Rotr(i, x), Rotr(j, x)), Rotr(k, x)))
  {
    hide Rotr, JsRotr, XorWord, BitXor;
    RotrAgrees(x, i);
    RotrAgrees(x, j);
    RotrAgrees(x, k);
    XorAgrees(JsRotr(x, i), JsRotr(x, j), Rotr(i, x), Rotr(j, x));
    XorAgrees(BitXor(JsRotr(x, i), JsRotr(x, j)), JsRotr(x, k), XorWord(Rotr(i, x), Rotr(j, x)), Rotr(k, x));
  }

  lemma SmallSigmaAgrees(x: Word, i: nat, j: nat, k: nat)
    requires 0 < i < 32 && 0 < j < 32 && k < 32
    ensures Denotes(JsSmallSigma(x, i, j, k), XorWord(XorWord(Rotr(i, x), Rotr(j, x)), Shr(k, x)))
  {
    hide Rotr, JsRotr, XorWord, BitXor, Pow2;
    RotrAgrees(x, i);
    RotrAgrees(x, j);
    WordIsItself(x);
    XorAgrees(JsRotr(x, i), JsRotr(x, j), Rotr(i, x), Rotr(j, x));
    XorAgrees(BitXor(JsRotr(x, i), JsRotr(x, j)), ShiftRightUnsigned(x, k), XorWord(Rotr(i, x), Rotr(j, x)), Shr(k, x));
  }

  lemma ChAgrees(e: Word, f: Word, g: Word)
    ensures Denotes(JsCh(e, f, g), Ch(e, f, g))
  {
    hide AndWord, XorWord, BitAnd, BitXor, BitNot, Complement;
    NotAgrees(e);
    AndAgrees(e, f, e, f);
    AndAgrees(BitNot(e), g, Complement(e), g);
    XorAgrees(BitAnd(e, f), BitAnd(BitNot(e), g), AndWord(e, f), AndWord(Complement(e), g));
  }

  lemma MajAgrees(a: Word, b: Word, c: Word)
    ensures Denotes(JsMaj(a, b, c), Maj(a, b, c))
  {
    hide AndWord, XorWord, BitAnd, BitXor;
    AndAgrees(a, b, a, b);
    AndAgrees(a, c, a, c);
    AndAgrees(b, c, b, c);
    XorAgrees(BitAnd(a, b), BitAnd(a, c), AndWord(a, b), AndWord(a, c));
    XorAgrees(BitXor(BitAnd(a, b), BitAnd(a, c)), BitAnd(b, c),
              XorWord(AndWord(a, b), AndWord(a, c)), AndWord(b, c));
  }

  /** Every sum is exact as a double and `>>> 0` takes it to the sum modulo 2^32. */
  lemma SumAgrees(x: int, y: int, u: Word, v: Word, rest: int)
    requires Denotes(x, u) && Denotes(y, v) && 0 <= rest < 0x8_0000_0000
    ensures Exact(rest + x + y) && ToUint32(rest + x + y) == Mod32(rest + u + v)
  {
    if x == u && y == v {
    } else if x != u && y != v {
      Wraps(rest + u + v, 2);
    } else {
      Wraps(rest + u + v, 1);
    }
  }

  lemma Wraps(x: int, k: int)
    ensures (x - k * 0x1_0000_0000) % 0x1_0000_0000 == x % 0x1_0000_0000
  {
  }

  /** The big-endian load of lines 81-84. */
  function JsLoad(b0: Byte, b1: Byte, b2: Byte, b3: Byte): Word
  {
    ToUint32(BitOr(BitOr(BitOr(ShiftLeft(b0, 24), ShiftLeft(b1, 16)), ShiftLeft(b2, 8)), b3))
  }

  lemma LoadAgrees(b0: Byte, b1: Byte, b2: Byte, b3: Byte)
    ensures JsLoad(b0, b1, b2, b3) == FourBytes([b0, b1, b2, b3])
  {
    hide OrWord, Pow2, BitOr, ShiftLeft, FromBigEndian;
    Pow2Values();
    ByteShift(b0, 24);
    ByteShift(b1, 16);
    ByteShift(b2, 8);
    var x := BitOr(ShiftLeft(b0, 24), ShiftLeft(b1, 16));
    OrOfBytes(ShiftLeft(b0, 24), ShiftLeft(b1, 16), b0, b1 * 0x1_0000, 24);
    OrOfBytes(x, ShiftLeft(b2, 8), b0 * 0x100 + b1, b2 * 0x100, 16);
    OrOfBytes(BitOr(x, ShiftLeft(b2, 8)), b3, b0 * 0x1_0000 + b1 * 0x100 + b2, b3, 8);
    FourBytesValue(b0, b1, b2, b3);
  }

  lemma ByteShift(b: Byte, n: nat)
    requires n == 8 || n == 16 || n == 24
    ensures ToUint32(ShiftLeft(b, n)) == b * Pow2(n)
  {
    hide Pow2, ToInt32, ToUint32;
    assert n % 32 == n;
    WordIsItself(b);
    SignedView(b * Pow2(n));
    ByteTimes(b, n);
    WordIsItself(b * Pow2(n));
  }

  lemma ByteTimes(b: Byte, n: nat)
    requires n == 8 || n == 16 || n == 24
    ensures 0 <= b * Pow2(n) < 0x1_0000_0000
  {
    hide Pow2;
    Pow2Values();
  }

  lemma OrOfBytes(x: int, y: int, high: nat, low: nat, k: nat)
    requires ToUint32(x) == high * Pow2(k) && ToUint32(y) == low < Pow2(k)
    ensures ToUint32(BitOr(x, y)) == high * Pow2(k) + low
  {
    OrDisjoint(k, high, low);
    SignedView(OrWord(ToUint32(x), ToUint32(y)));
    WordIsItself(OrWord(ToUint32(x), ToUint32(y)));
  }

  lemma FourBytesValue(b0: Byte, b1: Byte, b2: Byte, b3: Byte)
    ensures FourBytes([b0, b1, b2, b3]) == b0 * 0x100_0000 + b1 * 0x1_0000 + b2 * 0x100 + b3
  {
    assert [b0, b1, b2, b3][..3] == [b0, b1, b2];
    assert [b0, b1, b2][..2] == [b0, b1];
    assert [b0, b1][..1] == [b0];
    assert FromBigEndian([b0]) == b0 by { assert [b0][..0] == []; }
    assert FromBigEndian([b0, b1]) == b0 * 256 + b1;
    assert FromBigEndian([b0, b1, b2]) == b0 * 0x1_0000 + b1 * 256 + b2;
  }

  lemma ExpansionAgrees(w16: Word, w7: Word, x: Word, y: Word)
    ensures var s0, s1 := JsSmallSigma(x, 7, 18, 3), JsSmallSigma(y, 17, 19, 10);
            Exact(w16 + s0) && Exact(w16 + s0 + w7) && Exact(w16 + s0 + w7 + s1) &&
            ToUint32(w16 + s0 + w7 + s1) == Mod32(SmallSigma1(y) + w7 + SmallSigma0(x) + w16)
  {
    hide JsSmallSigma, XorWord, Rotr, Shr;
    SmallSigmaAgrees(x, 7, 18, 3);
    SmallSigmaAgrees(y, 17, 19, 10);
    SumAgrees(JsSmallSigma(x, 7, 18, 3), JsSmallSigma(y, 17, 19, 10), SmallSigma0(x), SmallSigma1(y), w16 + w7);
  }

  /** The table K of lines 1-18. */
  function JsConstant(t: nat): Word
    requires t < 64
  {
    match t
    case 0 => 0x428a2f98 case 1 => 0x71374491 case 2 => 0xb5c0fbcf case 3 => 0xe9b5dba5
    case 4 => 0x3956c25b case 5 => 0x59f111f1 case 6 => 0x923f82a4 case 7 => 0xab1c5ed5
    case 8 => 0xd807aa98 case 9 => 0x12835b01 case 10 => 0x243185be case 11 => 0x550c7dc3
    case 12 => 0x72be5d74 case 13 => 0x80deb1fe case 14 => 0x9bdc06a7 case 15 => 0xc19bf174
    case 16 => 0xe49b69c1 case 17 => 0xefbe4786 case 18 => 0x0fc19dc6 case 19 => 0x240ca1cc
    case 20 => 0x2de92c6f case 21 => 0x4a7484aa case 22 => 0x5cb0a9dc case 23 => 0x76f988da
    case 24 => 0x983e5152 case 25 => 0xa831c66d case 26 => 0xb00327c8 case 27 => 0xbf597fc7
    case 28 => 0xc6e00bf3 case 29 => 0xd5a79147 case 30 => 0x06ca6351 case 31 => 0x14292967
    case 32 => 0x27b70a85 case 33 => 0x2e1b2138 case 34 => 0x4d2c6dfc case 35 => 0x53380d13
    case 36 => 0x650a7354 case 37 => 0x766a0abb case 38 => 0x81c2c92e case 39 => 0x92722c85
    case 40 => 0xa2bfe8a1 case 41 => 0xa81a664b case 42 => 0xc24b8b70 case 43 => 0xc76c51a3
    case 44 => 0xd192e819 case 45 => 0xd6990624 case 46 => 0xf40e3585 case 47 => 0x106aa070
    case 48 => 0x19a4c116 case 49 => 0x1e376c08 case 50 => 0x2748774c case 51 => 0x34b0bcb5
    case 52 => 0x391c0cb3 case 53 => 0x4ed8aa4a case 54 => 0x5b9cca4f case 55 => 0x682e6ff3
    case 56 => 0x748f82ee case 57 => 0x78a5636f case 58 => 0x84c87814 case 59 => 0x8cc70208
    case 60 => 0x90befffa case 61 => 0xa4506ceb case 62 => 0xbef9a3f7 case _ => 0xc67178f2
  }

  lemma TablesAgree(t: nat)
    requires t < 64
    ensures JsConstant(t) == Constant(t)
  {
  }

  /** Lines 104-118: the assignments of one loop iteration, on the eight locals. */
  function JsRound(v: Working, k: Word, w: Word): Working
  {
    RoundSums(v, k, w);
    var s1 := JsSigma(v.e, 6, 11, 25);
    var ch := JsCh(v.e, v.f, v.g);
    var t1 := ToUint32(Plus(Plus(Plus(Plus(v.h, s1), ch), k), w));
    var s0 := JsSigma(v.a, 2, 13, 22);
    var maj := JsMaj(v.a, v.b, v.c);
    var t2 := ToUint32(Plus(s0, maj));
    Working(ToUint32(Plus(t1, t2)), v.a, v.b, v.c, ToUint32(Plus(v.d, t1)), v.e, v.f, v.g)
  }

  lemma RoundSums(v: Working, k: Word, w: Word)
    ensures var s1, ch := JsSigma(v.e, 6, 11, 25), JsCh(v.e, v.f, v.g);
            Exact(v.h + s1) && Exact(v.h + s1 + ch) && Exact(v.h + s1 + ch + k) && Exact(v.h + s1 + ch + k + w) &&
            ToUint32(v.h + s1 + ch + k + w) == Mod32(v.h + BigSigma1(v.e) + Ch(v.e, v.f, v.g) + k + w)
    ensures var s0, maj := JsSigma(v.a, 2, 13, 22), JsMaj(v.a, v.b, v.c);
            Exact(s0 + maj) && ToUint32(s0 + maj) == Mod32(BigSigma0(v.a) + Maj(v.a, v.b, v.c))
  {
    hide JsSigma, JsCh, JsMaj, Ch, Maj, XorWord, Rotr;
    SigmaAgrees(v.e, 6, 11, 25);
    ChAgrees(v.e, v.f, v.g);
    SumAgrees(JsSigma(v.e, 6, 11, 25), JsCh(v.e, v.f, v.g), BigSigma1(v.e), Ch(v.e, v.f, v.g), v.h + k + w);
    SigmaAgrees(v.a, 2, 13, 22);
    MajAgrees(v.a, v.b, v.c);
    SumAgrees(JsSigma(v.a, 2, 13, 22), JsMaj(v.a, v.b, v.c), BigSigma0(v.a), Maj(v.a, v.b, v.c), 0);
  }

  lemma RoundAgrees(v: Working, k: Word, w: Word)
    ensures JsRound(v, k, w) == Round(v, k, w)
  {
    hide JsSigma, JsCh, JsMaj, Ch, Maj, BigSigma0, BigSigma1, XorWord, AndWord, OrWord, Rotr, BitXor, BitAnd, BitNot,
         JsRotr;
    RoundSums(v, k, w);
  }
}
