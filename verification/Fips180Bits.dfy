/**
 The word operations of FIPS 180-4 bit by bit, and the remaining formulas of the standard written out, so that
 each definition the hash is built from is fixed by a statement of its own.
 */
module Fips180Bits {
  import opened Bytes
  import opened Bits
  import opened Fips180

  /** Bit `i`, the least significant being bit 0. */
  function Bit(x: nat, i: nat): nat { Down(x, i) % 2 }

  function Down(x: nat, n: nat): nat { Quot(x, Pow2(n)) }

  function Quot(x: nat, d: nat): nat
    requires d > 0
  {
    x / d
  }

  lemma BitIsBit(x: nat, i: nat)
    ensures Bit(x, i) == 0 || Bit(x, i) == 1
  {
  }

  lemma DivTwice(x: nat, d: nat)
    requires d > 0
    ensures x / (2 * d) == x / 2 / d
  {
    var q, r := x / 2 / d, x / 2 % d;
    Decompose(x / 2, d);
    Doubled(d, q);
    assert x == 2 * d * q + (2 * r + x % 2);
    DivUnique(x, 2 * d, q, 2 * r + x % 2);
  }

  lemma DivUnique(x: nat, d: nat, q: nat, r: nat)
    requires r < d && x == d * q + r
    ensures x / d == q && x % d == r
  {
    var k := q - x / d;
    Decompose(x, d);
    Distribute(d, q, x / d);
    Multiple(d, k);
  }

  lemma Distribute(d: int, a: int, b: int)
    ensures d * (a - b) == d * a - d * b
  {
  }

  lemma Multiple(d: int, k: int)
    requires d >= 0
    ensures k >= 1 ==> d * k >= d
    ensures k <= -1 ==> d * k <= -d
  {
  }

  /** A higher bit is a bit of the half. */
  lemma HalfBit(x: nat, i: nat)
    requires i > 0
    ensures Bit(x, i) == Bit(x / 2, i - 1)
  {
    DivTwice(x, Pow2(i - 1));
  }

  lemma LowBit(x: nat)
    ensures Bit(x, 0) == x % 2
  {
  }

  lemma AndParts(x: nat, y: nat)
    ensures And(x, y) / 2 == And(x / 2, y / 2)
    ensures And(x, y) % 2 == if x % 2 == 1 && y % 2 == 1 then 1 else 0
  {
  }

  lemma {:induction false} AndBit(x: nat, y: nat, i: nat)
    ensures Bit(And(x, y), i) == if Bit(x, i) == 1 && Bit(y, i) == 1 then 1 else 0
    decreases i
  {
    hide Bit, And;
    AndParts(x, y);
    if i == 0 {
      LowBit(x);
      LowBit(y);
      LowBit(And(x, y));
    } else {
      HalfBit(x, i);
      HalfBit(y, i);
      HalfBit(And(x, y), i);
      AndBit(x / 2, y / 2, i - 1);
    }
  }

  lemma OrParts(x: nat, y: nat)
    ensures Or(x, y) / 2 == Or(x / 2, y / 2)
    ensures Or(x, y) % 2 == if x % 2 == 1 || y % 2 == 1 then 1 else 0
  {
  }

  lemma {:induction false} OrBit(x: nat, y: nat, i: nat)
    ensures Bit(Or(x, y), i) == if Bit(x, i) == 1 || Bit(y, i) == 1 then 1 else 0
    decreases i
  {
    hide Bit, Or;
    OrParts(x, y);
    if i == 0 {
      LowBit(x);
      LowBit(y);
      LowBit(Or(x, y));
    } else {
      HalfBit(x, i);
      HalfBit(y, i);
      HalfBit(Or(x, y), i);
      OrBit(x / 2, y / 2, i - 1);
    }
  }

  lemma XorParts(x: nat, y: nat)
    ensures Xor(x, y) / 2 == Xor(x / 2, y / 2)
    ensures Xor(x, y) % 2 == if x % 2 != y % 2 then 1 else 0
  {
  }

  lemma {:induction false} XorBit(x: nat, y: nat, i: nat)
    ensures Bit(Xor(x, y), i) == if Bit(x, i) != Bit(y, i) then 1 else 0
    decreases i
  {
    hide Bit, Xor;
    XorParts(x, y);
    if i == 0 {
      LowBit(x);
      LowBit(y);
      LowBit(Xor(x, y));
    } else {
      HalfBit(x, i);
      HalfBit(y, i);
      HalfBit(Xor(x, y), i);
      XorBit(x / 2, y / 2, i - 1);
    }
  }

  /** Numbers with the same bits are the same number. */
  lemma {:induction false} SameBits(x: nat, y: nat)
    requires forall i: nat :: Bit(x, i) == Bit(y, i)
    ensures x == y
    decreases x + y
  {
    hide Bit;
    LowBit(x);
    LowBit(y);
    assert Bit(x, 0) == Bit(y, 0);
    if x != 0 || y != 0 {
      forall i: nat
        ensures Bit(x / 2, i) == Bit(y / 2, i)
      {
        HalfBit(x, i + 1);
        HalfBit(y, i + 1);
        assert Bit(x, i + 1) == Bit(y, i + 1);
      }
      SameBits(x / 2, y / 2);
    }
  }

  // Shifts and complement.

  lemma {:induction false} ShiftDownBit(x: nat, n: nat, i: nat)
    ensures Bit(Down(x, n), i) == Bit(x, i + n)
    decreases n
  {
    hide Bit;
    if n > 0 {
      DivTwice(x, Pow2(n - 1));
      assert Down(x, n) == Down(x / 2, n - 1);
      ShiftDownBit(x / 2, n - 1, i);
      HalfBit(x, i + n);
    }
  }

  lemma {:induction false} ShiftUpBit(x: nat, n: nat, i: nat)
    ensures Bit(x * Pow2(n), i) == if i < n then 0 else Bit(x, i - n)
    decreases n
  {
    hide Bit;
    if n > 0 {
      var half := x * Pow2(n - 1);
      assert x * Pow2(n) == 2 * half;
      if i == 0 {
        LowBit(2 * half);
      } else {
        HalfBit(2 * half, i);
        ShiftUpBit(x, n - 1, i - 1);
      }
    }
  }

  /** Cutting off high bits leaves the low ones. */
  lemma {:induction false} ModBit(x: nat, n: nat, i: nat)
    requires i < n
    ensures Bit(x % Pow2(n), i) == Bit(x, i)
    decreases i
  {
    hide Bit;
    ModHalf(x, n);
    if i == 0 {
      LowBit(x);
      LowBit(x % Pow2(n));
    } else {
      HalfBit(x, i);
      HalfBit(x % Pow2(n), i);
      ModBit(x / 2, n - 1, i - 1);
    }
  }

  lemma ModHalf(x: nat, n: nat)
    requires n > 0
    ensures x % Pow2(n) % 2 == x % 2 && x % Pow2(n) / 2 == x / 2 % Pow2(n - 1)
  {
    var d := Pow2(n - 1);
    assert Pow2(n) == 2 * d;
    HalfMod(x, d);
    Halves(x / 2 % d, x % 2);
  }

  lemma Halves(high: nat, low: nat)
    requires low < 2
    ensures (2 * high + low) % 2 == low && (2 * high + low) / 2 == high
  {
  }

  lemma HalfMod(x: nat, d: nat)
    requires d > 0
    ensures x % (2 * d) == 2 * (x / 2 % d) + x % 2
  {
    var q, r, low := x / 2 / d, x / 2 % d, x % 2;
    Decompose(x / 2, d);
    Doubled(d, q);
    assert x == 2 * d * q + (2 * r + low);
    DivUnique(x, 2 * d, q, 2 * r + low);
  }

  lemma Decompose(x: nat, d: nat)
    requires d > 0
    ensures x == d * (x / d) + x % d && 0 <= x % d < d
  {
  }

  lemma Doubled(d: nat, q: nat)
    ensures 2 * (d * q) == 2 * d * q
  {
  }

  lemma {:induction false} ComplementBits(n: nat, x: nat, i: nat)
    requires x < Pow2(n) && i < n
    ensures Bit(Pow2(n) - 1 - x, i) == 1 - Bit(x, i)
    decreases i
  {
    hide Bit;
    var c := Pow2(n) - 1 - x;
    assert Pow2(n) == 2 * Pow2(n - 1);
    assert c / 2 == Pow2(n - 1) - 1 - x / 2 && c % 2 == 1 - x % 2;
    if i == 0 {
      LowBit(x);
      LowBit(c);
    } else {
      HalfBit(x, i);
      HalfBit(c, i);
      ComplementBits(n - 1, x / 2, i - 1);
    }
  }

  // Section 3.2 and 4.1.2 on bits.

  /** A right shift moves the bits down and zeros in. */
  lemma ShrBit(x: Word, n: nat, i: nat)
    requires n <= 32
    ensures Bit(Shr(n, x), i) == Bit(x, i + n)
  {
    hide Bit;
    ShiftDownBit(x, n, i);
  }

  lemma HighBit(x: Word, i: nat)
    requires i >= 32
    ensures Bit(x, i) == 0
  {
    hide Pow2;
    Pow2Values();
    Pow2Plus(32, i - 32);
    Multiple(Pow2(32), Pow2(i - 32));
    DivUnique(x, Pow2(i), 0, x);
  }

  /** A rotation moves every bit down by `n` places, around the end of the word. */
  lemma RotrBit(x: Word, n: nat, i: nat)
    requires 0 < n < 32 && i < 32
    ensures Bit(Rotr(n, x), i) == Bit(x, (i + n) % 32)
  {
    hide Bit, Or, Pow2;
    var low, high := Shr(n, x), Mod32(x * Pow2(32 - n));
    OrBit(low, high, i);
    ShrBit(x, n, i);
    Pow2Values();
    ModBit(x * Pow2(32 - n), 32, i);
    ShiftUpBit(x, 32 - n, i);
    BitIsBit(x, i + n);
    if i + n < 32 {
      assert i < 32 - n;
    } else {
      HighBit(x, i + n);
      assert i - (32 - n) == i + n - 32 == (i + n) % 32;
      BitIsBit(x, i + n - 32);
    }
  }

  lemma ComplementBit(x: Word, i: nat)
    requires i < 32
    ensures Bit(Complement(x), i) == 1 - Bit(x, i)
  {
    hide Bit, Pow2;
    Pow2Values();
    ComplementBits(32, x, i);
  }

  /** Ch chooses: y where x has a one, z where it has a zero. */
  lemma ChBit(x: Word, y: Word, z: Word, i: nat)
    requires i < 32
    ensures Bit(Ch(x, y, z), i) == if Bit(x, i) == 1 then Bit(y, i) else Bit(z, i)
  {
    hide Bit, And, Xor;
    AndBit(x, y, i);
    ComplementBit(x, i);
    AndBit(Complement(x), z, i);
    XorBit(And(x, y), And(Complement(x), z), i);
    BitIsBit(x, i);
    BitIsBit(y, i);
    BitIsBit(z, i);
  }

  /** Maj is the majority. */
  lemma MajBit(x: Word, y: Word, z: Word, i: nat)
    ensures Bit(Maj(x, y, z), i) == if Bit(x, i) + Bit(y, i) + Bit(z, i) >= 2 then 1 else 0
  {
    hide Bit, And, Xor;
    AndBit(x, y, i);
    AndBit(x, z, i);
    AndBit(y, z, i);
    XorBit(And(x, y), And(x, z), i);
    XorBit(Xor(And(x, y), And(x, z)), And(y, z), i);
    BitIsBit(x, i);
    BitIsBit(y, i);
    BitIsBit(z, i);
  }

  /** The parity of three bits. */
  function Parity(a: nat, b: nat, c: nat): nat { (a + b + c) % 2 }

  lemma ParityBit(x: Word, y: Word, z: Word, i: nat)
    ensures Bit(XorWord(XorWord(x, y), z), i) == Parity(Bit(x, i), Bit(y, i), Bit(z, i))
  {
    hide Bit, Xor;
    XorBit(x, y, i);
    XorBit(Xor(x, y), z, i);
    BitIsBit(x, i);
    BitIsBit(y, i);
    BitIsBit(z, i);
  }

  lemma BigSigmaBits(x: Word, i: nat)
    requires i < 32
    ensures Bit(BigSigma0(x), i) == Parity(Bit(x, (i + 2) % 32), Bit(x, (i + 13) % 32), Bit(x, (i + 22) % 32))
    ensures Bit(BigSigma1(x), i) == Parity(Bit(x, (i + 6) % 32), Bit(x, (i + 11) % 32), Bit(x, (i + 25) % 32))
  {
    hide Bit, XorWord, Rotr, Parity;
    ParityBit(Rotr(2, x), Rotr(13, x), Rotr(22, x), i);
    ParityBit(Rotr(6, x), Rotr(11, x), Rotr(25, x), i);
    RotrBit(x, 2, i);
    RotrBit(x, 13, i);
    RotrBit(x, 22, i);
    RotrBit(x, 6, i);
    RotrBit(x, 11, i);
    RotrBit(x, 25, i);
  }

  lemma SmallSigmaBits(x: Word, i: nat)
    requires i < 32
    ensures Bit(SmallSigma0(x), i) == Parity(Bit(x, (i + 7) % 32), Bit(x, (i + 18) % 32), Bit(x, i + 3))
    ensures Bit(SmallSigma1(x), i) == Parity(Bit(x, (i + 17) % 32), Bit(x, (i + 19) % 32), Bit(x, i + 10))
  {
    hide Bit, XorWord, Rotr, Shr, Parity;
    ParityBit(Rotr(7, x), Rotr(18, x), Shr(3, x), i);
    ParityBit(Rotr(17, x), Rotr(19, x), Shr(10, x), i);
    RotrBit(x, 7, i);
    RotrBit(x, 18, i);
    ShrBit(x, 3, i);
    RotrBit(x, 17, i);
    RotrBit(x, 19, i);
    ShrBit(x, 10, i);
  }

  // The formulas of sections 5.1.1, 5.2.1 and 6.2.2.

  /** Two numbers are the same modulo 2^32. */
  predicate Congruent(x: int, y: int) { (x - y) % 0x1_0000_0000 == 0 }

  lemma Mod32Congruent(x: int)
    ensures Congruent(Mod32(x), x)
  {
  }

  /** The words of the schedule: those of the block, then each from four before it. */
  lemma ScheduleFormula(block: Block, t: nat)
    ensures t < 16 ==>
            Schedule(block, t) ==
            Joined(block[4 * t], block[4 * t + 1], block[4 * t + 2], block[4 * t + 3])
    ensures t >= 16 ==>
            Congruent(Schedule(block, t),
                      SmallSigma1(Schedule(block, t - 2)) + Schedule(block, t - 7) +
                      SmallSigma0(Schedule(block, t - 15)) + Schedule(block, t - 16))
  {
    hide SmallSigma0, SmallSigma1, Mod32, Congruent, FourBytes;
    if t < 16 {
      BlockWord(block[4 * t..4 * t + 4]);
    } else {
      Mod32Congruent(SmallSigma1(Schedule(block, t - 2)) + Schedule(block, t - 7) +
                     SmallSigma0(Schedule(block, t - 15)) + Schedule(block, t - 16));
    }
  }

  /** Four bytes as one number, most significant first. */
  function Joined(a: int, b: int, c: int, d: int): int { a * 0x100_0000 + b * 0x1_0000 + c * 0x100 + d }

  lemma BlockWord(s: ByteString)
    requires |s| == 4
    ensures FourBytes(s) == Joined(s[0], s[1], s[2], s[3])
  {
    var a: int, b: int, c: int := s[0], s[1], s[2];
    var three, two, one := s[..3], s[..3][..2], s[..3][..2][..1];
    assert one[..0] == [];
    assert FromBigEndian(one) == a;
    assert FromBigEndian(two) == a * 256 + b;
    assert FromBigEndian(three) == (a * 256 + b) * 256 + c;
  }

  lemma NestedSum(x: int, y: int)
    ensures Congruent(Mod32(x + Mod32(y)), x + y)
  {
  }

  lemma TwoSums(x: int, y: int)
    ensures Congruent(Mod32(Mod32(x) + Mod32(y)), x + y)
  {
  }

  /** One round: six variables move up, and the two new ones are the sums of the standard. */
  lemma RoundFormula(v: Working, k: Word, w: Word)
    ensures var n := Round(v, k, w);
            var t1 := v.h + BigSigma1(v.e) + Ch(v.e, v.f, v.g) + k + w;
            n.h == v.g && n.g == v.f && n.f == v.e && n.d == v.c && n.c == v.b && n.b == v.a &&
            Congruent(n.e, v.d + t1) && Congruent(n.a, t1 + (BigSigma0(v.a) + Maj(v.a, v.b, v.c)))
  {
    hide BigSigma0, BigSigma1, Ch, Maj, Mod32, Congruent;
    var t1 := v.h + BigSigma1(v.e) + Ch(v.e, v.f, v.g) + k + w;
    NestedSum(v.d, t1);
    TwoSums(t1, BigSigma0(v.a) + Maj(v.a, v.b, v.c));
  }

  /** The hash value and the working variables are added word by word. */
  predicate WordSums(n: HashValue, h: HashValue, v: Working)
  {
    Congruent(n[0], h[0] + v.a) && Congruent(n[1], h[1] + v.b) && Congruent(n[2], h[2] + v.c) &&
    Congruent(n[3], h[3] + v.d) && Congruent(n[4], h[4] + v.e) && Congruent(n[5], h[5] + v.f) &&
    Congruent(n[6], h[6] + v.g) && Congruent(n[7], h[7] + v.h)
  }

  lemma AddFormula(h: HashValue, v: Working)
    ensures WordSums(AddWorking(h, v), h, v)
  {
    hide Mod32, Congruent;
    Mod32Congruent(h[0] + v.a);
    Mod32Congruent(h[1] + v.b);
    Mod32Congruent(h[2] + v.c);
    Mod32Congruent(h[3] + v.d);
    Mod32Congruent(h[4] + v.e);
    Mod32Congruent(h[5] + v.f);
    Mod32Congruent(h[6] + v.g);
    Mod32Congruent(h[7] + v.h);
  }

  /** The working variables start as the hash value, go through 64 rounds, and are added to it. */
  lemma CompressFormula(h: HashValue, block: Block)
    ensures WordSums(Compress(h, block), h, Rounds(h, block, 64))
  {
    hide Rounds, WordSums, AddWorking;
    AddFormula(h, Rounds(h, block, 64));
  }

  lemma RoundsFormula(h: HashValue, block: Block)
    ensures Rounds(h, block, 0) == Working(h[0], h[1], h[2], h[3], h[4], h[5], h[6], h[7])
    ensures forall t | 0 <= t < 64 ::
              Rounds(h, block, t + 1) == Round(Rounds(h, block, t), Constant(t), Schedule(block, t))
  {
    hide Round, Constant, Schedule;
  }

  /** The message, a one bit, zeros up to the last eight bytes of a block, and the length in bits. */
  lemma PaddedFormula(m: ByteString)
    ensures var p := Padded(m); var n := |m|;
            |p| % 64 == 0 && n + 9 <= |p| < n + 73 && p[..n] == m && p[n] == 128 &&
            (forall i | n < i < |p| - 8 :: p[i] == 0) &&
            (n < 0x2000_0000_0000_0000 ==> FromBigEndian(p[|p| - 8..]) == 8 * n)
  {
    hide BigEndian, FromBigEndian;
    var p, length := Padded(m), BigEndian(8, 8 * |m|);
    assert p[|p| - 8..] == length;
    SpanValues();
    if |m| < 0x2000_0000_0000_0000 {
      DecodeEncodeInteger(8, 8 * |m|);
    }
  }

  /** Hashing starts from the initial value. */
  lemma ChainStart(p: ByteString)
    ensures Chain(p, 0) ==
            [0x6a09e667, 0xbb67ae85, 0x3c6ef372, 0xa54ff53a, 0x510e527f, 0x9b05688c, 0x1f83d9ab, 0x5be0cd19]
  {
    hide Compress;
  }

  /** The blocks are compressed in order. */
  lemma ChainFormula(p: ByteString, n: nat)
    requires 64 * n + 64 <= |p|
    ensures Chain(p, n + 1) == Compress(Chain(p, n), p[64 * n..64 * n + 64])
  {
    hide Compress;
    assert p[64 * (n + 1 - 1)..64 * (n + 1)] == p[64 * n..64 * n + 64];
  }

  /** The digest is the hash value after the whole padded message, word by word. */
  lemma DigestFormula(m: ByteString, i: nat)
    requires i < 8
    ensures |Sha256(m)| == 32
    ensures FromBigEndian(Sha256(m)[4 * i..4 * i + 4]) == Chain(Padded(m), |Padded(m)| / 64)[i]
  {
    hide Padded, Chain, HashBytes, FromBigEndian;
    HashBytesFormula(FinalHash(m));
  }

  lemma {:induction false} HashBytesFormula(h: seq<Word>)
    ensures forall i | 0 <= i < |h| :: FromBigEndian(HashBytes(h)[4 * i..4 * i + 4]) == h[i]
  {
    hide BigEndian, FromBigEndian;
    if h != [] {
      var n := |h| - 1;
      HashBytesFormula(h[..n]);
      SpanValues();
      DecodeEncodeInteger(4, h[n]);
      var all, front := HashBytes(h), HashBytes(h[..n]);
      assert all == front + BigEndian(4, h[n]);
      assert all[4 * n..4 * n + 4] == BigEndian(4, h[n]);
      forall i | 0 <= i < n
        ensures FromBigEndian(all[4 * i..4 * i + 4]) == h[i]
      {
        assert all[4 * i..4 * i + 4] == front[4 * i..4 * i + 4];
      }
    }
  }
}
