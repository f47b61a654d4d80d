/**
 Bitwise operators on naturals, defined bit by bit, and the facts about them the
 hash and the digest comparison rely on. No bit-vector type is used: every word
 is the integer it denotes.
 */
module Bits {

  type Word = x: int | 0 <= x < 0x1_0000_0000

  function Pow2(n: nat): (p: nat)
    ensures p > 0
  {
    if n == 0 then 1 else 2 * Pow2(n - 1)
  }

  lemma Pow2Values()
    ensures Pow2(8) == 0x100 && Pow2(16) == 0x1_0000 && Pow2(24) == 0x100_0000 && Pow2(32) == 0x1_0000_0000
  {
    assert Pow2(4) == 16;
    assert Pow2(8) == 16 * Pow2(4) by { assert Pow2(6) == 4 * Pow2(4); }
    Pow2Plus(8, 8);
    Pow2Plus(16, 8);
    Pow2Plus(24, 8);
  }

  lemma {:induction false} Pow2Plus(m: nat, n: nat)
    ensures Pow2(m + n) == Pow2(m) * Pow2(n)
  {
    if n > 0 {
      Pow2Plus(m, n - 1);
    }
  }

  function And(x: nat, y: nat): nat
    decreases x + y
  {
    if x == 0 && y == 0 then 0 else 2 * And(x / 2, y / 2) + (if x % 2 == 1 && y % 2 == 1 then 1 else 0)
  }

  function Or(x: nat, y: nat): nat
    decreases x + y
  {
    if x == 0 && y == 0 then 0 else 2 * Or(x / 2, y / 2) + (if x % 2 == 1 || y % 2 == 1 then 1 else 0)
  }

  function Xor(x: nat, y: nat): nat
    decreases x + y
  {
    if x == 0 && y == 0 then 0 else 2 * Xor(x / 2, y / 2) + (if x % 2 != y % 2 then 1 else 0)
  }

  lemma {:induction false} Bounded(k: nat, x: nat, y: nat)
    requires x < Pow2(k) && y < Pow2(k)
    ensures And(x, y) < Pow2(k) && Or(x, y) < Pow2(k) && Xor(x, y) < Pow2(k)
  {
    if k > 0 {
      Bounded(k - 1, x / 2, y / 2);
    }
  }

  lemma {:induction false} XorIsZero(x: nat, y: nat)
    ensures Xor(x, y) == 0 <==> x == y
    decreases x + y
  {
    if x != 0 || y != 0 {
      XorIsZero(x / 2, y / 2);
    }
  }

  lemma {:induction false} OrIsZero(x: nat, y: nat)
    ensures Or(x, y) == 0 <==> x == 0 && y == 0
    decreases x + y
  {
    if x != 0 || y != 0 {
      OrIsZero(x / 2, y / 2);
    }
  }

  /** Or of two numbers with no common bit position is their sum. */
  lemma {:induction false} OrDisjoint(k: nat, x: nat, y: nat)
    requires y < Pow2(k)
    ensures Or(x * Pow2(k), y) == x * Pow2(k) + y
  {
    if k == 0 {
      OrNothing(x);
      assert x * Pow2(0) == x;
    } else {
      assert x * Pow2(k) == 2 * (x * Pow2(k - 1));
      OrDisjoint(k - 1, x, y / 2);
    }
  }

  lemma {:induction false} OrNothing(x: nat)
    ensures Or(x, 0) == x
  {
    if x != 0 {
      OrNothing(x / 2);
    }
  }

  function Quotient(x: Word, d: nat): Word
    requires d > 0
  {
    x / d
  }

  function AndWord(x: Word, y: Word): Word { Pow2Values(); Bounded(32, x, y); And(x, y) }

  function OrWord(x: Word, y: Word): Word { Pow2Values(); Bounded(32, x, y); Or(x, y) }

  function XorWord(x: Word, y: Word): Word { Pow2Values(); Bounded(32, x, y); Xor(x, y) }
}
