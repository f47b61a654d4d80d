/**
 The JavaScript number operations web/sha256.js is written with. A number is the
 integer it holds; bitwise operators go through ToUint32 and give signed 32-bit
 results, and an addition is only defined while a double holds it exactly.
 */
module JsNumber {
  import opened Bits

  const MAX_SAFE_INTEGER: int := 0x1F_FFFF_FFFF_FFFF

  predicate Exact(x: int) { -MAX_SAFE_INTEGER <= x <= MAX_SAFE_INTEGER }

  function ToUint32(x: int): Word { x % 0x1_0000_0000 }

  function ToInt32(x: int): (r: int)
    ensures -0x8000_0000 <= r < 0x8000_0000
  {
    var u := ToUint32(x);
    if u < 0x8000_0000 then u else u - 0x1_0000_0000
  }

  /** Addition of two numbers; the precondition is that no rounding takes place. */
  function Plus(x: int, y: int): (r: int)
    requires Exact(x + y)
    ensures Exact(r)
  {
    x + y
  }

  function BitAnd(x: int, y: int): int { ToInt32(AndWord(ToUint32(x), ToUint32(y))) }

  function BitOr(x: int, y: int): int { ToInt32(OrWord(ToUint32(x), ToUint32(y))) }

  function BitXor(x: int, y: int): int { ToInt32(XorWord(ToUint32(x), ToUint32(y))) }

  function BitNot(x: int): int { -ToInt32(x) - 1 }

  // Shift counts are taken modulo 32.

  function ShiftLeft(x: int, n: nat): int { ToInt32(ToUint32(x) * Pow2(n % 32)) }

  function ShiftRightUnsigned(x: int, n: nat): Word { Quotient(ToUint32(x), Pow2(n % 32)) }

  /** The integers a double holds without gaps end at 2^53 - 1. */
  lemma SafeIntegers()
    ensures MAX_SAFE_INTEGER == Pow2(53) - 1
  {
    Pow2Values();
    Pow2Plus(32, 16);
    Pow2Plus(48, 5);
    assert Pow2(5) == 32;
  }

  /** A signed view and the word it views are congruent, and no further apart than one modulus. */
  lemma SignedView(u: int)
    ensures ToUint32(ToInt32(u)) == ToUint32(u)
    ensures ToInt32(u) == ToUint32(u) || ToInt32(u) == ToUint32(u) - 0x1_0000_0000
  {
  }

  lemma WordIsItself(u: Word)
    ensures ToUint32(u) == u
  {
  }
}
