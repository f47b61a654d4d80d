/**
 The constants of SHA-256 are not arbitrary: sections 4.2.2 and 5.3.3 of FIPS
 180-4 define them as the first 32 bits of the fractional parts of the cube roots,
 and of the square roots, of the first primes. These facts pin both tables down.
 */
module Fips180Constants {
  import opened Bits
  import opened Fips180

  /** The first 64 primes. */
  function Prime(t: nat): nat
    requires t < 64
  {
    match t
    case 0 => 2 case 1 => 3 case 2 => 5 case 3 => 7
    case 4 => 11 case 5 => 13 case 6 => 17 case 7 => 19
    case 8 => 23 case 9 => 29 case 10 => 31 case 11 => 37
    case 12 => 41 case 13 => 43 case 14 => 47 case 15 => 53
    case 16 => 59 case 17 => 61 case 18 => 67 case 19 => 71
    case 20 => 73 case 21 => 79 case 22 => 83 case 23 => 89
    case 24 => 97 case 25 => 101 case 26 => 103 case 27 => 107
    case 28 => 109 case 29 => 113 case 30 => 127 case 31 => 131
    case 32 => 137 case 33 => 139 case 34 => 149 case 35 => 151
    case 36 => 157 case 37 => 163 case 38 => 167 case 39 => 173
    case 40 => 179 case 41 => 181 case 42 => 191 case 43 => 193
    case 44 => 197 case 45 => 199 case 46 => 211 case 47 => 223
    case 48 => 227 case 49 => 229 case 50 => 233 case 51 => 239
    case 52 => 241 case 53 => 251 case 54 => 257 case 55 => 263
    case 56 => 269 case 57 => 271 case 58 => 277 case 59 => 281
    case 60 => 283 case 61 => 293 case 62 => 307 case _ => 311
  }

  // The whole parts of their roots.
  function SquareWhole(t: nat): nat { if t < 2 then 1 else if t < 4 then 2 else if t < 6 then 3 else 4 }

  function CubeWhole(t: nat): nat
  {
    if t < 4 then 1 else if t < 9 then 2 else if t < 18 then 3 else if t < 30 then 4 else if t < 47 then 5 else 6
  }

  predicate CubeRootBits(word: Word, prime: nat, whole: nat)
  {
    var x := whole * 0x1_0000_0000 + word;
    x * x * x <= prime * 0x1_0000_0000_0000_0000_0000_0000 < (x + 1) * (x + 1) * (x + 1)
  }

  predicate SquareRootBits(word: Word, prime: nat, whole: nat)
  {
    var x := whole * 0x1_0000_0000 + word;
    x * x <= prime * 0x1_0000_0000_0000_0000 < (x + 1) * (x + 1)
  }

  lemma InitialValueIsSquareRoots(i: nat)
    requires i < 8
    ensures SquareRootBits(IV[i], Prime(i), SquareWhole(i))
  {
  }

  lemma ConstantsAreCubeRoots(t: nat)
    requires t < 64
    ensures CubeRootBits(Constant(t), Prime(t), CubeWhole(t))
  {
  }
}
