/**
 src/filename.c: the filename sanitizer. Names are C strings, so byte strings
 without NUL. `Sanitize` is the loop-by-loop method; `Sanitized` says what it computes.
 */
module Filename {
  import opened Bytes
  import opened Wire

  const UNDERSCORE: Byte := 0x5f
  const DOT: Byte := 0x2e
  const SPACE: Byte := 0x20
  const FALLBACK: ByteString := [0x66, 0x69, 0x6c, 0x65]

  predicate IsControl(b: Byte) { b < 0x20 || b == 0x7f }

  predicate IsForbidden(b: Byte) { b in [0x3c, 0x3e, 0x3a, 0x22, 0x2f, 0x5c, 0x7c, 0x3f, 0x2a] }

  predicate IsClean(b: Byte) { !IsControl(b) && !IsForbidden(b) }

  predicate IsTrailing(b: Byte) { b == SPACE || b == DOT }

  function Upper(b: Byte): Byte { if 0x61 <= b <= 0x7a then b - 0x20 else b }

  function UpperAll(s: ByteString): (u: ByteString)
    ensures |u| == |s|
  {
    seq(|s|, i requires 0 <= i < |s| => Upper(s[i]))
  }

  // pd_is_windows_reserved_device_name

  /** The part of a name before its first dot. */
  function Base(name: ByteString): ByteString
  {
    if name == [] || name[0] == DOT then [] else [name[0]] + Base(name[1..])
  }

  predicate IsDevice(base: ByteString)
  {
    var u := UpperAll(base);
    u == [0x43, 0x4f, 0x4e] || u == [0x50, 0x52, 0x4e] || u == [0x41, 0x55, 0x58] || u == [0x4e, 0x55, 0x4c] ||
    (|u| == 4 && (u[..3] == [0x43, 0x4f, 0x4d] || u[..3] == [0x4c, 0x50, 0x54]) && 0x31 <= base[3] <= 0x39)
  }

  predicate IsReserved(name: ByteString) { IsDevice(Base(name)) }

  // pd_filename_sanitize

  function Replaced(name: ByteString): (r: ByteString)
    ensures |r| == |name|
  {
    seq(|name|, i requires 0 <= i < |name| => if IsClean(name[i]) then name[i] else UNDERSCORE)
  }

  function Trimmed(name: ByteString): (r: ByteString)
    ensures |r| <= |name| && r == name[..|r|]
    ensures r != [] ==> !IsTrailing(r[|r| - 1])
  {
    if name != [] && IsTrailing(name[|name| - 1]) then Trimmed(name[..|name| - 1]) else name
  }

  /** The name before the reserved-name prefix is considered. */
  function Cleaned(name: ByteString): (r: ByteString)
    ensures r != []
  {
    var t := Trimmed(Replaced(name));
    if t == [] then FALLBACK else t
  }

  datatype SanitizeResult = Ok(name: ByteString) | TooLong

  function Sanitized(name: ByteString): SanitizeResult
  {
    var c := Cleaned(name);
    if |name| > FILENAME_MAX then TooLong
    else if !IsReserved(c) then Ok(c)
    else if |c| < FILENAME_MAX then Ok([UNDERSCORE] + c)
    else TooLong
  }

  /** The names Windows takes as they are, which is what the file sink insists on. */
  predicate IsNormal(name: ByteString)
  {
    0 < |name| <= FILENAME_MAX &&
    (forall i :: 0 <= i < |name| ==> IsClean(name[i])) &&
    !IsTrailing(name[|name| - 1]) &&
    !IsReserved(name)
  }

  lemma {:induction false} TrimStops(name: ByteString)
    requires name != [] ==> !IsTrailing(name[|name| - 1])
    ensures Trimmed(name) == name
  {
  }

  /** Nothing that was trimmed is a directory name. */
  lemma NoDotsLeft(name: ByteString)
    ensures Trimmed(name) != [DOT] && Trimmed(name) != [DOT, DOT]
  {
  }

  /** Reservation is decided by the first three or four bytes, which the prefix displaces. */
  lemma PrefixEscapes(name: ByteString)
    ensures !IsReserved([UNDERSCORE] + name)
  {
    var p := [UNDERSCORE] + name;
    assert p[1..] == name;
    assert Base(p) == [UNDERSCORE] + Base(name);
    var u := UpperAll(Base(p));
    assert u[0] == UNDERSCORE;
    if |u| == 4 {
      assert u[..3][0] == UNDERSCORE;
    }
  }

  lemma CleanedIsClean(name: ByteString)
    ensures forall i :: 0 <= i < |Cleaned(name)| ==> IsClean(Cleaned(name)[i])
    ensures !IsTrailing(Cleaned(name)[|Cleaned(name)| - 1])
    ensures |name| <= FILENAME_MAX ==> |Cleaned(name)| <= FILENAME_MAX
  {
    var r := Replaced(name);
    var t := Trimmed(r);
    assert forall i :: 0 <= i < |r| ==> IsClean(r[i]);
    assert forall i :: 0 <= i < |t| ==> t[i] == r[i];
  }

  /** Whatever the sanitizer returns is in normal form. */
  lemma ResultIsNormal(name: ByteString)
    ensures Sanitized(name).Ok? ==> IsNormal(Sanitized(name).name)
  {
    hide Cleaned, IsReserved, IsClean, IsTrailing;
    CleanedIsClean(name);
    var c := Cleaned(name);
    PrefixEscapes(c);
    UnderscoreIsClean();
    assert forall i :: 0 <= i < |[UNDERSCORE] + c| ==> IsClean(([UNDERSCORE] + c)[i]);
  }

  lemma UnderscoreIsClean()
    ensures IsClean(UNDERSCORE)
  {
  }

  /** A name in normal form is left alone. */
  lemma NormalIsFixed(name: ByteString)
    requires IsNormal(name)
    ensures Sanitized(name) == Ok(name)
  {
    hide IsReserved, IsClean;
    assert Replaced(name) == name;
    TrimStops(name);
  }

  lemma FixedIsNormal(name: ByteString)
    ensures Sanitized(name) == Ok(name) <==> IsNormal(name)
  {
    hide Sanitized;
    ResultIsNormal(name);
    if IsNormal(name) {
      NormalIsFixed(name);
    }
  }

  /** The image, the fixed points and the normal forms are one set, and sanitizing is idempotent. */
  lemma NormalForm(name: ByteString)
    ensures (exists source :: Sanitized(source) == Ok(name)) <==> Sanitized(name) == Ok(name)
    ensures Sanitized(name) == Ok(name) <==> IsNormal(name)
    ensures Sanitized(name).Ok? ==> Sanitized(Sanitized(name).name) == Sanitized(name)
  {
    hide Sanitized, IsNormal;
    forall source | Sanitized(source) == Ok(name)
      ensures IsNormal(name)
    {
      ResultIsNormal(source);
    }
    FixedIsNormal(name);
    if Sanitized(name).Ok? {
      ResultIsNormal(name);
      NormalIsFixed(Sanitized(name).name);
    }
  }

  /** On names a FILE_BEGIN can carry, the one refusal is a reserved name with no room for the prefix. */
  lemma RefusedExactlyWhen(name: ByteString)
    requires |name| <= FILENAME_MAX
    ensures Sanitized(name).TooLong? <==> IsReserved(Cleaned(name)) && |Cleaned(name)| == FILENAME_MAX
  {
    hide IsReserved, Cleaned;
    CleanedIsClean(name);
  }

  // The whole operation, byte by byte and without the definitions above.

  /** Control bytes, and " * / : < > ? \\ |. */
  predicate Unsafe(b: int) { b < 32 || b == 127 || b in {34, 42, 47, 58, 60, 62, 63, 92, 124} }

  lemma CleanIsNotUnsafe(b: Byte)
    ensures IsClean(b) <==> !Unsafe(b)
  {
  }

  /** Only dots and spaces at the end are cut off, and all of them. */
  lemma {:induction false} TrimmedExactly(name: ByteString)
    ensures var n := |Trimmed(name)|;
            n <= |name| && Trimmed(name) == name[..n] &&
            (forall i | n <= i < |name| :: name[i] == 32 || name[i] == 46) &&
            (n > 0 ==> name[n - 1] != 32 && name[n - 1] != 46)
  {
    if name != [] && IsTrailing(name[|name| - 1]) {
      TrimmedExactly(name[..|name| - 1]);
    }
  }

  predicate AllDotsAndSpaces(name: ByteString) { forall i | 0 <= i < |name| :: name[i] == 32 || name[i] == 46 }

  /** The first `n` bytes are kept, the unsafe ones as underscores, and only dots and spaces follow. */
  predicate Keeps(name: ByteString, kept: ByteString)
  {
    0 < |kept| <= |name| &&
    (forall i | 0 <= i < |kept| :: kept[i] == if Unsafe(name[i]) then 95 else name[i]) &&
    name[|kept| - 1] != 32 && name[|kept| - 1] != 46 &&
    (forall i | |kept| <= i < |name| :: name[i] == 32 || name[i] == 46)
  }

  /** A name of dots and spaces alone becomes "file"; any other keeps all but those at its end. */
  lemma CleanedExactly(name: ByteString)
    ensures AllDotsAndSpaces(name) ==> Cleaned(name) == [102, 105, 108, 101]
    ensures !AllDotsAndSpaces(name) ==> Keeps(name, Cleaned(name))
  {
    hide IsClean, Unsafe, Trimmed;
    var r := Replaced(name);
    TrimmedExactly(r);
    forall i | 0 <= i < |name|
      ensures r[i] == if Unsafe(name[i]) then 95 else name[i]
      ensures (r[i] == 32 || r[i] == 46) <==> (name[i] == 32 || name[i] == 46)
    {
      CleanIsNotUnsafe(name[i]);
      TrailingIsSafe(name[i]);
    }
  }

  lemma TrailingIsSafe(b: Byte)
    ensures b == 32 || b == 46 ==> !Unsafe(b)
  {
  }

  /** Upper-case `word`, in any mixture of cases. */
  predicate Spells(base: ByteString, word: ByteString)
  {
    |base| == |word| &&
    forall i | 0 <= i < |word| :: base[i] == word[i] || (65 <= word[i] <= 90 && base[i] as int == word[i] as int + 32)
  }

  /** CON, PRN, AUX, NUL, COM1 to COM9, LPT1 to LPT9. */
  predicate NamesDevice(base: ByteString)
  {
    Spells(base, [67, 79, 78]) || Spells(base, [80, 82, 78]) ||
    Spells(base, [65, 85, 88]) || Spells(base, [78, 85, 76]) ||
    (|base| == 4 && 49 <= base[3] <= 57 && (Spells(base[..3], [67, 79, 77]) || Spells(base[..3], [76, 80, 84])))
  }

  lemma SpellsUpper(base: ByteString, word: ByteString)
    requires forall i | 0 <= i < |word| :: 65 <= word[i] <= 90
    ensures UpperAll(base) == word <==> Spells(base, word)
  {
    if UpperAll(base) == word {
      forall i | 0 <= i < |word|
        ensures base[i] == word[i] || base[i] as int == word[i] as int + 32
      {
        assert UpperAll(base)[i] == Upper(base[i]);
      }
    }
    if Spells(base, word) {
      assert forall i | 0 <= i < |word| :: UpperAll(base)[i] == word[i];
    }
  }

  lemma DevicesExactly(base: ByteString)
    ensures IsDevice(base) <==> NamesDevice(base)
  {
    hide Spells, UpperAll;
    SpellsUpper(base, [67, 79, 78]);
    SpellsUpper(base, [80, 82, 78]);
    SpellsUpper(base, [65, 85, 88]);
    SpellsUpper(base, [78, 85, 76]);
    if |base| == 4 {
      UpperPrefix(base, base[..3]);
      SpellsUpper(base[..3], [67, 79, 77]);
      SpellsUpper(base[..3], [76, 80, 84]);
    }
  }

  /** The base name goes up to the first dot. */
  lemma {:induction false} BaseExactly(name: ByteString)
    ensures var n := |Base(name)|;
            n <= |name| && Base(name) == name[..n] && 46 !in name[..n] && (n < |name| ==> name[n] == 46)
  {
    if name != [] && name[0] != DOT {
      BaseExactly(name[1..]);
      assert name == [name[0]] + name[1..];
    }
  }

  /** A reserved name is one whose part before the first dot, if it has one, names a device. */
  lemma ReservedExactly(name: ByteString)
    ensures IsReserved(name) <==>
            exists n | 0 <= n <= |name| ::
              46 !in name[..n] && (n < |name| ==> name[n] == 46) && NamesDevice(name[..n])
  {
    hide IsDevice, NamesDevice;
    BaseExactly(name);
    DevicesExactly(Base(name));
    forall n | 0 <= n <= |name| && 46 !in name[..n] && (n < |name| ==> name[n] == 46)
      ensures n == |Base(name)|
    {
    }
  }

  /** What comes out: the cleaned name, behind an underscore exactly if it is reserved; nothing beyond 120 bytes. */
  lemma SanitizedExactly(name: ByteString)
    ensures Sanitized(name) ==
            if |name| > 120 then TooLong
            else if !IsReserved(Cleaned(name)) then Ok(Cleaned(name))
            else if |Cleaned(name)| == 120 then TooLong
            else Ok([95] + Cleaned(name))
  {
    hide IsReserved, Cleaned;
    CleanedIsClean(name);
  }

  datatype SanitizeStatus = SanitizeOk | NameTooLong | BufferTooSmall

  /** pd_filename_sanitize; `output[..length]` is the string in front of its terminator. */
  method Sanitize(input: ByteString, output: array<Byte>) returns (status: SanitizeStatus, required: nat)
    requires 0 !in input
    modifies output
    ensures status.NameTooLong? <==> Sanitized(input).TooLong?
    ensures required == if Sanitized(input).Ok? then |Sanitized(input).name| + 1 else 0
    ensures status.BufferTooSmall? <==> Sanitized(input).Ok? && output.Length < required
    ensures status.SanitizeOk? ==>
            output[..required] == Sanitized(input).name + [0] && output[required..] == old(output[required..])
    ensures status.BufferTooSmall? && output.Length > 0 ==> output[0] == 0 && output[1..] == old(output[1..])
    ensures status.NameTooLong? ==> output[..] == old(output[..])
  {
    hide Cleaned, IsReserved;
    if |input| > FILENAME_MAX {
      return NameTooLong, 0;
    }
    var candidate, length := CleanCandidate(input);
    var reserved := IsReservedDeviceName(candidate, length);
    var prefix := if reserved then 1 else 0;
    if length > FILENAME_MAX - prefix {
      return NameTooLong, 0;
    }
    required := length + prefix + 1;
    if output.Length < required {
      if output.Length > 0 {
        output[0] := 0;
      }
      return BufferTooSmall, required;
    }
    CopyOut(candidate, length, prefix, output);
    status := SanitizeOk;
  }

  /** Lines 148-152. */
  method CopyOut(candidate: array<Byte>, length: nat, prefix: nat, output: array<Byte>)
    requires length <= candidate.Length && prefix <= 1 && prefix + length < output.Length && candidate != output
    modifies output
    ensures output[..prefix + length + 1] == (if prefix == 0 then [] else [UNDERSCORE]) + candidate[..length] + [0]
    ensures output[prefix + length + 1..] == old(output[prefix + length + 1..])
  {
    if prefix != 0 {
      output[0] := UNDERSCORE;
    }
    forall i | 0 <= i < length {
      output[prefix + i] := candidate[i];
    }
    output[prefix + length] := 0;
    assert output[prefix..prefix + length] == candidate[..length];
    assert output[..prefix + length + 1] == output[..prefix] + output[prefix..prefix + length] + [0];
  }

  /** Lines 103-127: replacement, trimming and fallback in the candidate buffer. */
  method CleanCandidate(input: ByteString) returns (candidate: array<Byte>, length: nat)
    requires |input| <= FILENAME_MAX
    ensures fresh(candidate) && length <= FILENAME_MAX < candidate.Length
    ensures candidate[..length] == Cleaned(input)
  {
    hide Replaced, Trimmed;
    candidate := new Byte[FILENAME_MAX + 1](_ => 0);
    ReplaceInto(input, candidate);
    length := TrimmedLength(candidate, |input|);
    if length == 0 ||
       (length == 1 && candidate[0] == DOT) ||
       (length == 2 && candidate[0] == DOT && candidate[1] == DOT) {
      candidate[0], candidate[1], candidate[2], candidate[3] := 0x66, 0x69, 0x6c, 0x65;
      length := 4;
      assert candidate[..4] == FALLBACK;
    }
  }

  method ReplaceInto(input: ByteString, candidate: array<Byte>)
    requires |input| <= candidate.Length
    modifies candidate
    ensures candidate[..|input|] == Replaced(input)
  {
    for i := 0 to |input|
      invariant forall k :: 0 <= k < i ==> candidate[k] == Replaced(input)[k]
    {
      candidate[i] := if IsControl(input[i]) || IsForbidden(input[i]) then UNDERSCORE else input[i];
    }
  }

  method TrimmedLength(candidate: array<Byte>, start: nat) returns (length: nat)
    requires start <= candidate.Length
    ensures length <= start && candidate[..length] == Trimmed(candidate[..start])
  {
    length := start;
    while length > 0 && (candidate[length - 1] == SPACE || candidate[length - 1] == DOT)
      invariant length <= start
      invariant Trimmed(candidate[..length]) == Trimmed(candidate[..start])
    {
      assert candidate[..length][..length - 1] == candidate[..length - 1];
      length := length - 1;
    }
    TrimStops(candidate[..length]);
  }

  /** pd_is_windows_reserved_device_name */
  method IsReservedDeviceName(filename: array<Byte>, length: nat) returns (reserved: bool)
    requires length <= filename.Length
    ensures reserved <==> IsReserved(filename[..length])
  {
    hide IsDevice;
    var base := 0;
    while base < length && filename[base] != DOT
      invariant base <= length
      invariant Base(filename[..length]) == filename[..base] + Base(filename[base..length])
    {
      assert filename[base..length][1..] == filename[base + 1..length];
      assert filename[..base] + [filename[base]] == filename[..base + 1];
      base := base + 1;
    }
    assert Base(filename[base..length]) == [];
    assert Base(filename[..length]) == filename[..base];
    reserved := IsDeviceBase(filename, base);
  }

  /** Lines 54-76 on the base name. */
  method IsDeviceBase(filename: array<Byte>, base: nat) returns (device: bool)
    requires base <= filename.Length
    ensures device <==> IsDevice(filename[..base])
  {
    hide UpperAll;
    var con := EqualsUpper(filename, base, [0x43, 0x4f, 0x4e]);
    var prn := EqualsUpper(filename, base, [0x50, 0x52, 0x4e]);
    var aux := EqualsUpper(filename, base, [0x41, 0x55, 0x58]);
    var nul := EqualsUpper(filename, base, [0x4e, 0x55, 0x4c]);
    if con || prn || aux || nul {
      return true;
    }
    if base == 4 {
      var com := EqualsUpper(filename, 3, [0x43, 0x4f, 0x4d]);
      var lpt := EqualsUpper(filename, 3, [0x4c, 0x50, 0x54]);
      UpperPrefix(filename[..4], filename[..3]);
      return (com || lpt) && 0x31 <= filename[3] <= 0x39;
    }
    return false;
  }

  lemma UpperPrefix(s: ByteString, t: ByteString)
    requires t <= s
    ensures UpperAll(s)[..|t|] == UpperAll(t)
  {
  }

  /** pd_ascii_equal_prefix */
  method EqualsUpper(value: array<Byte>, length: nat, literal: ByteString) returns (equal: bool)
    requires length <= value.Length
    ensures equal <==> UpperAll(value[..length]) == literal
  {
    if length != |literal| {
      return false;
    }
    for i := 0 to length
      invariant forall k :: 0 <= k < i ==> Upper(value[k]) == literal[k]
    {
      if Upper(value[i]) != literal[i] {
        assert UpperAll(value[..length])[i] != literal[i];
        return false;
      }
    }
    return true;
  }
}
