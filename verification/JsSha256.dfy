/**
 web/sha256.js: the incremental hasher the browser sender uses. The class keeps
 the source's fields and loops; `fed`, the bytes given to `Update` so far, is what
 its contracts are stated about. Typed arrays are Dafny arrays.
 */
module JsSha256 {
  import opened Bytes
  import opened Bits
  import opened JsNumber
  import opened Fips180
  import opened JsSha256Words

  datatype UpdateResult = Updated | AlreadyFinalized | InputTooLarge

  // Lines 26-35.
  const INITIAL_STATE: HashValue :=
    [0x6a09e667, 0xbb67ae85, 0x3c6ef372, 0xa54ff53a, 0x510e527f, 0x9b05688c, 0x1f83d9ab, 0x5be0cd19]

  /** The whole blocks of `data` are chained into `h`; `tail` is the rest of it. */
  ghost predicate Absorbs(data: ByteString, h: seq<Word>, tail: ByteString)
  {
    |h| == 8 && tail == data[64 * (|data| / 64)..] && h == Chain(data, |data| / 64)
  }

  /** Bytes that do not complete a block only extend the tail. */
  lemma AbsorbTail(data: ByteString, h: seq<Word>, tail: ByteString, more: ByteString)
    requires Absorbs(data, h, tail) && |tail| + |more| < 64
    ensures Absorbs(data + more, h, tail + more)
  {
    hide Compress, IV, Chain;
    var n := |data| / 64;
    assert |data + more| / 64 == n;
    assert (data + more)[..64 * n] == data[..64 * n];
    ChainPrefix(data + more, data, n);
    assert (data + more)[64 * n..] == data[64 * n..] + more;
  }

  /** Bytes that complete a block chain exactly that block and leave no tail. */
  lemma AbsorbBlock(data: ByteString, h: seq<Word>, tail: ByteString, more: ByteString)
    requires Absorbs(data, h, tail) && |tail| + |more| == 64
    ensures Absorbs(data + more, Compress(h, tail + more), [])
  {
    hide Compress, IV;
    var n := |data| / 64;
    var all := data + more;
    assert |all| == 64 * (n + 1) && |all| / 64 == n + 1;
    assert all[..64 * n] == data[..64 * n];
    ChainPrefix(all, data, n);
    assert all[64 * n..64 * (n + 1)] == tail + more;
    assert all[64 * (n + 1)..] == [];
  }

  /** Closing a message whose marker and length fit in the block its tail starts. */
  lemma PadInOneBlock(data: ByteString, h: seq<Word>, tail: ByteString)
    requires Absorbs(data, h, tail) && |tail| < 56
    ensures var last := tail + [0x80] + Zeros(55 - |tail|) + BigEndian(8, 8 * |data|);
            Compress(h, last) == Chain(Padded(data), |Padded(data)| / 64)
  {
    hide Compress, IV, Chain, BigEndian;
    var more := [0x80] + Zeros(55 - |tail|) + BigEndian(8, 8 * |data|);
    assert ZeroCount(|data|) == 55 - |tail|;
    assert Padded(data) == data + more;
    assert tail + more == tail + [0x80] + Zeros(55 - |tail|) + BigEndian(8, 8 * |data|);
    AbsorbBlock(data, h, tail, more);
  }

  /** Closing a message that needs a second block for the length. */
  lemma PadInTwoBlocks(data: ByteString, h: seq<Word>, tail: ByteString)
    requires Absorbs(data, h, tail) && 56 <= |tail| < 64
    ensures var first := tail + [0x80] + Zeros(63 - |tail|);
            var last := Zeros(56) + BigEndian(8, 8 * |data|);
            Compress(Compress(h, first), last) == Chain(Padded(data), |Padded(data)| / 64)
  {
    hide Compress, IV, Chain, BigEndian;
    var more := [0x80] + Zeros(63 - |tail|);
    var last := Zeros(56) + BigEndian(8, 8 * |data|);
    assert tail + more == tail + [0x80] + Zeros(63 - |tail|);
    AbsorbBlock(data, h, tail, more);
    AbsorbBlock(data + more, Compress(h, tail + more), [], last);
    assert ZeroCount(|data|) == 63 - |tail| + 56;
    assert Zeros(63 - |tail|) + Zeros(56) == Zeros(63 - |tail| + 56);
    assert Padded(data) == data + more + last;
    assert [] + last == last;
  }

  lemma FinalHashSteps(data: ByteString)
    ensures FinalHash(data) == Chain(Padded(data), |Padded(data)| / 64)
  {
  }

  lemma CompressSteps(h: HashValue, block: Block)
    ensures Compress(h, block) == AddWorking(h, Rounds(h, block, 64))
  {
    hide Rounds, AddWorking;
  }

  /** Lines 121-128, for one word. */
  function AddWord(x: Word, y: Word): Word { ToUint32(Plus(x, y)) }

  lemma AddWordIsMod32(x: Word, y: Word)
    ensures AddWord(x, y) == Mod32(x + y)
  {
  }

  lemma AddWorkingWords(h: HashValue, v: Working)
    ensures AddWorking(h, v) ==
            [AddWord(h[0], v.a), AddWord(h[1], v.b), AddWord(h[2], v.c), AddWord(h[3], v.d),
             AddWord(h[4], v.e), AddWord(h[5], v.f), AddWord(h[6], v.g), AddWord(h[7], v.h)]
  {
    hide AddWord, Mod32;
    AddWordIsMod32(h[0], v.a);
    AddWordIsMod32(h[1], v.b);
    AddWordIsMod32(h[2], v.c);
    AddWordIsMod32(h[3], v.d);
    AddWordIsMod32(h[4], v.e);
    AddWordIsMod32(h[5], v.f);
    AddWordIsMod32(h[6], v.g);
    AddWordIsMod32(h[7], v.h);
  }

  lemma ScheduleStep(block: Block, t: nat)
    requires 16 <= t
    ensures Schedule(block, t) ==
            Mod32(SmallSigma1(Schedule(block, t - 2)) + Schedule(block, t - 7) +
                  SmallSigma0(Schedule(block, t - 15)) + Schedule(block, t - 16))
  {
    hide SmallSigma0, SmallSigma1, Mod32;
  }

  class IncrementalSha256 {
    const state: array<Word>
    const buffer: array<Byte>
    const words: array<Word>
    var bufferLength: nat
    var bytesHashed: nat
    var finished: bool
    ghost var fed: ByteString

    /** The arrays are distinct and of the source's sizes. */
    ghost predicate Shaped()
      reads this
    {
      state.Length == 8 && buffer.Length == 64 && words.Length == 64 && state != words
    }

    ghost predicate Absorbed(data: ByteString)
      reads this, state, buffer
    {
      Shaped() && bufferLength < 64 && Absorbs(data, state[..], buffer[..bufferLength])
    }

    ghost predicate Valid()
      reads this, state, buffer
    {
      Shaped() && bytesHashed == |fed| <= MAX_SAFE_INTEGER &&
      if finished then state[..] == FinalHash(fed) else Absorbed(fed)
    }

    /** The count has gone beyond what was hashed, and beyond what can be counted. */
    ghost predicate Overflowed()
      reads this, state, buffer
    {
      Absorbed(fed) && !finished && bytesHashed > MAX_SAFE_INTEGER
    }

    /** The state the constructor of lines 25-41 leaves. */
    ghost predicate New()
      reads this, state
    {
      Shaped() && bufferLength == 0 && bytesHashed == 0 && !finished && fed == [] && state[..] == INITIAL_STATE
    }

    constructor ()
      ensures New() && fresh(state) && fresh(buffer) && fresh(words)
    {
      state := new Word[8](i requires 0 <= i < 8 => INITIAL_STATE[i]);
      buffer := new Byte[64](_ => 0);
      words := new Word[64](_ => 0);
      bufferLength, bytesHashed, finished, fed := 0, 0, false, [];
    }

    lemma NewIsValid()
      requires New()
      ensures Valid()
    {
      hide Compress, FinalHash;
      assert buffer[..bufferLength] == [];
    }

    /** Lines 43-75. The two refusals happen exactly when their guards hold. */
    method Update(input: array<Byte>) returns (r: UpdateResult)
      requires (Valid() || Overflowed()) && input != buffer && input.Length <= MAX_SAFE_INTEGER
      modifies this, state, buffer, words
      ensures r.AlreadyFinalized? <==> old(finished)
      ensures r.InputTooLarge? <==> !old(finished) && old(bytesHashed) + input.Length > MAX_SAFE_INTEGER
      ensures r.Updated? ==> Valid() && fed == old(fed) + input[..] && !finished
      ensures r.AlreadyFinalized? ==> Valid() && fed == old(fed) && finished
      ensures r.InputTooLarge? ==>
              Overflowed() && fed == old(fed) && state[..] == old(state[..]) && buffer[..] == old(buffer[..])
      ensures input[..] == old(input[..])
    {
      hide Absorbs, Compress, Chain, FinalHash;
      if finished {
        return AlreadyFinalized;
      }
      bytesHashed := bytesHashed + input.Length;
      if !Exact(bytesHashed) {
        return InputTooLarge;
      }
      var offset := 0;
      assert fed + input[..0] == fed;
      while offset < input.Length
        invariant 0 <= offset <= input.Length
        invariant Absorbed(fed + input[..offset])
        invariant unchanged(input) && unchanged(this`fed) && unchanged(this`finished)
        invariant bytesHashed == old(bytesHashed) + input.Length
      {
        ghost var done := fed + input[..offset];
        var next := Consume(input, offset, done);
        assert fed + input[..next] == done + input[offset..next];
        offset := next;
      }
      assert fed + input[..offset] == fed + input[..];
      fed := fed + input[..];
      return Updated;
    }

    /** Lines 57-72: a whole block in place, or as much as the buffer takes. */
    method Consume(input: array<Byte>, offset: nat, ghost done: ByteString) returns (next: nat)
      requires Absorbed(done) && input != buffer && offset < input.Length
      modifies this`bufferLength, state, buffer, words
      ensures offset < next <= input.Length && Absorbed(done + input[offset..next])
      ensures unchanged(input)
    {
      hide Absorbs, Compress, Chain;
      if bufferLength == 0 && offset + 64 <= input.Length {
        ghost var block := input[offset..offset + 64];
        assert [] + block == block && buffer[..0] == [];
        AbsorbBlock(done, state[..], [], block);
        ProcessBlock(input, offset);
        next := offset + 64;
      } else {
        var take := if 64 - bufferLength <= input.Length - offset then 64 - bufferLength else input.Length - offset;
        next := Fill(input, offset, take, done);
      }
    }

    /** Lines 64-72: buffer `take` bytes and hash the buffer if that fills it. */
    method Fill(input: array<Byte>, offset: nat, take: nat, ghost done: ByteString) returns (next: nat)
      requires Absorbed(done) && input != buffer
      requires 0 < take <= 64 - bufferLength && offset + take <= input.Length
      modifies this`bufferLength, state, buffer, words
      ensures next == offset + take
      ensures Absorbed(done + input[offset..next])
      ensures unchanged(input)
    {
      hide Absorbs, Compress, Chain;
      ghost var tail, more := buffer[..bufferLength], input[offset..offset + take];
      ghost var h := state[..];
      if |tail| + take < 64 {
        AbsorbTail(done, h, tail, more);
      } else {
        AbsorbBlock(done, h, tail, more);
      }
      forall i | 0 <= i < take {
        buffer[bufferLength + i] := input[offset + i];
      }
      bufferLength := bufferLength + take;
      assert buffer[..bufferLength] == tail + more;
      assert state[..] == h;
      next := offset + take;
      if bufferLength == 64 {
        assert buffer[0..64] == buffer[..64];
        ProcessBlock(buffer, 0);
        assert state[..] == Compress(h, tail + more);
        bufferLength := 0;
        assert buffer[..0] == [];
        assert Absorbs(done + more, state[..], buffer[..bufferLength]);
      } else {
        assert Absorbs(done + more, state[..], buffer[..bufferLength]);
      }
      assert input[offset..next] == more;
    }

    /** Lines 77-129: one block through the compression function. */
    method ProcessBlock(bytes: array<Byte>, offset: nat)
      requires Shaped() && offset + 64 <= bytes.Length
      modifies state, words
      ensures state[..] == Compress(old(state[..]), old(bytes[offset..offset + 64]))
      ensures unchanged(bytes)
    {
      hide Compress, Rounds, Schedule, AddWorking;
      ghost var block := bytes[offset..offset + 64];
      ghost var h := state[..];
      CompressSteps(h, block);
      LoadWords(bytes, offset);
      ExpandWords(block);
      var v := RunRounds(block);
      AddState(v);
    }

    method LoadWords(bytes: array<Byte>, offset: nat)
      requires Shaped() && offset + 64 <= bytes.Length
      modifies words
      ensures forall t :: 0 <= t < 16 ==> words[t] == Schedule(bytes[offset..offset + 64], t)
    {
      hide JsLoad, FourBytes;
      ghost var block := bytes[offset..offset + 64];
      for i := 0 to 16
        invariant forall t :: 0 <= t < i ==> words[t] == Schedule(block, t)
      {
        var j := offset + 4 * i;
        assert block[4 * i..4 * i + 4] == [bytes[j], bytes[j + 1], bytes[j + 2], bytes[j + 3]];
        LoadAgrees(bytes[j], bytes[j + 1], bytes[j + 2], bytes[j + 3]);
        words[i] := JsLoad(bytes[j], bytes[j + 1], bytes[j + 2], bytes[j + 3]);
      }
    }

    method ExpandWords(ghost block: Block)
      requires Shaped()
      requires forall t :: 0 <= t < 16 ==> words[t] == Schedule(block, t)
      modifies words
      ensures forall t :: 0 <= t < 64 ==> words[t] == Schedule(block, t)
    {
      hide JsSmallSigma, Schedule, Mod32, ToUint32;
      for i := 16 to 64
        invariant forall t :: 0 <= t < i ==> words[t] == Schedule(block, t)
      {
        var x, y := words[i - 15], words[i - 2];
        var s0 := JsSmallSigma(x, 7, 18, 3);
        var s1 := JsSmallSigma(y, 17, 19, 10);
        ExpansionAgrees(words[i - 16], words[i - 7], x, y);
        ScheduleStep(block, i);
        words[i] := ToUint32(Plus(Plus(Plus(words[i - 16], s0), words[i - 7]), s1));
      }
    }

    method RunRounds(ghost block: Block) returns (v: Working)
      requires Shaped()
      requires forall t :: 0 <= t < 64 ==> words[t] == Schedule(block, t)
      ensures v == Rounds(state[..], block, 64)
    {
      hide Round, JsRound, Schedule, Constant, JsConstant;
      var a, b, c, d, e, f, g, h := state[0], state[1], state[2], state[3], state[4], state[5], state[6], state[7];
      v := Working(a, b, c, d, e, f, g, h);
      for i := 0 to 64
        invariant v == Rounds(state[..], block, i)
      {
        TablesAgree(i);
        RoundAgrees(v, JsConstant(i), words[i]);
        v := JsRound(v, JsConstant(i), words[i]);
      }
    }

    method AddState(v: Working)
      requires Shaped()
      modifies state
      ensures state[..] == AddWorking(old(state[..]), v)
    {
      hide AddWorking;
      AddWorkingWords(state[..], v);
      var sums := [AddWord(state[0], v.a), AddWord(state[1], v.b), AddWord(state[2], v.c), AddWord(state[3], v.d),
                   AddWord(state[4], v.e), AddWord(state[5], v.f), AddWord(state[6], v.g), AddWord(state[7], v.h)];
      forall i | 0 <= i < 8 {
        state[i] := sums[i];
      }
    }

    /** Lines 131-151: padding, in one block or across a block boundary. */
    method Finalize()
      requires Valid()
      modifies this`bufferLength, this`finished, state, buffer, words
      ensures Valid() && finished
    {
      hide Absorbs, Compress, Chain, FinalHash, BigEndian, Padded;
      if finished {
        return;
      }
      ghost var tail, h := buffer[..bufferLength], state[..];
      ghost var length := BigEndian(8, 8 * |fed|);
      FinalHashSteps(fed);
      finished := true;
      buffer[bufferLength] := 0x80;
      bufferLength := bufferLength + 1;
      assert buffer[..bufferLength] == tail + [0x80];
      if bufferLength > 56 {
        PadInTwoBlocks(fed, h, tail);
        SpillBlock();
      } else {
        PadInOneBlock(fed, h, tail);
        assert tail + [0x80] + Zeros(55 - |tail|) + length ==
               buffer[..bufferLength] + Zeros(56 - bufferLength) + length;
      }
      assert [] + Zeros(56) + length == Zeros(56) + length;
      LastBlock();
    }

    /** Lines 138-142: the marker leaves no room for the length. */
    method SpillBlock()
      requires Shaped() && 56 < bufferLength <= 64
      modifies this`bufferLength, state, buffer, words
      ensures bufferLength == 0 && buffer[..0] == []
      ensures state[..] == Compress(old(state[..]), old(buffer[..bufferLength]) + Zeros(64 - old(bufferLength)))
    {
      hide Compress;
      ghost var open := buffer[..bufferLength];
      ZeroFill(bufferLength, 64);
      assert buffer[0..64] == open + Zeros(64 - |open|);
      ProcessBlock(buffer, 0);
      bufferLength := 0;
    }

    /** Lines 144-150: zeros and the length after what is in the buffer, and the block hashed. */
    method LastBlock()
      requires Shaped() && bufferLength <= 56
      modifies this`bufferLength, state, buffer, words
      ensures bufferLength == 0
      ensures state[..] ==
              Compress(old(state[..]),
                       old(buffer[..bufferLength]) + Zeros(56 - old(bufferLength)) + BigEndian(8, 8 * bytesHashed))
    {
      hide Compress, BigEndian;
      ghost var open := buffer[..bufferLength];
      ZeroFill(bufferLength, 56);
      assert buffer[..56] == open + Zeros(56 - |open|);
      WriteLength(8 * bytesHashed);
      assert buffer[0..64] == buffer[..56] + buffer[56..];
      assert buffer[0..64] == open + Zeros(56 - |open|) + BigEndian(8, 8 * bytesHashed);
      ProcessBlock(buffer, 0);
      bufferLength := 0;
    }

    method ZeroFill(from: nat, to: nat)
      requires from <= to <= buffer.Length
      modifies buffer
      ensures buffer[..from] == old(buffer[..from]) && buffer[to..] == old(buffer[to..])
      ensures buffer[from..to] == Zeros(to - from)
    {
      forall i | from <= i < to {
        buffer[i] := 0;
      }
    }

    /** Lines 145-148: the bit length in the last eight bytes of the buffer. */
    method WriteLength(bitLength: nat)
      requires buffer.Length == 64
      modifies buffer
      ensures buffer[..56] == old(buffer[..56])
      ensures buffer[56..] == BigEndian(8, bitLength)
    {
      hide BigEndian, ShiftedBytes;
      for i := 0 to 8
        invariant buffer[..56] == old(buffer[..56])
        invariant buffer[64 - i..] == BigEndian(8, bitLength)[8 - i..]
      {
        LengthByte(bitLength, i);
        ghost var written := buffer[64 - i..];
        buffer[63 - i] := bitLength / Span(i) % 256;
        assert buffer[63 - i..] == [buffer[63 - i]] + written;
      }
    }

    /** Lines 153-164. Whatever the splitting into updates was, this is FIPS 180-4 of their concatenation. */
    method Array() returns (digest: ByteString)
      requires Valid()
      modifies this`bufferLength, this`finished, state, buffer, words
      ensures Valid() && finished && unchanged(this`fed)
      ensures digest == Sha256(fed)
    {
      hide Absorbs, Compress, Chain, FinalHash, BigEndian, ShiftedBytes;
      Finalize();
      digest := [];
      for i := 0 to 8
        modifies {}
        invariant digest == HashBytes(state[..i])
      {
        var value := state[i];
        digest := digest + [value / 0x100_0000 % 256, value / 0x1_0000 % 256, value / 0x100 % 256, value % 256];
        WordBytes(value);
        assert state[..i + 1][..i] == state[..i];
      }
      assert state[..8] == state[..];
    }
  }

  lemma WordBytes(value: Word)
    ensures BigEndian(4, value) == [value / 0x100_0000 % 256, value / 0x1_0000 % 256, value / 0x100 % 256, value % 256]
  {
    hide BigEndian;
    ShiftedBytesAreBigEndian(value);
  }

  lemma LengthByte(v: nat, i: nat)
    requires i < 8
    ensures BigEndian(8, v)[7 - i] == v / Span(i) % 256
  {
    hide BigEndian;
    ShiftedBytesAreBigEndian(v);
    SpanValues();
    assert Span(3) == 256 * Span(2) && Span(5) == 256 * Span(4) && Span(6) == 256 * Span(5) && Span(7) == 256 * Span(6);
  }
}
