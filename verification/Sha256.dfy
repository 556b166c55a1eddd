/** The streaming hash of `guest-agent/src/artifacts.rs`, proved against FIPS 180-4. */
module Sha256 {
  import opened Basics
  import Fips180

  type Byte = Fips180.Byte
  type Word = Fips180.Word

  function MinNat(a: nat, b: nat): nat { if a <= b then a else b }

  class Hasher {
    const state: array<Word>
    const block: array<Byte>
    var blockLen: nat
    var totalLen: u64
    /** The blocks hashed so far, their intermediate hashes, and the whole message. */
    ghost var blocks: seq<Fips180.Block>
    ghost var hashes: seq<seq<Word>>
    ghost var message: seq<Byte>

    ghost predicate Valid()
      reads this, state, block
    {
      Buffered() && totalLen == MinNat(|message|, U64_MAX)
    }

    /** The whole blocks of the message are in the hash, its tail is in the block buffer. */
    ghost predicate Buffered()
      reads this, state, block
    {
      && state.Length == 8 && block.Length == 64 && blockLen < 64
      && Fips180.IntermediateHashes(hashes, blocks) && state[..] == hashes[|blocks|]
      && message == Fips180.Flatten(blocks) + block[..blockLen]
    }

    constructor ()
      ensures Valid() && message == [] && fresh(state) && fresh(block)
    {
      state := new Word[8](i requires 0 <= i < 8 => Fips180.InitialHash()[i]);
      block := new Byte[64](_ => 0);
      blockLen, totalLen, blocks, hashes, message := 0, 0, [], [Fips180.InitialHash()], [];
      new;
      assert state[..] == Fips180.InitialHash();
    }

    /** One block into the hash. */
    method Transform(chunk: seq<Byte>)
      requires state.Length == 8 && |chunk| == 64
      modifies state
      ensures state[..] == Fips180.Compress(old(state[..]), chunk)
    {
      var words := Schedule(chunk);
      var a, b, c, d, e, f, g, h := state[0], state[1], state[2], state[3], state[4], state[5], state[6], state[7];
      a, b, c, d, e, f, g, h := Rounds(chunk, words, a, b, c, d, e, f, g, h);
      var next := [Fips180.Add(state[0], a), Fips180.Add(state[1], b), Fips180.Add(state[2], c), Fips180.Add(state[3], d),
                   Fips180.Add(state[4], e), Fips180.Add(state[5], f), Fips180.Add(state[6], g), Fips180.Add(state[7], h)];
      forall i | 0 <= i < 8 {
        state[i] := next[i];
      }
      assert state[..] == next;
    }

    /** The first `n` words are those of the message schedule. */
    static ghost predicate Scheduled(words: seq<Word>, chunk: seq<Byte>, n: nat)
      requires |chunk| == 64
    {
      n <= |words| <= 64 && forall t :: 0 <= t < n ==> words[t] == Fips180.Schedule(chunk, t)
    }

    static lemma ScheduledMore(words: seq<Word>, chunk: seq<Byte>, n: nat, word: Word)
      requires |chunk| == 64 && n < |words| && Scheduled(words, chunk, n) && word == Fips180.Schedule(chunk, n)
      ensures Scheduled(words[n := word], chunk, n + 1)
    {}

    static lemma ExtendIsSchedule(words: seq<Word>, chunk: seq<Byte>, n: nat)
      requires |chunk| == 64 && 16 <= n < |words| && Scheduled(words, chunk, n)
      ensures ExtendWord(words[n - 16], words[n - 15], words[n - 7], words[n - 2]) == Fips180.Schedule(chunk, n)
    {
      ExtendOrder(words[n - 16], words[n - 15], words[n - 7], words[n - 2]);
    }

    /** The 64 words of the message schedule. */
    static method Schedule(chunk: seq<Byte>) returns (words: array<Word>)
      requires |chunk| == 64
      ensures fresh(words) && words.Length == 64
      ensures Scheduled(words[..], chunk, 64)
    {
      words := new Word[64](_ => 0);
      for index := 0 to 16
        invariant Scheduled(words[..], chunk, index)
      {
        ScheduledMore(words[..], chunk, index, Fips180.WordAt(chunk, index));
        words[index] := Fips180.WordAt(chunk, index);
      }
      for index := 16 to 64
        invariant Scheduled(words[..], chunk, index)
      {
        ExtendIsSchedule(words[..], chunk, index);
        var word := ExtendWord(words[index - 16], words[index - 15], words[index - 7], words[index - 2]);
        ScheduledMore(words[..], chunk, index, word);
        words[index] := word;
      }
    }

    static function ExtendWord(w16: Word, w15: Word, w7: Word, w2: Word): Word {
      var s0, s1 := Fips180.SmallSigma0(w15), Fips180.SmallSigma1(w2);
      w16 + s0 + w7 + s1
    }

    /** The code adds the four terms of the schedule in another order than the standard. */
    static lemma ExtendOrder(w16: Word, w15: Word, w7: Word, w2: Word)
      ensures ExtendWord(w16, w15, w7, w2) == Fips180.Extend(w2, w7, w15, w16)
    {}

    /** The register loop. */
    static method Rounds(chunk: seq<Byte>, words: array<Word>,
                         a0: Word, b0: Word, c0: Word, d0: Word, e0: Word, f0: Word, g0: Word, h0: Word)
      returns (a: Word, b: Word, c: Word, d: Word, e: Word, f: Word, g: Word, h: Word)
      requires |chunk| == 64 && words.Length == 64 && Scheduled(words[..], chunk, 64)
      ensures Fips180.Vars(a, b, c, d, e, f, g, h)
           == Fips180.Rounds(Fips180.Vars(a0, b0, c0, d0, e0, f0, g0, h0), chunk, 64)
    {
      a, b, c, d, e, f, g, h := a0, b0, c0, d0, e0, f0, g0, h0;
      for index := 0 to 64
        invariant Fips180.Vars(a, b, c, d, e, f, g, h)
               == Fips180.Rounds(Fips180.Vars(a0, b0, c0, d0, e0, f0, g0, h0), chunk, index)
      {
        var choice, majority := Fips180.Ch(e, f, g), Fips180.Maj(a, b, c);
        var sum0, sum1 := Fips180.BigSigma0(a), Fips180.BigSigma1(e);
        var temporary1 := Fips180.Add(Fips180.Add(Fips180.Add(Fips180.Add(h, sum1), choice), Fips180.RoundConstant(index)), words[index]);
        var temporary2 := Fips180.Add(sum0, majority);
        h := g;
        g := f;
        f := e;
        e := Fips180.Add(d, temporary1);
        d := c;
        c := b;
        b := a;
        a := Fips180.Add(temporary1, temporary2);
      }
    }

    // ----- absorbing input -----

    method Update(input: seq<Byte>)
      requires Valid()
      modifies this, state, block
      ensures Valid() && message == old(message) + input
    {
      totalLen := if totalLen + |input| <= U64_MAX then totalLen + |input| else U64_MAX;
      var rest := input;
      if blockLen != 0 {
        var count := MinNat(64 - blockLen, |rest|);
        JoinRest(message, rest, count);
        Fill(rest[..count]);
        rest := rest[count..];
      }
      rest := HashWhole(rest);
      KeepTail(rest);
    }

    /** The loop over whole blocks of the input. */
    method HashWhole(input: seq<Byte>) returns (rest: seq<Byte>)
      requires Buffered() && (input != [] ==> blockLen == 0)
      modifies this`blocks, this`hashes, this`message, state
      ensures Buffered() && (rest != [] ==> blockLen == 0) && |rest| < 64
      ensures message + rest == old(message) + input
    {
      rest := input;
      while |rest| >= 64
        invariant Buffered() && (rest != [] ==> blockLen == 0)
        invariant message + rest == old(message) + input
      {
        JoinRest(message, rest, 64);
        HashBlock(rest[..64]);
        rest := rest[64..];
      }
    }

    static lemma JoinRest(m: seq<Byte>, rest: seq<Byte>, count: nat)
      requires count <= |rest|
      ensures (m + rest[..count]) + rest[count..] == m + rest
    {
      assert rest == rest[..count] + rest[count..];
    }

    /** One whole block, with nothing buffered. */
    method HashBlock(chunk: seq<Byte>)
      requires Buffered() && blockLen == 0 && |chunk| == 64
      modifies this`blocks, this`hashes, this`message, state
      ensures Buffered() && message == old(message) + chunk
    {
      Transform(chunk);
      NoTail(Fips180.Flatten(blocks), block[..0]);
      Fips180.HashesExtend(hashes, blocks, chunk, state[..]);
      Fips180.FlattenAppend(blocks, chunk);
      blocks, hashes := blocks + [chunk], hashes + [state[..]];
      message := message + chunk;
      NoTail(message, block[..0]);
    }

    static lemma NoTail(m: seq<Byte>, empty: seq<Byte>)
      requires empty == []
      ensures m + empty == m
    {}

    /** Tops up a partly filled block, and hashes it when it becomes full. */
    method Fill(input: seq<Byte>)
      requires Buffered() && blockLen != 0 && blockLen + |input| <= 64
      modifies this`blockLen, this`blocks, this`hashes, this`message, state, block
      ensures Buffered() && message == old(message) + input
      ensures blockLen == (old(blockLen) + |input|) % 64
    {
      Store(input);
      if blockLen == 64 {
        Flush();
      }
    }

    /** Hashes a full buffer. */
    method Flush()
      requires state.Length == 8 && block.Length == 64 && blockLen == 64
      requires Fips180.IntermediateHashes(hashes, blocks) && state[..] == hashes[|blocks|]
      requires message == Fips180.Flatten(blocks) + block[..blockLen]
      modifies this`blockLen, this`blocks, this`hashes, this`message, state
      ensures Buffered() && blockLen == 0 && message == old(message)
    {
      blockLen := 0;
      message := Fips180.Flatten(blocks);
      NoTail(message, block[..0]);
      HashBlock(block[..]);
    }

    /** Copies input behind what is buffered; the block may become full. */
    method Store(input: seq<Byte>)
      requires state.Length == 8 && block.Length == 64 && blockLen + |input| <= 64
      requires message == Fips180.Flatten(blocks) + block[..blockLen]
      modifies this`blockLen, this`message, block
      ensures blockLen == old(blockLen) + |input| && message == old(message) + input
      ensures message == Fips180.Flatten(blocks) + block[..blockLen]
    {
      ghost var tail := block[..blockLen];
      forall i | 0 <= i < |input| {
        block[blockLen + i] := input[i];
      }
      blockLen := blockLen + |input|;
      message := message + input;
      assert block[..blockLen] == tail + input;
    }

    /** Starts a new block with input that does not fill it. */
    method KeepTail(input: seq<Byte>)
      requires Buffered() && (input != [] ==> blockLen == 0) && |input| < 64
      modifies this`blockLen, this`message, block
      ensures Buffered() && message == old(message) + input
    {
      if input != [] {
        Store(input);
      } else {
        NoTail(message, input);
      }
    }

    // ----- the digest -----

    /** Pads and hashes what is buffered; the result is the standard's digest in hexadecimal. */
    method FinishHex() returns (output: string)
      requires Valid()
      modifies this, state, block
      ensures |old(message)| < Fips180.MAX_MESSAGE ==> output == Fips180.Hex(Fips180.Sha256(old(message)))
    {
      var bitLen := if totalLen * 8 <= U64_MAX then totalLen * 8 else U64_MAX;
      ghost var m := message;
      PadWith(bitLen);
      if |m| < Fips180.MAX_MESSAGE {
        NoTail(Fips180.Flatten(blocks), block[..0]);
        DigestOf(m, blocks, hashes);
      }
      output := HexState();
    }

    /** The byte 0x80, zeros and the bit length, in one block or in two. */
    method PadWith(bitLen: u64)
      requires Buffered()
      modifies this`blockLen, this`blocks, this`hashes, this`message, state, block
      ensures Buffered() && blockLen == 0
      ensures message == old(message) + [0x80] + Fips180.Zeros(Fips180.ZeroBytes(|old(message)|)) + Fips180.LengthBytes(bitLen)
    {
      Fips180.FlattenLength(blocks);
      assert |message| % 64 == blockLen;
      Store([0x80]);
      StoreZeros();
      Store(Fips180.LengthBytes(bitLen));
      Flush();
    }

    /** Zeros up to byte 56, in this block if there is room and otherwise in the next. */
    method StoreZeros()
      requires state.Length == 8 && block.Length == 64 && blockLen <= 64
      requires Fips180.IntermediateHashes(hashes, blocks) && state[..] == hashes[|blocks|]
      requires message == Fips180.Flatten(blocks) + block[..blockLen]
      modifies this`blockLen, this`blocks, this`hashes, this`message, state, block
      ensures Buffered() && blockLen == 56
      ensures message == old(message) + Fips180.Zeros((120 - old(blockLen)) % 64)
    {
      if blockLen > 56 {
        PaddingJoins(message, 64 - blockLen, 120 - blockLen);
        Store(Fips180.Zeros(64 - blockLen));
        Flush();
      }
      Store(Fips180.Zeros(56 - blockLen));
    }

    static lemma PaddingJoins(m: seq<Byte>, first: nat, zeros: nat)
      requires first <= zeros
      ensures m + Fips180.Zeros(first) + Fips180.Zeros(zeros - first) == m + Fips180.Zeros(zeros)
    {
      assert Fips180.Zeros(first) + Fips180.Zeros(zeros - first) == Fips180.Zeros(zeros);
    }

    /** When the hashed blocks spell the padded message, the last hash is its digest. */
    static lemma DigestOf(m: seq<Byte>, blocks: seq<Fips180.Block>, hashes: seq<seq<Word>>)
      requires |m| < Fips180.MAX_MESSAGE
      requires Fips180.IntermediateHashes(hashes, blocks) && Fips180.Flatten(blocks) == Fips180.Pad(m)
      ensures hashes[|blocks|] == Fips180.Sha256(m)
    {
      Fips180.ParseFlatten(blocks);
      Fips180.HashAfter(hashes, blocks, |blocks|);
      assert blocks[..|blocks|] == blocks;
    }

    method HexState() returns (output: string)
      ensures output == Fips180.Hex(state[..])
    {
      output := "";
      for i := 0 to state.Length
        invariant output == Fips180.Hex(state[..i])
      {
        assert state[..i + 1][..i] == state[..i];
        output := output + Fips180.HexWord(state[i]);
      }
      assert state[..state.Length] == state[..];
    }
  }

  // ----- hashing a file -----

  function Concat(pieces: seq<seq<Byte>>): seq<Byte> {
    if pieces == [] then [] else Concat(pieces[..|pieces| - 1]) + pieces[|pieces| - 1]
  }

  lemma {:induction false} ConcatGrows(pieces: seq<seq<Byte>>, n: nat)
    requires n <= |pieces|
    ensures |Concat(pieces[..n])| <= |Concat(pieces)|
    decreases |pieces|
  {
    if n < |pieces| {
      ConcatGrows(pieces[..|pieces| - 1], n);
      assert pieces[..|pieces| - 1][..n] == pieces[..n];
    } else {
      assert pieces[..n] == pieces;
    }
  }

  /**
   `sha256_file`: however the file arrives in pieces, the digest is that of its content, and content
   over the limit is refused. `reported` is the length in the file's metadata.
   */
  method Sha256File(reported: u64, pieces: seq<seq<Byte>>, maximum: u64) returns (digest: Option<string>)
    ensures digest.Some? <==> reported <= maximum && |Concat(pieces)| <= maximum
    ensures digest.Some? && |Concat(pieces)| < Fips180.MAX_MESSAGE ==>
              digest.value == Fips180.Hex(Fips180.Sha256(Concat(pieces)))
  {
    if reported > maximum {
      return None;
    }
    var hasher := new Hasher();
    var total: nat := 0;
    assert pieces[..|pieces|] == pieces;
    for i := 0 to |pieces|
      invariant hasher.Valid() && fresh(hasher) && fresh(hasher.state) && fresh(hasher.block)
      invariant hasher.message == Concat(pieces[..i]) && total == |Concat(pieces[..i])| <= maximum
    {
      assert pieces[..i + 1][..i] == pieces[..i];
      total := total + |pieces[i]|;
      if total > maximum {
        ConcatGrows(pieces, i + 1);
        return None;
      }
      hasher.Update(pieces[i]);
    }
    var output := hasher.FinishHex();
    digest := Some(output);
  }
}
