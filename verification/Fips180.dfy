/** SHA-256 as FIPS 180-4 defines it, for messages of whole bytes. */
module Fips180 {

  type Word = bv32
  type Byte = bv8
  type Block = b: seq<Byte> | |b| == 64 witness seq(64, _ => 0)

  // ----- sections 4.1.2, 4.2.2 and 5.3.3: functions and constants -----

  /** Addition modulo 2^32. */
  function Add(x: Word, y: Word): Word { x + y }

  function Ch(x: Word, y: Word, z: Word): Word { (x & y) ^ ((!x) & z) }

  function Maj(x: Word, y: Word, z: Word): Word { (x & y) ^ (x & z) ^ (y & z) }

  function BigSigma0(x: Word): Word { x.RotateRight(2) ^ x.RotateRight(13) ^ x.RotateRight(22) }

  function BigSigma1(x: Word): Word { x.RotateRight(6) ^ x.RotateRight(11) ^ x.RotateRight(25) }

  function SmallSigma0(x: Word): Word { x.RotateRight(7) ^ x.RotateRight(18) ^ (x >> 3) }

  function SmallSigma1(x: Word): Word { x.RotateRight(17) ^ x.RotateRight(19) ^ (x >> 10) }

  function RoundConstant(t: nat): Word
    requires t < 64
  {
    if t < 8 then [ 0x428a2f98, 0x71374491, 0xb5c0fbcf, 0xe9b5dba5, 0x3956c25b, 0x59f111f1, 0x923f82a4, 0xab1c5ed5 ][t]
    else if t < 16 then [ 0xd807aa98, 0x12835b01, 0x243185be, 0x550c7dc3, 0x72be5d74, 0x80deb1fe, 0x9bdc06a7, 0xc19bf174 ][t - 8]
    else if t < 24 then [ 0xe49b69c1, 0xefbe4786, 0x0fc19dc6, 0x240ca1cc, 0x2de92c6f, 0x4a7484aa, 0x5cb0a9dc, 0x76f988da ][t - 16]
    else if t < 32 then [ 0x983e5152, 0xa831c66d, 0xb00327c8, 0xbf597fc7, 0xc6e00bf3, 0xd5a79147, 0x06ca6351, 0x14292967 ][t - 24]
    else if t < 40 then [ 0x27b70a85, 0x2e1b2138, 0x4d2c6dfc, 0x53380d13, 0x650a7354, 0x766a0abb, 0x81c2c92e, 0x92722c85 ][t - 32]
    else if t < 48 then [ 0xa2bfe8a1, 0xa81a664b, 0xc24b8b70, 0xc76c51a3, 0xd192e819, 0xd6990624, 0xf40e3585, 0x106aa070 ][t - 40]
    else if t < 56 then [ 0x19a4c116, 0x1e376c08, 0x2748774c, 0x34b0bcb5, 0x391c0cb3, 0x4ed8aa4a, 0x5b9cca4f, 0x682e6ff3 ][t - 48]
    else [ 0x748f82ee, 0x78a5636f, 0x84c87814, 0x8cc70208, 0x90befffa, 0xa4506ceb, 0xbef9a3f7, 0xc67178f2 ][t - 56]
  }

  function InitialHash(): seq<Word> {
    [ 0x6a09e667, 0xbb67ae85, 0x3c6ef372, 0xa54ff53a, 0x510e527f, 0x9b05688c, 0x1f83d9ab, 0x5be0cd19 ]
  }

  // ----- section 6.2.2: one block -----

  /** A big-endian word of a block. */
  function WordAt(block: seq<Byte>, t: nat): Word
    requires 4 * t + 4 <= |block|
  {
    BigEndian(block[4 * t], block[4 * t + 1], block[4 * t + 2], block[4 * t + 3])
  }

  function BigEndian(a: Byte, b: Byte, c: Byte, d: Byte): Word {
    ((a as Word) << 24) | ((b as Word) << 16) | ((c as Word) << 8) | (d as Word)
  }

  /** Step 1: the message schedule. */
  function Schedule(block: Block, t: nat): Word
  {
    if t < 16 then WordAt(block, t)
    else
      Extend(Schedule(block, t - 2), Schedule(block, t - 7), Schedule(block, t - 15), Schedule(block, t - 16))
  }

  function Extend(w2: Word, w7: Word, w15: Word, w16: Word): Word {
    SmallSigma1(w2) + w7 + SmallSigma0(w15) + w16
  }

  datatype Vars = Vars(a: Word, b: Word, c: Word, d: Word, e: Word, f: Word, g: Word, h: Word)

  /** Step 3: one round. */
  function Round(v: Vars, k: Word, w: Word): Vars {
    var t1 := Add(Add(Add(Add(v.h, BigSigma1(v.e)), Ch(v.e, v.f, v.g)), k), w);
    var t2 := Add(BigSigma0(v.a), Maj(v.a, v.b, v.c));
    Vars(Add(t1, t2), v.a, v.b, v.c, Add(v.d, t1), v.e, v.f, v.g)
  }

  function Rounds(v: Vars, block: Block, t: nat): Vars
    requires t <= 64
  {
    if t == 0 then v
    else Round(Rounds(v, block, t - 1), RoundConstant(t - 1), Schedule(block, t - 1))
  }

  /** Steps 2 and 4. */
  function Compress(hash: seq<Word>, block: Block): (r: seq<Word>)
    requires |hash| == 8
    ensures |r| == 8
  {
    var v := Rounds(Vars(hash[0], hash[1], hash[2], hash[3], hash[4], hash[5], hash[6], hash[7]), block, 64);
    [ Add(hash[0], v.a), Add(hash[1], v.b), Add(hash[2], v.c), Add(hash[3], v.d),
      Add(hash[4], v.e), Add(hash[5], v.f), Add(hash[6], v.g), Add(hash[7], v.h) ]
  }

  /** The intermediate hash after a sequence of blocks. */
  function HashBlocks(blocks: seq<Block>): (r: seq<Word>)
    ensures |r| == 8
  {
    if blocks == [] then InitialHash()
    else Compress(HashBlocks(blocks[..|blocks| - 1]), blocks[|blocks| - 1])
  }

  /** `hashes` are the intermediate hash values H(0) to H(N) of the standard. */
  ghost predicate IntermediateHashes(hashes: seq<seq<Word>>, blocks: seq<Block>) {
    && |hashes| == |blocks| + 1
    && (forall i :: 0 <= i < |hashes| ==> |hashes[i]| == 8)
    && hashes[0] == InitialHash()
    && (forall i :: 0 <= i < |blocks| ==> Follows(hashes, blocks, i))
  }

  ghost predicate Follows(hashes: seq<seq<Word>>, blocks: seq<Block>, i: nat)
    requires i < |blocks| && i + 1 < |hashes| && |hashes[i]| == 8
  {
    hashes[i + 1] == Compress(hashes[i], blocks[i])
  }

  lemma HashesExtend(hashes: seq<seq<Word>>, blocks: seq<Block>, block: Block, next: seq<Word>)
    requires IntermediateHashes(hashes, blocks) && next == Compress(hashes[|blocks|], block)
    ensures IntermediateHashes(hashes + [next], blocks + [block])
  {
    forall i | 0 <= i < |blocks| + 1 ensures Follows(hashes + [next], blocks + [block], i) {
      if i < |blocks| { assert Follows(hashes, blocks, i); }
    }
  }

  lemma {:induction false} HashAfter(hashes: seq<seq<Word>>, blocks: seq<Block>, n: nat)
    requires IntermediateHashes(hashes, blocks) && n <= |blocks|
    ensures hashes[n] == HashBlocks(blocks[..n])
  {
    if n > 0 {
      HashAfter(hashes, blocks, n - 1);
      assert blocks[..n][..n - 1] == blocks[..n - 1];
      assert Follows(hashes, blocks, n - 1);
    }
  }

  // ----- section 5.2.1: parsing -----

  /** The whole blocks of a message, in order. */
  function Parse(message: seq<Byte>): seq<Block> {
    if |message| < 64 then [] else [message[..64]] + Parse(message[64..])
  }

  function Flatten(blocks: seq<Block>): seq<Byte> {
    if blocks == [] then [] else blocks[0] + Flatten(blocks[1..])
  }

  lemma {:induction false} FlattenAppend(blocks: seq<Block>, block: Block)
    ensures Flatten(blocks + [block]) == Flatten(blocks) + block
  {
    if blocks == [] {
      assert Flatten([block]) == block + Flatten([]);
    } else {
      FlattenAppend(blocks[1..], block);
      assert (blocks + [block])[1..] == blocks[1..] + [block];
    }
  }

  lemma {:induction false} FlattenLength(blocks: seq<Block>)
    ensures |Flatten(blocks)| == 64 * |blocks|
  {
    if blocks != [] { FlattenLength(blocks[1..]); }
  }

  /** Parsing finds the only way to cut a message into blocks. */
  lemma {:induction false} ParseFlatten(blocks: seq<Block>)
    ensures Parse(Flatten(blocks)) == blocks
  {
    if blocks != [] {
      ParseFlatten(blocks[1..]);
      var message, rest := Flatten(blocks), Flatten(blocks[1..]);
      assert message[..64] == blocks[0] && message[64..] == rest;
    }
  }

  // ----- section 5.1.1: padding -----

  const MAX_MESSAGE: int := 0x2000_0000_0000_0000

  /** How many zero bytes follow the byte 0x80. */
  function ZeroBytes(length: nat): nat {
    (119 - length % 64) % 64
  }

  lemma PaddedLength(length: nat)
    ensures (length + 1 + ZeroBytes(length) + 8) % 64 == 0
  {}

  function Zeros(n: nat): (r: seq<Byte>)
    ensures |r| == n && forall i :: 0 <= i < n ==> r[i] == 0
  {
    seq(n, _ => 0)
  }

  /** `n` as eight big-endian bytes. */
  function LengthBytes(n: nat): (r: seq<Byte>)
    requires n < 0x1_0000_0000_0000_0000
    ensures |r| == 8
  {
    [ ByteOf(n / 0x100_0000_0000_0000), ByteOf(n / 0x1_0000_0000_0000), ByteOf(n / 0x100_0000_0000),
      ByteOf(n / 0x1_0000_0000), ByteOf(n / 0x100_0000), ByteOf(n / 0x1_0000), ByteOf(n / 0x100), ByteOf(n) ]
  }

  function ByteOf(n: nat): Byte {
    (n % 256) as Byte
  }

  function Pad(message: seq<Byte>): (r: seq<Byte>)
    requires |message| < MAX_MESSAGE
    ensures |r| == |message| + 1 + ZeroBytes(|message|) + 8
    ensures message <= r
  {
    message + [0x80] + Zeros(ZeroBytes(|message|)) + LengthBytes(8 * |message|)
  }

  /** The message digest as eight words. */
  function Sha256(message: seq<Byte>): (r: seq<Word>)
    requires |message| < MAX_MESSAGE
    ensures |r| == 8
  {
    HashBlocks(Parse(Pad(message)))
  }

  // ----- hexadecimal -----

  function HexDigit(n: Word): char {
    if n == 0 then '0' else if n == 1 then '1' else if n == 2 then '2' else if n == 3 then '3'
    else if n == 4 then '4' else if n == 5 then '5' else if n == 6 then '6' else if n == 7 then '7'
    else if n == 8 then '8' else if n == 9 then '9' else if n == 10 then 'a' else if n == 11 then 'b'
    else if n == 12 then 'c' else if n == 13 then 'd' else if n == 14 then 'e' else 'f'
  }

  function HexWord(w: Word): string {
    [ HexDigit(w >> 28), HexDigit((w >> 24) & 15), HexDigit((w >> 20) & 15), HexDigit((w >> 16) & 15),
      HexDigit((w >> 12) & 15), HexDigit((w >> 8) & 15), HexDigit((w >> 4) & 15), HexDigit(w & 15) ]
  }

  function Hex(words: seq<Word>): string {
    if words == [] then "" else Hex(words[..|words| - 1]) + HexWord(words[|words| - 1])
  }
}
