/** The hash of the message "abc", worked out as in the examples that come with FIPS 180-4. */
module Fips180Example {
  import opened Fips180

  /** The message "abc". */
  predicate SaysAbc(message: seq<Byte>) {
    |message| == 3 && message[0] == 0x61 && message[1] == 0x62 && message[2] == 0x63
  }

  /** The one block of the padded message. */
  predicate IsAbc(block: Block) {
    && block[0] == 0x61 && block[1] == 0x62 && block[2] == 0x63 && block[3] == 0x80
    && (forall i :: 4 <= i < 63 ==> block[i] == 0) && block[63] == 24
  }

  lemma AbcIsPadded(message: seq<Byte>)
    requires SaysAbc(message)
    ensures |Pad(message)| == 64 && IsAbc(Pad(message))
  {
    AbcLength();
    var zeros, length := Zeros(52), LengthBytes(24);
    assert Pad(message) == message + [0x80] + zeros + length;
    assert forall i :: 4 <= i < 56 ==> Pad(message)[i] == zeros[i - 4];
    assert forall i :: 56 <= i < 64 ==> Pad(message)[i] == length[i - 56];
  }

  lemma AbcLength()
    ensures ZeroBytes(3) == 52
    ensures forall i :: 0 <= i < 7 ==> LengthBytes(24)[i] == 0
    ensures LengthBytes(24)[7] == 24
  {
    assert ByteOf(0) == 0 && ByteOf(24) == 24;
  }

  // ----- the message schedule -----

  lemma Words16(block: Block)
    requires IsAbc(block)
    ensures Schedule(block, 0) == 0x61626380 && Schedule(block, 1) == 0x00000000 && Schedule(block, 2) == 0x00000000 && Schedule(block, 3) == 0x00000000
    ensures Schedule(block, 4) == 0x00000000 && Schedule(block, 5) == 0x00000000 && Schedule(block, 6) == 0x00000000 && Schedule(block, 7) == 0x00000000
    ensures Schedule(block, 8) == 0x00000000 && Schedule(block, 9) == 0x00000000 && Schedule(block, 10) == 0x00000000 && Schedule(block, 11) == 0x00000000
    ensures Schedule(block, 12) == 0x00000000 && Schedule(block, 13) == 0x00000000 && Schedule(block, 14) == 0x00000000 && Schedule(block, 15) == 0x00000018
  {
    assert BigEndian(0x61, 0x62, 0x63, 0x80) == 0x61626380 && BigEndian(0, 0, 0, 0) == 0 && BigEndian(0, 0, 0, 24) == 0x18;
  }

  lemma Words24(block: Block)
    requires IsAbc(block)
    ensures Schedule(block, 16) == 0x61626380 && Schedule(block, 17) == 0x000f0000 && Schedule(block, 18) == 0x7da86405 && Schedule(block, 19) == 0x600003c6
    ensures Schedule(block, 20) == 0x3e9d7b78 && Schedule(block, 21) == 0x0183fc00 && Schedule(block, 22) == 0x12dcbfdb && Schedule(block, 23) == 0xe2e2c38e
  {
    Words16(block);
  }

  lemma Words32(block: Block)
    requires IsAbc(block)
    ensures Schedule(block, 24) == 0xc8215c1a && Schedule(block, 25) == 0xb73679a2 && Schedule(block, 26) == 0xe5bc3909 && Schedule(block, 27) == 0x32663c5b
    ensures Schedule(block, 28) == 0x9d209d67 && Schedule(block, 29) == 0xec8726cb && Schedule(block, 30) == 0x702138a4 && Schedule(block, 31) == 0xd3b7973b
  {
    Words16(block);
    Words24(block);
  }

  lemma Words40(block: Block)
    requires IsAbc(block)
    ensures Schedule(block, 32) == 0x93f5997f && Schedule(block, 33) == 0x3b68ba73 && Schedule(block, 34) == 0xaff4ffc1 && Schedule(block, 35) == 0xf10a5c62
    ensures Schedule(block, 36) == 0x0a8b3996 && Schedule(block, 37) == 0x72af830a && Schedule(block, 38) == 0x9409e33e && Schedule(block, 39) == 0x24641522
  {
    Words24(block);
    Words32(block);
  }

  lemma Words48(block: Block)
    requires IsAbc(block)
    ensures Schedule(block, 40) == 0x9f47bf94 && Schedule(block, 41) == 0xf0a64f5a && Schedule(block, 42) == 0x3e246a79 && Schedule(block, 43) == 0x27333ba3
    ensures Schedule(block, 44) == 0x0c4763f2 && Schedule(block, 45) == 0x840abf27 && Schedule(block, 46) == 0x7a290d5d && Schedule(block, 47) == 0x065c43da
  {
    Words32(block);
    Words40(block);
  }

  lemma Words56(block: Block)
    requires IsAbc(block)
    ensures Schedule(block, 48) == 0xfb3e89cb && Schedule(block, 49) == 0xcc7617db && Schedule(block, 50) == 0xb9e66c34 && Schedule(block, 51) == 0xa9993667
    ensures Schedule(block, 52) == 0x84badedd && Schedule(block, 53) == 0xc21462bc && Schedule(block, 54) == 0x1487472c && Schedule(block, 55) == 0xb20f7a99
  {
    Words40(block);
    Words48(block);
  }

  lemma Words64(block: Block)
    requires IsAbc(block)
    ensures Schedule(block, 56) == 0xef57b9cd && Schedule(block, 57) == 0xebe6b238 && Schedule(block, 58) == 0x9fe3095e && Schedule(block, 59) == 0x78bc8d4b
    ensures Schedule(block, 60) == 0xa43fcf15 && Schedule(block, 61) == 0x668b2ff8 && Schedule(block, 62) == 0xeeaba2cc && Schedule(block, 63) == 0x12b1edeb
  {
    Words48(block);
    Words56(block);
  }

  // ----- the rounds -----

  const START := Vars(0x6a09e667, 0xbb67ae85, 0x3c6ef372, 0xa54ff53a,
                      0x510e527f, 0x9b05688c, 0x1f83d9ab, 0x5be0cd19)

  lemma NextRound(block: Block, t: nat, v: Vars, w: Word) returns (r: Vars)
    requires t < 64 && v == Rounds(START, block, t) && w == Schedule(block, t)
    ensures r == Round(v, RoundConstant(t), w) == Rounds(START, block, t + 1)
  {
    r := Round(v, RoundConstant(t), w);
  }

  lemma Rounds8(block: Block)
    requires IsAbc(block)
    ensures Rounds(START, block, 8) == Vars(0x85a07b5f, 0xe5030380, 0x2b4209f5, 0x04409a6a, 0x0c657a79, 0x9b27a401, 0x714260ad, 0x43ada245)
  {
    Words16(block);
    var v := START;
    v := NextRound(block, 0, v, 0x61626380);
    v := NextRound(block, 1, v, 0x00000000);
    v := NextRound(block, 2, v, 0x00000000);
    v := NextRound(block, 3, v, 0x00000000);
    assert v == Vars(0xd550f666, 0xc8c347a7, 0x5a6ad9ad, 0x5d6aebcd, 0x24e00850, 0xf92939eb, 0x78ce7989, 0xfa2a4622);
    v := NextRound(block, 4, v, 0x00000000);
    v := NextRound(block, 5, v, 0x00000000);
    v := NextRound(block, 6, v, 0x00000000);
    v := NextRound(block, 7, v, 0x00000000);
  }

  lemma Rounds16(block: Block)
    requires IsAbc(block)
    ensures Rounds(START, block, 16) == Vars(0xb0fa238e, 0xc0645fde, 0xd932eb16, 0x87912990, 0x07590dcd, 0x0b92f20c, 0x745a48de, 0x1e578218)
  {
    Rounds8(block);
    Words16(block);
    var v := Vars(0x85a07b5f, 0xe5030380, 0x2b4209f5, 0x04409a6a, 0x0c657a79, 0x9b27a401, 0x714260ad, 0x43ada245);
    v := NextRound(block, 8, v, 0x00000000);
    v := NextRound(block, 9, v, 0x00000000);
    v := NextRound(block, 10, v, 0x00000000);
    v := NextRound(block, 11, v, 0x00000000);
    assert v == Vars(0xf71fc5a9, 0x4798a3f4, 0x8c87346b, 0x8e04ecb9, 0x816fd6e9, 0x436b23e8, 0x1cc92596, 0x32ca2d8c);
    v := NextRound(block, 12, v, 0x00000000);
    v := NextRound(block, 13, v, 0x00000000);
    v := NextRound(block, 14, v, 0x00000000);
    v := NextRound(block, 15, v, 0x00000018);
  }

  lemma Rounds24(block: Block)
    requires IsAbc(block)
    ensures Rounds(START, block, 24) == Vars(0xc5d53d8d, 0xa7a3623f, 0xc2606d6d, 0x9dc68b63, 0xaa47c347, 0x49f5114a, 0xe1257970, 0x8ada8930)
  {
    Rounds16(block);
    Words24(block);
    var v := Vars(0xb0fa238e, 0xc0645fde, 0xd932eb16, 0x87912990, 0x07590dcd, 0x0b92f20c, 0x745a48de, 0x1e578218);
    v := NextRound(block, 16, v, 0x61626380);
    v := NextRound(block, 17, v, 0x000f0000);
    v := NextRound(block, 18, v, 0x7da86405);
    v := NextRound(block, 19, v, 0x600003c6);
    assert v == Vars(0xe1f20c33, 0xfe777bbf, 0xc2fbd9d1, 0x21da9a9b, 0xb0638179, 0xcc899961, 0x846ee454, 0x8034229c);
    v := NextRound(block, 20, v, 0x3e9d7b78);
    v := NextRound(block, 21, v, 0x0183fc00);
    v := NextRound(block, 22, v, 0x12dcbfdb);
    v := NextRound(block, 23, v, 0xe2e2c38e);
  }

  lemma Rounds32(block: Block)
    requires IsAbc(block)
    ensures Rounds(START, block, 32) == Vars(0x73b33bf5, 0xea992a22, 0xa0060b30, 0x363482c9, 0xba591112, 0x0109ab3a, 0xade79437, 0x6112a3b7)
  {
    Rounds24(block);
    Words32(block);
    var v := Vars(0xc5d53d8d, 0xa7a3623f, 0xc2606d6d, 0x9dc68b63, 0xaa47c347, 0x49f5114a, 0xe1257970, 0x8ada8930);
    v := NextRound(block, 24, v, 0xc8215c1a);
    v := NextRound(block, 25, v, 0xb73679a2);
    v := NextRound(block, 26, v, 0xe5bc3909);
    v := NextRound(block, 27, v, 0x32663c5b);
    assert v == Vars(0x77d37528, 0xb62ec4bc, 0xcde8037d, 0x1c2c2838, 0xedffbff8, 0xc74c6516, 0x14383d8e, 0x2823ef91);
    v := NextRound(block, 28, v, 0x9d209d67);
    v := NextRound(block, 29, v, 0xec8726cb);
    v := NextRound(block, 30, v, 0x702138a4);
    v := NextRound(block, 31, v, 0xd3b7973b);
  }

  lemma Rounds40(block: Block)
    requires IsAbc(block)
    ensures Rounds(START, block, 40) == Vars(0x79ea687a, 0x6dc57a8a, 0x34df1604, 0x41a65cb1, 0x1efbc0a0, 0xf0781bc8, 0xa507a53d, 0x0772a26b)
  {
    Rounds32(block);
    Words40(block);
    var v := Vars(0x73b33bf5, 0xea992a22, 0xa0060b30, 0x363482c9, 0xba591112, 0x0109ab3a, 0xade79437, 0x6112a3b7);
    v := NextRound(block, 32, v, 0x93f5997f);
    v := NextRound(block, 33, v, 0x3b68ba73);
    v := NextRound(block, 34, v, 0xaff4ffc1);
    v := NextRound(block, 35, v, 0xf10a5c62);
    assert v == Vars(0x65a0cfe4, 0xa9a7738c, 0xfe604df5, 0x98e12507, 0xf4b002d6, 0x085f3833, 0x59249dd3, 0x9cd9f5f6);
    v := NextRound(block, 36, v, 0x0a8b3996);
    v := NextRound(block, 37, v, 0x72af830a);
    v := NextRound(block, 38, v, 0x9409e33e);
    v := NextRound(block, 39, v, 0x24641522);
  }

  lemma Rounds48(block: Block)
    requires IsAbc(block)
    ensures Rounds(START, block, 48) == Vars(0x4172328d, 0xa14c14b0, 0x72ab4b91, 0x26628815, 0xfecf0bc6, 0xd57b94a9, 0xb7755da1, 0xa80f11f0)
  {
    Rounds40(block);
    Words48(block);
    var v := Vars(0x79ea687a, 0x6dc57a8a, 0x34df1604, 0x41a65cb1, 0x1efbc0a0, 0xf0781bc8, 0xa507a53d, 0x0772a26b);
    v := NextRound(block, 40, v, 0x9f47bf94);
    v := NextRound(block, 41, v, 0xf0a64f5a);
    v := NextRound(block, 42, v, 0x3e246a79);
    v := NextRound(block, 43, v, 0x27333ba3);
    assert v == Vars(0x9d4baf93, 0x17aa0dfe, 0xdf46652f, 0xd6670766, 0xfda24c2e, 0xdecd4715, 0x838b2711, 0x26352d63);
    v := NextRound(block, 44, v, 0x0c4763f2);
    v := NextRound(block, 45, v, 0x840abf27);
    v := NextRound(block, 46, v, 0x7a290d5d);
    v := NextRound(block, 47, v, 0x065c43da);
  }

  lemma Rounds56(block: Block)
    requires IsAbc(block)
    ensures Rounds(START, block, 56) == Vars(0x38cc9913, 0x3ec45cdb, 0xf5702fdb, 0x101fd28f, 0x54cb266b, 0xe50e1b4f, 0x9f4787c3, 0x529e7d00)
  {
    Rounds48(block);
    Words56(block);
    var v := Vars(0x4172328d, 0xa14c14b0, 0x72ab4b91, 0x26628815, 0xfecf0bc6, 0xd57b94a9, 0xb7755da1, 0xa80f11f0);
    v := NextRound(block, 48, v, 0xfb3e89cb);
    v := NextRound(block, 49, v, 0xcc7617db);
    v := NextRound(block, 50, v, 0xb9e66c34);
    v := NextRound(block, 51, v, 0xa9993667);
    assert v == Vars(0x886e7a22, 0x7a0508a1, 0xf11bfaa8, 0x05757ceb, 0x49231c1e, 0x52f1ccf7, 0x6e5c390c, 0xbd714038);
    v := NextRound(block, 52, v, 0x84badedd);
    v := NextRound(block, 53, v, 0xc21462bc);
    v := NextRound(block, 54, v, 0x1487472c);
    v := NextRound(block, 55, v, 0xb20f7a99);
  }

  lemma Rounds64(block: Block)
    requires IsAbc(block)
    ensures Rounds(START, block, 64) == Vars(0x506e3058, 0xd39a2165, 0x04d24d6c, 0xb85e2ce9, 0x5ef50f24, 0xfb121210, 0x948d25b6, 0x961f4894)
  {
    Rounds56(block);
    Words64(block);
    var v := Vars(0x38cc9913, 0x3ec45cdb, 0xf5702fdb, 0x101fd28f, 0x54cb266b, 0xe50e1b4f, 0x9f4787c3, 0x529e7d00);
    v := NextRound(block, 56, v, 0xef57b9cd);
    v := NextRound(block, 57, v, 0xebe6b238);
    v := NextRound(block, 58, v, 0x9fe3095e);
    v := NextRound(block, 59, v, 0x78bc8d4b);
    v := NextRound(block, 60, v, 0xa43fcf15);
    v := NextRound(block, 61, v, 0x668b2ff8);
    v := NextRound(block, 62, v, 0xeeaba2cc);
    v := NextRound(block, 63, v, 0x12b1edeb);
  }

  // ----- the digest -----

  const DIGEST: string :=
    "ba7816bf" + "8f01cfea" + "414140de" + "5dae2223"
    + "b00361a3" + "96177a9c" + "b410ff61" + "f20015ad"

  /** The words of the digest. */
  predicate IsDigest(words: seq<Word>) {
    && |words| == 8
    && words[0] == 0xba7816bf && words[1] == 0x8f01cfea && words[2] == 0x414140de && words[3] == 0x5dae2223
    && words[4] == 0xb00361a3 && words[5] == 0x96177a9c && words[6] == 0xb410ff61 && words[7] == 0xf20015ad
  }

  lemma Compressed(block: Block)
    requires IsAbc(block)
    ensures IsDigest(Compress(InitialHash(), block))
  {
    Rounds64(block);
    var hash := InitialHash();
    assert Vars(hash[0], hash[1], hash[2], hash[3], hash[4], hash[5], hash[6], hash[7]) == START;
  }

  lemma OneBlock(block: Block)
    ensures Parse(block) == [block] && HashBlocks(Parse(block)) == Compress(InitialHash(), block)
  {
    var none: seq<Block> := [];
    assert block[..64] == block && |block[64..]| == 0;
    assert Parse(block[64..]) == none;
    assert Parse(block)[..0] == none && HashBlocks(none) == InitialHash();
  }

  lemma AbcWords(message: seq<Byte>)
    requires SaysAbc(message)
    ensures IsDigest(Sha256(message))
  {
    AbcIsPadded(message);
    Compressed(Pad(message));
    OneBlock(Pad(message));
  }

  lemma HexNext(words: seq<Word>, n: nat, w: Word, spelled: string)
    requires n < |words| && words[n] == w && HexWord(w) == spelled
    ensures Hex(words[..n + 1]) == Hex(words[..n]) + spelled
  {
    assert words[..n + 1][..n] == words[..n];
  }

  lemma HexTo2(words: seq<Word>)
    requires IsDigest(words)
    ensures Hex(words[..2]) == "ba7816bf" + "8f01cfea"
  {
    assert Hex(words[..0]) == "";
    HexNext(words, 0, 0xba7816bf, "ba7816bf");
    HexNext(words, 1, 0x8f01cfea, "8f01cfea");
  }

  lemma HexTo4(words: seq<Word>)
    requires IsDigest(words)
    ensures Hex(words[..4]) == "ba7816bf" + "8f01cfea" + "414140de" + "5dae2223"
  {
    HexTo2(words);
    HexNext(words, 2, 0x414140de, "414140de");
    HexNext(words, 3, 0x5dae2223, "5dae2223");
  }

  lemma HexTo6(words: seq<Word>)
    requires IsDigest(words)
    ensures Hex(words[..6]) == "ba7816bf" + "8f01cfea" + "414140de" + "5dae2223" + "b00361a3" + "96177a9c"
  {
    HexTo4(words);
    HexNext(words, 4, 0xb00361a3, "b00361a3");
    HexNext(words, 5, 0x96177a9c, "96177a9c");
  }

  lemma HexTo8(words: seq<Word>)
    requires IsDigest(words)
    ensures Hex(words[..8]) == DIGEST
  {
    HexTo6(words);
    HexNext(words, 6, 0xb410ff61, "b410ff61");
    HexNext(words, 7, 0xf20015ad, "f20015ad");
  }

  /** The digest of "abc" is the one that the standard gives. */
  lemma AbcDigest(message: seq<Byte>)
    requires SaysAbc(message)
    ensures Hex(Sha256(message)) == DIGEST
  {
    AbcWords(message);
    HexTo8(Sha256(message));
    assert Sha256(message)[..8] == Sha256(message);
  }
}
