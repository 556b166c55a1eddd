/**
 Captures as draft-ietf-opsawg-pcapng has them written, in either byte order: a section header and
 enhanced packet blocks. What `Pcapng` accepts and counts is measured against them.
 */
module PcapngWriter {
  import opened Basics
  import opened Pcapng

  /** A packet as it was captured, and its length on the wire. */
  datatype Packet = Packet(data: Bytes, original: u32)

  function Field(n: u32, little: bool): (b: Bytes)
    ensures |b| == 4
  {
    if little then [n % 0x100, n / 0x100 % 0x100, n / 0x1_0000 % 0x100, n / 0x100_0000]
    else [n / 0x100_0000, n / 0x1_0000 % 0x100, n / 0x100 % 0x100, n % 0x100]
  }

  lemma FieldReads(before: Bytes, n: u32, little: bool, behind: Bytes)
    ensures U32At(before + Field(n, little) + behind, |before|, little) == n
  {
    var b := before + Field(n, little) + behind;
    forall i | 0 <= i < 4 ensures b[|before| + i] == Field(n, little)[i] {}
    assert b[|before| + 0] == Field(n, little)[0];
    BytesMakeUp(n);
  }

  lemma BytesMakeUp(n: u32)
    ensures Word(n % 0x100, n / 0x100 % 0x100, n / 0x1_0000 % 0x100, n / 0x100_0000) == n
  {
    assert n / 0x1_0000 == n / 0x100 / 0x100 && n / 0x100_0000 == n / 0x100 / 0x100 / 0x100;
  }

  function Fill(n: nat): (b: Bytes)
    ensures |b| == n
  {
    seq(n, _ => 0)
  }

  /** Version and section length are not looked at. */
  type Rest = b: Bytes | |b| == 12 witness Fill(12)

  function SectionHeader(rest: Rest, little: bool): (b: Bytes)
    ensures |b| == 28
  {
    Field(0x0a0d_0d0a, little) + Field(28, little) + Field(0x1a2b_3c4d, little) + rest + Field(28, little)
  }

  lemma SectionFields(rest: Rest, little: bool)
    ensures var b := SectionHeader(rest, little);
            U32At(b, 0, little) == 0x0a0d_0d0a && U32At(b, 4, little) == 28 && U32At(b, 24, little) == 28
  {
    var b := SectionHeader(rest, little);
    var kind, length, mark := Field(0x0a0d_0d0a, little), Field(28, little), Field(0x1a2b_3c4d, little);
    var behind := mark + rest + length;
    assert b == kind + length + behind && b == [] + kind + (length + behind);
    FieldReads([], 0x0a0d_0d0a, little, length + behind);
    FieldReads(kind, 28, little, behind);
    var before := kind + length + mark + rest;
    assert b == before + length + [];
    FieldReads(before, 28, little, []);
  }

  lemma SectionMarks(rest: Rest, little: bool)
    ensures var b := SectionHeader(rest, little);
            IsSection(b) && (MarkedLittle(b) <==> little) && (MarkedBig(b) <==> !little)
  {
    var b := SectionHeader(rest, little);
    var kind, mark := Field(0x0a0d_0d0a, little), Field(0x1a2b_3c4d, little);
    MarksStand(kind, Field(28, little), mark, rest + Field(28, little));
    assert b == kind + Field(28, little) + mark + (rest + Field(28, little));
    if little { LittleMarks(); } else { BigMarks(); }
  }

  lemma MarksStand(kind: Bytes, length: Bytes, mark: Bytes, behind: Bytes)
    requires |kind| == |length| == |mark| == 4
    ensures var b := kind + length + mark + behind;
            && b[0] == kind[0] && b[1] == kind[1] && b[2] == kind[2] && b[3] == kind[3]
            && b[8] == mark[0] && b[9] == mark[1] && b[10] == mark[2] && b[11] == mark[3]
  {}

  lemma LittleMarks()
    ensures Field(0x0a0d_0d0a, true) == [0x0a, 0x0d, 0x0d, 0x0a] && Field(0x1a2b_3c4d, true) == [0x4d, 0x3c, 0x2b, 0x1a]
  {}

  lemma BigMarks()
    ensures Field(0x0a0d_0d0a, false) == [0x0a, 0x0d, 0x0d, 0x0a] && Field(0x1a2b_3c4d, false) == [0x1a, 0x2b, 0x3c, 0x4d]
  {}

  lemma MarksMakeBlock(b: Bytes, little: bool)
    requires |b| == 28 && IsSection(b) && (MarkedLittle(b) <==> little) && (MarkedBig(b) <==> !little)
    requires U32At(b, 0, little) == 0x0a0d_0d0a && U32At(b, 4, little) == 28 == U32At(b, 24, little)
    ensures Order(b, little) == little && Order(b, !little) == little
    ensures ValidBlock(b, little) && CountsOf(b, little) == PacketCounts(0, false)
  {}

  lemma SectionHeaderIsBlock(rest: Rest, little: bool)
    ensures var b := SectionHeader(rest, little);
            IsSection(b) && Order(b, little) == little && Order(b, !little) == little
            && ValidBlock(b, little) && CountsOf(b, little) == PacketCounts(0, false)
  {
    SectionFields(rest, little);
    SectionMarks(rest, little);
    MarksMakeBlock(SectionHeader(rest, little), little);
  }

  predicate Writable(p: Packet) {
    |p.data| <= p.original && 32 + PaddedLength(|p.data|) <= U32_MAX
  }

  function BlockLength(p: Packet): (n: u32)
    requires Writable(p)
  {
    32 + PaddedLength(|p.data|)
  }

  /** Interface and time are not looked at. */
  function PacketHead(p: Packet, rest: Rest, little: bool): (b: Bytes)
    requires Writable(p)
    ensures |b| == 28
  {
    Field(6, little) + Field(BlockLength(p), little) + rest + Field(|p.data|, little) + Field(p.original, little)
  }

  function PacketBlock(p: Packet, rest: Rest, little: bool): (b: Bytes)
    requires Writable(p)
    ensures |b| == BlockLength(p)
  {
    PacketHead(p, rest, little) + (p.data + Fill(PaddedLength(|p.data|) - |p.data|)) + Field(BlockLength(p), little)
  }

  lemma FieldStands(b: Bytes, before: Bytes, n: u32, little: bool, behind: Bytes)
    requires b == before + Field(n, little) + behind
    ensures U32At(b, |before|, little) == n
  {
    FieldReads(before, n, little, behind);
  }

  lemma FrontFields(p: Packet, rest: Rest, little: bool)
    requires Writable(p)
    ensures var b := PacketHead(p, rest, little); U32At(b, 0, little) == 6 && U32At(b, 4, little) == BlockLength(p)
  {
    var b := PacketHead(p, rest, little);
    var kind, length := Field(6, little), Field(BlockLength(p), little);
    var behind := rest + Field(|p.data|, little) + Field(p.original, little);
    assert b == kind + length + behind && b == [] + kind + (length + behind);
    FieldStands(b, [], 6, little, length + behind);
    FieldStands(b, kind, BlockLength(p), little, behind);
  }

  lemma LengthFields(p: Packet, rest: Rest, little: bool)
    requires Writable(p)
    ensures var b := PacketHead(p, rest, little); U32At(b, 20, little) == |p.data| && U32At(b, 24, little) == p.original
  {
    var b := PacketHead(p, rest, little);
    var before := Field(6, little) + Field(BlockLength(p), little) + rest;
    var captured, original := Field(|p.data|, little), Field(p.original, little);
    assert b == before + captured + original && b == (before + captured) + original + [];
    FieldStands(b, before, |p.data|, little, original);
    FieldStands(b, before + captured, p.original, little, []);
  }

  lemma InFront(head: Bytes, behind: Bytes, at: nat, little: bool)
    requires at + 4 <= |head|
    ensures U32At(head + behind, at, little) == U32At(head, at, little)
  {}

  lemma PacketBlockFields(p: Packet, rest: Rest, little: bool)
    requires Writable(p)
    ensures var b := PacketBlock(p, rest, little);
            && U32At(b, 0, little) == 6 && U32At(b, 4, little) == BlockLength(p) == U32At(b, |b| - 4, little)
            && U32At(b, 20, little) == |p.data| && U32At(b, 24, little) == p.original
  {
    var b, head := PacketBlock(p, rest, little), PacketHead(p, rest, little);
    var body, length := p.data + Fill(PaddedLength(|p.data|) - |p.data|), Field(BlockLength(p), little);
    FrontFields(p, rest, little);
    LengthFields(p, rest, little);
    assert b == head + (body + length) && b == (head + body) + length + [];
    InFront(head, body + length, 0, little);
    InFront(head, body + length, 4, little);
    InFront(head, body + length, 20, little);
    InFront(head, body + length, 24, little);
    FieldStands(b, head + body, BlockLength(p), little, []);
  }

  lemma PacketIsNoSection(b: Bytes, little: bool)
    requires |b| >= 4 && U32At(b, 0, little) == 6
    ensures !IsSection(b)
  {}

  lemma BlockLengthIsWhole(p: Packet)
    requires Writable(p)
    ensures BlockLength(p) % 4 == 0 && PaddedLength(|p.data|) == BlockLength(p) - 32
  {}

  lemma FieldsMakeBlock(b: Bytes, little: bool, captured: u32, original: u32)
    requires |b| >= 32 && |b| % 4 == 0 && !IsSection(b) && captured <= original && PaddedLength(captured) <= |b| - 32
    requires U32At(b, 0, little) == 6 && U32At(b, 4, little) == |b| == U32At(b, |b| - 4, little)
    requires U32At(b, 20, little) == captured && U32At(b, 24, little) == original
    ensures ValidBlock(b, little) && CountsOf(b, little) == PacketCounts(1, captured < original)
  {}

  lemma PacketBlockIsBlock(p: Packet, rest: Rest, little: bool)
    requires Writable(p)
    ensures var b := PacketBlock(p, rest, little);
            && !IsSection(b) && ValidBlock(b, little)
            && CountsOf(b, little) == PacketCounts(1, |p.data| < p.original)
  {
    var b := PacketBlock(p, rest, little);
    PacketBlockFields(p, rest, little);
    PacketIsNoSection(b, little);
    BlockLengthIsWhole(p);
    FieldsMakeBlock(b, little, |p.data|, p.original);
  }

  // ----- whole captures -----

  datatype Record = Record(packet: Packet, rest: Rest)

  predicate AllWritable(records: seq<Record>) {
    forall r :: r in records ==> Writable(r.packet)
  }

  function PacketBlocks(records: seq<Record>, little: bool): (blocks: seq<Bytes>)
    requires AllWritable(records)
    ensures |blocks| == |records|
  {
    if records == [] then [] else [PacketBlock(records[0].packet, records[0].rest, little)] + PacketBlocks(records[1..], little)
  }

  predicate SomeTruncated(records: seq<Record>) {
    exists r :: r in records && |r.packet.data| < r.packet.original
  }

  lemma {:induction false} PacketBlocksCount(records: seq<Record>, little: bool)
    requires AllWritable(records)
    ensures Wellformed(PacketBlocks(records, little), little)
    ensures Counts(PacketBlocks(records, little), little) == PacketCounts(|records|, SomeTruncated(records))
  {
    if records != [] {
      var first := records[0];
      PacketBlockIsBlock(first.packet, first.rest, little);
      PacketBlocksCount(records[1..], little);
      assert records == [first] + records[1..];
    }
  }

  function Capture(records: seq<Record>, rest: Rest, little: bool): Bytes
    requires AllWritable(records)
  {
    SectionHeader(rest, little) + Flatten(PacketBlocks(records, little))
  }

  /** A written capture is accepted if and only if it is within the limit, whatever the byte order. */
  lemma WrittenIsAccepted(records: seq<Record>, rest: Rest, little: bool, limit: nat)
    requires AllWritable(records)
    ensures Accepts(Capture(records, rest, little), limit) <==> |Capture(records, rest, little)| <= limit
  {
    CaptureTiles(records, rest, little);
  }

  /** And its packets are counted, and that one of them was cut is noticed. */
  lemma WrittenIsCounted(records: seq<Record>, rest: Rest, little: bool, blocks: seq<Bytes>)
    requires AllWritable(records) && Tiles(blocks, Capture(records, rest, little))
    ensures Counts(blocks, true) == PacketCounts(|records|, SomeTruncated(records))
  {
    CaptureTiles(records, rest, little);
    TilingIsUnique(blocks, [SectionHeader(rest, little)] + PacketBlocks(records, little), Capture(records, rest, little));
  }

  lemma CaptureTiles(records: seq<Record>, rest: Rest, little: bool)
    requires AllWritable(records)
    ensures var blocks := [SectionHeader(rest, little)] + PacketBlocks(records, little);
            && Tiles(blocks, Capture(records, rest, little))
            && Counts(blocks, true) == PacketCounts(|records|, SomeTruncated(records))
  {
    SectionHeaderIsBlock(rest, little);
    PacketBlocksCount(records, little);
    var blocks := [SectionHeader(rest, little)] + PacketBlocks(records, little);
    assert blocks[1..] == PacketBlocks(records, little);
    assert Order(blocks[0], true) == little;
  }
}
