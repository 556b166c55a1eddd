/**
 The bounded walk over a PCAPNG capture (`src/network_telemetry.rs`). A capture is a row of blocks
 (sections 3.1, 4.1 and 4.3 of draft-ietf-opsawg-pcapng); each section header fixes the byte order
 of the blocks behind it.
 */
module Pcapng {
  import opened Basics

  type Bytes = seq<u8>

  datatype PacketCounts = PacketCounts(packets: nat, truncated: bool)

  datatype Error = InvalidData | UnexpectedEof

  datatype Result = Ok(counts: PacketCounts) | Err(error: Error)

  // ----- one block -----

  function Word(first: int, second: int, third: int, fourth: int): int {
    first + 0x100 * second + 0x1_0000 * third + 0x100_0000 * fourth
  }

  /** The u32 at `at`. */
  function U32At(b: Bytes, at: nat, little: bool): (r: u32)
    requires at + 4 <= |b|
  {
    if little then Word(b[at], b[at + 1], b[at + 2], b[at + 3]) else Word(b[at + 3], b[at + 2], b[at + 1], b[at])
  }

  predicate IsSection(b: Bytes) {
    |b| >= 12 && b[0] == 0x0a && b[1] == 0x0d && b[2] == 0x0d && b[3] == 0x0a
  }

  predicate MarkedLittle(b: Bytes)
    requires |b| >= 12
  {
    b[8] == 0x4d && b[9] == 0x3c && b[10] == 0x2b && b[11] == 0x1a
  }

  predicate MarkedBig(b: Bytes)
    requires |b| >= 12
  {
    b[8] == 0x1a && b[9] == 0x2b && b[10] == 0x3c && b[11] == 0x4d
  }

  /** The byte order of a block that follows blocks in order `little`; only a section changes it. */
  function Order(b: Bytes, little: bool): bool {
    if IsSection(b) then MarkedLittle(b) else little
  }

  function PaddedLength(captured: nat): nat { (captured + 3) / 4 * 4 }

  predicate EnhancedPacket(kind: u32) { kind == 6 || kind == 2 }

  /** `b` is one whole block whose fields are read in byte order `little`. */
  predicate ValidBlock(b: Bytes, little: bool) {
    && |b| >= 12 && |b| % 4 == 0
    && U32At(b, 4, little) == |b| == U32At(b, |b| - 4, little)
    && (IsSection(b) ==> |b| >= 28 && (MarkedLittle(b) || MarkedBig(b)))
    && var kind := U32At(b, 0, little);
    && (EnhancedPacket(kind) ==>
          |b| >= 32 && U32At(b, 20, little) <= U32At(b, 24, little) && PaddedLength(U32At(b, 20, little)) <= |b| - 32)
    && (kind == 3 ==> |b| >= 16)
  }

  /** A packet block, and whether less of the packet was kept than was seen. */
  function CountsOf(b: Bytes, little: bool): PacketCounts
    requires ValidBlock(b, little)
  {
    var kind := U32At(b, 0, little);
    if EnhancedPacket(kind) then PacketCounts(1, U32At(b, 20, little) < U32At(b, 24, little))
    else if kind == 3 then PacketCounts(1, U32At(b, 8, little) > |b| - 16)
    else PacketCounts(0, false)
  }

  function Add(a: PacketCounts, b: PacketCounts): PacketCounts {
    PacketCounts(a.packets + b.packets, a.truncated || b.truncated)
  }

  // ----- a row of blocks -----

  function Flatten(blocks: seq<Bytes>): Bytes {
    if blocks == [] then [] else blocks[0] + Flatten(blocks[1..])
  }

  predicate Wellformed(blocks: seq<Bytes>, little: bool) {
    blocks == [] || (ValidBlock(blocks[0], Order(blocks[0], little)) && Wellformed(blocks[1..], Order(blocks[0], little)))
  }

  function Counts(blocks: seq<Bytes>, little: bool): PacketCounts
    requires Wellformed(blocks, little)
  {
    if blocks == [] then PacketCounts(0, false)
    else
      var order := Order(blocks[0], little);
      Add(CountsOf(blocks[0], order), Counts(blocks[1..], order))
  }

  /** The blocks of a capture: they tile the bytes, and the first one is a section header. */
  predicate Tiles(blocks: seq<Bytes>, bytes: Bytes) {
    blocks != [] && IsSection(blocks[0]) && Wellformed(blocks, true) && Flatten(blocks) == bytes
  }

  // ----- reading block by block -----

  /** Whether the bytes begin with a whole block, by the length that its header gives. */
  predicate StartsWithBlock(bytes: Bytes, little: bool) {
    |bytes| >= 12 && U32At(bytes, 4, Order(bytes, little)) <= |bytes|
    && ValidBlock(bytes[..U32At(bytes, 4, Order(bytes, little))], Order(bytes, little))
  }

  function WithAhead(counts: PacketCounts, ahead: Option<PacketCounts>): Option<PacketCounts> {
    match ahead
    case None => None
    case Some(c) => Some(Add(counts, c))
  }

  function Parse(bytes: Bytes, little: bool): Option<PacketCounts>
    decreases |bytes|
  {
    if bytes == [] then Some(PacketCounts(0, false))
    else if !StartsWithBlock(bytes, little) then None
    else
      var order := Order(bytes, little);
      var length := U32At(bytes, 4, order);
      WithAhead(CountsOf(bytes[..length], order), Parse(bytes[length..], order))
  }

  lemma SameHeader(block: Bytes, rest: Bytes, little: bool)
    requires |block| >= 12
    ensures Order(block + rest, little) == Order(block, little)
    ensures U32At(block + rest, 4, little) == U32At(block, 4, little)
  {}

  lemma BlockFirst(block: Bytes, rest: Bytes, little: bool)
    requires ValidBlock(block, Order(block, little))
    ensures StartsWithBlock(block + rest, little) && Order(block + rest, little) == Order(block, little)
    ensures U32At(block + rest, 4, Order(block, little)) == |block|
    ensures (block + rest)[..|block|] == block && (block + rest)[|block|..] == rest
  {
    SameHeader(block, rest, little);
    SameHeader(block, rest, Order(block, little));
    assert (block + rest)[..|block|] == block;
  }

  lemma {:induction false} ParseOfTiling(blocks: seq<Bytes>, little: bool)
    requires Wellformed(blocks, little)
    ensures Parse(Flatten(blocks), little) == Some(Counts(blocks, little))
  {
    if blocks != [] {
      var rest := Flatten(blocks[1..]);
      BlockFirst(blocks[0], rest, little);
      ParseOfTiling(blocks[1..], Order(blocks[0], little));
      assert blocks[0] + rest != [];
    }
  }

  lemma FirstOfParse(bytes: Bytes, little: bool) returns (block: Bytes, rest: Bytes)
    requires bytes != [] && Parse(bytes, little).Some?
    ensures bytes == block + rest && |rest| < |bytes|
    ensures ValidBlock(block, Order(block, little)) && Parse(rest, Order(block, little)).Some?
    ensures Order(block, little) == Order(bytes, little)
  {
    var length := U32At(bytes, 4, Order(bytes, little));
    block, rest := bytes[..length], bytes[length..];
    assert block + rest == bytes;
    SameHeader(block, rest, little);
  }

  lemma {:induction false} TilingOfParse(bytes: Bytes, little: bool) returns (blocks: seq<Bytes>)
    requires Parse(bytes, little).Some?
    ensures Wellformed(blocks, little) && Flatten(blocks) == bytes
    decreases |bytes|
  {
    if bytes == [] {
      blocks := [];
    } else {
      var block, rest := FirstOfParse(bytes, little);
      var others := TilingOfParse(rest, Order(block, little));
      blocks := [block] + others;
      assert blocks[1..] == others;
    }
  }

  // ----- tilings are unique, cuts and concatenations -----

  /** Where one row of blocks is the beginning of another one, it is so block by block. */
  lemma {:induction false} PrefixTiling(a: seq<Bytes>, b: seq<Bytes>, little: bool)
    requires Wellformed(a, little) && Wellformed(b, little) && Flatten(a) <= Flatten(b)
    ensures a <= b
    decreases |a|
  {
    if a != [] {
      var x, y := Flatten(a[1..]), Flatten(b[1..]);
      BlockFirst(a[0], x, little);
      BlockFirst(b[0], y, little);
      SamePrefixHeader(a[0] + x, b[0] + y, little);
      assert a[0] == (b[0] + y)[..|a[0]|];
      assert x == (a[0] + x)[|a[0]|..] <= (b[0] + y)[|a[0]|..] == y;
      PrefixTiling(a[1..], b[1..], Order(a[0], little));
      assert a == [a[0]] + a[1..] && b == [b[0]] + b[1..];
    }
  }

  lemma SamePrefixHeader(short: Bytes, long: Bytes, little: bool)
    requires 12 <= |short| && short <= long
    ensures Order(short, little) == Order(long, little)
    ensures forall order :: U32At(short, 4, order) == U32At(long, 4, order)
  {}

  lemma TilingIsUnique(a: seq<Bytes>, b: seq<Bytes>, bytes: Bytes)
    requires Tiles(a, bytes) && Tiles(b, bytes)
    ensures a == b
  {
    PrefixTiling(a, b, true);
    PrefixTiling(b, a, true);
  }

  /** What the walk accepts: the blocks of a capture no larger than the limit. */
  ghost predicate Accepts(bytes: Bytes, limit: nat) {
    |bytes| <= limit && exists blocks :: Tiles(blocks, bytes)
  }

  lemma {:induction false} FlattenAppend(a: seq<Bytes>, b: seq<Bytes>)
    ensures Flatten(a + b) == Flatten(a) + Flatten(b)
  {
    if a == [] {
      assert a + b == b;
    } else {
      assert (a + b)[1..] == a[1..] + b;
      FlattenAppend(a[1..], b);
    }
  }

  lemma {:induction false} WellformedPrefix(blocks: seq<Bytes>, k: nat, little: bool)
    requires Wellformed(blocks, little) && k <= |blocks|
    ensures Wellformed(blocks[..k], little)
    decreases k
  {
    if k > 0 {
      WellformedPrefix(blocks[1..], k - 1, Order(blocks[0], little));
      assert blocks[..k][1..] == blocks[1..][..k - 1];
    }
  }

  /** A capture that is cut short is still accepted exactly when it is cut between two blocks. */
  lemma CutIsAcceptedAtBoundaries(blocks: seq<Bytes>, bytes: Bytes, cut: nat, limit: nat)
    requires Tiles(blocks, bytes) && |bytes| <= limit && cut <= |bytes|
    ensures Accepts(bytes[..cut], limit) <==> exists k :: 0 < k <= |blocks| && cut == |Flatten(blocks[..k])|
  {
    if Accepts(bytes[..cut], limit) {
      var part :| Tiles(part, bytes[..cut]);
      PrefixTiling(part, blocks, true);
      assert part == blocks[..|part|];
      assert cut == |Flatten(blocks[..|part|])|;
    }
    forall k | 0 < k <= |blocks| && cut == |Flatten(blocks[..k])|
      ensures Accepts(bytes[..cut], limit)
    {
      WellformedPrefix(blocks, k, true);
      FlattenAppend(blocks[..k], blocks[k..]);
      assert blocks[..k] + blocks[k..] == blocks;
      assert Flatten(blocks[..k]) == bytes[..cut];
      assert Tiles(blocks[..k], bytes[..cut]);
    }
  }

  /** A second capture brings its own byte order, whatever the first one ended in. */
  lemma {:induction false} WellformedAppend(a: seq<Bytes>, b: seq<Bytes>, little: bool)
    requires Wellformed(a, little) && Wellformed(b, true) && b != [] && IsSection(b[0])
    ensures Wellformed(a + b, little)
  {
    if a == [] {
      assert a + b == b;
      assert Order(b[0], little) == Order(b[0], true);
    } else {
      assert (a + b)[1..] == a[1..] + b;
      WellformedAppend(a[1..], b, Order(a[0], little));
    }
  }

  lemma CountsStep(blocks: seq<Bytes>, first: Bytes, rest: seq<Bytes>, little: bool)
    requires blocks == [first] + rest && Wellformed(blocks, little)
    ensures var order := Order(first, little);
            && ValidBlock(first, order) && Wellformed(rest, order)
            && Counts(blocks, little) == Add(CountsOf(first, order), Counts(rest, order))
  {
    assert blocks[1..] == rest;
  }

  lemma {:induction false} CountsAppend(a: seq<Bytes>, b: seq<Bytes>, both: seq<Bytes>, little: bool)
    requires both == a + b && Wellformed(a, little) && Wellformed(both, little)
    requires Wellformed(b, true) && b != [] && IsSection(b[0])
    ensures Counts(both, little) == Add(Counts(a, little), Counts(b, true))
    decreases |a|
  {
    if a == [] {
      assert both == b;
      SectionResetsOrder(b, little);
    } else {
      var order, first, rest, bothRest := Order(a[0], little), a[0], a[1..], both[1..];
      assert a == [first] + rest && both == [first] + bothRest && bothRest == rest + b;
      CountsStep(a, first, rest, little);
      CountsStep(both, first, bothRest, little);
      CountsAppend(rest, b, bothRest, order);
      AddStep(Counts(both, little), Counts(a, little), Counts(bothRest, order), Counts(rest, order), Counts(b, true),
              CountsOf(first, order));
    }
  }

  lemma SectionResetsOrder(b: seq<Bytes>, little: bool)
    requires b != [] && IsSection(b[0]) && Wellformed(b, true)
    ensures Wellformed(b, little) && Counts(b, little) == Counts(b, true)
  {
    assert Order(b[0], little) == Order(b[0], true);
  }

  lemma AddStep(all: PacketCounts, left: PacketCounts, rest: PacketCounts, leftRest: PacketCounts, right: PacketCounts,
                first: PacketCounts)
    requires all == Add(first, rest) && left == Add(first, leftRest) && rest == Add(leftRest, right)
    ensures all == Add(left, right)
  {}

  lemma ConcatenationTiles(x: seq<Bytes>, y: seq<Bytes>, a: Bytes, b: Bytes)
    requires Tiles(x, a) && Tiles(y, b)
    ensures Tiles(x + y, a + b)
    ensures Counts(x + y, true) == Add(Counts(x, true), Counts(y, true))
  {
    WellformedAppend(x, y, true);
    CountsAppend(x, y, x + y, true);
    FlattenAppend(x, y);
  }

  /** Captures written one behind the other make a capture, */
  lemma ConcatenationIsAccepted(a: Bytes, b: Bytes, limit: nat)
    requires Accepts(a, limit) && Accepts(b, limit) && |a| + |b| <= limit
    ensures Accepts(a + b, limit)
  {
    var x :| Tiles(x, a);
    var y :| Tiles(y, b);
    ConcatenationTiles(x, y, a, b);
    TiledIsAccepted(x + y, a + b, limit);
  }

  lemma TiledIsAccepted(blocks: seq<Bytes>, bytes: Bytes, limit: nat)
    requires Tiles(blocks, bytes) && |bytes| <= limit
    ensures Accepts(bytes, limit)
  {}

  /** and their counts add up. */
  lemma ConcatenationAdds(a: Bytes, b: Bytes, x: seq<Bytes>, y: seq<Bytes>, z: seq<Bytes>)
    requires Tiles(x, a) && Tiles(y, b) && Tiles(z, a + b)
    ensures Counts(z, true) == Add(Counts(x, true), Counts(y, true))
  {
    ConcatenationTiles(x, y, a, b);
    TilingIsUnique(x + y, z, a + b);
  }

  // ----- the walk -----

  datatype Step = Next(order: bool, length: nat, found: PacketCounts) | Stop(error: Error)

  lemma FieldAt(bytes: Bytes, offset: nat, length: nat, at: nat, little: bool)
    requires offset + length <= |bytes| && at + 4 <= length
    ensures U32At(bytes, offset + at, little) == U32At(bytes[offset..][..length], at, little)
    ensures U32At(bytes, offset + at, little) == U32At(bytes[offset..], at, little)
  {
    assert bytes[offset..][..length] == bytes[offset..offset + length];
  }

  /** `step` says what block the rest of the file begins with. */
  predicate StepIs(step: Step, rest: Bytes, first: bool, little: bool) {
    && (step.Next? <==> StartsWithBlock(rest, little) && (first ==> IsSection(rest)))
    && (step.Next? ==>
          && step.order == Order(rest, little) && step.length == U32At(rest, 4, step.order)
          && step.found == CountsOf(rest[..step.length], step.order))
    && (step == Stop(UnexpectedEof) <==> |rest| < 12)
  }

  /** One round of the loop: the checks on the block at `offset`. */
  method ReadBlock(bytes: Bytes, offset: nat, little: bool) returns (step: Step)
    requires offset < |bytes|
    ensures StepIs(step, bytes[offset..], offset == 0, little)
  {
    var size := |bytes|;
    if size - offset < 12 {
      return Stop(UnexpectedEof);
    }
    ghost var rest := bytes[offset..];
    var header := bytes[offset..offset + 12];
    assert header == rest[..12];
    var section := IsSection(header);
    if offset == 0 && !section {
      return Stop(InvalidData);
    }
    var order := little;
    if section {
      if !MarkedLittle(header) && !MarkedBig(header) {
        NoBlock(rest, little);
        return Stop(InvalidData);
      }
      order := MarkedLittle(header);
    }
    assert order == Order(rest, little);
    var length := U32At(header, 4, order);
    assert U32At(rest, 4, order) == length;
    if length < 12 || length % 4 != 0 || length > size - offset {
      return Stop(InvalidData);
    }
    if section && length < 28 {
      return Stop(InvalidData);
    }
    step := ReadFields(bytes, offset, length, order);
  }

  /** The checks on the fields of one block, once its length is known. */
  method ReadFields(bytes: Bytes, offset: nat, length: nat, order: bool) returns (step: Step)
    requires 12 <= length && offset + length <= |bytes| && length % 4 == 0
    requires var block := bytes[offset..][..length];
             && U32At(block, 4, order) == length
             && (IsSection(block) ==> length >= 28 && (MarkedLittle(block) || MarkedBig(block)))
    ensures var block := bytes[offset..][..length];
            && step != Stop(UnexpectedEof)
            && (step.Next? <==> ValidBlock(block, order))
            && (step.Next? ==> step == Next(order, length, CountsOf(block, order)))
  {
    var kind := U32At(bytes, offset, order);
    FieldAt(bytes, offset, length, 0, order);
    var found := PacketCounts(0, false);
    if kind == 6 || kind == 2 {
      if length < 32 {
        return Stop(InvalidData);
      }
      var captured := U32At(bytes, offset + 20, order);
      var original := U32At(bytes, offset + 24, order);
      FieldAt(bytes, offset, length, 20, order);
      FieldAt(bytes, offset, length, 24, order);
      if captured > original || (captured + 3) / 4 * 4 > length - 32 {
        return Stop(InvalidData);
      }
      found := PacketCounts(1, captured < original);
    } else if kind == 3 {
      if length < 16 {
        return Stop(InvalidData);
      }
      FieldAt(bytes, offset, length, 8, order);
      found := PacketCounts(1, U32At(bytes, offset + 8, order) > length - 16);
    }
    var trailer := U32At(bytes, offset + length - 4, order);
    FieldAt(bytes, offset, length, length - 4, order);
    if trailer != length {
      return Stop(InvalidData);
    }
    step := Next(order, length, found);
  }

  /** A section whose byte order mark is neither of the two starts no block. */
  lemma NoBlock(rest: Bytes, little: bool)
    requires IsSection(rest) && !MarkedLittle(rest) && !MarkedBig(rest)
    ensures !StartsWithBlock(rest, little)
  {
    var length := U32At(rest, 4, Order(rest, little));
    if 12 <= length <= |rest| {
      assert IsSection(rest[..length]);
    }
  }

  type Outlook = (int, bool) -> Option<PacketCounts>

  /** `ahead(offset, little)` is what reading on from `offset` comes to. */
  ghost predicate IsOutlook(bytes: Bytes, ahead: Outlook) {
    forall offset, little {:trigger Parse(bytes[offset..], little)} :: 0 <= offset <= |bytes| ==>
      ahead(offset, little) == Parse(bytes[offset..], little)
  }

  /** What the rounds of the loop have to come to. */
  predicate Concludes(bytes: Bytes, limit: nat, whole: Option<PacketCounts>, r: Result) {
    && (r.Ok? <==> 28 <= |bytes| <= limit && IsSection(bytes) && whole.Some?)
    && (r.Ok? ==> whole == Some(r.counts))
  }

  lemma OutlookAtEnd(bytes: Bytes, ahead: Outlook, little: bool)
    requires IsOutlook(bytes, ahead)
    ensures ahead(|bytes|, little) == Some(PacketCounts(0, false))
  {
    assert ahead(|bytes|, little) == Parse(bytes[|bytes|..], little);
  }

  lemma OutlookOfStep(bytes: Bytes, ahead: Outlook, offset: nat, little: bool, step: Step)
    requires IsOutlook(bytes, ahead) && offset < |bytes| && StepIs(step, bytes[offset..], offset == 0, little)
    ensures step.Stop? ==> (offset == 0 && !IsSection(bytes)) || ahead(offset, little) == None
    ensures step.Next? ==> 0 < step.length && offset + step.length <= |bytes| && (offset == 0 ==> IsSection(bytes))
    ensures step.Next? ==> ahead(offset, little) == WithAhead(step.found, ahead(offset + step.length, step.order))
  {
    var rest := bytes[offset..];
    assert ahead(offset, little) == Parse(rest, little);
    if offset == 0 { assert rest == bytes; }
    if step.Next? {
      assert rest[step.length..] == bytes[offset + step.length..];
    }
  }

  /** One round of the loop. */
  method Advance(bytes: Bytes, offset: nat, little: bool, ghost ahead: Outlook) returns (step: Step)
    requires IsOutlook(bytes, ahead) && offset < |bytes|
    ensures step.Stop? ==> (offset == 0 && !IsSection(bytes)) || ahead(offset, little) == None
    ensures step.Next? ==> 0 < step.length && offset + step.length <= |bytes| && (offset == 0 ==> IsSection(bytes))
    ensures step.Next? ==> ahead(offset, little) == WithAhead(step.found, ahead(offset + step.length, step.order))
  {
    step := ReadBlock(bytes, offset, little);
    OutlookOfStep(bytes, ahead, offset, little, step);
  }

  lemma AddAhead(counts: PacketCounts, found: PacketCounts, ahead: Option<PacketCounts>)
    ensures WithAhead(counts, WithAhead(found, ahead)) == WithAhead(Add(counts, found), ahead)
  {}

  method Walk(bytes: Bytes, limit: nat, ghost ahead: Outlook) returns (r: Result)
    requires IsOutlook(bytes, ahead)
    ensures Concludes(bytes, limit, ahead(0, true), r)
  {
    var size := |bytes|;
    if size > limit || size < 28 {
      return Err(InvalidData);
    }
    var counts := PacketCounts(0, false);
    var offset := 0;
    var little := true;
    while offset < size
      invariant 0 <= offset <= size && (offset > 0 ==> IsSection(bytes))
      invariant WithAhead(counts, ahead(offset, little)) == ahead(0, true)
    {
      var step := Advance(bytes, offset, little, ahead);
      if step.Stop? {
        return Err(step.error);
      }
      AddAhead(counts, step.found, ahead(offset + step.length, step.order));
      counts := Add(counts, step.found);
      little := step.order;
      offset := offset + step.length;
    }
    OutlookAtEnd(bytes, ahead, little);
    return Ok(counts);
  }

  /** The counts of the one tiling there is, or the news that there is none within the limit. */
  ghost predicate IsVerdict(bytes: Bytes, limit: nat, r: Result) {
    && (r.Ok? <==> Accepts(bytes, limit))
    && (r.Ok? ==> forall blocks :: Tiles(blocks, bytes) ==> r.counts == Counts(blocks, true))
  }

  lemma TiledIsLong(blocks: seq<Bytes>, bytes: Bytes)
    requires Tiles(blocks, bytes)
    ensures |bytes| >= 28 && IsSection(bytes) && Parse(bytes, true) == Some(Counts(blocks, true))
  {
    ParseOfTiling(blocks, true);
    assert Flatten(blocks) == blocks[0] + Flatten(blocks[1..]);
  }

  lemma TilingOfSection(bytes: Bytes) returns (blocks: seq<Bytes>)
    requires IsSection(bytes) && Parse(bytes, true).Some?
    ensures Tiles(blocks, bytes)
  {
    blocks := TilingOfParse(bytes, true);
  }

  lemma Verdict(bytes: Bytes, limit: nat, r: Result)
    requires Concludes(bytes, limit, Parse(bytes, true), r)
    ensures IsVerdict(bytes, limit, r)
  {
    if r.Ok? {
      var blocks := TilingOfSection(bytes);
    }
    forall blocks | Tiles(blocks, bytes)
      ensures r.Ok? == (|bytes| <= limit) && (r.Ok? ==> r.counts == Counts(blocks, true))
    {
      TiledIsLong(blocks, bytes);
    }
  }

  ghost function OutlookOf(bytes: Bytes): (ahead: Outlook)
    ensures IsOutlook(bytes, ahead)
  {
    (offset, little) => if 0 <= offset <= |bytes| then Parse(bytes[offset..], little) else None
  }

  method PcapngCounts(bytes: Bytes, limit: nat) returns (r: Result)
    ensures IsVerdict(bytes, limit, r)
  {
    assert bytes[0..] == bytes;
    assert OutlookOf(bytes)(0, true) == Parse(bytes[0..], true);
    r := Walk(bytes, limit, OutlookOf(bytes));
    Verdict(bytes, limit, r);
  }
}
