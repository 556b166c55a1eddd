/**
 Which process sent a packet (`summarize_network` in `src/report_analysis/detection.rs`): packets are
 matched with network events by five-tuple and clock window, through an index and within a budget.
 */
module PacketCorrelation {
  import opened Basics
  import opened Ordering
  import opened NetworkFlows

  // ----- events -----

  datatype NetworkEvent = NetworkEvent(
    captureEpochMs: Option<u64>, observedAtMs: u64, inferred: bool, pid: u32, processGuid: Option<string>,
    protocol: string, localAddress: string, remoteAddress: string, localPort: Option<nat>, remotePort: Option<nat>,
    evidenceId: string)

  datatype FiveTuple = FiveTuple(protocol: string, local: string, remote: string, localPort: nat, remotePort: nat)

  /** `checked_add` of the capture's epoch. */
  function TimeOf(e: NetworkEvent): Option<u64> {
    if e.captureEpochMs.Some? && e.captureEpochMs.value + e.observedAtMs <= U64_MAX
    then Some(e.captureEpochMs.value + e.observedAtMs) else None
  }

  /** Only direct observations of a real process at a known time count. */
  predicate Usable(e: NetworkEvent) {
    !e.inferred && e.pid != 0 && TimeOf(e).Some? && e.localPort.Some? && e.remotePort.Some?
  }

  function TupleOf(e: NetworkEvent): FiveTuple
    requires Usable(e)
  {
    FiveTuple(e.protocol, e.localAddress, e.remoteAddress, e.localPort.value, e.remotePort.value)
  }

  function TupleOfPacket(p: Packet): FiveTuple {
    FiveTuple(p.protocol, p.source, p.destination, p.sourcePort, p.destinationPort)
  }

  predicate Belongs(e: NetworkEvent, tuple: FiveTuple) {
    Usable(e) && TupleOf(e) == tuple
  }

  const WINDOW_MS: u64 := 1000

  predicate InWindow(e: NetworkEvent, time: u64) {
    TimeOf(e).Some? && AbsDiff(TimeOf(e).value, time) <= WINDOW_MS
  }

  // ----- what a scan of all events says -----

  /** The events with the endpoints of the packet, at most a second away from it. */
  function Matching(events: seq<NetworkEvent>, p: Packet): seq<NetworkEvent> {
    match p.timestampUs
    case None => []
    case Some(us) => MatchingAt(events, TupleOfPacket(p), us / 1000)
  }

  function MatchingAt(events: seq<NetworkEvent>, tuple: FiveTuple, time: u64): seq<NetworkEvent> {
    Filter(events, BelongsNear(tuple, time))
  }

  function BelongsTo(tuple: FiveTuple): NetworkEvent -> bool { e => Belongs(e, tuple) }

  function Near(time: u64): NetworkEvent -> bool { e => InWindow(e, time) }

  function BelongsNear(tuple: FiveTuple, time: u64): NetworkEvent -> bool { e => Belongs(e, tuple) && InWindow(e, time) }

  type Identity = (u32, string)

  function IdentityOf(e: NetworkEvent): Identity {
    (e.pid, if e.processGuid.Some? then e.processGuid.value else "")
  }

  function Identities(es: seq<NetworkEvent>): set<Identity> { set e | e in es :: IdentityOf(e) }

  /** There are such events, and they all come from the same process. */
  predicate Unambiguous(events: seq<NetworkEvent>, p: Packet) {
    |Identities(Matching(events, p))| == 1
  }

  datatype Correlation = Correlation(capture: string, packetId: string, flow: string, pid: u32, evidenceIds: seq<string>)

  function EvidenceOf(es: seq<NetworkEvent>): set<string> { set e | e in es :: e.evidenceId }

  /** `c` says which process sent the packet, and lists all the evidence for it. */
  ghost predicate Correlates(events: seq<NetworkEvent>, o: Seen, c: Correlation) {
    && c.capture == o.capture && c.packetId == o.packet.id && c.flow == o.packet.flow
    && (exists e :: e in Matching(events, o.packet) && c.pid == e.pid)
    && IsListing(c.evidenceIds, TextLeq, (set x | x in o.packet.evidenceIds) + EvidenceOf(Matching(events, o.packet)))
  }

  /** One correlation for each of the packets, in their order. */
  ghost predicate Lists(events: seq<NetworkEvent>, packets: seq<Seen>, cs: seq<Correlation>) {
    |cs| == |packets| && forall i :: 0 <= i < |cs| ==> Correlates(events, packets[i], cs[i])
  }

  /** The packets that a scan of all events correlates. */
  function Scanned(events: seq<NetworkEvent>, seen: seq<Seen>): seq<Seen> {
    if seen == [] then []
    else
      var rest, o := seen[..|seen| - 1], seen[|seen| - 1];
      if Unambiguous(events, o.packet) then Scanned(events, rest) + [o] else Scanned(events, rest)
  }

  /** One correlation for each unambiguous packet, in the order of the packets. */
  ghost predicate Exactly(events: seq<NetworkEvent>, seen: seq<Seen>, cs: seq<Correlation>) {
    Lists(events, Scanned(events, seen), cs)
  }

  ghost predicate Sound(events: seq<NetworkEvent>, seen: seq<Seen>, cs: seq<Correlation>) {
    forall c :: c in cs ==> exists o :: o in seen && Unambiguous(events, o.packet) && Correlates(events, o, c)
  }

  ghost predicate Complete(events: seq<NetworkEvent>, seen: seq<Seen>, cs: seq<Correlation>) {
    forall o :: o in seen && Unambiguous(events, o.packet) ==> exists c :: c in cs && Correlates(events, o, c)
  }

  lemma {:induction false} ScannedMember(events: seq<NetworkEvent>, seen: seq<Seen>, o: Seen)
    ensures o in Scanned(events, seen) <==> o in seen && Unambiguous(events, o.packet)
  {
    if seen != [] {
      var rest, last := seen[..|seen| - 1], seen[|seen| - 1];
      assert seen == rest + [last];
      ScannedMember(events, rest, o);
    }
  }

  lemma ExactlyIsComplete(events: seq<NetworkEvent>, seen: seq<Seen>, cs: seq<Correlation>)
    requires Exactly(events, seen, cs)
    ensures Complete(events, seen, cs)
  {
    forall o | o in seen && Unambiguous(events, o.packet)
      ensures exists c :: c in cs && Correlates(events, o, c)
    {
      ScannedMember(events, seen, o);
      var i :| 0 <= i < |cs| && Scanned(events, seen)[i] == o;
      assert cs[i] in cs;
    }
  }

  // ----- the budget -----

  const MAX_CHECKS: nat := 1_000_000
  const MAX_CORRELATIONS: nat := 4096
  const MAX_MATCHES: nat := 256

  /** The index has an entry for the packet, so that it costs something to look at it. */
  predicate Known(events: seq<NetworkEvent>, p: Packet) {
    p.timestampUs.Some? && exists e :: e in events && Belongs(e, TupleOfPacket(p))
  }

  function Spent(events: seq<NetworkEvent>, seen: seq<Seen>): nat {
    if seen == [] then 0
    else Spent(events, seen[..|seen| - 1]) + |Matching(events, seen[|seen| - 1].packet)|
  }

  /** One more packet with `matching` events fits all three budgets. */
  predicate Fits(spent: nat, made: nat, matching: nat) {
    spent + matching <= 1_000_000 && made < 4096 && matching <= 256
  }

  /** The packets that are correlated: the unambiguous ones that fit the budgets when their turn comes. */
  function Made(events: seq<NetworkEvent>, seen: seq<Seen>): seq<Seen> {
    if seen == [] then []
    else
      var rest, o := seen[..|seen| - 1], seen[|seen| - 1];
      var made := Made(events, rest);
      if Unambiguous(events, o.packet) && Fits(Spent(events, rest), |made|, |Matching(events, o.packet)|) then made + [o]
      else made
  }

  /** Looking at `o` after `seen` is more than one of the budgets allows. */
  predicate Over(events: seq<NetworkEvent>, seen: seq<Seen>, o: Seen) {
    Known(events, o.packet) && !Fits(Spent(events, seen), |Made(events, seen)|, |Matching(events, o.packet)|)
  }

  predicate Exceeds(events: seq<NetworkEvent>, seen: seq<Seen>) {
    seen != [] && (Exceeds(events, seen[..|seen| - 1]) || Over(events, seen[..|seen| - 1], seen[|seen| - 1]))
  }

  /** No unambiguous packet is over a budget. */
  predicate NoneMissing(events: seq<NetworkEvent>, seen: seq<Seen>) {
    seen == [] || (
      && NoneMissing(events, seen[..|seen| - 1])
      && (Unambiguous(events, seen[|seen| - 1].packet) ==> !Over(events, seen[..|seen| - 1], seen[|seen| - 1])))
  }

  lemma UnambiguousIsKnown(events: seq<NetworkEvent>, p: Packet)
    requires Unambiguous(events, p)
    ensures Known(events, p)
  {
    if !Known(events, p) { UnknownHasNone(events, p); }
  }

  /** What is missing from the packets of the scan are the unambiguous packets over a budget. */
  lemma {:induction false} MadeIsScanned(events: seq<NetworkEvent>, seen: seq<Seen>)
    ensures |Made(events, seen)| <= |Scanned(events, seen)|
    ensures NoneMissing(events, seen) <==> Made(events, seen) == Scanned(events, seen)
    ensures |Made(events, seen)| == |Scanned(events, seen)| ==> Made(events, seen) == Scanned(events, seen)
  {
    if seen != [] {
      var rest, o := seen[..|seen| - 1], seen[|seen| - 1];
      MadeIsScanned(events, rest);
      if Unambiguous(events, o.packet) { UnambiguousIsKnown(events, o.packet); }
    }
  }

  lemma {:induction false} MadeMember(events: seq<NetworkEvent>, seen: seq<Seen>, o: Seen)
    requires o in Made(events, seen)
    ensures o in seen && Unambiguous(events, o.packet)
  {
    var rest, last := seen[..|seen| - 1], seen[|seen| - 1];
    assert seen == rest + [last];
    if o in Made(events, rest) { MadeMember(events, rest, o); }
  }

  lemma {:induction false} NotExceededMissesNone(events: seq<NetworkEvent>, seen: seq<Seen>)
    requires !Exceeds(events, seen)
    ensures NoneMissing(events, seen)
  {
    if seen != [] { NotExceededMissesNone(events, seen[..|seen| - 1]); }
  }

  // ----- the index -----

  function OrderTime(e: NetworkEvent): u64 { if TimeOf(e).Some? then TimeOf(e).value else 0 }

  predicate EventLeq(a: NetworkEvent, b: NetworkEvent) {
    if OrderTime(a) != OrderTime(b) then OrderTime(a) <= OrderTime(b) else TextLeq(a.evidenceId, b.evidenceId)
  }

  lemma EventLeqOrder()
    ensures TotalPreorder(EventLeq)
  {
    forall a, b ensures EventLeq(a, b) || EventLeq(b, a) { TextLeqTotal(a.evidenceId, b.evidenceId); }
    forall a, b, c | EventLeq(a, b) && EventLeq(b, c) ensures EventLeq(a, c) {
      if OrderTime(a) == OrderTime(b) == OrderTime(c) { TextLeqTransitive(a.evidenceId, b.evidenceId, c.evidenceId); }
    }
  }

  function EventsOf(events: seq<NetworkEvent>, tuple: FiveTuple): seq<NetworkEvent> {
    Filter(events, BelongsTo(tuple))
  }

  type Index = map<FiveTuple, seq<NetworkEvent>>

  predicate HasTuple(events: seq<NetworkEvent>, tuple: FiveTuple) {
    exists e :: e in events && Belongs(e, tuple)
  }

  /** Each tuple that occurs has its events in the order of their times. */
  ghost predicate IsIndex(events: seq<NetworkEvent>, index: Index) {
    forall tuple :: (tuple in index <==> HasTuple(events, tuple))
                 && (tuple in index ==> index[tuple] == SortBy(EventsOf(events, tuple), EventLeq))
  }

  ghost predicate Unsorted(events: seq<NetworkEvent>, index: Index) {
    forall tuple :: (tuple in index <==> HasTuple(events, tuple))
                 && (tuple in index ==> index[tuple] == EventsOf(events, tuple))
  }

  lemma EventsMore(events: seq<NetworkEvent>, e: NetworkEvent, tuple: FiveTuple)
    ensures EventsOf(events + [e], tuple) == if Belongs(e, tuple) then EventsOf(events, tuple) + [e] else EventsOf(events, tuple)
    ensures HasTuple(events + [e], tuple) <==> HasTuple(events, tuple) || Belongs(e, tuple)
    ensures !HasTuple(events, tuple) ==> EventsOf(events, tuple) == []
  {
    FilterMore(events, e, BelongsTo(tuple));
    assert e in events + [e] && forall x :: x in events ==> x in events + [e];
    SomeElement(EventsOf(events, tuple));
  }

  function Indexed(index: Index, e: NetworkEvent): Index {
    if !Usable(e) then index
    else index[TupleOf(e) := (if TupleOf(e) in index then index[TupleOf(e)] else []) + [e]]
  }

  lemma UnsortedMore(events: seq<NetworkEvent>, index: Index, e: NetworkEvent)
    requires Unsorted(events, index)
    ensures Unsorted(events + [e], Indexed(index, e))
  {
    forall tuple
      ensures (tuple in Indexed(index, e) <==> HasTuple(events + [e], tuple))
           && (tuple in Indexed(index, e) ==> Indexed(index, e)[tuple] == EventsOf(events + [e], tuple))
    {
      EventsMore(events, e, tuple);
    }
  }

  method NewIndex(events: seq<NetworkEvent>) returns (index: Index)
    ensures IsIndex(events, index)
  {
    var unsorted: Index := map[];
    for i := 0 to |events|
      invariant Unsorted(events[..i], unsorted)
    {
      UnsortedMore(events[..i], unsorted, events[i]);
      assert events[..i + 1] == events[..i] + [events[i]];
      unsorted := Indexed(unsorted, events[i]);
    }
    assert events[..|events|] == events;
    index := map tuple | tuple in unsorted :: SortBy(unsorted[tuple], EventLeq);
  }

  // ----- a lookup -----

  /** The two partition points enclose exactly the events of the window. */
  method Lookup(values: seq<NetworkEvent>, time: u64) returns (matches: seq<NetworkEvent>)
    requires Sorted(values, EventLeq) && forall i :: 0 <= i < |values| ==> TimeOf(values[i]).Some?
    ensures matches == Filter(values, Near(time))
  {
    var before := (e: NetworkEvent) => OrderTime(e) < SaturatingSub(time, WINDOW_MS);
    var within := (e: NetworkEvent) => OrderTime(e) <= SaturatingAdd(time, WINDOW_MS);
    var lower := PartitionPoint(values, before);
    var upper := PartitionPoint(values, within);
    if lower > 0 { assert before(values[lower - 1]) && within(values[lower - 1]); }
    FilterRange(values, lower, upper, Near(time));
    return values[lower..upper];
  }

  /** What the index finds for a packet is what the scan finds, in the order of the times. */
  method LookupPacket(ghost events: seq<NetworkEvent>, index: Index, p: Packet) returns (matches: Option<seq<NetworkEvent>>)
    requires IsIndex(events, index)
    ensures matches.Some? <==> Known(events, p)
    ensures matches.Some? ==> matches.value == SortBy(Matching(events, p), EventLeq)
  {
    if p.timestampUs == None || TupleOfPacket(p) !in index {
      return None;
    }
    var time := p.timestampUs.value / 1000;
    var values := index[TupleOfPacket(p)];
    IndexedSorted(events, index, TupleOfPacket(p));
    var found := Lookup(values, time);
    LookupIsScan(events, TupleOfPacket(p), time);
    return Some(found);
  }

  lemma IndexedSorted(events: seq<NetworkEvent>, index: Index, tuple: FiveTuple)
    requires IsIndex(events, index) && tuple in index
    ensures Sorted(index[tuple], EventLeq) && forall i :: 0 <= i < |index[tuple]| ==> TimeOf(index[tuple][i]).Some?
  {
    EventLeqOrder();
    SortBySorted(EventsOf(events, tuple), EventLeq);
    forall i | 0 <= i < |index[tuple]| ensures TimeOf(index[tuple][i]).Some? {
      assert index[tuple][i] in EventsOf(events, tuple);
    }
  }

  lemma LookupIsScan(events: seq<NetworkEvent>, tuple: FiveTuple, time: u64)
    ensures Filter(SortBy(EventsOf(events, tuple), EventLeq), Near(time)) == SortBy(MatchingAt(events, tuple, time), EventLeq)
  {
    EventLeqOrder();
    FilterSort(EventsOf(events, tuple), EventLeq, Near(time));
    FilterTwice(events, BelongsTo(tuple), Near(time), BelongsNear(tuple, time));
  }

  lemma UnknownHasNone(events: seq<NetworkEvent>, p: Packet)
    requires !Known(events, p)
    ensures Matching(events, p) == [] && !Unambiguous(events, p)
  {
    SomeElement(Matching(events, p));
    assert Identities([]) == {};
  }

  // ----- the loop -----

  /** The variables of the loop over the packets. */
  datatype State = State(checks: nat, truncated: bool, correlations: seq<Correlation>)

  ghost predicate Tracks(events: seq<NetworkEvent>, seen: seq<Seen>, s: State) {
    && s.checks == Spent(events, seen)
    && (s.truncated <==> Exceeds(events, seen))
    && Lists(events, Made(events, seen), s.correlations)
  }

  function EvidenceIds(es: seq<NetworkEvent>): (r: seq<string>)
    ensures forall x :: x in r <==> x in EvidenceOf(es)
  {
    if es == [] then [] else [es[0].evidenceId] + EvidenceIds(es[1..])
  }

  lemma SameEvents(a: seq<NetworkEvent>, b: seq<NetworkEvent>)
    requires multiset(a) == multiset(b)
    ensures |a| == |b| && Identities(a) == Identities(b) && EvidenceOf(a) == EvidenceOf(b) && forall e :: e in a <==> e in b
  {
    SameElements(a, b);
  }

  /** The correlation of a packet whose matches all come from one process. */
  method Correlate(ghost events: seq<NetworkEvent>, o: Seen, matches: seq<NetworkEvent>) returns (c: Correlation)
    requires matches == SortBy(Matching(events, o.packet), EventLeq) && Unambiguous(events, o.packet)
    ensures Correlates(events, o, c)
  {
    SameEvents(matches, Matching(events, o.packet));
    assert matches != [] by { assert |Identities(matches)| == 1; assert matches == [] ==> Identities(matches) == {}; }
    assert matches[0] in matches;
    var ids := o.packet.evidenceIds + EvidenceIds(matches);
    TextLeqOrder();
    SortDedupLists(ids, TextLeq, (set x | x in o.packet.evidenceIds) + EvidenceOf(Matching(events, o.packet)));
    c := Correlation(o.capture, o.packet.id, o.packet.flow, matches[0].pid, SortDedup(ids, TextLeq));
  }

  /** A packet that does not lead to a correlation, because it is over a budget or ambiguous. */
  lemma TracksSkipped(events: seq<NetworkEvent>, seen: seq<Seen>, s: State, o: Seen)
    requires Tracks(events, seen, s) && (Over(events, seen, o) || !Unambiguous(events, o.packet))
    ensures Tracks(events, seen + [o],
                   s.(checks := s.checks + |Matching(events, o.packet)|, truncated := s.truncated || Over(events, seen, o)))
  {
    assert (seen + [o])[..|seen|] == seen;
  }

  lemma MadeMore(events: seq<NetworkEvent>, seen: seq<Seen>, o: Seen)
    requires !Over(events, seen, o) && Unambiguous(events, o.packet)
    ensures Made(events, seen + [o]) == Made(events, seen) + [o]
    ensures Exceeds(events, seen + [o]) == Exceeds(events, seen)
  {
    assert (seen + [o])[..|seen|] == seen;
    UnambiguousIsKnown(events, o.packet);
  }

  lemma SpentMore(events: seq<NetworkEvent>, seen: seq<Seen>, o: Seen)
    ensures Spent(events, seen + [o]) == Spent(events, seen) + |Matching(events, o.packet)|
  {
    assert (seen + [o])[..|seen|] == seen;
  }

  lemma ListsMore(events: seq<NetworkEvent>, packets: seq<Seen>, cs: seq<Correlation>, o: Seen, c: Correlation)
    requires Lists(events, packets, cs) && Correlates(events, o, c)
    ensures Lists(events, packets + [o], cs + [c])
  {}

  lemma TracksFound(events: seq<NetworkEvent>, seen: seq<Seen>, s: State, o: Seen, c: Correlation)
    requires Tracks(events, seen, s) && !Over(events, seen, o) && Unambiguous(events, o.packet) && Correlates(events, o, c)
    ensures Tracks(events, seen + [o],
                   s.(checks := s.checks + |Matching(events, o.packet)|, correlations := s.correlations + [c]))
  {
    MadeMore(events, seen, o);
    SpentMore(events, seen, o);
    ListsMore(events, Made(events, seen), s.correlations, o, c);
  }

  /** The loop's own test is the one on the budgets. */
  lemma OverIsTest(events: seq<NetworkEvent>, seen: seq<Seen>, s: State, o: Seen)
    requires Tracks(events, seen, s) && Known(events, o.packet)
    ensures var n := |Matching(events, o.packet)|;
            Over(events, seen, o) <==> s.checks + n > MAX_CHECKS || |s.correlations| >= MAX_CORRELATIONS || n > MAX_MATCHES
  {}

  /** One packet. */
  method CorrelatePacket(ghost events: seq<NetworkEvent>, index: Index, o: Seen, s: State, ghost seen: seq<Seen>) returns (t: State)
    requires IsIndex(events, index) && Tracks(events, seen, s)
    ensures Tracks(events, seen + [o], t)
  {
    var matches := LookupPacket(events, index, o.packet);
    if matches == None {
      UnknownHasNone(events, o.packet);
      TracksSkipped(events, seen, s, o);
      return s;
    }
    SameEvents(matches.value, Matching(events, o.packet));
    OverIsTest(events, seen, s, o);
    t := s.(checks := s.checks + |matches.value|);
    if t.checks > MAX_CHECKS || |s.correlations| >= MAX_CORRELATIONS || |matches.value| > MAX_MATCHES {
      TracksSkipped(events, seen, s, o);
      return t.(truncated := true);
    }
    if |Identities(matches.value)| == 1 {
      var c := Correlate(events, o, matches.value);
      TracksFound(events, seen, s, o, c);
      return t.(correlations := t.correlations + [c]);
    }
    TracksSkipped(events, seen, s, o);
  }

  // ----- the summary -----

  predicate CorrelationLeq(a: Correlation, b: Correlation) {
    if a.capture != b.capture then TextLeq(a.capture, b.capture)
    else if a.packetId != b.packetId then TextLeq(a.packetId, b.packetId)
    else a.pid <= b.pid
  }

  lemma CorrelationLeqOrder()
    ensures TotalPreorder(CorrelationLeq)
  {
    forall a, b ensures CorrelationLeq(a, b) || CorrelationLeq(b, a) {
      TextLeqTotal(a.capture, b.capture);
      TextLeqTotal(a.packetId, b.packetId);
    }
    forall a, b, c | CorrelationLeq(a, b) && CorrelationLeq(b, c) ensures CorrelationLeq(a, c) {
      CorrelationLeqTransitive(a, b, c);
    }
  }

  lemma CorrelationLeqTransitive(a: Correlation, b: Correlation, c: Correlation)
    requires CorrelationLeq(a, b) && CorrelationLeq(b, c)
    ensures CorrelationLeq(a, c)
  {
    if a.capture != b.capture && b.capture != c.capture {
      TextLeqTransitive(a.capture, b.capture, c.capture);
      if a.capture == c.capture { TextLeqAntisymmetric(a.capture, b.capture); }
    } else if a.capture == b.capture == c.capture && a.packetId != b.packetId && b.packetId != c.packetId {
      TextLeqTransitive(a.packetId, b.packetId, c.packetId);
      if a.packetId == c.packetId { TextLeqAntisymmetric(a.packetId, b.packetId); }
    }
  }

  datatype Summary = Summary(flows: seq<Flow>, correlations: seq<Correlation>, truncated: bool)

  /** The body of the inner loop. */
  method SummarizePacket(ghost events: seq<NetworkEvent>, index: Index, o: Seen, flows: map<Key, Flow>, s: State, ghost seen: seq<Seen>)
    returns (moreFlows: map<Key, Flow>, t: State)
    requires IsIndex(events, index) && Groups(seen, flows) && Tracks(events, seen, s)
    ensures Groups(seen + [o], moreFlows) && Tracks(events, seen + [o], t)
  {
    GroupsMore(seen, flows, o);
    moreFlows := Counted(flows, o);
    t := CorrelatePacket(events, index, o, s, seen);
  }

  method SummarizeStage(ghost events: seq<NetworkEvent>, index: Index, stage: Stage, flows: map<Key, Flow>, s: State, ghost seen: seq<Seen>)
    returns (moreFlows: map<Key, Flow>, t: State)
    requires IsIndex(events, index) && Groups(seen, flows) && Tracks(events, seen, s)
    ensures Groups(seen + SeenOf(stage, |stage.packets|), moreFlows) && Tracks(events, seen + SeenOf(stage, |stage.packets|), t)
  {
    moreFlows, t := flows, s;
    ghost var all := seen;
    for n := 0 to |stage.packets|
      invariant all == seen + SeenOf(stage, n)
      invariant Groups(all, moreFlows) && Tracks(events, all, t)
    {
      var o := Seen(stage.targetSha256, stage.packets[n]);
      moreFlows, t := SummarizePacket(events, index, o, moreFlows, t, all);
      all := all + [o];
      OnePacketMore(seen, stage, n);
    }
  }

  lemma OnePacketMore(seen: seq<Seen>, stage: Stage, n: nat)
    requires n < |stage.packets|
    ensures seen + SeenOf(stage, n) + [Seen(stage.targetSha256, stage.packets[n])] == seen + SeenOf(stage, n + 1)
  {}

  /** The correlations of the packets, in the order of capture, packet and process. */
  ghost predicate AreCorrelations(events: seq<NetworkEvent>, packets: seq<Seen>, r: seq<Correlation>) {
    exists cs :: Lists(events, packets, cs) && r == SortBy(cs, CorrelationLeq)
  }

  /** The flows of all packets, the correlations of those within the budgets, and whether all of them were. */
  ghost predicate IsSummary(events: seq<NetworkEvent>, seen: seq<Seen>, r: Summary) {
    && AreFlows(seen, r.flows)
    && (r.truncated <==> Exceeds(events, seen))
    && AreCorrelations(events, Made(events, seen), r.correlations)
  }

  method SummarizeNetwork(events: seq<NetworkEvent>, stages: seq<Stage>) returns (r: Summary)
    ensures IsSummary(events, Flatten(stages), r)
  {
    var index := NewIndex(events);
    var flows: map<Key, Flow> := map[];
    var s := State(0, false, []);
    for i := 0 to |stages|
      invariant Groups(Flatten(stages[..i]), flows) && Tracks(events, Flatten(stages[..i]), s)
    {
      flows, s := SummarizeStage(events, index, stages[i], flows, s, Flatten(stages[..i]));
      assert stages[..i + 1][..i] == stages[..i];
    }
    assert stages[..|stages|] == stages;
    var values := Collect(Flatten(stages), flows);
    r := Summary(values, SortBy(s.correlations, CorrelationLeq), s.truncated);
  }

  // ----- who sent a packet, field by field -----

  /** A direct event of a process at the sending end of the packet, at most a second before or after it. */
  predicate Sent(e: NetworkEvent, p: Packet) {
    && !e.inferred && e.pid != 0 && e.protocol == p.protocol
    && e.localAddress == p.source && e.localPort == Some(p.sourcePort)
    && e.remoteAddress == p.destination && e.remotePort == Some(p.destinationPort)
    && e.captureEpochMs.Some? && p.timestampUs.Some?
    && var at, time := e.captureEpochMs.value + e.observedAtMs, p.timestampUs.value / 1000;
       at <= U64_MAX && time <= at + 1000 && at <= time + 1000
  }

  /** The same PID and the same GUID, where no GUID is as good as an empty one. */
  predicate SameProcess(e: NetworkEvent, f: NetworkEvent) {
    e.pid == f.pid && (e.processGuid == f.processGuid || (NoGuid(e) && NoGuid(f)))
  }

  predicate NoGuid(e: NetworkEvent) { e.processGuid == None || e.processGuid == Some("") }

  /** All events at the sending end are of the process of `e`, which is one of them. */
  predicate Sender(events: seq<NetworkEvent>, p: Packet, e: NetworkEvent) {
    e in events && Sent(e, p) && forall f :: f in events && Sent(f, p) ==> SameProcess(e, f)
  }

  /** `c` says of the packet who sent it, and lists the evidence of the packet and of all such events. */
  ghost predicate Attributes(events: seq<NetworkEvent>, o: Seen, c: Correlation) {
    && c.capture == o.capture && c.packetId == o.packet.id && c.flow == o.packet.flow
    && (exists e :: Sender(events, o.packet, e) && c.pid == e.pid)
    && (forall x :: x in c.evidenceIds <==>
          x in o.packet.evidenceIds || exists e :: e in events && Sent(e, o.packet) && e.evidenceId == x)
  }

  /** By capture, then by packet, then by process. */
  predicate ComesFirst(c: Correlation, d: Correlation) {
    if c.capture != d.capture then TextLeq(c.capture, d.capture)
    else if c.packetId != d.packetId then TextLeq(c.packetId, d.packetId)
    else c.pid <= d.pid
  }

  lemma MatchingIsSent(events: seq<NetworkEvent>, p: Packet, e: NetworkEvent)
    ensures e in Matching(events, p) <==> e in events && Sent(e, p)
  {}

  lemma SameIdentity(e: NetworkEvent, f: NetworkEvent)
    ensures IdentityOf(e) == IdentityOf(f) <==> SameProcess(e, f)
  {}

  lemma OneIdentity(es: seq<NetworkEvent>, e: NetworkEvent)
    requires e in es
    ensures |Identities(es)| == 1 <==> forall f :: f in es ==> SameProcess(e, f)
  {
    var ids := Identities(es);
    assert IdentityOf(e) in ids;
    if forall f :: f in es ==> SameProcess(e, f) {
      forall id | id in ids ensures id == IdentityOf(e) {
        var f :| f in es && IdentityOf(f) == id;
        SameIdentity(e, f);
      }
      assert ids == {IdentityOf(e)};
    } else {
      var f :| f in es && !SameProcess(e, f);
      SameIdentity(e, f);
      TwoElements(ids, IdentityOf(e), IdentityOf(f));
    }
  }

  /** A packet is unambiguous if and only if it has a sender. */
  lemma UnambiguousHasSender(events: seq<NetworkEvent>, p: Packet)
    ensures Unambiguous(events, p) <==> exists e :: Sender(events, p, e)
  {
    var es := Matching(events, p);
    if e :| e in es {
      OneIdentity(es, e);
      MatchingIsSent(events, p, e);
      forall f ensures f in es <==> f in events && Sent(f, p) { MatchingIsSent(events, p, f); }
      if Unambiguous(events, p) { assert Sender(events, p, e); }
      if d :| Sender(events, p, d) { SendersAgree(es, d, e); }
    } else {
      assert Identities(es) == {};
      forall d ensures !Sender(events, p, d) { MatchingIsSent(events, p, d); }
    }
  }

  lemma SendersAgree(es: seq<NetworkEvent>, d: NetworkEvent, e: NetworkEvent)
    requires d in es && e in es && forall f :: f in es ==> SameProcess(d, f)
    ensures forall f :: f in es ==> SameProcess(e, f)
  {}

  lemma CorrelatesAttributes(events: seq<NetworkEvent>, o: Seen, c: Correlation)
    requires Unambiguous(events, o.packet) && Correlates(events, o, c)
    ensures Attributes(events, o, c)
  {
    var es := Matching(events, o.packet);
    var e :| e in es && c.pid == e.pid;
    OneIdentity(es, e);
    forall f ensures f in es <==> f in events && Sent(f, o.packet) { MatchingIsSent(events, o.packet, f); }
    assert Sender(events, o.packet, e);
    forall x ensures x in EvidenceOf(es) <==> exists f :: f in events && Sent(f, o.packet) && f.evidenceId == x {
      if f :| f in events && Sent(f, o.packet) && f.evidenceId == x { assert f in es; }
    }
  }

  // ----- when that is what a scan finds -----

  lemma CorrelationsLength(events: seq<NetworkEvent>, packets: seq<Seen>, r: seq<Correlation>)
    requires AreCorrelations(events, packets, r)
    ensures |r| == |packets|
  {}

  /** The correlations are those of the scan if and only if no unambiguous packet is over a budget. */
  lemma ScanExactlyWhen(events: seq<NetworkEvent>, seen: seq<Seen>, r: Summary)
    requires IsSummary(events, seen, r)
    ensures AreCorrelations(events, Scanned(events, seen), r.correlations) <==> NoneMissing(events, seen)
  {
    MadeIsScanned(events, seen);
    CorrelationsLength(events, Made(events, seen), r.correlations);
    if AreCorrelations(events, Scanned(events, seen), r.correlations) {
      CorrelationsLength(events, Scanned(events, seen), r.correlations);
    }
  }

  /** Without the warning they are. */
  lemma UntruncatedIsScan(events: seq<NetworkEvent>, seen: seq<Seen>, r: Summary)
    requires IsSummary(events, seen, r) && !r.truncated
    ensures AreCorrelations(events, Scanned(events, seen), r.correlations)
    ensures Complete(events, seen, r.correlations)
    ensures forall o, e :: o in seen && Sender(events, o.packet, e) ==> exists c :: c in r.correlations && Attributes(events, o, c)
  {
    NotExceededMissesNone(events, seen);
    ScanExactlyWhen(events, seen, r);
    var cs :| Lists(events, Scanned(events, seen), cs) && r.correlations == SortBy(cs, CorrelationLeq);
    ExactlyIsComplete(events, seen, cs);
    CorrelationLeqOrder();
    SortBySorted(cs, CorrelationLeq);
    forall o, e | o in seen && Sender(events, o.packet, e)
      ensures exists c :: c in r.correlations && Attributes(events, o, c)
    {
      UnambiguousHasSender(events, o.packet);
      var c :| c in r.correlations && Correlates(events, o, c);
      CorrelatesAttributes(events, o, c);
    }
  }

  /** With or without it, every correlation is one that the scan makes, and they are in order. */
  lemma SummaryIsSound(events: seq<NetworkEvent>, seen: seq<Seen>, r: Summary)
    requires IsSummary(events, seen, r)
    ensures Sound(events, seen, r.correlations) && Sorted(r.correlations, CorrelationLeq)
    ensures |r.correlations| == |Made(events, seen)|
    ensures forall c :: c in r.correlations ==> exists o :: o in seen && Attributes(events, o, c)
    ensures forall i, j :: 0 <= i < j < |r.correlations| ==> ComesFirst(r.correlations[i], r.correlations[j])
  {
    var cs :| Lists(events, Made(events, seen), cs) && r.correlations == SortBy(cs, CorrelationLeq);
    CorrelationLeqOrder();
    SortBySorted(cs, CorrelationLeq);
    forall c | c in r.correlations
      ensures exists o :: o in seen && Unambiguous(events, o.packet) && Correlates(events, o, c)
    {
      var i :| 0 <= i < |cs| && cs[i] == c;
      MadeMember(events, seen, Made(events, seen)[i]);
    }
    forall c | c in r.correlations ensures exists o :: o in seen && Attributes(events, o, c) {
      var o :| o in seen && Unambiguous(events, o.packet) && Correlates(events, o, c);
      CorrelatesAttributes(events, o, c);
    }
  }

  /** The warning does not mean that anything is missing: a packet may have too many events of several processes. */
  lemma ExceededMissesNone(events: seq<NetworkEvent>, o: Seen)
    requires |Matching(events, o.packet)| > MAX_MATCHES && !Unambiguous(events, o.packet)
    ensures Exceeds(events, [o]) && NoneMissing(events, [o])
  {
    if !Known(events, o.packet) { UnknownHasNone(events, o.packet); }
    assert [o][..0] == [] && [o][0] == o;
  }

  function Event(pid: u32): NetworkEvent {
    NetworkEvent(Some(0), 0, false, pid, None, "tcp", "a", "b", Some(1), Some(2), "e")
  }

  /** There are such packets. */
  lemma ExceededExample(o: Seen, n: nat, events: seq<NetworkEvent>)
    requires o.packet.timestampUs == Some(0) && TupleOfPacket(o.packet) == FiveTuple("tcp", "a", "b", 1, 2)
    requires |events| == n > MAX_MATCHES
    requires events[0] == Event(1) && forall i :: 0 < i < n ==> events[i] == Event(2)
    ensures Exceeds(events, [o]) && NoneMissing(events, [o])
  {
    var near := BelongsNear(TupleOfPacket(o.packet), 0);
    FilterPrefix(events, n, near);
    assert events[..n] == events;
    var ids := Identities(Matching(events, o.packet));
    assert IdentityOf(events[0]) in ids && IdentityOf(events[1]) in ids;
    TwoElements(ids, IdentityOf(events[0]), IdentityOf(events[1]));
    ExceededMissesNone(events, o);
  }

  lemma TwoElements<T>(s: set<T>, a: T, b: T)
    requires a in s && b in s && a != b
    ensures |s| >= 2
  {
    assert s == {a, b} + (s - {a, b});
  }
}
