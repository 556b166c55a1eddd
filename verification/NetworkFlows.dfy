/**
 The packets of the captures, and how they are summed up by flow (`summarize_network` in
 `src/report_analysis/detection.rs`).
 */
module NetworkFlows {
  import opened Basics
  import opened Ordering
  import Grouping

  // ----- packets and flows -----

  datatype Packet = Packet(
    id: string, flow: string, source: string, destination: string, sourcePort: nat, destinationPort: nat,
    protocol: string, timestampUs: Option<u64>, bytes: u64, evidenceIds: seq<string>)

  /** The packets of one capture. */
  datatype Stage = Stage(targetSha256: string, packets: seq<Packet>)

  /** A packet together with the capture it is from. */
  datatype Seen = Seen(capture: string, packet: Packet)

  datatype Flow = Flow(
    capture: string, flow: string, source: string, destination: string, sourcePort: nat, destinationPort: nat,
    protocol: string, first: Option<u64>, last: Option<u64>, packetCount: nat, capturedBytes: u64, evidenceIds: seq<string>)

  /** All packets, capture by capture. */
  function Flatten(stages: seq<Stage>): seq<Seen> {
    if stages == [] then [] else Flatten(stages[..|stages| - 1]) + SeenOf(stages[|stages| - 1], |stages[|stages| - 1].packets|)
  }

  function SeenOf(stage: Stage, n: nat): (r: seq<Seen>)
    requires n <= |stage.packets|
    ensures |r| == n
  {
    if n == 0 then [] else SeenOf(stage, n - 1) + [Seen(stage.targetSha256, stage.packets[n - 1])]
  }

  type Key = Grouping.Key

  function KeyOf(o: Seen): Key { [o.capture, o.packet.flow] }

  function KeyOfFlow(f: Flow): Key { [f.capture, f.flow] }

  function Members(seen: seq<Seen>, key: Key): seq<Seen> {
    Grouping.Group(seen, KeyOf, key)
  }

  function KeySet(seen: seq<Seen>): set<Key> { Grouping.KeySetOf(seen, KeyOf) }

  // ----- what a flow says -----

  function SumBytes(ms: seq<Seen>): nat {
    if ms == [] then 0 else SumBytes(ms[..|ms| - 1]) + ms[|ms| - 1].packet.bytes
  }

  /** `t` is a known time that no other known time beats, or nothing is known. */
  ghost predicate Extreme(ms: seq<Seen>, t: Option<u64>, leq: (u64, u64) -> bool) {
    match t
    case None => forall i :: 0 <= i < |ms| ==> ms[i].packet.timestampUs.None?
    case Some(best) =>
      && (exists i :: 0 <= i < |ms| && ms[i].packet.timestampUs == t)
      && forall i :: 0 <= i < |ms| && ms[i].packet.timestampUs.Some? ==> leq(best, ms[i].packet.timestampUs.value)
  }

  const EARLIER: (u64, u64) -> bool := (a: u64, b: u64) => a <= b
  const LATER: (u64, u64) -> bool := (a: u64, b: u64) => a >= b

  /** The endpoints are those of the first packet; the numbers are those of all of them. */
  ghost predicate IsFlow(ms: seq<Seen>, f: Flow) {
    && ms != []
    && var o := ms[0];
    && f.capture == o.capture && f.flow == o.packet.flow && f.evidenceIds == o.packet.evidenceIds
    && f.source == o.packet.source && f.destination == o.packet.destination && f.protocol == o.packet.protocol
    && f.sourcePort == o.packet.sourcePort && f.destinationPort == o.packet.destinationPort
    && IsTotal(ms, f)
  }

  ghost predicate IsTotal(ms: seq<Seen>, f: Flow) {
    && f.packetCount == |ms| && f.capturedBytes == (if SumBytes(ms) <= U64_MAX then SumBytes(ms) else U64_MAX)
    && Extreme(ms, f.first, EARLIER) && Extreme(ms, f.last, LATER)
  }

  // ----- one more packet -----

  function NewFlow(o: Seen): Flow {
    var p := o.packet;
    Flow(o.capture, p.flow, p.source, p.destination, p.sourcePort, p.destinationPort, p.protocol,
         p.timestampUs, p.timestampUs, 0, 0, p.evidenceIds)
  }

  function Better(a: Option<u64>, b: u64, leq: (u64, u64) -> bool): Option<u64> {
    if a.Some? && leq(a.value, b) then a else Some(b)
  }

  function AddPacket(f: Flow, p: Packet): Flow {
    var g := f.(packetCount := f.packetCount + 1, capturedBytes := SaturatingAdd(f.capturedBytes, p.bytes));
    match p.timestampUs
    case None => g
    case Some(t) => g.(first := Better(f.first, t, EARLIER), last := Better(f.last, t, LATER))
  }

  lemma ExtremeMore(ms: seq<Seen>, t: Option<u64>, o: Seen, leq: (u64, u64) -> bool)
    requires Extreme(ms, t, leq)
    requires forall a, b :: leq(a, b) || leq(b, a)
    requires forall a, b, c :: leq(a, b) && leq(b, c) ==> leq(a, c)
    ensures Extreme(ms + [o], if o.packet.timestampUs.Some? then Better(t, o.packet.timestampUs.value, leq) else t, leq)
  {
    var more := ms + [o];
    var u := if o.packet.timestampUs.Some? then Better(t, o.packet.timestampUs.value, leq) else t;
    assert more[|ms|] == o;
    if u.Some? {
      if u == t {
        var i :| 0 <= i < |ms| && ms[i].packet.timestampUs == t;
        assert more[i].packet.timestampUs == u;
      }
      forall i | 0 <= i < |more| && more[i].packet.timestampUs.Some?
        ensures leq(u.value, more[i].packet.timestampUs.value)
      {
        if i < |ms| { assert more[i] == ms[i]; }
      }
    } else {
      assert forall i :: 0 <= i < |ms| ==> more[i] == ms[i];
    }
  }

  lemma TotalMore(ms: seq<Seen>, f: Flow, o: Seen)
    requires IsTotal(ms, f)
    ensures IsTotal(ms + [o], AddPacket(f, o.packet))
  {
    ExtremeMore(ms, f.first, o, EARLIER);
    ExtremeMore(ms, f.last, o, LATER);
    assert (ms + [o])[..|ms|] == ms;
  }

  lemma FirstTotal(o: Seen)
    ensures IsTotal([o], AddPacket(NewFlow(o), o.packet))
  {
    assert [o][..0] == [] && [o][0] == o;
    assert SumBytes([o]) == o.packet.bytes;
  }

  lemma FlowMore(ms: seq<Seen>, f: Flow, o: Seen)
    requires IsFlow(ms, f)
    ensures IsFlow(ms + [o], AddPacket(f, o.packet))
  {
    TotalMore(ms, f, o);
    assert (ms + [o])[0] == ms[0];
  }

  // ----- the map of flows -----

  ghost predicate Stands(seen: seq<Seen>, flows: map<Key, Flow>, key: Key) {
    key in flows ==> IsFlow(Members(seen, key), flows[key]) && KeyOfFlow(flows[key]) == key
  }

  ghost predicate Groups(seen: seq<Seen>, flows: map<Key, Flow>) {
    KeySet(seen) == flows.Keys && forall key :: Stands(seen, flows, key)
  }

  function Counted(flows: map<Key, Flow>, o: Seen): map<Key, Flow> {
    var prior := if KeyOf(o) in flows then flows[KeyOf(o)] else NewFlow(o);
    flows[KeyOf(o) := AddPacket(prior, o.packet)]
  }

  lemma StandsMore(seen: seq<Seen>, flows: map<Key, Flow>, o: Seen, key: Key)
    requires KeySet(seen) == flows.Keys && Stands(seen, flows, key)
    ensures Stands(seen + [o], Counted(flows, o), key)
  {
    Grouping.GroupMore(seen, KeyOf, o, key);
    if key == KeyOf(o) {
      if key in flows {
        FlowMore(Members(seen, key), flows[key], o);
      } else {
        Grouping.NoGroup(seen, KeyOf, key);
        assert [] + [o] == [o];
        FirstTotal(o);
      }
    }
  }

  lemma GroupsMore(seen: seq<Seen>, flows: map<Key, Flow>, o: Seen)
    requires Groups(seen, flows)
    ensures Groups(seen + [o], Counted(flows, o))
  {
    forall key: Key ensures Stands(seen + [o], Counted(flows, o), key) {
      assert Stands(seen, flows, key);
      StandsMore(seen, flows, o, key);
    }
    Grouping.KeySetMore(seen, KeyOf, o);
    assert KeySet(seen + [o]) == Counted(flows, o).Keys;
  }

  // ----- the result -----

  function KeysOf(fs: seq<Flow>): seq<Key> { Grouping.KeysBy(fs, KeyOfFlow) }

  ghost predicate EachIsFlow(seen: seq<Seen>, fs: seq<Flow>) {
    forall i :: 0 <= i < |fs| ==> IsFlow(Members(seen, KeyOfFlow(fs[i])), fs[i])
  }

  /** One entry for each flow, in the order of capture and flow. */
  ghost predicate AreFlows(seen: seq<Seen>, fs: seq<Flow>) {
    IsListing(KeysOf(fs), TextsLeq, KeySet(seen)) && EachIsFlow(seen, fs)
  }

  /** `into_values`. */
  method Collect(ghost seen: seq<Seen>, flows: map<Key, Flow>) returns (r: seq<Flow>)
    requires Groups(seen, flows)
    ensures AreFlows(seen, r)
  {
    var keys;
    r, keys := Grouping.SortedValues(flows);
    CollectedAreFlows(seen, flows, keys, r);
  }

  lemma CollectedAreFlows(seen: seq<Seen>, flows: map<Key, Flow>, keys: seq<Key>, r: seq<Flow>)
    requires Groups(seen, flows) && IsListing(keys, TextsLeq, flows.Keys)
    requires |r| == |keys| && forall j :: 0 <= j < |keys| ==> keys[j] in flows && r[j] == flows[keys[j]]
    ensures AreFlows(seen, r)
  {
    forall i | 0 <= i < |r| ensures KeyOfFlow(r[i]) == keys[i] && IsFlow(Members(seen, KeyOfFlow(r[i])), r[i]) {
      assert Stands(seen, flows, keys[i]);
    }
    assert KeysOf(r) == keys;
  }

  // ----- no packet is lost -----

  function TotalPackets(fs: seq<Flow>): nat {
    if fs == [] then 0 else fs[0].packetCount + TotalPackets(fs[1..])
  }

  /** The packets of none of the flows before `n`. */
  function Others(seen: seq<Seen>, keys: set<Key>): seq<Seen> {
    Filter(seen, o => KeyOf(o) !in keys)
  }

  lemma {:induction false} OneGroupLess(seen: seq<Seen>, keys: set<Key>, key: Key)
    requires key !in keys
    ensures |Others(seen, keys)| == |Others(seen, keys + {key})| + |Members(seen, key)|
  {
    if seen != [] { OneGroupLess(seen[1..], keys, key); }
  }

  lemma {:induction false} CountsAddUp(seen: seq<Seen>, fs: seq<Flow>, keys: set<Key>)
    requires EachIsFlow(seen, fs) && forall i :: 0 <= i < |fs| ==> KeyOfFlow(fs[i]) !in keys
    requires forall i, j :: 0 <= i < j < |fs| ==> KeyOfFlow(fs[i]) != KeyOfFlow(fs[j])
    requires forall o :: o in seen && KeyOf(o) !in keys ==> exists i :: 0 <= i < |fs| && KeyOfFlow(fs[i]) == KeyOf(o)
    ensures TotalPackets(fs) == |Others(seen, keys)|
    decreases |fs|
  {
    if fs == [] {
      assert forall o :: o in Others(seen, keys) ==> o in seen && KeyOf(o) !in keys;
      SomeElement(Others(seen, keys));
    } else {
      var key := KeyOfFlow(fs[0]);
      OneGroupLess(seen, keys, key);
      forall o | o in seen && KeyOf(o) !in keys + {key}
        ensures exists i :: 0 <= i < |fs[1..]| && KeyOfFlow(fs[1..][i]) == KeyOf(o)
      {
        var i :| 0 <= i < |fs| && KeyOfFlow(fs[i]) == KeyOf(o);
        assert fs[1..][i - 1] == fs[i];
      }
      CountsAddUp(seen, fs[1..], keys + {key});
    }
  }

  /** The packet counts of the flows sum to the number of packets. */
  lemma PacketsAreConserved(seen: seq<Seen>, fs: seq<Flow>)
    requires AreFlows(seen, fs)
    ensures TotalPackets(fs) == |seen|
  {
    var keys := KeysOf(fs);
    forall o | o in seen ensures exists i :: 0 <= i < |fs| && KeyOfFlow(fs[i]) == KeyOf(o) {
      Grouping.KeyMember(seen, KeyOf, KeyOf(o));
      assert KeyOf(o) in keys;
      var i :| 0 <= i < |keys| && keys[i] == KeyOf(o);
      assert KeyOfFlow(fs[i]) == KeyOf(o);
    }
    assert forall i, j :: 0 <= i < j < |fs| ==> keys[i] == KeyOfFlow(fs[i]) && keys[j] == KeyOfFlow(fs[j]) && keys[i] != keys[j];
    CountsAddUp(seen, fs, {});
    NobodyLeftOut(seen);
  }

  lemma {:induction false} NobodyLeftOut(seen: seq<Seen>)
    ensures Others(seen, {}) == seen
  {
    if seen != [] { NobodyLeftOut(seen[1..]); }
  }

  // ----- field by field -----

  /** The packet counts for the flow. */
  predicate IsOf(o: Seen, f: Flow) { o.capture == f.capture && o.packet.flow == f.flow }

  /** By capture, then by name. */
  predicate Precedes(f: Flow, g: Flow) {
    if f.capture != g.capture then TextLeq(f.capture, g.capture) else f.flow != g.flow && TextLeq(f.flow, g.flow)
  }

  lemma KeyDecides(f: Flow, g: Flow)
    requires KeyOfFlow(f) != KeyOfFlow(g) && TextsLeq(KeyOfFlow(f), KeyOfFlow(g))
    ensures Precedes(f, g)
  {
    assert KeyOfFlow(f)[1..] == [f.flow] && KeyOfFlow(g)[1..] == [g.flow];
  }

  lemma FlowsInOrder(seen: seq<Seen>, fs: seq<Flow>, i: nat, j: nat)
    requires AreFlows(seen, fs) && i < j < |fs|
    ensures Precedes(fs[i], fs[j])
  {
    var keys := KeysOf(fs);
    assert keys[i] == KeyOfFlow(fs[i]) && keys[j] == KeyOfFlow(fs[j]);
    KeyDecides(fs[i], fs[j]);
  }

  /** No packet of a flow is before its first or behind its last time, and both are times of packets. */
  lemma FlowSpans(seen: seq<Seen>, fs: seq<Flow>, i: nat, o: Seen)
    requires AreFlows(seen, fs) && i < |fs| && o in seen && IsOf(o, fs[i]) && o.packet.timestampUs.Some?
    ensures fs[i].first.Some? && fs[i].last.Some?
    ensures fs[i].first.value <= o.packet.timestampUs.value <= fs[i].last.value
    ensures exists p, q :: p in seen && q in seen && IsOf(p, fs[i]) && IsOf(q, fs[i])
                           && p.packet.timestampUs == fs[i].first && q.packet.timestampUs == fs[i].last
  {
    var ms := Members(seen, KeyOfFlow(fs[i]));
    assert KeyOf(o) == KeyOfFlow(fs[i]) && o in ms;
    var k :| 0 <= k < |ms| && ms[k] == o;
    var p :| 0 <= p < |ms| && ms[p].packet.timestampUs == fs[i].first;
    var q :| 0 <= q < |ms| && ms[q].packet.timestampUs == fs[i].last;
    MemberIsOf(seen, fs[i], ms[p]);
    MemberIsOf(seen, fs[i], ms[q]);
  }

  lemma MemberIsOf(seen: seq<Seen>, f: Flow, o: Seen)
    requires o in Members(seen, KeyOfFlow(f))
    ensures o in seen && IsOf(o, f)
  {
    assert KeyOf(o) == KeyOfFlow(f);
    assert KeyOf(o)[0] == KeyOfFlow(f)[0] && KeyOf(o)[1] == KeyOfFlow(f)[1];
  }
}
