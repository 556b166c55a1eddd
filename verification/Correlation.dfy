/**
 When a temporal rule matches a pair of activities, and the index of suspicious events that answers
 it (`src/report_analysis/correlation.rs`).
 */
module Correlation {
  import opened Basics
  import opened Ordering
  import opened InstanceHistory

  datatype Evidence = Evidence(evidenceId: string, inferred: bool)

  datatype Activity = Activity(
    kind: string, pid: u32, parent: Option<u32>, time: u64, object_: string, auxiliary: string, evidence: Evidence)

  datatype Rule = Rule(
    id: string, first: string, second: string, group: string, score: u32, window: u64, relation: string)

  /** `scoreGroup` is "" when the finding has no details. */
  datatype Finding = Finding(
    ruleId: string, scoreGroup: string, explanation: string, evidence: seq<Evidence>, score: u32)

  const SUSPICIOUS_WINDOW: int := 120000
  const MAX_CHECKS: int := 1_000_000
  const MAX_EVIDENCE: int := 256
  const COVERAGE_RULE := "FH-COVERAGE-001"

  // ----- what a rule means, said without any index -----

  predicate SuspiciousKind(kind: string) {
    kind in ["injection", "credential_read", "persistence", "telemetry_tamper"]
  }

  /** A suspicious event of the same process run lies in the window that ends at `time`. */
  ghost predicate SuspiciousAt(processes: seq<Process>, events: seq<Activity>, pid: u32, time: u64) {
    exists e :: e in events && SuspiciousEvidence(processes, pid, time, e)
  }

  ghost predicate SuspiciousEvidence(processes: seq<Process>, pid: u32, time: u64, e: Activity) {
    && SuspiciousKind(e.kind) && e.pid == pid
    && e.time <= time && time - e.time <= SUSPICIOUS_WINDOW
    && Uninterrupted(processes, pid, e.time, time)
  }

  ghost predicate SameRun(processes: seq<Process>, a: Activity, b: Activity) {
    a.pid == b.pid && Uninterrupted(processes, a.pid, a.time, b.time)
  }

  ghost predicate ChildRun(processes: seq<Process>, a: Activity, b: Activity) {
    && b.parent == Some(a.pid)
    && Uninterrupted(processes, a.pid, a.time, b.time)
    && InstanceAt(processes, b.pid, b.time).Some?
  }

  ghost predicate Siblings(processes: seq<Process>, a: Activity, b: Activity) {
    && a.parent == b.parent && a.parent.Some?
    && Uninterrupted(processes, a.parent.value, a.time, b.time)
  }

  /** What a relation asks about the two activities; the last three concern suspicious events. */
  datatype Facts = Facts(
    sameRun: bool, childRun: bool, siblings: bool, firstSuspicious: bool, secondSuspicious: bool, parentSuspicious: bool)

  ghost function TrueFacts(a: Activity, b: Activity, processes: seq<Process>, events: seq<Activity>): Facts {
    Facts(
      SameRun(processes, a, b), ChildRun(processes, a, b), Siblings(processes, a, b),
      SuspiciousAt(processes, events, a.pid, a.time), SuspiciousAt(processes, events, b.pid, b.time),
      a.parent.Some? && SuspiciousAt(processes, events, a.parent.value, b.time))
  }

  predicate RelationHolds(relation: string, a: Activity, b: Activity, facts: Facts) {
    if relation == "payload_child" then
      facts.childRun && a.object_ != "" && a.object_ == b.object_
    else if relation == "parent_child" then
      facts.childRun
    else if relation == "child_behavior" then
      a.pid == b.pid && facts.sameRun && a.parent.Some? && !facts.parentSuspicious && facts.secondSuspicious
    else if relation == "pipe_child" then
      a.object_ != "" && a.object_ == b.object_ && a.pid != b.pid && (facts.childRun || facts.siblings)
    else if relation == "same_object" || relation == "same_payload" then
      facts.sameRun && a.object_ != "" && a.object_ == b.object_
    else if relation == "distinct_objects" then
      facts.sameRun && a.object_ != "" && b.object_ != "" && a.object_ != b.object_
    else if relation == "dns_address" then
      facts.sameRun && a.object_ == b.object_ && a.auxiliary != "" && facts.firstSuspicious
    else if relation == "same_process" then
      facts.sameRun
    else
      false
  }

  ghost predicate IsPair(rule: Rule, a: Activity, b: Activity, processes: seq<Process>, events: seq<Activity>) {
    && a.kind == rule.first && b.kind == rule.second
    && a.time != 0 && a.time < b.time && b.time - a.time <= rule.window
    && a.evidence.evidenceId != b.evidence.evidenceId
    && RelationHolds(rule.relation, a, b, TrueFacts(a, b, processes, events))
  }

  /** `id` belongs to some matching pair among all pairs of events. */
  ghost predicate PairId(rule: Rule, processes: seq<Process>, events: seq<Activity>, id: string) {
    exists a, b :: a in events && b in events && IsPair(rule, a, b, processes, events)
                   && (id == a.evidence.evidenceId || id == b.evidence.evidenceId)
  }

  // ----- the index -----

  type Suspicious = map<u32, map<Instance, seq<u64>>>

  datatype CorrelationIndex = CorrelationIndex(histories: map<u32, seq<Entry>>, suspicious: Suspicious)

  ghost predicate Ascending(times: seq<u64>) {
    forall i, j :: 0 <= i < j < |times| ==> times[i] <= times[j]
  }

  ghost predicate Ready(index: CorrelationIndex) {
    && (forall p :: p in index.histories ==> Searchable(index.histories[p]))
    && (forall p, i :: p in index.suspicious && i in index.suspicious[p] ==> Ascending(index.suspicious[p][i]))
  }

  function Times(suspicious: Suspicious, pid: u32, instance: Instance): seq<u64> {
    if pid in suspicious && instance in suspicious[pid] then suspicious[pid][instance] else []
  }

  function InstanceOf(index: CorrelationIndex, pid: u32, time: u64): Option<Instance>
    requires Ready(index)
  {
    Lookup(index.histories, pid, time)
  }

  function IsSuspicious(index: CorrelationIndex, pid: u32, time: u64): bool
    requires Ready(index)
  {
    var instance := InstanceOf(index, pid, time);
    instance.Some? &&
    var times := Times(index.suspicious, pid, instance.value);
    var end := PartitionPoint(times, (at: u64) => at <= time);
    end > 0 && time - times[end - 1] <= SUSPICIOUS_WINDOW
  }

  predicate Same(index: CorrelationIndex, a: Activity, b: Activity)
    requires Ready(index)
  {
    && a.pid == b.pid
    && InstanceOf(index, a.pid, a.time).Some?
    && InstanceOf(index, a.pid, a.time) == InstanceOf(index, b.pid, b.time)
  }

  predicate Related(index: CorrelationIndex, a: Activity, b: Activity)
    requires Ready(index)
  {
    && b.parent == Some(a.pid)
    && InstanceOf(index, a.pid, a.time).Some?
    && InstanceOf(index, a.pid, a.time) == InstanceOf(index, a.pid, b.time)
    && InstanceOf(index, b.pid, b.time).Some?
  }

  function IndexedFacts(a: Activity, b: Activity, index: CorrelationIndex): Facts
    requires Ready(index)
  {
    Facts(
      Same(index, a, b), Related(index, a, b),
      && a.parent == b.parent && a.parent.Some?
      && InstanceOf(index, a.parent.value, a.time).Some?
      && InstanceOf(index, a.parent.value, a.time) == InstanceOf(index, a.parent.value, b.time),
      IsSuspicious(index, a.pid, a.time), IsSuspicious(index, b.pid, b.time),
      a.parent.Some? && IsSuspicious(index, a.parent.value, b.time))
  }

  predicate Matches(rule: Rule, a: Activity, b: Activity, index: CorrelationIndex)
    requires Ready(index)
  {
    if a.time == 0 || b.time <= a.time || b.time - a.time > rule.window
       || a.evidence.evidenceId == b.evidence.evidenceId then
      false
    else
      RelationHolds(rule.relation, a, b, IndexedFacts(a, b, index))
  }

  // ----- building the suspicious-event lookup -----

  /** Event `e` is recorded under `(pid, instance)` at time `at`. */
  ghost predicate RecordedAs(processes: seq<Process>, e: Activity, pid: u32, instance: Instance, at: u64) {
    SuspiciousKind(e.kind) && e.pid == pid && e.time == at && InstanceAt(processes, pid, at) == Some(instance)
  }

  ghost predicate SomeRecordedAs(processes: seq<Process>, events: seq<Activity>, pid: u32, instance: Instance, at: u64) {
    exists e :: e in events && RecordedAs(processes, e, pid, instance, at)
  }

  ghost predicate Records(suspicious: Suspicious, processes: seq<Process>, events: seq<Activity>) {
    forall pid: u32, instance, at: u64 ::
      at in Times(suspicious, pid, instance) <==> SomeRecordedAs(processes, events, pid, instance, at)
  }

  ghost predicate Indexes(index: CorrelationIndex, processes: seq<Process>, events: seq<Activity>) {
    Ready(index) && IndexesHistories(index.histories, processes) && Records(index.suspicious, processes, events)
  }

  function Push(suspicious: Suspicious, pid: u32, instance: Instance, time: u64): (r: Suspicious)
    ensures forall p: u32, i ::
              Times(r, p, i) == if p == pid && i == instance then Times(suspicious, p, i) + [time]
                                else Times(suspicious, p, i)
  {
    var instances := if pid in suspicious then suspicious[pid] else map[];
    var times := if instance in instances then instances[instance] else [];
    suspicious[pid := instances[instance := times + [time]]]
  }

  lemma RecordsPush(suspicious: Suspicious, processes: seq<Process>, events: seq<Activity>, e: Activity, instance: Instance)
    requires Records(suspicious, processes, events)
    requires SuspiciousKind(e.kind) && InstanceAt(processes, e.pid, e.time) == Some(instance)
    ensures Records(Push(suspicious, e.pid, instance, e.time), processes, events + [e])
  {
    var pushed := Push(suspicious, e.pid, instance, e.time);
    forall pid: u32, i, at: u64
      ensures at in Times(pushed, pid, i) <==> SomeRecordedAs(processes, events + [e], pid, i, at)
    {
      PushedTimes(suspicious, e.pid, instance, e.time, pid, i, at);
      RecordedStep(processes, events, e, pid, i, at);
      OnlyRecordedAs(processes, e, instance, pid, i, at);
    }
  }

  lemma PushedTimes(suspicious: Suspicious, pid: u32, instance: Instance, time: u64, p: u32, i: Instance, at: u64)
    ensures at in Times(Push(suspicious, pid, instance, time), p, i) <==>
              at in Times(suspicious, p, i) || (p == pid && i == instance && at == time)
  {}

  lemma OnlyRecordedAs(processes: seq<Process>, e: Activity, instance: Instance, pid: u32, i: Instance, at: u64)
    requires SuspiciousKind(e.kind) && InstanceAt(processes, e.pid, e.time) == Some(instance)
    ensures RecordedAs(processes, e, pid, i, at) <==> e.pid == pid && instance == i && e.time == at
  {}

  lemma RecordedStep(processes: seq<Process>, events: seq<Activity>, e: Activity, pid: u32, i: Instance, at: u64)
    ensures SomeRecordedAs(processes, events + [e], pid, i, at) <==>
              SomeRecordedAs(processes, events, pid, i, at) || RecordedAs(processes, e, pid, i, at)
  {
    assert forall d :: d in events + [e] <==> d in events || d == e;
  }

  lemma RecordsSkip(suspicious: Suspicious, processes: seq<Process>, events: seq<Activity>, e: Activity)
    requires Records(suspicious, processes, events)
    requires !SuspiciousKind(e.kind) || InstanceAt(processes, e.pid, e.time).None?
    ensures Records(suspicious, processes, events + [e])
  {
    forall pid: u32, i, at: u64
      ensures at in Times(suspicious, pid, i) <==> SomeRecordedAs(processes, events + [e], pid, i, at)
    {
      RecordedStep(processes, events, e, pid, i, at);
    }
  }

  function SortTimes(suspicious: Suspicious): (r: Suspicious) {
    map pid | pid in suspicious ::
      map instance | instance in suspicious[pid] ::
        SortBy(suspicious[pid][instance], (a: u64, b: u64) => a <= b)
  }

  lemma SortTimesKeeps(suspicious: Suspicious)
    ensures forall pid: u32, i, at: u64 :: at in Times(SortTimes(suspicious), pid, i) <==> at in Times(suspicious, pid, i)
    ensures forall pid, i :: pid in SortTimes(suspicious) && i in SortTimes(suspicious)[pid] ==>
              Ascending(SortTimes(suspicious)[pid][i])
  {
    var leq := (a: u64, b: u64) => a <= b;
    forall pid, i | pid in suspicious && i in suspicious[pid]
      ensures Ascending(SortBy(suspicious[pid][i], leq))
      ensures forall at: u64 :: at in SortBy(suspicious[pid][i], leq) <==> at in suspicious[pid][i]
    {
      SortBySorted(suspicious[pid][i], leq);
    }
  }

  /** `CorrelationIndex::new`. */
  method NewIndex(processes: seq<Process>, events: seq<Activity>) returns (index: CorrelationIndex)
    ensures Indexes(index, processes, events)
  {
    var histories := BuildHistories(processes);
    var suspicious: Suspicious := map[];
    for i := 0 to |events|
      invariant Records(suspicious, processes, events[..i])
    {
      var event := events[i];
      assert events[..i + 1] == events[..i] + [event];
      LookupIsInstanceAt(histories, processes, event.pid, event.time);
      var instance := Lookup(histories, event.pid, event.time);
      if SuspiciousKind(event.kind) && instance.Some? {
        RecordsPush(suspicious, processes, events[..i], event, instance.value);
        suspicious := Push(suspicious, event.pid, instance.value, event.time);
      } else {
        RecordsSkip(suspicious, processes, events[..i], event);
      }
    }
    assert events[..|events|] == events;
    SortTimesKeeps(suspicious);
    index := CorrelationIndex(histories, SortTimes(suspicious));
  }

  // ----- the index decides what the rules mean -----

  lemma SameInstance(index: CorrelationIndex, processes: seq<Process>, events: seq<Activity>, pid: u32, from: u64, to: u64)
    requires Indexes(index, processes, events) && from <= to
    ensures (InstanceOf(index, pid, from).Some? && InstanceOf(index, pid, from) == InstanceOf(index, pid, to)) <==>
              Uninterrupted(processes, pid, from, to)
  {
    LookupIsInstanceAt(index.histories, processes, pid, from);
    LookupIsInstanceAt(index.histories, processes, pid, to);
    if InstanceAt(processes, pid, from).Some? {
      SameInstanceIffUninterrupted(processes, pid, from, to);
    }
  }

  /** Being recorded under the instance of `time` means being evidence for `time`. */
  lemma RecordedIsEvidence(processes: seq<Process>, e: Activity, pid: u32, time: u64, instance: Instance)
    requires InstanceAt(processes, pid, time) == Some(instance)
    requires e.time <= time && time - e.time <= SUSPICIOUS_WINDOW
    ensures RecordedAs(processes, e, pid, instance, e.time) <==> SuspiciousEvidence(processes, pid, time, e)
  {
    if InstanceAt(processes, pid, e.time).Some? {
      SameInstanceIffUninterrupted(processes, pid, e.time, time);
    }
  }

  predicate RecordedInWindow(times: seq<u64>, time: u64) {
    exists at: u64 :: at in times && at <= time && time - at <= SUSPICIOUS_WINDOW
  }

  /** The last recorded time up to `time` decides whether any lies in the window. */
  lemma LastInWindow(times: seq<u64>, time: u64, end: nat)
    requires Ascending(times) && end <= |times|
    requires forall i :: 0 <= i < end ==> times[i] <= time
    requires forall i :: end <= i < |times| ==> time < times[i]
    ensures (end > 0 && time - times[end - 1] <= SUSPICIOUS_WINDOW) <==> RecordedInWindow(times, time)
  {
    if end > 0 {
      assert times[end - 1] in times;
      forall at: u64 | at in times && at <= time ensures at <= times[end - 1] {
        var i :| 0 <= i < |times| && times[i] == at;
        assert i < end;
      }
    }
  }

  lemma SuspiciousByTimes(index: CorrelationIndex, pid: u32, time: u64, instance: Instance)
    requires Ready(index) && InstanceOf(index, pid, time) == Some(instance)
    ensures IsSuspicious(index, pid, time) <==> RecordedInWindow(Times(index.suspicious, pid, instance), time)
  {
    var times := Times(index.suspicious, pid, instance);
    assert Ascending(times);
    LastInWindow(times, time, PartitionPoint(times, (at: u64) => at <= time));
  }

  lemma NoInstanceNoEvidence(processes: seq<Process>, events: seq<Activity>, pid: u32, time: u64)
    requires InstanceAt(processes, pid, time).None?
    ensures !SuspiciousAt(processes, events, pid, time)
  {
    forall e: Activity | e in events && e.time <= time ensures !Uninterrupted(processes, pid, e.time, time) {
      if InstanceAt(processes, pid, e.time).Some? { SameInstanceIffUninterrupted(processes, pid, e.time, time); }
    }
  }

  /** The indexed window test is exactly "some suspicious event of this very run in the window". */
  lemma SuspiciousIsExact(index: CorrelationIndex, processes: seq<Process>, events: seq<Activity>, pid: u32, time: u64)
    requires Indexes(index, processes, events)
    ensures IsSuspicious(index, pid, time) <==> SuspiciousAt(processes, events, pid, time)
  {
    LookupIsInstanceAt(index.histories, processes, pid, time);
    var instance := InstanceOf(index, pid, time);
    if instance.None? {
      NoInstanceNoEvidence(processes, events, pid, time);
    } else {
      SuspiciousByTimes(index, pid, time, instance.value);
      TimesAreEvidence(index.suspicious, processes, events, pid, time, instance.value);
    }
  }

  lemma TimesAreEvidence(suspicious: Suspicious, processes: seq<Process>, events: seq<Activity>, pid: u32, time: u64,
                         instance: Instance)
    requires Records(suspicious, processes, events) && InstanceAt(processes, pid, time) == Some(instance)
    ensures RecordedInWindow(Times(suspicious, pid, instance), time) <==> SuspiciousAt(processes, events, pid, time)
  {
    var times := Times(suspicious, pid, instance);
    if at: u64 :| at in times && at <= time && time - at <= SUSPICIOUS_WINDOW {
      var e :| e in events && RecordedAs(processes, e, pid, instance, at);
      RecordedIsEvidence(processes, e, pid, time, instance);
    }
    if e :| e in events && SuspiciousEvidence(processes, pid, time, e) {
      RecordedIsEvidence(processes, e, pid, time, instance);
      assert e.time in times;
    }
  }

  lemma SameIsExact(index: CorrelationIndex, processes: seq<Process>, events: seq<Activity>, a: Activity, b: Activity)
    requires Indexes(index, processes, events) && a.time <= b.time
    ensures Same(index, a, b) <==> SameRun(processes, a, b)
    ensures Related(index, a, b) <==> ChildRun(processes, a, b)
  {
    SameInstance(index, processes, events, a.pid, a.time, b.time);
    LookupIsInstanceAt(index.histories, processes, b.pid, b.time);
  }

  /** Indexed matching agrees with the index-free meaning of every rule. */
  lemma MatchesIsExact(rule: Rule, a: Activity, b: Activity, index: CorrelationIndex,
                       processes: seq<Process>, events: seq<Activity>)
    requires Indexes(index, processes, events)
    requires a.kind == rule.first && b.kind == rule.second
    ensures Matches(rule, a, b, index) <==> IsPair(rule, a, b, processes, events)
  {
    if a.time <= b.time {
      SameIsExact(index, processes, events, a, b);
      SuspiciousIsExact(index, processes, events, b.pid, b.time);
      SuspiciousIsExact(index, processes, events, a.pid, a.time);
      if a.parent.Some? {
        SuspiciousIsExact(index, processes, events, a.parent.value, b.time);
        SameInstance(index, processes, events, a.parent.value, a.time, b.time);
      }
      assert IndexedFacts(a, b, index) == TrueFacts(a, b, processes, events);
    }
  }
}
