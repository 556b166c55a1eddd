/**
 What the relations of the temporal rules ask for (`matches` in `src/report_analysis/correlation.rs`),
 said of the pairs that they match and by comparing one relation with another.
 */
module RelationLaws {
  import opened Basics
  import opened InstanceHistory
  import opened Correlation

  /** Whether the rule would match the pair if it had this relation. */
  ghost predicate Pairs(relation: string, rule: Rule, a: Activity, b: Activity, processes: seq<Process>, events: seq<Activity>) {
    IsPair(rule.(relation := relation), a, b, processes, events)
  }

  /** What every relation asks for: the two kinds, the second later but in the window, and two pieces of evidence. */
  predicate Eligible(rule: Rule, a: Activity, b: Activity) {
    && a.kind == rule.first && b.kind == rule.second
    && 0 < a.time < b.time <= a.time + rule.window
    && a.evidence.evidenceId != b.evidence.evidenceId
  }

  lemma PairsExactly(relation: string, rule: Rule, a: Activity, b: Activity, processes: seq<Process>, events: seq<Activity>)
    ensures Pairs(relation, rule, a, b, processes, events) <==>
              Eligible(rule, a, b) && RelationHolds(relation, a, b, TrueFacts(a, b, processes, events))
  {}

  // What a relation asks, whatever the facts are.

  lemma AsksForRuns(a: Activity, b: Activity, facts: Facts)
    ensures RelationHolds("same_process", a, b, facts) <==> facts.sameRun
    ensures RelationHolds("parent_child", a, b, facts) <==> facts.childRun
  {}

  lemma AsksForObjects(a: Activity, b: Activity, facts: Facts)
    ensures RelationHolds("same_object", a, b, facts) <==> facts.sameRun && a.object_ == b.object_ != ""
    ensures RelationHolds("same_payload", a, b, facts) <==> facts.sameRun && a.object_ == b.object_ != ""
    ensures RelationHolds("distinct_objects", a, b, facts) <==>
              facts.sameRun && a.object_ != "" && b.object_ != "" && a.object_ != b.object_
  {}

  lemma AsksForChildren(a: Activity, b: Activity, facts: Facts)
    ensures RelationHolds("payload_child", a, b, facts) <==> facts.childRun && a.object_ == b.object_ != ""
    ensures RelationHolds("pipe_child", a, b, facts) <==>
              a.object_ == b.object_ != "" && a.pid != b.pid && (facts.childRun || facts.siblings)
  {}

  lemma AsksForSuspicion(a: Activity, b: Activity, facts: Facts)
    ensures RelationHolds("child_behavior", a, b, facts) <==>
              a.pid == b.pid && facts.sameRun && a.parent.Some? && facts.secondSuspicious && !facts.parentSuspicious
    ensures RelationHolds("dns_address", a, b, facts) <==>
              facts.sameRun && a.object_ == b.object_ && a.auxiliary != "" && facts.firstSuspicious
  {}

  /** The two relations that ask for nothing but runs: of one process, or of a process and its child. */
  lemma RunsDecide(rule: Rule, a: Activity, b: Activity, processes: seq<Process>, events: seq<Activity>)
    ensures Pairs("same_process", rule, a, b, processes, events) <==>
              Eligible(rule, a, b) && a.pid == b.pid && Uninterrupted(processes, a.pid, a.time, b.time)
    ensures Pairs("parent_child", rule, a, b, processes, events) <==>
              && Eligible(rule, a, b) && b.parent == Some(a.pid) && Uninterrupted(processes, a.pid, a.time, b.time)
              && InstanceAt(processes, b.pid, b.time).Some?
  {
    PairsExactly("same_process", rule, a, b, processes, events);
    PairsExactly("parent_child", rule, a, b, processes, events);
    AsksForRuns(a, b, TrueFacts(a, b, processes, events));
  }

  /**
   Two events of one run that name an object each match as the same object or as distinct objects,
   never as both, and it is the equality of the objects that decides. Without two objects they match as neither.
   */
  lemma ObjectsDecide(rule: Rule, a: Activity, b: Activity, processes: seq<Process>, events: seq<Activity>)
    ensures var named := a.object_ != "" && b.object_ != "" && Pairs("same_process", rule, a, b, processes, events);
            && (Pairs("same_object", rule, a, b, processes, events) <==> named && a.object_ == b.object_)
            && (Pairs("same_payload", rule, a, b, processes, events) <==> named && a.object_ == b.object_)
            && (Pairs("distinct_objects", rule, a, b, processes, events) <==> named && a.object_ != b.object_)
  {
    PairsExactly("same_process", rule, a, b, processes, events);
    PairsExactly("same_object", rule, a, b, processes, events);
    PairsExactly("same_payload", rule, a, b, processes, events);
    PairsExactly("distinct_objects", rule, a, b, processes, events);
    AsksForRuns(a, b, TrueFacts(a, b, processes, events));
    AsksForObjects(a, b, TrueFacts(a, b, processes, events));
  }

  /** A payload passes from parent to child; a pipe also connects two processes with the same running parent. */
  lemma ChildrenDecide(rule: Rule, a: Activity, b: Activity, processes: seq<Process>, events: seq<Activity>)
    ensures Pairs("payload_child", rule, a, b, processes, events) <==>
              Pairs("parent_child", rule, a, b, processes, events) && a.object_ == b.object_ != ""
    ensures Pairs("pipe_child", rule, a, b, processes, events) <==>
              && Eligible(rule, a, b) && a.object_ == b.object_ != "" && a.pid != b.pid
              && (|| Pairs("parent_child", rule, a, b, processes, events)
                  || (a.parent.Some? && b.parent == a.parent && Uninterrupted(processes, a.parent.value, a.time, b.time)))
  {
    PairsExactly("parent_child", rule, a, b, processes, events);
    PairsExactly("payload_child", rule, a, b, processes, events);
    PairsExactly("pipe_child", rule, a, b, processes, events);
    AsksForRuns(a, b, TrueFacts(a, b, processes, events));
    AsksForChildren(a, b, TrueFacts(a, b, processes, events));
  }

  /** The other two are about one run, and about suspicious events of it or of its parent. */
  lemma SuspicionDecides(rule: Rule, a: Activity, b: Activity, processes: seq<Process>, events: seq<Activity>)
    ensures Pairs("child_behavior", rule, a, b, processes, events) <==>
              && Pairs("same_process", rule, a, b, processes, events) && a.parent.Some?
              && SuspiciousAt(processes, events, b.pid, b.time) && !SuspiciousAt(processes, events, a.parent.value, b.time)
    ensures Pairs("dns_address", rule, a, b, processes, events) <==>
              && Pairs("same_process", rule, a, b, processes, events) && a.object_ == b.object_ && a.auxiliary != ""
              && SuspiciousAt(processes, events, a.pid, a.time)
  {
    PairsExactly("same_process", rule, a, b, processes, events);
    PairsExactly("child_behavior", rule, a, b, processes, events);
    PairsExactly("dns_address", rule, a, b, processes, events);
    AsksForRuns(a, b, TrueFacts(a, b, processes, events));
    AsksForSuspicion(a, b, TrueFacts(a, b, processes, events));
  }

  /** There is a suspicious event of the same run at most two minutes before. */
  lemma SuspicionLasts(processes: seq<Process>, events: seq<Activity>, pid: u32, time: u64)
    ensures SuspiciousAt(processes, events, pid, time) <==>
              exists e :: e in events && SuspiciousKind(e.kind) && e.pid == pid && e.time <= time <= e.time + 120_000
                          && Uninterrupted(processes, pid, e.time, time)
  {
    if e :| e in events && SuspiciousKind(e.kind) && e.pid == pid && e.time <= time <= e.time + 120_000
            && Uninterrupted(processes, pid, e.time, time) {
      assert SuspiciousEvidence(processes, pid, time, e);
    }
    if e :| e in events && SuspiciousEvidence(processes, pid, time, e) {
      assert e.time <= time <= e.time + 120_000;
    }
  }

  const RELATIONS := {"payload_child", "parent_child", "child_behavior", "pipe_child", "same_object", "same_payload",
                      "distinct_objects", "dns_address", "same_process"}

  lemma AsksTooMuch(relation: string, a: Activity, b: Activity, facts: Facts)
    requires relation !in RELATIONS
    ensures !RelationHolds(relation, a, b, facts)
  {}

  lemma UnknownNeverPairs(relation: string, rule: Rule, a: Activity, b: Activity, processes: seq<Process>, events: seq<Activity>)
    requires relation !in RELATIONS
    ensures !Pairs(relation, rule, a, b, processes, events)
  {
    PairsExactly(relation, rule, a, b, processes, events);
    AsksTooMuch(relation, a, b, TrueFacts(a, b, processes, events));
  }

  // ----- of the evidence that the rules report -----

  ghost predicate Evidences(relation: string, rule: Rule, processes: seq<Process>, events: seq<Activity>, id: string) {
    PairId(rule.(relation := relation), processes, events, id)
  }

  predicate NamesObjects(events: seq<Activity>) {
    forall e :: e in events ==> e.object_ != ""
  }

  lemma PairHasId(relation: string, rule: Rule, processes: seq<Process>, events: seq<Activity>, id: string, a: Activity, b: Activity)
    requires a in events && b in events && Pairs(relation, rule, a, b, processes, events)
    requires id == a.evidence.evidenceId || id == b.evidence.evidenceId
    ensures Evidences(relation, rule, processes, events, id)
  {}

  lemma IdHasPair(relation: string, rule: Rule, processes: seq<Process>, events: seq<Activity>, id: string) returns (a: Activity, b: Activity)
    requires Evidences(relation, rule, processes, events, id)
    ensures a in events && b in events && Pairs(relation, rule, a, b, processes, events)
    ensures id == a.evidence.evidenceId || id == b.evidence.evidenceId
  {
    var c, d :| c in events && d in events && IsPair(rule.(relation := relation), c, d, processes, events)
             && (id == c.evidence.evidenceId || id == d.evidence.evidenceId);
    a, b := c, d;
  }

  /** Where every event names an object, equal and distinct objects together account for all evidence of one process. */
  lemma ObjectsShareTheEvidence(rule: Rule, processes: seq<Process>, events: seq<Activity>, id: string)
    requires NamesObjects(events)
    ensures Evidences("same_process", rule, processes, events, id) <==>
              || Evidences("same_object", rule, processes, events, id)
              || Evidences("distinct_objects", rule, processes, events, id)
  {
    if Evidences("same_process", rule, processes, events, id) {
      var a, b := IdHasPair("same_process", rule, processes, events, id);
      ObjectsDecide(rule, a, b, processes, events);
      PairHasId(if a.object_ == b.object_ then "same_object" else "distinct_objects", rule, processes, events, id, a, b);
    }
    if Evidences("same_object", rule, processes, events, id) {
      var a, b := IdHasPair("same_object", rule, processes, events, id);
      ObjectsDecide(rule, a, b, processes, events);
      PairHasId("same_process", rule, processes, events, id, a, b);
    }
    if Evidences("distinct_objects", rule, processes, events, id) {
      var a, b := IdHasPair("distinct_objects", rule, processes, events, id);
      ObjectsDecide(rule, a, b, processes, events);
      PairHasId("same_process", rule, processes, events, id, a, b);
    }
  }

  /** A payload in a child is evidence of a child. */
  lemma ChildrenShareTheEvidence(rule: Rule, processes: seq<Process>, events: seq<Activity>, id: string)
    requires Evidences("payload_child", rule, processes, events, id)
    ensures Evidences("parent_child", rule, processes, events, id)
  {
    var a, b := IdHasPair("payload_child", rule, processes, events, id);
    ChildrenDecide(rule, a, b, processes, events);
    PairHasId("parent_child", rule, processes, events, id, a, b);
  }
}
