/**
 The budgeted, windowed search for matching pairs (`build_from_events` in
 `src/report_analysis/correlation.rs`).
 */
module PairSearch {
  import opened Basics
  import opened Ordering
  import opened InstanceHistory
  import opened Correlation

  /** Activities are ordered by `(time, pid, kind, object, evidence id)`. */
  predicate EventBefore(a: Activity, b: Activity) {
    if a.time != b.time then a.time < b.time
    else if a.pid != b.pid then a.pid < b.pid
    else TextsLeq(Names(a), Names(b))
  }

  function Names(a: Activity): seq<string> {
    [a.kind, a.object_, a.evidence.evidenceId]
  }

  lemma EventBeforePreorder()
    ensures TotalPreorder(EventBefore)
  {
    forall a, b ensures EventBefore(a, b) || EventBefore(b, a) {
      TextsLeqTotal(Names(a), Names(b));
    }
    forall a, b, c | EventBefore(a, b) && EventBefore(b, c) ensures EventBefore(a, c) {
      if a.time == b.time == c.time && a.pid == b.pid == c.pid {
        TextsLeqTransitive(Names(a), Names(b), Names(c));
      }
    }
  }

  ghost predicate InOrder(events: seq<Activity>) {
    forall i, j :: 0 <= i < j < |events| ==> events[i].time <= events[j].time
  }

  lemma {:induction false} FilterInOrder(events: seq<Activity>, keep: Activity -> bool)
    requires InOrder(events)
    ensures InOrder(Filter(events, keep))
  {
    if events != [] {
      FilterInOrder(events[1..], keep);
      var rest := Filter(events[1..], keep);
      forall i | 0 <= i < |rest| ensures events[0].time <= rest[i].time {
        assert rest[i] in events[1..];
      }
    }
  }

  // ----- the pairs that are looked at -----

  type Pair = (Activity, Activity)

  type Test = (Activity, Activity) -> bool

  function OfKind(kind: string): Activity -> bool { (e: Activity) => e.kind == kind }

  /** The second activities of a rule that come after `a` within its window. */
  function After(rule: Rule, a: Activity): Activity -> bool {
    (e: Activity) => a.time < e.time && e.time - a.time <= rule.window
  }

  function SecondOf(rule: Rule, a: Activity): Activity -> bool {
    (e: Activity) => e.kind == rule.second && a.time < e.time && e.time - a.time <= rule.window
  }

  function PairsWith(a: Activity, bs: seq<Activity>): (r: seq<Pair>)
    ensures |r| == |bs| && forall i :: 0 <= i < |bs| ==> r[i] == (a, bs[i])
  {
    seq(|bs|, i requires 0 <= i < |bs| => (a, bs[i]))
  }

  function PairsFrom(rule: Rule, firsts: seq<Activity>, events: seq<Activity>): seq<Pair> {
    if firsts == [] then []
    else
      var a := firsts[|firsts| - 1];
      PairsFrom(rule, firsts[..|firsts| - 1], events) + PairsWith(a, Filter(events, SecondOf(rule, a)))
  }

  /** All pairs of the right kinds within the window of a rule, by scanning all events. */
  function PairsIn(rule: Rule, events: seq<Activity>): seq<Pair> {
    PairsFrom(rule, Filter(events, OfKind(rule.first)), events)
  }

  /** The evidence of the matching pairs. */
  ghost function Ids(pairs: seq<Pair>, means: Test): set<string> {
    if pairs == [] then {}
    else
      var (a, b) := pairs[|pairs| - 1];
      Ids(pairs[..|pairs| - 1], means) + if means(a, b) then {a.evidence.evidenceId, b.evidence.evidenceId} else {}
  }

  /** A further matching pair is met when the evidence is full already. */
  ghost predicate FullAt(pairs: seq<Pair>, means: Test, n: nat)
    requires n < |pairs|
  {
    means(pairs[n].0, pairs[n].1) && |Ids(pairs[..n], means)| >= MAX_EVIDENCE
  }

  ghost predicate Overfull(pairs: seq<Pair>, means: Test) {
    exists n: nat :: n < |pairs| && FullAt(pairs, means, n)
  }

  /** Where a search with room for `room` pairs stops that has got to the pair `n`. */
  ghost function Reach(pairs: seq<Pair>, means: Test, room: nat, n: nat): (r: nat)
    requires n <= |pairs|
    ensures n <= r <= |pairs|
    decreases |pairs| - n
  {
    if n == |pairs| || n >= room || FullAt(pairs, means, n) then n else Reach(pairs, means, room, n + 1)
  }

  /** The search gets to the end exactly when there is room for all pairs and the evidence suffices. */
  lemma {:induction false} ReachesEnd(pairs: seq<Pair>, means: Test, room: nat, n: nat)
    requires n <= |pairs| && n <= room
    ensures Reach(pairs, means, room, n) == |pairs| <==>
              |pairs| <= room && forall k: nat :: n <= k < |pairs| ==> !FullAt(pairs, means, k)
    decreases |pairs| - n
  {
    if n < |pairs| && n < room && !FullAt(pairs, means, n) { ReachesEnd(pairs, means, room, n + 1); }
  }

  lemma {:induction false} IdOfPair(pairs: seq<Pair>, means: Test, id: string)
    ensures id in Ids(pairs, means) <==>
              exists p :: p in pairs && means(p.0, p.1) && (id == p.0.evidence.evidenceId || id == p.1.evidence.evidenceId)
  {
    if pairs != [] {
      var rest, last := pairs[..|pairs| - 1], pairs[|pairs| - 1];
      IdOfPair(rest, means, id);
      assert pairs == rest + [last];
    }
  }

  lemma {:induction false} IdsGrow(pairs: seq<Pair>, means: Test, n: nat)
    requires n <= |pairs|
    ensures Ids(pairs[..n], means) <= Ids(pairs, means)
    decreases |pairs|
  {
    if n < |pairs| {
      IdsGrow(pairs[..|pairs| - 1], means, n);
      assert pairs[..|pairs| - 1][..n] == pairs[..n];
    } else {
      assert pairs[..n] == pairs;
    }
  }

  /** One more pair, as the search files it. */
  lemma IdsMore(pairs: seq<Pair>, means: Test, n: nat)
    requires n < |pairs|
    ensures Ids(pairs[..n + 1], means)
         == Ids(pairs[..n], means) + if means(pairs[n].0, pairs[n].1)
                                     then {pairs[n].0.evidence.evidenceId, pairs[n].1.evidence.evidenceId} else {}
  {
    assert pairs[..n + 1][..n] == pairs[..n];
  }

  /** What is found never exceeds the limit by more than the second half of a pair. */
  lemma {:induction false} ReachedIsSmall(pairs: seq<Pair>, means: Test, room: nat, n: nat)
    requires n <= |pairs| && |Ids(pairs[..n], means)| <= MAX_EVIDENCE + 1
    ensures |Ids(pairs[..Reach(pairs, means, room, n)], means)| <= MAX_EVIDENCE + 1
    decreases |pairs| - n
  {
    if n < |pairs| && n < room && !FullAt(pairs, means, n) {
      IdsMore(pairs, means, n);
      TwoMore(Ids(pairs[..n], means), pairs[n].0.evidence.evidenceId, pairs[n].1.evidence.evidenceId);
      ReachedIsSmall(pairs, means, room, n + 1);
    }
  }

  lemma TwoMore(ids: set<string>, a: string, b: string)
    ensures |ids + {a, b}| <= |ids| + 2
  {
    assert ids + {a, b} == ids + {a} + {b};
  }

  lemma {:induction false} PairOf(rule: Rule, firsts: seq<Activity>, events: seq<Activity>, a: Activity, b: Activity)
    ensures (a, b) in PairsFrom(rule, firsts, events) <==> a in firsts && b in Filter(events, SecondOf(rule, a))
  {
    if firsts != [] {
      var rest, last := firsts[..|firsts| - 1], firsts[|firsts| - 1];
      PairOf(rule, rest, events, a, b);
      assert firsts == rest + [last];
      var bs := Filter(events, SecondOf(rule, last));
      if a == last && b in bs {
        var k :| 0 <= k < |bs| && bs[k] == b;
        assert PairsWith(last, bs)[k] == (a, b);
      }
    }
  }

  // ----- what a rule means -----

  ghost function Meaning(rule: Rule, processes: seq<Process>, events: seq<Activity>): Test {
    (a: Activity, b: Activity) => IsPair(rule, a, b, processes, events)
  }

  /** The order in which activities are visited. */
  function Visited(events: seq<Activity>): seq<Activity> { SortBy(events, EventBefore) }

  function Candidates(rule: Rule, events: seq<Activity>): seq<Pair> { PairsIn(rule, Visited(events)) }

  lemma VisitedEvents(events: seq<Activity>)
    ensures InOrder(Visited(events)) && forall e :: e in events <==> e in Visited(events)
  {
    EventBeforePreorder();
    SortBySorted(events, EventBefore);
  }

  /** No matching pair lies outside the windows. */
  lemma WindowIsEnough(rule: Rule, processes: seq<Process>, events: seq<Activity>, a: Activity, b: Activity)
    requires a in events && b in events && IsPair(rule, a, b, processes, events)
    ensures (a, b) in Candidates(rule, events)
  {
    VisitedEvents(events);
    PairOf(rule, Filter(Visited(events), OfKind(rule.first)), Visited(events), a, b);
  }

  /** The evidence of all candidates is that of all matching pairs. */
  lemma AllIds(rule: Rule, processes: seq<Process>, events: seq<Activity>, id: string)
    ensures id in Ids(Candidates(rule, events), Meaning(rule, processes, events)) <==> PairId(rule, processes, events, id)
  {
    var pairs, means := Candidates(rule, events), Meaning(rule, processes, events);
    IdOfPair(pairs, means, id);
    if PairId(rule, processes, events, id) {
      var a, b :| a in events && b in events && IsPair(rule, a, b, processes, events)
                  && (id == a.evidence.evidenceId || id == b.evidence.evidenceId);
      WindowIsEnough(rule, processes, events, a, b);
      assert means((a, b).0, (a, b).1);
    }
    if id in Ids(pairs, means) {
      var p :| p in pairs && means(p.0, p.1) && (id == p.0.evidence.evidenceId || id == p.1.evidence.evidenceId);
      VisitedEvents(events);
      PairOf(rule, Filter(Visited(events), OfKind(rule.first)), Visited(events), p.0, p.1);
    }
  }

  // ----- the budget -----

  /** How many pairs the first `k` rules have in their windows. */
  function Spent(rules: seq<Rule>, k: nat, events: seq<Activity>): nat
    requires k <= |rules|
  {
    if k == 0 then 0 else Spent(rules, k - 1, events) + |Candidates(rules[k - 1], events)|
  }

  /** The first `k` rules have more pairs than the budget allows, or one of them more evidence. */
  ghost predicate Exceeds(rules: seq<Rule>, k: nat, processes: seq<Process>, events: seq<Activity>)
    requires k <= |rules|
  {
    k > 0 && (
      || Exceeds(rules, k - 1, processes, events)
      || Spent(rules, k, events) > MAX_CHECKS
      || Overfull(Candidates(rules[k - 1], events), Meaning(rules[k - 1], processes, events)))
  }

  /** How many pairs may still be looked at. */
  ghost function Room(rules: seq<Rule>, k: nat, processes: seq<Process>, events: seq<Activity>): nat
    requires k <= |rules|
  {
    if Exceeds(rules, k, processes, events) || Spent(rules, k, events) > MAX_CHECKS then 0
    else MAX_CHECKS - Spent(rules, k, events)
  }

  /** The evidence that is found for a rule: all of it, or what was found before the search stopped. */
  ghost function FoundIds(rules: seq<Rule>, k: nat, processes: seq<Process>, events: seq<Activity>): set<string>
    requires k < |rules|
  {
    var pairs, means := Candidates(rules[k], events), Meaning(rules[k], processes, events);
    Ids(pairs[..Reach(pairs, means, Room(rules, k, processes, events), 0)], means)
  }

  lemma ExceedsGrows(rules: seq<Rule>, j: nat, k: nat, processes: seq<Process>, events: seq<Activity>)
    requires j <= k <= |rules| && Exceeds(rules, j, processes, events)
    ensures Exceeds(rules, k, processes, events)
    decreases k - j
  {
    if j < k { ExceedsGrows(rules, j, k - 1, processes, events); }
  }

  /** Within the budget a rule finds the evidence of all matching pairs; in any case nothing else. */
  lemma FoundIsExact(rules: seq<Rule>, k: nat, processes: seq<Process>, events: seq<Activity>, id: string)
    requires k < |rules|
    ensures id in FoundIds(rules, k, processes, events) ==> PairId(rules[k], processes, events, id)
    ensures !Exceeds(rules, k + 1, processes, events) && PairId(rules[k], processes, events, id) ==>
              id in FoundIds(rules, k, processes, events)
    ensures |FoundIds(rules, k, processes, events)| <= MAX_EVIDENCE + 1
  {
    var pairs, means := Candidates(rules[k], events), Meaning(rules[k], processes, events);
    var room := Room(rules, k, processes, events);
    var stop := Reach(pairs, means, room, 0);
    AllIds(rules[k], processes, events, id);
    IdsGrow(pairs, means, stop);
    ReachedIsSmall(pairs, means, room, 0);
    ReachesEnd(pairs, means, room, 0);
    if !Exceeds(rules, k + 1, processes, events) { assert pairs[..stop] == pairs; }
  }

  /** Less than 256 pieces of evidence belong to matching pairs of the rule. */
  ghost predicate Modest(rule: Rule, processes: seq<Process>, events: seq<Activity>) {
    exists ids: set<string> :: |ids| < 256 && HoldsPairIds(ids, rule, processes, events)
  }

  ghost predicate HoldsPairIds(ids: set<string>, rule: Rule, processes: seq<Process>, events: seq<Activity>) {
    forall id :: PairId(rule, processes, events, id) ==> id in ids
  }

  lemma ModestIsNotOverfull(rule: Rule, processes: seq<Process>, events: seq<Activity>)
    requires Modest(rule, processes, events)
    ensures !Overfull(Candidates(rule, events), Meaning(rule, processes, events))
  {
    var pairs, means := Candidates(rule, events), Meaning(rule, processes, events);
    var ids: set<string> :| |ids| < MAX_EVIDENCE && HoldsPairIds(ids, rule, processes, events);
    forall id | id in Ids(pairs, means) ensures id in ids { AllIds(rule, processes, events, id); }
    forall n: nat | n < |pairs| ensures !FullAt(pairs, means, n) {
      IdsGrow(pairs, means, n);
      Smaller(Ids(pairs[..n], means), ids);
    }
  }

  ghost predicate AllModest(rules: seq<Rule>, k: nat, processes: seq<Process>, events: seq<Activity>)
    requires k <= |rules|
  {
    k > 0 ==> AllModest(rules, k - 1, processes, events) && Modest(rules[k - 1], processes, events)
  }

  ghost predicate NoneOverfull(rules: seq<Rule>, k: nat, processes: seq<Process>, events: seq<Activity>)
    requires k <= |rules|
  {
    k > 0 ==>
      && NoneOverfull(rules, k - 1, processes, events)
      && !Overfull(Candidates(rules[k - 1], events), Meaning(rules[k - 1], processes, events))
  }

  lemma {:induction false} ModestAreNotOverfull(rules: seq<Rule>, k: nat, processes: seq<Process>, events: seq<Activity>)
    requires k <= |rules| && AllModest(rules, k, processes, events)
    ensures NoneOverfull(rules, k, processes, events)
  {
    if k > 0 {
      ModestAreNotOverfull(rules, k - 1, processes, events);
      ModestIsNotOverfull(rules[k - 1], processes, events);
    }
  }

  lemma EarlierSpent(rules: seq<Rule>, k: nat, processes: seq<Process>, events: seq<Activity>)
    requires 0 < k <= |rules| && Spent(rules, k, events) <= MAX_CHECKS && NoneOverfull(rules, k, processes, events)
    ensures Spent(rules, k - 1, events) <= MAX_CHECKS && NoneOverfull(rules, k - 1, processes, events)
    ensures !Overfull(Candidates(rules[k - 1], events), Meaning(rules[k - 1], processes, events))
  {}

  lemma NotExceeded(rules: seq<Rule>, k: nat, processes: seq<Process>, events: seq<Activity>)
    requires 0 < k <= |rules| && !Exceeds(rules, k - 1, processes, events) && Spent(rules, k, events) <= MAX_CHECKS
    requires !Overfull(Candidates(rules[k - 1], events), Meaning(rules[k - 1], processes, events))
    ensures !Exceeds(rules, k, processes, events)
  {}

  lemma {:induction false} WithinSpent(rules: seq<Rule>, k: nat, processes: seq<Process>, events: seq<Activity>)
    requires k <= |rules| && Spent(rules, k, events) <= MAX_CHECKS && NoneOverfull(rules, k, processes, events)
    ensures !Exceeds(rules, k, processes, events)
  {
    if k > 0 {
      EarlierSpent(rules, k, processes, events);
      WithinSpent(rules, k - 1, processes, events);
      NotExceeded(rules, k, processes, events);
    }
  }

  /** A million pairs in all, and modest evidence for every rule, are within the budget. */
  lemma WithinBudget(rules: seq<Rule>, k: nat, processes: seq<Process>, events: seq<Activity>)
    requires k <= |rules| && Spent(rules, k, events) <= MAX_CHECKS && AllModest(rules, k, processes, events)
    ensures !Exceeds(rules, k, processes, events)
  {
    ModestAreNotOverfull(rules, k, processes, events);
    WithinSpent(rules, k, processes, events);
  }

  lemma {:induction false} Smaller(a: set<string>, b: set<string>)
    requires a <= b
    ensures |a| <= |b|
    decreases a
  {
    if x :| x in a { Smaller(a - {x}, b - {x}); }
  }

  // ----- the search -----

  /** Evidence is filed under its own id and comes from the events. */
  ghost predicate Filed(evidence: map<string, Evidence>, events: seq<Activity>) {
    forall id :: id in evidence ==> evidence[id].evidenceId == id && exists a :: a in events && a.evidence == evidence[id]
  }

  function File(evidence: map<string, Evidence>, a: Activity, b: Activity): map<string, Evidence> {
    evidence[a.evidence.evidenceId := a.evidence][b.evidence.evidenceId := b.evidence]
  }

  lemma FileKeeps(evidence: map<string, Evidence>, a: Activity, b: Activity, events: seq<Activity>)
    requires Filed(evidence, events) && a in events && b in events
    ensures Filed(File(evidence, a, b), events)
    ensures File(evidence, a, b).Keys == evidence.Keys + {a.evidence.evidenceId, b.evidence.evidenceId}
  {}

  /** The search stands at the pair `n`, or has stopped there. */
  ghost predicate Stands(pairs: seq<Pair>, means: Test, n: nat, evidence: map<string, Evidence>) {
    n <= |pairs| && evidence.Keys == Ids(pairs[..n], means)
  }

  ghost predicate Agree(pairs: seq<Pair>, matches: Test, means: Test) {
    forall p :: p in pairs ==> matches(p.0, p.1) == means(p.0, p.1)
  }

  ghost function RoomFor(checks: nat): nat { if checks <= MAX_CHECKS then MAX_CHECKS - checks else 0 }

  /** Where the search of a rule stops that begins with `checks0`. */
  ghost function Stop(pairs: seq<Pair>, means: Test, checks0: nat): nat {
    Reach(pairs, means, RoomFor(checks0), 0)
  }

  /** The window of `a` is the next part of the pairs. */
  ghost predicate Next(pairs: seq<Pair>, n: nat, a: Activity, window: seq<Activity>) {
    n + |window| <= |pairs| && forall k :: 0 <= k < |window| ==> pairs[n + k] == (a, window[k])
  }

  /** What the two loops know while they run: `n` pairs have been looked at, and none was too much. */
  ghost predicate Searching(pairs: seq<Pair>, means: Test, checks0: nat, n: nat, evidence: map<string, Evidence>, checks: nat) {
    && Stands(pairs, means, n, evidence) && checks == checks0 + n && (checks0 <= MAX_CHECKS ==> checks <= MAX_CHECKS)
    && n <= Stop(pairs, means, checks0)
  }

  ghost predicate Stopped(pairs: seq<Pair>, means: Test, checks0: nat, n: nat, evidence: map<string, Evidence>, checks: nat) {
    && Stands(pairs, means, n, evidence) && checks > MAX_CHECKS
    && n == Stop(pairs, means, checks0) && (checks0 <= MAX_CHECKS ==> n < |pairs|)
  }

  lemma {:induction false} PassesOn(pairs: seq<Pair>, means: Test, room: nat, m: nat, n: nat)
    requires m <= n <= |pairs| && n <= Reach(pairs, means, room, m)
    ensures Reach(pairs, means, room, n) == Reach(pairs, means, room, m)
    decreases n - m
  {
    if m < n { PassesOn(pairs, means, room, m + 1, n); }
  }

  lemma TooMany(pairs: seq<Pair>, means: Test, checks0: nat, n: nat, evidence: map<string, Evidence>, checks: nat)
    requires Searching(pairs, means, checks0, n, evidence, checks) && n < |pairs| && checks + 1 > MAX_CHECKS
    ensures Stopped(pairs, means, checks0, n, evidence, checks + 1)
  {
    PassesOn(pairs, means, RoomFor(checks0), 0, n);
  }

  lemma TooFull(pairs: seq<Pair>, means: Test, checks0: nat, n: nat, evidence: map<string, Evidence>, checks: nat)
    requires Searching(pairs, means, checks0, n, evidence, checks) && n < |pairs| && checks + 1 <= MAX_CHECKS
    requires means(pairs[n].0, pairs[n].1) && |evidence| >= MAX_EVIDENCE
    ensures Stopped(pairs, means, checks0, n, evidence, MAX_CHECKS + 1)
  {
    assert |evidence| == |evidence.Keys|;
    assert FullAt(pairs, means, n);
    PassesOn(pairs, means, RoomFor(checks0), 0, n);
  }

  lemma OneMore(pairs: seq<Pair>, means: Test, checks0: nat, n: nat, evidence: map<string, Evidence>, checks: nat,
                more: map<string, Evidence>)
    requires Searching(pairs, means, checks0, n, evidence, checks) && n < |pairs| && checks + 1 <= MAX_CHECKS
    requires means(pairs[n].0, pairs[n].1) ==> |evidence| < MAX_EVIDENCE
    requires more.Keys == evidence.Keys + if means(pairs[n].0, pairs[n].1)
                                          then {pairs[n].0.evidence.evidenceId, pairs[n].1.evidence.evidenceId} else {}
    ensures Searching(pairs, means, checks0, n + 1, more, checks + 1)
  {
    assert |evidence| == |evidence.Keys|;
    assert !FullAt(pairs, means, n);
    PassesOn(pairs, means, RoomFor(checks0), 0, n);
    IdsMore(pairs, means, n);
  }

  /** The pairs from `n` on are those of `a` with the window, and the test says what they mean. */
  ghost predicate Fits(pairs: seq<Pair>, matches: Test, means: Test, n: nat, a: Activity, window: seq<Activity>,
                       events: seq<Activity>)
    decreases |window|
  {
    window == [] || (
      && n < |pairs| && pairs[n] == (a, window[0]) && matches(a, window[0]) == means(a, window[0]) && window[0] in events
      && Fits(pairs, matches, means, n + 1, a, window[1..], events))
  }

  lemma {:induction false} FitsAt(pairs: seq<Pair>, matches: Test, means: Test, n: nat, a: Activity, window: seq<Activity>,
                                  events: seq<Activity>, i: nat)
    requires Fits(pairs, matches, means, n, a, window, events) && i < |window|
    ensures n + i < |pairs| && pairs[n + i] == (a, window[i]) && matches(a, window[i]) == means(a, window[i])
    ensures window[i] in events
    decreases i
  {
    if i > 0 { FitsAt(pairs, matches, means, n + 1, a, window[1..], events, i - 1); }
  }

  lemma {:induction false} NextFits(pairs: seq<Pair>, matches: Test, means: Test, n: nat, a: Activity, window: seq<Activity>,
                                    events: seq<Activity>)
    requires Next(pairs, n, a, window) && Agree(pairs, matches, means) && forall b :: b in window ==> b in events
    ensures Fits(pairs, matches, means, n, a, window, events)
    decreases |window|
  {
    if window != [] {
      assert pairs[n + 0] == (a, window[0]) && pairs[n] in pairs;
      NextFits(pairs, matches, means, n + 1, a, window[1..], events);
    }
  }

  /** The body of the inner loop; `more` says whether it goes on. */
  method LookAt(matches: Test, a: Activity, b: Activity, evidence0: map<string, Evidence>, checks1: nat,
                ghost pairs: seq<Pair>, ghost means: Test, ghost checks0: nat, ghost n: nat, ghost events: seq<Activity>)
    returns (evidence: map<string, Evidence>, checks: nat, more: bool)
    requires Searching(pairs, means, checks0, n, evidence0, checks1) && Filed(evidence0, events)
    requires n < |pairs| && pairs[n] == (a, b) && matches(a, b) == means(a, b) && a in events && b in events
    ensures Filed(evidence, events)
    ensures more ==> Searching(pairs, means, checks0, n + 1, evidence, checks)
    ensures !more ==> Stopped(pairs, means, checks0, n, evidence, checks)
  {
    evidence, checks := evidence0, checks1 + 1;
    if checks > MAX_CHECKS {
      TooMany(pairs, means, checks0, n, evidence, checks1);
      return evidence, checks, false;
    }
    if matches(a, b) {
      if |evidence| >= MAX_EVIDENCE {
        TooFull(pairs, means, checks0, n, evidence, checks1);
        return evidence, MAX_CHECKS + 1, false;
      }
      FileKeeps(evidence, a, b, events);
      evidence := File(evidence, a, b);
    }
    OneMore(pairs, means, checks0, n, evidence0, checks1, evidence);
    more := true;
  }

  /** The inner loop over the second activities inside the window of `a`. */
  method SearchWindow(matches: Test, a: Activity, window: seq<Activity>, evidence0: map<string, Evidence>, checks1: nat,
                      ghost pairs: seq<Pair>, ghost means: Test, ghost checks0: nat, ghost n0: nat, ghost events: seq<Activity>)
    returns (evidence: map<string, Evidence>, checks: nat, ghost n: nat, ghost more: bool)
    requires Searching(pairs, means, checks0, n0, evidence0, checks1) && Filed(evidence0, events) && a in events
    requires Fits(pairs, matches, means, n0, a, window, events)
    ensures Filed(evidence, events)
    ensures more ==> Searching(pairs, means, checks0, n, evidence, checks) && n == n0 + |window|
    ensures !more ==> Stopped(pairs, means, checks0, n, evidence, checks)
  {
    evidence, checks := evidence0, checks1;
    for i := 0 to |window|
      invariant Filed(evidence, events) && Searching(pairs, means, checks0, n0 + i, evidence, checks)
    {
      FitsAt(pairs, matches, means, n0, a, window, events, i);
      var goOn;
      evidence, checks, goOn := LookAt(matches, a, window[i], evidence, checks, pairs, means, checks0, n0 + i, events);
      if !goOn {
        n, more := n0 + i, false;
        return;
      }
    }
    n, more := n0 + |window|, true;
  }

  /** The two partition points enclose exactly the activities in the window, saturation included. */
  method Window(rule: Rule, a: Activity, seconds: seq<Activity>) returns (window: seq<Activity>)
    requires InOrder(seconds)
    ensures window == Filter(seconds, After(rule, a))
  {
    var lower := PartitionPoint(seconds, (e: Activity) => e.time <= a.time);
    var upper := PartitionPoint(seconds, (e: Activity) => e.time <= SaturatingAdd(a.time, rule.window));
    assert upper < |seconds| ==> SaturatingAdd(a.time, rule.window) < seconds[upper].time;
    FilterRange(seconds, lower, upper, After(rule, a));
    return seconds[lower..upper];
  }

  lemma WindowOfSeconds(rule: Rule, a: Activity, ordered: seq<Activity>)
    ensures Filter(Filter(ordered, OfKind(rule.second)), After(rule, a)) == Filter(ordered, SecondOf(rule, a))
  {
    FilterTwice(ordered, OfKind(rule.second), After(rule, a), SecondOf(rule, a));
  }

  lemma NextWindow(rule: Rule, firsts: seq<Activity>, i: nat, ordered: seq<Activity>)
    requires i < |firsts|
    ensures PairsFrom(rule, firsts[..i + 1], ordered)
         == PairsFrom(rule, firsts[..i], ordered) + PairsWith(firsts[i], Filter(ordered, SecondOf(rule, firsts[i])))
  {
    assert firsts[..i + 1][..i] == firsts[..i];
  }

  lemma {:induction false} PairsPrefix(rule: Rule, firsts: seq<Activity>, i: nat, ordered: seq<Activity>)
    requires i <= |firsts|
    ensures PairsFrom(rule, firsts[..i], ordered) <= PairsFrom(rule, firsts, ordered)
    decreases |firsts|
  {
    if i < |firsts| {
      PairsPrefix(rule, firsts[..|firsts| - 1], i, ordered);
      assert firsts[..|firsts| - 1][..i] == firsts[..i];
    } else {
      assert firsts[..i] == firsts;
    }
  }

  lemma NextPairs(rule: Rule, firsts: seq<Activity>, i: nat, ordered: seq<Activity>)
    requires i < |firsts|
    ensures var n, window := |PairsFrom(rule, firsts[..i], ordered)|, Filter(ordered, SecondOf(rule, firsts[i]));
            && Next(PairsFrom(rule, firsts, ordered), n, firsts[i], window)
            && |PairsFrom(rule, firsts[..i + 1], ordered)| == n + |window|
  {
    NextWindow(rule, firsts, i, ordered);
    PairsPrefix(rule, firsts, i + 1, ordered);
  }

  /** What one rule finds, and when it stops early. */
  ghost predicate Result(pairs: seq<Pair>, means: Test, checks0: nat, evidence: map<string, Evidence>, checks: nat) {
    var stop := Stop(pairs, means, checks0);
    && evidence.Keys == Ids(pairs[..stop], means)
    && (checks <= MAX_CHECKS <==> checks0 <= MAX_CHECKS && stop == |pairs|)
    && (checks <= MAX_CHECKS ==> checks == checks0 + |pairs|)
  }

  lemma StoppedResult(pairs: seq<Pair>, means: Test, checks0: nat, n: nat, evidence: map<string, Evidence>, checks: nat)
    requires Stopped(pairs, means, checks0, n, evidence, checks)
    ensures Result(pairs, means, checks0, evidence, checks)
  {}

  /** Late rules look at nothing once the budget is gone. */
  lemma LateResult(pairs: seq<Pair>, means: Test, checks0: nat, n: nat, evidence: map<string, Evidence>, checks: nat)
    requires Searching(pairs, means, checks0, n, evidence, checks) && checks > MAX_CHECKS
    ensures Result(pairs, means, checks0, evidence, checks)
  {
  }

  lemma EndResult(pairs: seq<Pair>, means: Test, checks0: nat, evidence: map<string, Evidence>, checks: nat)
    requires Searching(pairs, means, checks0, |pairs|, evidence, checks)
    ensures Result(pairs, means, checks0, evidence, checks)
  {}

  /** One rule: the outer loop over first activities. */
  method SearchRule(rule: Rule, matches: Test, ordered: seq<Activity>, checks0: nat, ghost means: Test)
    returns (evidence: map<string, Evidence>, checks: nat)
    requires InOrder(ordered) && Agree(PairsIn(rule, ordered), matches, means)
    ensures Filed(evidence, ordered)
    ensures Result(PairsIn(rule, ordered), means, checks0, evidence, checks)
  {
    var firsts := Filter(ordered, OfKind(rule.first));
    var seconds := Filter(ordered, OfKind(rule.second));
    FilterInOrder(ordered, OfKind(rule.second));
    ghost var pairs, n := PairsIn(rule, ordered), 0;
    evidence, checks := map[], checks0;
    for i := 0 to |firsts|
      invariant Filed(evidence, ordered) && n == |PairsFrom(rule, firsts[..i], ordered)|
      invariant Searching(pairs, means, checks0, n, evidence, checks)
    {
      var a := firsts[i];
      var window := Window(rule, a, seconds);
      WindowOfSeconds(rule, a, ordered);
      NextPairs(rule, firsts, i, ordered);
      NextFits(pairs, matches, means, n, a, window, ordered);
      ghost var more;
      evidence, checks, n, more := SearchWindow(matches, a, window, evidence, checks, pairs, means, checks0, n, ordered);
      if checks > MAX_CHECKS {
        if !more { StoppedResult(pairs, means, checks0, n, evidence, checks); }
        else { LateResult(pairs, means, checks0, n, evidence, checks); }
        return;
      }
    }
    assert firsts[..|firsts|] == firsts;
    EndResult(pairs, means, checks0, evidence, checks);
  }

  // ----- the finding of one rule -----

  /** The values of an evidence map in key order. */
  method EvidenceList(evidence: map<string, Evidence>, ghost events: seq<Activity>) returns (r: seq<Evidence>)
    requires Filed(evidence, events)
    ensures ListsIds(r, evidence.Keys, events)
  {
    TextLeqOrder();
    var keys := SortedElements(evidence.Keys, TextLeq);
    DistinctElements(keys, evidence.Keys);
    r := seq(|keys|, i requires 0 <= i < |keys| && keys[i] in evidence => evidence[keys[i]]);
    assert forall i :: 0 <= i < |keys| ==> keys[i] in evidence && r[i].evidenceId == keys[i];
    forall id | id in evidence ensures exists e :: e in r && e.evidenceId == id {
      var k :| 0 <= k < |keys| && keys[k] == id;
      assert r[k] in r;
    }
  }

  /** Evidence of the events, once for each id, in the order of the ids. */
  ghost predicate ListsIds(es: seq<Evidence>, ids: set<string>, events: seq<Activity>) {
    && (forall e :: e in es ==> e.evidenceId in ids && exists a :: a in events && a.evidence == e)
    && (forall id :: id in ids ==> exists e :: e in es && e.evidenceId == id)
    && (forall i, j :: 0 <= i < j < |es| ==>
          es[i].evidenceId != es[j].evidenceId && TextLeq(es[i].evidenceId, es[j].evidenceId))
    && |es| == |ids|
  }

  ghost predicate IsReport(f: Finding, rule: Rule, ids: set<string>, events: seq<Activity>) {
    f.ruleId == rule.id && f.score == rule.score && f.scoreGroup == rule.group && ListsIds(f.evidence, ids, events)
  }

  lemma HitsArePairs(rule: Rule, index: CorrelationIndex, processes: seq<Process>, events: seq<Activity>, matches: Test)
    requires Indexes(index, processes, Visited(events))
    requires forall a, b :: matches(a, b) == Matches(rule, a, b, index)
    ensures Agree(Candidates(rule, events), matches, Meaning(rule, processes, events))
  {
    VisitedEvents(events);
    var firsts := Filter(Visited(events), OfKind(rule.first));
    forall p | p in Candidates(rule, events)
      ensures matches(p.0, p.1) == Meaning(rule, processes, events)(p.0, p.1)
    {
      PairOf(rule, firsts, Visited(events), p.0, p.1);
      MatchesIsExact(rule, p.0, p.1, index, processes, Visited(events));
      SamePair(rule, p.0, p.1, processes, events, Visited(events));
    }
  }

  lemma SamePair(rule: Rule, a: Activity, b: Activity, processes: seq<Process>, events: seq<Activity>, ordered: seq<Activity>)
    requires forall e :: e in events <==> e in ordered
    ensures IsPair(rule, a, b, processes, events) <==> IsPair(rule, a, b, processes, ordered)
  {
    forall pid: u32, time: u64
      ensures SuspiciousAt(processes, events, pid, time) <==> SuspiciousAt(processes, ordered, pid, time)
    {}
    assert TrueFacts(a, b, processes, events) == TrueFacts(a, b, processes, ordered);
  }

  /** The meaning of a rule does not depend on the order in which events arrive. */
  lemma OrderIrrelevant(rule: Rule, processes: seq<Process>, events: seq<Activity>, ordered: seq<Activity>, id: string)
    requires forall e :: e in events <==> e in ordered
    ensures PairId(rule, processes, events, id) <==> PairId(rule, processes, ordered, id)
  {
    forall a, b ensures IsPair(rule, a, b, processes, events) <==> IsPair(rule, a, b, processes, ordered) {
      SamePair(rule, a, b, processes, events, ordered);
    }
  }

  /**
   One rule of the outermost loop. `checks` counts the pairs looked at until it passes the limit,
   which it does exactly when there is no room for all pairs of the rule or its evidence overflows.
   */
  method RunRule(rule: Rule, index: CorrelationIndex, checks0: nat, ordered: seq<Activity>,
                 ghost processes: seq<Process>, ghost events: seq<Activity>)
    returns (finding: Option<Finding>, checks: nat)
    requires ordered == Visited(events) && Indexes(index, processes, ordered)
    ensures var pairs, means := Candidates(rule, events), Meaning(rule, processes, events);
            var ids := Ids(pairs[..Stop(pairs, means, checks0)], means);
            && (finding.Some? <==> ids != {})
            && (finding.Some? ==> IsReport(finding.value, rule, ids, events))
            && (checks <= MAX_CHECKS <==> checks0 + |pairs| <= MAX_CHECKS && !Overfull(pairs, means))
            && (checks <= MAX_CHECKS ==> checks == checks0 + |pairs|)
  {
    var matches := (a: Activity, b: Activity) => Matches(rule, a, b, index);
    HitsArePairs(rule, index, processes, events, matches);
    VisitedEvents(events);
    ghost var means := Meaning(rule, processes, events);
    var evidence;
    evidence, checks := SearchRule(rule, matches, ordered, checks0, means);
    ResultIsExact(Candidates(rule, events), means, checks0, evidence, checks);
    SameFiled(evidence, ordered, events);
    if |evidence| == 0 {
      assert evidence.Keys == {};
      return None, checks;
    }
    var list := EvidenceList(evidence, events);
    finding := Some(Finding(rule.id, rule.group, "", list, rule.score));
  }

  lemma SameFiled(evidence: map<string, Evidence>, ordered: seq<Activity>, events: seq<Activity>)
    requires Filed(evidence, ordered) && forall e :: e in events <==> e in ordered
    ensures Filed(evidence, events)
    ensures |evidence| != 0 ==> evidence.Keys != {}
  {
    assert |evidence| == |evidence.Keys|;
  }

  lemma ResultIsExact(pairs: seq<Pair>, means: Test, checks0: nat, evidence: map<string, Evidence>, checks: nat)
    requires Result(pairs, means, checks0, evidence, checks)
    ensures checks <= MAX_CHECKS <==> checks0 + |pairs| <= MAX_CHECKS && !Overfull(pairs, means)
  {
    if checks0 <= MAX_CHECKS { ReachesEnd(pairs, means, RoomFor(checks0), 0); }
  }

  // ----- all rules -----

  ghost function Found(rules: seq<Rule>, processes: seq<Process>, events: seq<Activity>): (r: seq<set<string>>)
    ensures |r| == |rules| && forall k :: 0 <= k < |rules| ==> r[k] == FoundIds(rules, k, processes, events)
  {
    seq(|rules|, k requires 0 <= k < |rules| => FoundIds(rules, k, processes, events))
  }

  /** One finding for each of the first `k` rules that found anything, in the order of the rules. */
  ghost predicate Lists(findings: seq<Finding>, rules: seq<Rule>, k: nat, found: seq<set<string>>, events: seq<Activity>)
    requires k <= |rules| == |found|
  {
    if k == 0 then findings == []
    else if found[k - 1] == {} then Lists(findings, rules, k - 1, found, events)
    else
      && findings != [] && IsReport(findings[|findings| - 1], rules[k - 1], found[k - 1], events)
      && Lists(findings[..|findings| - 1], rules, k - 1, found, events)
  }

  lemma ListsMore(findings: seq<Finding>, f: Option<Finding>, rules: seq<Rule>, k: nat, found: seq<set<string>>, events: seq<Activity>)
    requires k < |rules| == |found| && Lists(findings, rules, k, found, events)
    requires f.Some? <==> found[k] != {}
    requires f.Some? ==> IsReport(f.value, rules[k], found[k], events)
    ensures Lists(if f.Some? then findings + [f.value] else findings, rules, k + 1, found, events)
  {
    if f.Some? { assert (findings + [f.value])[..|findings|] == findings; }
  }

  /** The counter says how much has been spent, and whether it was too much. */
  ghost predicate Counts(checks: nat, rules: seq<Rule>, k: nat, processes: seq<Process>, events: seq<Activity>)
    requires k <= |rules|
  {
    && (checks <= MAX_CHECKS <==> !Exceeds(rules, k, processes, events))
    && (checks <= MAX_CHECKS ==> checks == Spent(rules, k, events))
  }

  lemma RoomCounted(checks: nat, rules: seq<Rule>, k: nat, processes: seq<Process>, events: seq<Activity>)
    requires k < |rules| && Counts(checks, rules, k, processes, events)
    ensures RoomFor(checks) == Room(rules, k, processes, events)
  {}

  lemma CountsMore(checks0: nat, checks: nat, rules: seq<Rule>, k: nat, processes: seq<Process>, events: seq<Activity>)
    requires k < |rules| && Counts(checks0, rules, k, processes, events)
    requires var pairs, means := Candidates(rules[k], events), Meaning(rules[k], processes, events);
             && (checks <= MAX_CHECKS <==> checks0 + |pairs| <= MAX_CHECKS && !Overfull(pairs, means))
             && (checks <= MAX_CHECKS ==> checks == checks0 + |pairs|)
    ensures Counts(checks, rules, k + 1, processes, events)
  {}

  /** The outermost loop. */
  method RunRules(rules: seq<Rule>, processes: seq<Process>, ordered: seq<Activity>, ghost events: seq<Activity>)
    returns (findings: seq<Finding>, checks: nat)
    requires ordered == Visited(events)
    ensures Lists(findings, rules, |rules|, Found(rules, processes, events), events)
    ensures Counts(checks, rules, |rules|, processes, events)
  {
    var index := NewIndex(processes, ordered);
    ghost var found := Found(rules, processes, events);
    checks, findings := 0, [];
    for i := 0 to |rules|
      invariant Lists(findings, rules, i, found, events) && Counts(checks, rules, i, processes, events)
    {
      ghost var before, checks0 := findings, checks;
      RoomCounted(checks, rules, i, processes, events);
      var finding;
      finding, checks := RunRule(rules[i], index, checks, ordered, processes, events);
      CountsMore(checks0, checks, rules, i, processes, events);
      ListsMore(before, finding, rules, i, found, events);
      if finding.Some? {
        findings := findings + [finding.value];
      }
    }
  }

  /** The note that the budget has run out. */
  function Coverage(exhausted: bool, events: seq<Activity>): seq<Finding> {
    if exhausted && events != [] then [Finding(COVERAGE_RULE, "", "", [Visited(events)[0].evidence], 0)] else []
  }

  predicate FindingLeq(f: Finding, g: Finding) { TextLeq(f.ruleId, g.ruleId) }

  /**
   What all rules come to: one finding for each rule that found anything, with exactly the evidence
   found, and the note exactly if the budget is exceeded, sorted by rule id.
   */
  ghost predicate AreFindings(findings: seq<Finding>, rules: seq<Rule>, processes: seq<Process>, events: seq<Activity>) {
    exists reports :: AreSortedReports(findings, reports, rules, processes, events)
  }

  ghost predicate AreSortedReports(findings: seq<Finding>, reports: seq<Finding>, rules: seq<Rule>, processes: seq<Process>,
                                   events: seq<Activity>)
  {
    && Lists(reports, rules, |rules|, Found(rules, processes, events), events)
    && findings == SortBy(reports + Coverage(Exceeds(rules, |rules|, processes, events), events), FindingLeq)
  }

  /** `build_from_events`, but for the static confirmations. */
  method Correlate(rules: seq<Rule>, processes: seq<Process>, events: seq<Activity>) returns (findings: seq<Finding>)
    ensures AreFindings(findings, rules, processes, events)
  {
    var ordered := SortBy(events, EventBefore);
    var checks;
    findings, checks := RunRules(rules, processes, ordered, events);
    ghost var reports := findings;
    VisitedEvents(events);
    if checks > MAX_CHECKS && ordered != [] {
      assert ordered[0] in ordered;
      findings := findings + [Finding(COVERAGE_RULE, "", "", [ordered[0].evidence], 0)];
    } else {
      assert reports + [] == reports && Coverage(Exceeds(rules, |rules|, processes, events), events) == [];
    }
    findings := SortBy(findings, FindingLeq);
    assert AreSortedReports(findings, reports, rules, processes, events);
  }

  // ----- what callers may rely on -----

  ghost predicate Fires(rule: Rule, processes: seq<Process>, events: seq<Activity>) {
    exists a, b :: a in events && b in events && IsPair(rule, a, b, processes, events)
  }

  /** The finding of a rule carries evidence of matching pairs only, and not too much of it. */
  ghost predicate OnlyPairs(f: Finding, rule: Rule, processes: seq<Process>, events: seq<Activity>) {
    && f.ruleId == rule.id && f.score == rule.score && f.scoreGroup == rule.group
    && f.evidence != [] && |f.evidence| <= 257
    && (forall e :: e in f.evidence ==> PairId(rule, processes, events, e.evidenceId))
  }

  ghost predicate AllPairs(f: Finding, rule: Rule, processes: seq<Process>, events: seq<Activity>) {
    forall id :: PairId(rule, processes, events, id) ==> exists e :: e in f.evidence && e.evidenceId == id
  }

  lemma {:induction false} ListedReport(reports: seq<Finding>, rules: seq<Rule>, n: nat, k: nat, found: seq<set<string>>,
                                        events: seq<Activity>) returns (f: Finding)
    requires n < k <= |rules| == |found| && Lists(reports, rules, k, found, events) && found[n] != {}
    ensures f in reports && IsReport(f, rules[n], found[n], events)
    decreases k
  {
    if n == k - 1 {
      f := reports[|reports| - 1];
    } else {
      var rest := if found[k - 1] == {} then reports else reports[..|reports| - 1];
      f := ListedReport(rest, rules, n, k - 1, found, events);
    }
  }

  lemma {:induction false} ReportListed(reports: seq<Finding>, rules: seq<Rule>, k: nat, found: seq<set<string>>, f: Finding,
                                        events: seq<Activity>) returns (n: nat)
    requires k <= |rules| == |found| && Lists(reports, rules, k, found, events) && f in reports
    ensures n < k && found[n] != {} && IsReport(f, rules[n], found[n], events)
    decreases k
  {
    if found[k - 1] != {} && f == reports[|reports| - 1] {
      n := k - 1;
    } else {
      var rest := if found[k - 1] == {} then reports else reports[..|reports| - 1];
      n := ReportListed(rest, rules, k - 1, found, f, events);
    }
  }

  /** What is reported is right, whether or not the budget was exceeded. */
  lemma ReportsAreSound(reports: seq<Finding>, rules: seq<Rule>, f: Finding, processes: seq<Process>, events: seq<Activity>)
    returns (n: nat)
    requires Lists(reports, rules, |rules|, Found(rules, processes, events), events) && f in reports
    ensures n < |rules| && OnlyPairs(f, rules[n], processes, events) && Fires(rules[n], processes, events)
    ensures !Exceeds(rules, |rules|, processes, events) ==> AllPairs(f, rules[n], processes, events)
  {
    n := ReportListed(reports, rules, |rules|, Found(rules, processes, events), f, events);
    forall id ensures id in FoundIds(rules, n, processes, events) ==> PairId(rules[n], processes, events, id) {
      FoundIsExact(rules, n, processes, events, id);
    }
    FoundIsExact(rules, n, processes, events, "");
    if !Exceeds(rules, |rules|, processes, events) { FoundIsAll(rules, n, processes, events); }
    var id :| id in FoundIds(rules, n, processes, events);
    assert PairId(rules[n], processes, events, id);
  }

  lemma FoundIsAll(rules: seq<Rule>, n: nat, processes: seq<Process>, events: seq<Activity>)
    requires n < |rules| && !Exceeds(rules, |rules|, processes, events)
    ensures forall id :: PairId(rules[n], processes, events, id) ==> id in FoundIds(rules, n, processes, events)
  {
    if Exceeds(rules, n + 1, processes, events) { ExceedsGrows(rules, n + 1, |rules|, processes, events); }
    forall id | PairId(rules[n], processes, events, id) ensures id in FoundIds(rules, n, processes, events) {
      FoundIsExact(rules, n, processes, events, id);
    }
  }

  /** Within the budget every rule that some pair matches is reported, with the evidence of all of them. */
  lemma ReportsAreComplete(reports: seq<Finding>, rules: seq<Rule>, n: nat, processes: seq<Process>, events: seq<Activity>)
    returns (f: Finding)
    requires Lists(reports, rules, |rules|, Found(rules, processes, events), events) && n < |rules|
    requires !Exceeds(rules, |rules|, processes, events) && Fires(rules[n], processes, events)
    ensures f in reports && OnlyPairs(f, rules[n], processes, events) && AllPairs(f, rules[n], processes, events)
  {
    FoundIsAll(rules, n, processes, events);
    var a, b :| a in events && b in events && IsPair(rules[n], a, b, processes, events);
    assert PairId(rules[n], processes, events, a.evidence.evidenceId);
    f := ListedReport(reports, rules, n, |rules|, Found(rules, processes, events), events);
    forall id ensures id in FoundIds(rules, n, processes, events) ==> PairId(rules[n], processes, events, id) {
      FoundIsExact(rules, n, processes, events, id);
    }
    FoundIsExact(rules, n, processes, events, "");
  }

  lemma {:induction false} NothingToExceed(rules: seq<Rule>, k: nat, processes: seq<Process>)
    requires k <= |rules|
    ensures Spent(rules, k, []) == 0 && !Exceeds(rules, k, processes, [])
  {
    if k > 0 {
      NothingToExceed(rules, k - 1, processes);
      assert Visited([]) == [] && Filter([], OfKind(rules[k - 1].first)) == [];
      assert Candidates(rules[k - 1], []) == [];
    }
  }

  lemma ReportsMembers(findings: seq<Finding>, reports: seq<Finding>, note: seq<Finding>)
    requires findings == SortBy(reports + note, FindingLeq) && forall f :: f in note ==> f.ruleId == COVERAGE_RULE
    ensures forall f :: f in reports ==> f in findings
    ensures forall f :: f in findings && f.ruleId != COVERAGE_RULE ==> f in reports
  {
    TextLeqOrder();
    SortBySorted(reports + note, FindingLeq);
  }

  lemma SomeReports(findings: seq<Finding>, rules: seq<Rule>, processes: seq<Process>, events: seq<Activity>)
    returns (reports: seq<Finding>)
    requires AreFindings(findings, rules, processes, events)
    ensures AreSortedReports(findings, reports, rules, processes, events)
  {
    reports :| AreSortedReports(findings, reports, rules, processes, events);
  }

  lemma ReportsOf(findings: seq<Finding>, rules: seq<Rule>, processes: seq<Process>, events: seq<Activity>)
    returns (reports: seq<Finding>)
    requires AreFindings(findings, rules, processes, events)
    ensures AreSortedReports(findings, reports, rules, processes, events)
    ensures forall f :: f in reports ==> f in findings
    ensures forall f :: f in findings && f.ruleId != COVERAGE_RULE ==> f in reports
  {
    reports := SomeReports(findings, rules, processes, events);
    ReportsMembers(findings, reports, Coverage(Exceeds(rules, |rules|, processes, events), events));
  }

  /** Every finding of a rule is evidence of its matching pairs, within the budget of all of them. */
  lemma FindingsAreSound(findings: seq<Finding>, rules: seq<Rule>, f: Finding, processes: seq<Process>, events: seq<Activity>)
    returns (n: nat)
    requires AreFindings(findings, rules, processes, events) && f in findings && f.ruleId != COVERAGE_RULE
    ensures n < |rules| && OnlyPairs(f, rules[n], processes, events) && Fires(rules[n], processes, events)
    ensures !Exceeds(rules, |rules|, processes, events) ==> AllPairs(f, rules[n], processes, events)
  {
    var reports := ReportsOf(findings, rules, processes, events);
    n := ReportsAreSound(reports, rules, f, processes, events);
  }

  /** Within the budget every rule that some pair matches has a finding, with the evidence of all of them. */
  lemma FindingsAreComplete(findings: seq<Finding>, rules: seq<Rule>, n: nat, processes: seq<Process>, events: seq<Activity>)
    returns (f: Finding)
    requires AreFindings(findings, rules, processes, events) && n < |rules|
    requires !Exceeds(rules, |rules|, processes, events) && Fires(rules[n], processes, events)
    ensures f in findings && OnlyPairs(f, rules[n], processes, events) && AllPairs(f, rules[n], processes, events)
  {
    var reports := ReportsOf(findings, rules, processes, events);
    f := ReportsAreComplete(reports, rules, n, processes, events);
  }

  /** The note is there exactly if the budget is exceeded. */
  lemma CoverageIsExact(findings: seq<Finding>, rules: seq<Rule>, processes: seq<Process>, events: seq<Activity>)
    requires AreFindings(findings, rules, processes, events) && forall r :: r in rules ==> r.id != COVERAGE_RULE
    ensures (exists f :: f in findings && f.ruleId == COVERAGE_RULE) <==> Exceeds(rules, |rules|, processes, events)
    ensures Sorted(findings, FindingLeq)
  {
    var reports := ReportsOf(findings, rules, processes, events);
    NothingToExceed(rules, |rules|, processes);
    ReportsOfRules(reports, rules, Found(rules, processes, events), events);
    SortedCoverage(reports, Exceeds(rules, |rules|, processes, events), events);
  }

  lemma ReportsOfRules(reports: seq<Finding>, rules: seq<Rule>, found: seq<set<string>>, events: seq<Activity>)
    requires forall r :: r in rules ==> r.id != COVERAGE_RULE
    requires |rules| == |found| && Lists(reports, rules, |rules|, found, events)
    ensures forall f :: f in reports ==> f.ruleId != COVERAGE_RULE
  {
    forall f | f in reports ensures f.ruleId != COVERAGE_RULE {
      var n := ReportListed(reports, rules, |rules|, found, f, events);
    }
  }

  lemma SortedCoverage(reports: seq<Finding>, exhausted: bool, events: seq<Activity>)
    requires forall f :: f in reports ==> f.ruleId != COVERAGE_RULE
    ensures var findings := SortBy(reports + Coverage(exhausted, events), FindingLeq);
            && ((exists f :: f in findings && f.ruleId == COVERAGE_RULE) <==> exhausted && events != [])
            && Sorted(findings, FindingLeq)
  {
    TextLeqOrder();
    var all := reports + Coverage(exhausted, events);
    SortBySorted(all, FindingLeq);
    if exhausted && events != [] { assert all[|all| - 1] in all && all[|all| - 1].ruleId == COVERAGE_RULE; }
  }

  // ----- the order of the search, field by field -----

  /** By time, then by process, then by kind, object and evidence. */
  predicate ComesFirst(a: Activity, b: Activity) {
    if a.time != b.time then a.time < b.time
    else if a.pid != b.pid then a.pid < b.pid
    else if a.kind != b.kind then TextLeq(a.kind, b.kind)
    else if a.object_ != b.object_ then TextLeq(a.object_, b.object_)
    else TextLeq(a.evidence.evidenceId, b.evidence.evidenceId)
  }

  lemma OneText(x: string, y: string)
    ensures TextsLeq([x], [y]) <==> TextLeq(x, y)
  {
    TextLeqTotal(x, y);
    assert [x][1..] == [] && [y][1..] == [];
  }

  lemma TwoTexts(w: string, x: string, y: string, z: string)
    ensures TextsLeq([w, x], [y, z]) <==> if w != y then TextLeq(w, y) else TextLeq(x, z)
  {
    OneText(x, z);
    assert [w, x][1..] == [x] && [y, z][1..] == [z];
  }

  lemma BeforeIsFirst(a: Activity, b: Activity)
    ensures EventBefore(a, b) <==> ComesFirst(a, b)
  {
    TwoTexts(a.object_, a.evidence.evidenceId, b.object_, b.evidence.evidenceId);
    assert Names(a)[1..] == [a.object_, a.evidence.evidenceId] && Names(b)[1..] == [b.object_, b.evidence.evidenceId];
  }

  lemma VisitedInOrder(events: seq<Activity>, i: nat, j: nat)
    requires i < j < |Visited(events)|
    ensures ComesFirst(Visited(events)[i], Visited(events)[j])
  {
    EventBeforePreorder();
    SortBySorted(events, EventBefore);
    BeforeIsFirst(Visited(events)[i], Visited(events)[j]);
  }

  lemma FirstOfAll(events: seq<Activity>, e: Activity)
    requires e in events
    ensures Visited(events) != [] && ComesFirst(Visited(events)[0], e)
  {
    VisitedEvents(events);
    var visited := Visited(events);
    var i :| 0 <= i < |visited| && visited[i] == e;
    if i > 0 { VisitedInOrder(events, 0, i); } else { TextLeqTotal(e.evidence.evidenceId, e.evidence.evidenceId); }
  }

  /** The first of all events. */
  predicate IsFirstOf(events: seq<Activity>, first: Activity) {
    first in events && forall e :: e in events ==> ComesFirst(first, e)
  }

  lemma VisitedBegins(events: seq<Activity>)
    requires events != []
    ensures Visited(events) != [] && IsFirstOf(events, Visited(events)[0])
  {
    VisitedEvents(events);
    assert Visited(events)[0] in Visited(events);
    forall e | e in events ensures ComesFirst(Visited(events)[0], e) { FirstOfAll(events, e); }
  }

  /** The coverage finding does not score, and its evidence is that of the first of all events. */
  lemma CoverageIsAboutTheFirst(findings: seq<Finding>, rules: seq<Rule>, processes: seq<Process>, events: seq<Activity>, f: Finding)
    requires AreFindings(findings, rules, processes, events) && forall r :: r in rules ==> r.id != COVERAGE_RULE
    requires f in findings && f.ruleId == COVERAGE_RULE
    ensures f.ruleId == "FH-COVERAGE-001" && f.score == 0
    ensures exists first :: IsFirstOf(events, first) && f.evidence == [first.evidence]
  {
    var reports := ReportsOf(findings, rules, processes, events);
    ReportsOfRules(reports, rules, Found(rules, processes, events), events);
    FromEither(findings, reports, Coverage(Exceeds(rules, |rules|, processes, events), events), f);
    VisitedBegins(events);
  }

  lemma FromEither(findings: seq<Finding>, reports: seq<Finding>, coverage: seq<Finding>, f: Finding)
    requires findings == SortBy(reports + coverage, FindingLeq) && f in findings && f !in reports
    ensures f in coverage
  {
    SameElements(findings, reports + coverage);
  }
}
