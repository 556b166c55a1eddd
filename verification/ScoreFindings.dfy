/** `deduplicate_scores` itself: findings are suppressed in place. */
module ScoreFindings {
  import opened Basics
  import opened Ordering
  import opened Correlation
  import opened ScoreDeduplication

  const SUPPRESSED := " Score suppressed because the same underlying behavior is already scored."

  /** Rules that predate score groups are mapped by id. */
  function GroupName(scoreGroup: string, ruleId: string): string {
    if scoreGroup != "" then scoreGroup
    else if ruleId == "process_injection" then "injection"
    else if ruleId == "credential_store_access" then "credentials"
    else if ruleId == "suspicious_registry_autostart" then "persistence"
    else if ruleId == "script_interpreter_network" then "execution"
    else ruleId
  }

  function ScoreGroup(f: Finding): string {
    GroupName(f.scoreGroup, f.ruleId)
  }

  function EvidenceIds(f: Finding): set<string> {
    set e | e in f.evidence :: e.evidenceId
  }

  function ClaimOf(f: Finding): Claim {
    Claim(f.score, f.ruleId, ScoreGroup(f), EvidenceIds(f))
  }

  function Suppress(f: Finding): Finding {
    f.(score := 0, explanation := f.explanation + SUPPRESSED)
  }

  function Claims(fs: seq<Finding>): (r: seq<Claim>)
    ensures |r| == |fs| && forall i :: 0 <= i < |fs| ==> r[i] == ClaimOf(fs[i])
  {
    seq(|fs|, i requires 0 <= i < |fs| => ClaimOf(fs[i]))
  }

  /** Each finding is left alone or suppressed, as the greedy choice over the visited claims says. */
  ghost predicate Deduplicated(fs: seq<Finding>, rs: seq<Finding>, order: seq<nat>, cs: seq<Claim>) {
    && Visits(Claims(fs), order, cs) && |rs| == |fs|
    && forall k :: 0 <= k < |order| ==>
         rs[order[k]] == if k in Kept(cs) || cs[k].score == 0 then fs[order[k]] else Suppress(fs[order[k]])
  }

  // ----- group winners -----

  type Winners = map<string, (u32, string)>

  predicate Beats(a: (u32, string), b: (u32, string)) {
    a.0 > b.0 || (a.0 == b.0 && a.1 != b.1 && TextLeq(a.1, b.1))
  }

  /** After the first `n` claims the map holds the strongest score and rule id of every group. */
  ghost predicate WinnersUpTo(cs: seq<Claim>, n: nat, winners: Winners)
    requires n <= |cs|
  {
    && (forall g :: g in winners ==>
          exists i :: 0 <= i < n && cs[i].group == g && cs[i].score > 0 && winners[g] == (cs[i].score, cs[i].ruleId))
    && (forall i :: 0 <= i < n && cs[i].score > 0 ==>
          cs[i].group in winners && NotBeaten(winners[cs[i].group], cs[i]))
  }

  ghost predicate NotBeaten(w: (u32, string), c: Claim) {
    w.0 > c.score || (w.0 == c.score && TextLeq(w.1, c.ruleId))
  }

  lemma WinnersStep(cs: seq<Claim>, n: nat, winners: Winners)
    requires n < |cs| && cs[n].score > 0 && WinnersUpTo(cs, n, winners)
    ensures var candidate := (cs[n].score, cs[n].ruleId);
            var g := cs[n].group;
            WinnersUpTo(cs, n + 1, if g !in winners || Beats(candidate, winners[g]) then winners[g := candidate] else winners)
  {
    var candidate := (cs[n].score, cs[n].ruleId);
    var g := cs[n].group;
    TextLeqTotal(cs[n].ruleId, cs[n].ruleId);
    if g in winners {
      TextLeqTotal(candidate.1, winners[g].1);
      if Beats(candidate, winners[g]) {
        forall i | 0 <= i < n && cs[i].score > 0 && cs[i].group == g ensures NotBeaten(candidate, cs[i]) {
          if winners[g].0 == cs[i].score && candidate.0 == cs[i].score {
            TextLeqTransitive(candidate.1, winners[g].1, cs[i].ruleId);
          }
        }
      }
    }
  }

  lemma WinnersDecide(cs: seq<Claim>, winners: Winners, c: Claim)
    requires WinnersUpTo(cs, |cs|, winners) && c in cs && c.score > 0
    ensures c.group in winners
    ensures winners[c.group].1 == c.ruleId <==> WinsGroup(cs, c)
  {
    var i :| 0 <= i < |cs| && cs[i] == c;
    var g := c.group;
    var j :| 0 <= j < |cs| && cs[j].group == g && cs[j].score > 0 && winners[g] == (cs[j].score, cs[j].ruleId);
    assert Best(cs, cs[j]);
    if WinsGroup(cs, c) {
      WinnersAgree(cs, c, cs[j]);
    }
  }

  method CollectWinners(findings: seq<Finding>, ghost cs: seq<Claim>) returns (winners: Winners)
    requires |cs| == |findings| && forall i :: 0 <= i < |cs| ==> cs[i] == ClaimOf(findings[i])
    ensures WinnersUpTo(cs, |cs|, winners)
  {
    winners := map[];
    for i := 0 to |findings|
      invariant WinnersUpTo(cs, i, winners)
    {
      var f := findings[i];
      var group := ScoreGroup(f);
      if f.score == 0 {
        continue;
      }
      WinnersStep(cs, i, winners);
      var candidate := (f.score, f.ruleId);
      if group !in winners || Beats(candidate, winners[group]) {
        winners := winners[group := candidate];
      }
    }
  }

  // ----- the visiting order -----

  /** Indices are ordered as the claims they stand for. */
  ghost predicate ByClaim(cs: seq<Claim>, leq: (nat, nat) -> bool) {
    forall i: nat, j: nat :: leq(i, j) == (j >= |cs| || (i < |cs| && Before(cs[i], cs[j])))
  }

  lemma IndexOrder(cs: seq<Claim>, leq: (nat, nat) -> bool)
    requires ByClaim(cs, leq)
    ensures TotalPreorder(leq)
  {
    forall i: nat, j: nat ensures leq(i, j) || leq(j, i) {
      if i < |cs| && j < |cs| { BeforeTotal(cs[i], cs[j]); }
    }
    forall i: nat, j: nat, k: nat | leq(i, j) && leq(j, k) ensures leq(i, k) {
      if k < |cs| { BeforeTransitive(cs[i], cs[j], cs[k]); }
    }
  }

  lemma AllIndices(n: nat, order: seq<nat>)
    requires multiset(order) == multiset(Indices(n))
    ensures |order| == n && Injective(order) && InRange(order, n)
    ensures forall i :: 0 <= i < n ==> i in order
  {
    SameElements(order, Indices(n));
    InjectiveRearranged(Indices(n), order);
    forall k | 0 <= k < |order| ensures order[k] < n { assert order[k] in Indices(n); }
    forall i | 0 <= i < n ensures i in order { assert Indices(n)[i] == i; }
  }

  ghost predicate SortedByClaim(cs: seq<Claim>, order: seq<nat>)
    requires InRange(order, |cs|)
  {
    forall k, m :: 0 <= k < m < |order| ==>
      && Before(cs[order[k]], cs[order[m]])
      && (SameKey(cs[order[k]], cs[order[m]]) ==> order[k] < order[m])
  }

  lemma StableOrder(cs: seq<Claim>, leq: (nat, nat) -> bool, order: seq<nat>)
    requires ByClaim(cs, leq) && InRange(order, |cs|) && Sorted(order, leq) && TiesInOrder(order, leq)
    ensures SortedByClaim(cs, order)
  {
    forall k, m | 0 <= k < m < |order|
      ensures Before(cs[order[k]], cs[order[m]])
      ensures SameKey(cs[order[k]], cs[order[m]]) ==> order[k] < order[m]
    {
      assert leq(order[k], order[m]);
      BeforeTotal(cs[order[k]], cs[order[k]]);
      if SameKey(cs[order[k]], cs[order[m]]) { assert leq(order[m], order[k]); }
    }
  }

  /** The indices, strongest finding first; ties keep their order of arrival. */
  method VisitingOrder(cs: seq<Claim>) returns (order: seq<nat>)
    ensures |order| == |cs| && Injective(order) && InRange(order, |cs|)
    ensures forall i :: 0 <= i < |cs| ==> i in order
    ensures SortedByClaim(cs, order)
  {
    var leq := (i: nat, j: nat) => j >= |cs| || (i < |cs| && Before(cs[i], cs[j]));
    IndexOrder(cs, leq);
    var indices := Indices(|cs|);
    SortBySorted(indices, leq);
    SortByStable(indices, leq);
    order := SortBy(indices, leq);
    AllIndices(|cs|, order);
    StableOrder(cs, leq, order);
  }

  // ----- suppression in place -----

  /** Evidence already owned by a stronger score. */
  ghost function Owned(cs: seq<Claim>, kept: set<nat>): set<string> {
    set j, id | j in kept && j < |cs| && id in cs[j].ids :: id
  }

  lemma OwnedOverlaps(cs: seq<Claim>, kept: set<nat>, f: Finding)
    ensures (exists e :: e in f.evidence && e.evidenceId in Owned(cs, kept)) <==> Overlaps(cs, kept, ClaimOf(f))
  {
    var c := ClaimOf(f);
    if e :| e in f.evidence && e.evidenceId in Owned(cs, kept) {
      var j :| j in kept && j < |cs| && e.evidenceId in cs[j].ids;
      assert e.evidenceId in cs[j].ids * c.ids;
    }
    if j :| j in kept && j < |cs| && cs[j].ids * c.ids != {} {
      var id :| id in cs[j].ids * c.ids;
      assert id in Owned(cs, kept);
    }
  }

  lemma OwnedStep(cs: seq<Claim>, kept: set<nat>, k: nat)
    requires k < |cs|
    ensures Owned(cs, kept + {k}) == Owned(cs, kept) + cs[k].ids
  {}

  lemma VisitedSame(claims: seq<Claim>, order: seq<nat>, cs: seq<Claim>)
    requires |order| == |cs| == |claims|
    requires forall k :: 0 <= k < |order| ==> order[k] < |claims| && cs[k] == claims[order[k]]
    requires forall i :: 0 <= i < |claims| ==> i in order
    ensures forall c :: c in claims <==> c in cs
    ensures ScoreDeduplication.Winners(claims) == ScoreDeduplication.Winners(cs)
  {
    forall c | c in claims ensures c in cs {
      var i: nat :| i < |claims| && claims[i] == c;
      assert i in order;
      var k :| 0 <= k < |order| && order[k] == i;
      assert cs[k] == c;
    }
    WinnersSame(claims, cs);
  }

  /** The final value of a finding. */
  function Settle(f: Finding, keep: bool): Finding {
    if keep || f.score == 0 then f else Suppress(f)
  }

  ghost predicate InRange(visit: seq<nat>, n: nat) {
    forall m :: 0 <= m < |visit| ==> visit[m] < n
  }

  /** The findings once the first `k` visited ones have been settled. */
  ghost function Settled(before: seq<Finding>, visit: seq<nat>, kept: set<nat>, k: nat): (r: seq<Finding>)
    requires k <= |visit| && InRange(visit, |before|)
    ensures |r| == |before|
  {
    if k == 0 then before
    else
      var prior, i := Settled(before, visit, kept, k - 1), visit[k - 1];
      prior[i := Settle(prior[i], k - 1 in kept)]
  }

  lemma {:induction false} SettledAt(before: seq<Finding>, visit: seq<nat>, kept: set<nat>, k: nat, m: nat)
    requires k <= |visit| && m < |visit| && Injective(visit) && InRange(visit, |before|)
    ensures Settled(before, visit, kept, k)[visit[m]]
         == if m < k then Settle(before[visit[m]], m in kept) else before[visit[m]]
  {
    if k > 0 {
      SettledAt(before, visit, kept, k - 1, m);
      assert m != k - 1 ==> visit[m] != visit[k - 1];
    }
  }

  /** The winner map tells which claims carry their group's winning rule id. */
  ghost predicate Decides(cs: seq<Claim>, winners: Winners, all: iset<Claim>) {
    forall c :: c in cs && c.score > 0 ==> (c in all <==> c.group in winners && winners[c.group].1 == c.ruleId)
  }

  lemma MapDecides(claims: seq<Claim>, cs: seq<Claim>, winners: Winners) returns (all: iset<Claim>)
    requires WinnersUpTo(claims, |claims|, winners)
    requires forall c :: c in claims <==> c in cs
    ensures all == ScoreDeduplication.Winners(cs) && Decides(cs, winners, all)
  {
    all := ScoreDeduplication.Winners(cs);
    WinnersSame(claims, cs);
    forall c | c in cs && c.score > 0
      ensures c in ScoreDeduplication.Winners(cs) <==> c.group in winners && winners[c.group].1 == c.ruleId
    {
      WinnersDecide(claims, winners, c);
    }
  }

  predicate SharesEvidence(f: Finding, owned: set<string>) {
    exists e :: e in f.evidence && e.evidenceId in owned
  }

  /** The test in the loop body decides which claims are kept. */
  lemma Decide(cs: seq<Claim>, winners: Winners, all: iset<Claim>, scoredEvidence: set<string>, k: nat, f: Finding)
    requires k < |cs| && cs[k] == ClaimOf(f) && Decides(cs, winners, all)
    requires scoredEvidence == Owned(cs, KeptAmong(cs, all, k))
    ensures k in KeptAmong(cs, all, |cs|) <==> Keeps(f, winners, scoredEvidence)
    ensures Owned(cs, KeptAmong(cs, all, k + 1))
         == if Keeps(f, winners, scoredEvidence) then scoredEvidence + EvidenceIds(f) else scoredEvidence
  {
    var kept := KeptAmong(cs, all, k);
    KeptAtOwnStep(cs, all, k, |cs|);
    KeptAtOwnStep(cs, all, k, k + 1);
    OwnedOverlaps(cs, kept, f);
    OwnedStep(cs, kept, k);
    assert cs[k] in cs;
  }

  predicate Keeps(f: Finding, winners: Winners, owned: set<string>) {
    && f.score > 0
    && ScoreGroup(f) in winners && winners[ScoreGroup(f)].1 == f.ruleId
    && !SharesEvidence(f, owned)
  }

  lemma SettledDone(before: seq<Finding>, visit: seq<nat>, cs: seq<Claim>)
    requires Visits(Claims(before), visit, cs)
    ensures Deduplicated(before, Settled(before, visit, Kept(cs), |visit|), visit, cs)
  {
    forall k | 0 <= k < |visit| {
      SettledAt(before, visit, Kept(cs), |visit|, k);
    }
  }

  /** The loop body: suppress `findings[i]`, or let it own its evidence. */
  method Visit(findings: array<Finding>, i: nat, winners: Winners, owned: set<string>) returns (scoredEvidence: set<string>)
    requires i < findings.Length
    modifies findings
    ensures var f := old(findings[i]);
            && findings[..] == old(findings[..])[i := Settle(f, Keeps(f, winners, owned))]
            && scoredEvidence == if Keeps(f, winners, owned) then owned + EvidenceIds(f) else owned
  {
    var f := findings[i];
    var group := ScoreGroup(f);
    scoredEvidence := owned;
    if f.score == 0 {
      return;
    }
    if group !in winners || winners[group].1 != f.ruleId || SharesEvidence(f, owned) {
      findings[i] := f.(score := 0, explanation := f.explanation + SUPPRESSED);
    } else {
      scoredEvidence := owned + EvidenceIds(f);
    }
  }

  /** In place, every finding ends up as the greedy choice over the visited claims says. */
  method DeduplicateScores(findings: array<Finding>) returns (ghost order: seq<nat>, ghost cs: seq<Claim>)
    modifies findings
    ensures Deduplicated(old(findings[..]), findings[..], order, cs)
  {
    var before := findings[..];
    var claims := Claims(before);
    var winners := CollectWinners(before, claims);
    var visit := VisitingOrder(claims);
    order := visit;
    cs := seq(|visit|, k requires 0 <= k < |visit| && visit[k] < |claims| => claims[visit[k]]);
    VisitedSame(claims, order, cs);
    ghost var all := MapDecides(claims, cs, winners);
    SuppressInOrder(findings, visit, winners, cs, all);
    SettledDone(before, visit, cs);
  }

  /** What the second loop relies on. */
  ghost predicate Ready(before: seq<Finding>, visit: seq<nat>, winners: Winners, cs: seq<Claim>, all: iset<Claim>) {
    && Decides(cs, winners, all) && Injective(visit) && |visit| == |cs| && InRange(visit, |before|)
    && forall k :: 0 <= k < |visit| ==> cs[k] == ClaimOf(before[visit[k]])
  }

  /** What holds once the first `k` findings have been visited. */
  ghost predicate Visited(before: seq<Finding>, visit: seq<nat>, cs: seq<Claim>, all: iset<Claim>, k: nat,
                          now: seq<Finding>, owned: set<string>)
    requires k <= |visit| == |cs| && InRange(visit, |before|)
  {
    && now == Settled(before, visit, KeptAmong(cs, all, |cs|), k)
    && owned == Owned(cs, KeptAmong(cs, all, k))
  }

  lemma VisitStep(before: seq<Finding>, visit: seq<nat>, winners: Winners, cs: seq<Claim>, all: iset<Claim>, k: nat,
                  now: seq<Finding>, owned: set<string>)
    requires Ready(before, visit, winners, cs, all) && k < |visit|
    requires Visited(before, visit, cs, all, k, now, owned)
    ensures var f := now[visit[k]];
            Visited(before, visit, cs, all, k + 1,
                    now[visit[k] := Settle(f, Keeps(f, winners, owned))],
                    if Keeps(f, winners, owned) then owned + EvidenceIds(f) else owned)
  {
    SettledAt(before, visit, KeptAmong(cs, all, |cs|), k, k);
    Decide(cs, winners, all, owned, k, before[visit[k]]);
  }

  /** The second loop, over the visiting order. */
  method SuppressInOrder(findings: array<Finding>, visit: seq<nat>, winners: Winners,
                         ghost cs: seq<Claim>, ghost all: iset<Claim>)
    requires Ready(findings[..], visit, winners, cs, all)
    modifies findings
    ensures findings[..] == Settled(old(findings[..]), visit, KeptAmong(cs, all, |cs|), |visit|)
  {
    ghost var before := findings[..];
    var scoredEvidence := {};
    for k := 0 to |visit|
      invariant Visited(before, visit, cs, all, k, findings[..], scoredEvidence)
    {
      VisitStep(before, visit, winners, cs, all, k, findings[..], scoredEvidence);
      scoredEvidence := Visit(findings, visit[k], winners, scoredEvidence);
    }
  }

  // ----- what callers may rely on -----

  lemma StepOf(order: seq<nat>, i: nat) returns (k: nat)
    requires i in order
    ensures k < |order| && order[k] == i
  {
    k :| 0 <= k < |order| && order[k] == i;
  }

  /** The visited claims after the run are the outcome of the greedy choice. */
  lemma ResultClaims(fs: seq<Finding>, rs: seq<Finding>, order: seq<nat>, cs: seq<Claim>, k: nat)
    requires Deduplicated(fs, rs, order, cs) && k < |order|
    ensures ClaimOf(rs[order[k]]) == Outcome(cs)[k]
    ensures rs[order[k]].score > 0 <==> k in Kept(cs)
  {
    SuppressedClaim(fs[order[k]]);
  }

  lemma SuppressedClaim(f: Finding)
    ensures ClaimOf(Suppress(f)) == ClaimOf(f).(score := 0)
  {
    assert EvidenceIds(Suppress(f)) == EvidenceIds(f);
  }

  /** Two findings that both still score share no evidence, and in one group they share the rule id. */
  lemma SurvivorsAreIndependent(fs: seq<Finding>, rs: seq<Finding>, order: seq<nat>, cs: seq<Claim>, i: nat, j: nat)
    requires Deduplicated(fs, rs, order, cs) && i < |fs| && j < |fs| && i != j
    requires rs[i].score > 0 && rs[j].score > 0
    ensures rs[i] == fs[i] && rs[j] == fs[j]
    ensures EvidenceIds(fs[i]) * EvidenceIds(fs[j]) == {}
    ensures ScoreGroup(fs[i]) == ScoreGroup(fs[j]) ==> fs[i].ruleId == fs[j].ruleId
  {
    var k := StepOf(order, i);
    var m := StepOf(order, j);
    ResultClaims(fs, rs, order, cs, k);
    ResultClaims(fs, rs, order, cs, m);
    KeptDisjoint(cs, k, m);
    if ScoreGroup(fs[i]) == ScoreGroup(fs[j]) { SurvivorsAgree(cs, k, m); }
  }

  /** `f` is the finding of a rule without a group for a behaviour that `g` reports under its group. */
  predicate SameBehaviour(f: Finding, g: Finding) {
    f.scoreGroup == "" &&
    match g.scoreGroup
    case "injection" => f.ruleId == "process_injection"
    case "credentials" => f.ruleId == "credential_store_access"
    case "persistence" => f.ruleId == "suspicious_registry_autostart"
    case "execution" => f.ruleId == "script_interpreter_network"
    case _ => false
  }

  lemma SameBehaviourSharesGroup(f: Finding, g: Finding)
    requires SameBehaviour(f, g)
    ensures ScoreGroup(f) == ScoreGroup(g) == g.scoreGroup
  {}

  /** Two reports of one behaviour do not both score, whether by group or by the rule that predates it. */
  lemma OneScorePerBehaviour(fs: seq<Finding>, rs: seq<Finding>, order: seq<nat>, cs: seq<Claim>, i: nat, j: nat)
    requires Deduplicated(fs, rs, order, cs) && i < |fs| && j < |fs| && i != j && fs[i].ruleId != fs[j].ruleId
    requires SameBehaviour(fs[i], fs[j]) || (fs[i].scoreGroup == fs[j].scoreGroup != "")
    ensures rs[i].score == 0 || rs[j].score == 0
  {
    if rs[i].score > 0 && rs[j].score > 0 {
      SurvivorsAreIndependent(fs, rs, order, cs, i, j);
      if SameBehaviour(fs[i], fs[j]) { SameBehaviourSharesGroup(fs[i], fs[j]); }
      assert false;
    }
  }

  /** Suppression takes the score of a finding and adds to its explanation; everything else stays. */
  lemma OnlyTheScoreIsLost(fs: seq<Finding>, rs: seq<Finding>, order: seq<nat>, cs: seq<Claim>, i: nat)
    requires Deduplicated(fs, rs, order, cs) && i < |fs|
    ensures rs[i].ruleId == fs[i].ruleId && rs[i].scoreGroup == fs[i].scoreGroup && rs[i].evidence == fs[i].evidence
    ensures rs[i] == fs[i] || (fs[i].score > 0 && rs[i].score == 0 && fs[i].explanation < rs[i].explanation)
  {
    var k := StepOf(order, i);
    ResultClaims(fs, rs, order, cs, k);
  }

  /** When anything scored before, a strongest score is still there, unchanged. */
  lemma TotalSurvives(fs: seq<Finding>, rs: seq<Finding>, order: seq<nat>, cs: seq<Claim>, i: nat) returns (top: nat)
    requires Deduplicated(fs, rs, order, cs) && i < |fs| && fs[i].score > 0
    ensures top < |fs| && rs[top] == fs[top] && fs[i].score <= rs[top].score
  {
    var k := StepOf(order, i);
    StrongestKept(cs, k);
    ResultClaims(fs, rs, order, cs, 0);
    assert cs[k] in cs;
    top := order[0];
  }

  /** Running the de-duplication again leaves every finding as it is. */
  lemma RunningAgainChangesNothing(fs: seq<Finding>, rs: seq<Finding>, order: seq<nat>, cs: seq<Claim>,
                                   ts: seq<Finding>, again: seq<nat>, ds: seq<Claim>)
    requires Deduplicated(fs, rs, order, cs) && Deduplicated(rs, ts, again, ds)
    ensures ts == rs
  {
    var from := Matching(fs, rs, order, cs, again, ds);
    Idempotent(cs, ds, from);
    forall i | 0 <= i < |rs| ensures ts[i] == rs[i] {
      var k := StepOf(again, i);
      ResultClaims(rs, ts, again, ds, k);
      assert Outcome(ds)[k].score == ds[k].score;
    }
  }

  /** The second run visits the first run's outcome, rearranged. */
  lemma Matching(fs: seq<Finding>, rs: seq<Finding>, order: seq<nat>, cs: seq<Claim>, again: seq<nat>, ds: seq<Claim>)
    returns (from: seq<nat>)
    requires Deduplicated(fs, rs, order, cs) && Visits(Claims(rs), again, ds)
    ensures Rearranges(ds, Outcome(cs), from)
  {
    from := Positions(order, again);
    forall k | 0 <= k < |ds| ensures ds[k] == Outcome(cs)[from[k]] {
      ResultClaims(fs, rs, order, cs, from[k]);
    }
    forall c | c in Outcome(cs) ensures c in ds {
      AllVisitedAgain(fs, rs, order, cs, again, ds, c);
    }
  }

  lemma Positions(order: seq<nat>, again: seq<nat>) returns (from: seq<nat>)
    requires forall k :: 0 <= k < |again| ==> again[k] in order
    ensures |from| == |again| && forall j :: 0 <= j < |again| ==> from[j] < |order| && order[from[j]] == again[j]
  {
    from := [];
    for k := 0 to |again|
      invariant |from| == k
      invariant forall j :: 0 <= j < k ==> from[j] < |order| && order[from[j]] == again[j]
    {
      assert again[k] in order;
      var m := StepOf(order, again[k]);
      from := from + [m];
    }
  }

  lemma AllVisitedAgain(fs: seq<Finding>, rs: seq<Finding>, order: seq<nat>, cs: seq<Claim>, again: seq<nat>, ds: seq<Claim>,
                        c: Claim)
    requires Deduplicated(fs, rs, order, cs) && Visits(Claims(rs), again, ds) && c in Outcome(cs)
    ensures c in ds
  {
    var m :| 0 <= m < |order| && Outcome(cs)[m] == c;
    assert order[m] in again;
    var k := StepOf(again, order[m]);
    ResultClaims(fs, rs, order, cs, m);
    assert ds[k] == c;
  }
}
