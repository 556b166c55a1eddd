/**
 The greedy choice behind `deduplicate_scores` in `src/report_analysis/correlation.rs`:
 which findings keep their score.
 */
module ScoreDeduplication {
  import opened Basics
  import opened Ordering

  /** What scoring looks at in a finding. */
  datatype Claim = Claim(score: u32, ruleId: string, group: string, ids: set<string>)

  /** Stronger scores first, then the smaller rule id. */
  predicate Before(a: Claim, b: Claim) {
    a.score > b.score || (a.score == b.score && TextLeq(a.ruleId, b.ruleId))
  }

  predicate SameKey(a: Claim, b: Claim) {
    a.score == b.score && a.ruleId == b.ruleId
  }

  lemma BeforeTotal(a: Claim, b: Claim)
    ensures Before(a, b) || Before(b, a)
  {
    TextLeqTotal(a.ruleId, b.ruleId);
  }

  lemma BeforeTransitive(a: Claim, b: Claim, c: Claim)
    requires Before(a, b) && Before(b, c)
    ensures Before(a, c)
  {
    if a.score == b.score == c.score { TextLeqTransitive(a.ruleId, b.ruleId, c.ruleId); }
  }

  lemma BeforeAntisymmetric(a: Claim, b: Claim)
    requires Before(a, b) && Before(b, a)
    ensures SameKey(a, b)
  {
    TextLeqAntisymmetric(a.ruleId, b.ruleId);
  }

  // ----- group winners -----

  predicate Rivals(a: Claim, b: Claim) {
    a.score > 0 && b.score > 0 && a.group == b.group
  }

  /** `w` is the strongest scored claim of its group. */
  ghost predicate Best(cs: seq<Claim>, w: Claim) {
    w in cs && w.score > 0 && forall c :: c in cs && Rivals(w, c) ==> Before(w, c)
  }

  /** `c` carries the rule id of the strongest claim of its group. */
  ghost predicate WinsGroup(cs: seq<Claim>, c: Claim) {
    exists w :: Best(cs, w) && w.group == c.group && w.ruleId == c.ruleId
  }

  lemma {:induction false} BestExists(cs: seq<Claim>, c: Claim) returns (w: Claim)
    requires c in cs && c.score > 0
    ensures Best(cs, w) && w.group == c.group
  {
    var rest := cs[1..];
    assert forall d :: d in cs <==> d == cs[0] || d in rest;
    if d :| d in rest && Rivals(c, d) {
      w := BestExists(rest, d);
      BeforeTotal(w, cs[0]);
      if Rivals(w, cs[0]) && !Before(w, cs[0]) {
        forall d | d in rest && Rivals(w, d) ensures Before(cs[0], d) {
          BeforeTransitive(cs[0], w, d);
        }
        w := cs[0];
        BeforeTotal(w, w);
      }
    } else {
      w := c;
      BeforeTotal(w, w);
    }
  }

  lemma BestUnique(cs: seq<Claim>, v: Claim, w: Claim)
    requires Best(cs, v) && Best(cs, w) && v.group == w.group
    ensures SameKey(v, w)
  {
    BeforeAntisymmetric(v, w);
  }

  /** Two winners of one group carry the same rule id. */
  lemma WinnersAgree(cs: seq<Claim>, c: Claim, d: Claim)
    requires WinsGroup(cs, c) && WinsGroup(cs, d) && c.group == d.group
    ensures c.ruleId == d.ruleId
  {
    var v :| Best(cs, v) && v.group == c.group && v.ruleId == c.ruleId;
    var w :| Best(cs, w) && w.group == d.group && w.ruleId == d.ruleId;
    BestUnique(cs, v, w);
  }

  // ----- the greedy choice -----

  /** Claims in visiting order: strongest first. */
  ghost predicate StrongestFirst(cs: seq<Claim>) {
    forall i, j :: 0 <= i < j < |cs| ==> Before(cs[i], cs[j])
  }

  ghost predicate Overlaps(cs: seq<Claim>, kept: set<nat>, c: Claim) {
    exists j :: j in kept && j < |cs| && cs[j].ids * c.ids != {}
  }

  ghost function Winners(cs: seq<Claim>): iset<Claim> {
    iset c | WinsGroup(cs, c)
  }

  /** The claims that keep their score once the first `n` have been visited. */
  ghost function KeptAmong(cs: seq<Claim>, winners: iset<Claim>, n: nat): (r: set<nat>)
    requires n <= |cs|
    ensures forall i :: i in r ==> i < n && cs[i].score > 0 && cs[i] in winners
  {
    if n == 0 then {}
    else
      var kept, c := KeptAmong(cs, winners, n - 1), cs[n - 1];
      if c.score > 0 && c in winners && !Overlaps(cs, kept, c) then kept + {n - 1} else kept
  }

  ghost function Kept(cs: seq<Claim>): (r: set<nat>)
    ensures forall i :: i in r ==> i < |cs| && cs[i].score > 0
  {
    KeptAmong(cs, Winners(cs), |cs|)
  }

  lemma KeptWins(cs: seq<Claim>, i: nat)
    requires i in Kept(cs)
    ensures WinsGroup(cs, cs[i])
  {
    assert cs[i] in Winners(cs);
  }

  /** Whether a claim is kept is decided when it is visited. */
  lemma {:induction false} KeptAtOwnStep(cs: seq<Claim>, winners: iset<Claim>, i: nat, n: nat)
    requires i < n <= |cs|
    ensures i in KeptAmong(cs, winners, n) <==>
              cs[i].score > 0 && cs[i] in winners && !Overlaps(cs, KeptAmong(cs, winners, i), cs[i])
    ensures KeptAmong(cs, winners, i) <= KeptAmong(cs, winners, n)
    decreases n
  {
    if i + 1 < n { KeptAtOwnStep(cs, winners, i, n - 1); }
  }

  // ----- what the choice guarantees -----

  lemma KeptApart(cs: seq<Claim>, winners: iset<Claim>, i: nat, j: nat)
    requires i in KeptAmong(cs, winners, |cs|) && j in KeptAmong(cs, winners, |cs|) && i < j
    ensures cs[i].ids * cs[j].ids == {}
  {
    KeptAtOwnStep(cs, winners, j, |cs|);
    KeptAtOwnStep(cs, winners, i, |cs|);
    KeptAtOwnStep(cs, winners, i, j);
  }

  /** Surviving scores never share evidence. */
  lemma KeptDisjoint(cs: seq<Claim>, i: nat, j: nat)
    requires i in Kept(cs) && j in Kept(cs) && i != j
    ensures cs[i].ids * cs[j].ids == {}
  {
    if i < j { KeptApart(cs, Winners(cs), i, j); } else { KeptApart(cs, Winners(cs), j, i); }
  }

  /** With distinct rule ids, a score group scores at most once. */
  lemma OnePerGroup(cs: seq<Claim>, i: nat, j: nat)
    requires i in Kept(cs) && j in Kept(cs) && cs[i].group == cs[j].group
    requires i != j ==> cs[i].ruleId != cs[j].ruleId
    ensures i == j
  {
    SurvivorsAgree(cs, i, j);
  }

  /** A suppressed score lost to its group winner, or overlaps a kept score at least as strong. */
  lemma SuppressedForAReason(cs: seq<Claim>, i: nat)
    requires StrongestFirst(cs) && i < |cs| && cs[i].score > 0 && i !in Kept(cs)
    ensures (exists w :: Best(cs, w) && w.group == cs[i].group && Before(w, cs[i]) && w.ruleId != cs[i].ruleId)
         || (exists j :: j in Kept(cs) && cs[j].score >= cs[i].score && cs[j].ids * cs[i].ids != {})
  {
    KeptAtOwnStep(cs, Winners(cs), i, |cs|);
    if WinsGroup(cs, cs[i]) {
      var j :| j in KeptAmong(cs, Winners(cs), i) && cs[j].ids * cs[i].ids != {};
      assert Before(cs[j], cs[i]);
    } else {
      var w := BestExists(cs, cs[i]);
    }
  }

  /** The strongest score of all survives, so a total above zero stays above zero. */
  lemma StrongestKept(cs: seq<Claim>, i: nat)
    requires StrongestFirst(cs) && i < |cs| && cs[i].score > 0
    ensures 0 in Kept(cs) && forall c :: c in cs ==> c.score <= cs[0].score
  {
    forall c | c in cs ensures Before(cs[0], c) {
      var k :| 0 <= k < |cs| && cs[k] == c;
      BeforeTotal(c, c);
    }
    assert Best(cs, cs[0]);
    KeptAtOwnStep(cs, Winners(cs), 0, |cs|);
  }

  // ----- the outcome -----

  /** What is left of the claims when only `kept` keep their score. */
  ghost function OutcomeOf(cs: seq<Claim>, kept: set<nat>): (r: seq<Claim>)
    ensures |r| == |cs|
    ensures forall i :: 0 <= i < |cs| ==> r[i] == if i in kept then cs[i] else cs[i].(score := 0)
  {
    seq(|cs|, i requires 0 <= i < |cs| => if i in kept then cs[i] else cs[i].(score := 0))
  }

  ghost function Outcome(cs: seq<Claim>): (r: seq<Claim>) {
    OutcomeOf(cs, Kept(cs))
  }

  ghost predicate Apart(cs: seq<Claim>) {
    forall i, j :: 0 <= i < j < |cs| && cs[i].score > 0 && cs[j].score > 0 ==>
                     cs[i].ids * cs[j].ids == {} && cs[j].ids * cs[i].ids == {}
  }

  /** When every scored claim wins its group and shares no evidence, everything is kept. */
  lemma SettledKeepsAll(cs: seq<Claim>, i: nat)
    requires Apart(cs) && i < |cs| && cs[i].score > 0 && WinsGroup(cs, cs[i])
    ensures i in Kept(cs)
  {
    KeptAtOwnStep(cs, Winners(cs), i, |cs|);
  }

  lemma OutcomeApart(cs: seq<Claim>)
    ensures Apart(Outcome(cs))
  {
    var rs := Outcome(cs);
    forall i, j | 0 <= i < j < |rs| && rs[i].score > 0 && rs[j].score > 0
      ensures rs[i].ids * rs[j].ids == {} && rs[j].ids * rs[i].ids == {}
    {
      KeptDisjoint(cs, i, j);
      KeptDisjoint(cs, j, i);
    }
  }

  lemma OutcomeWins(cs: seq<Claim>, i: nat)
    requires i < |cs| && Outcome(cs)[i].score > 0
    ensures WinsGroup(Outcome(cs), Outcome(cs)[i])
  {
    var rs := Outcome(cs);
    var w := BestExists(rs, rs[i]);
    var j :| 0 <= j < |rs| && rs[j] == w;
    SurvivorsAgree(cs, i, j);
  }

  lemma SurvivorsAgree(cs: seq<Claim>, i: nat, j: nat)
    requires i in Kept(cs) && j in Kept(cs) && cs[i].group == cs[j].group
    ensures cs[i].ruleId == cs[j].ruleId
  {
    KeptWins(cs, i);
    KeptWins(cs, j);
    WinnersAgree(cs, cs[i], cs[j]);
  }

  /** A rearrangement: every position of `t` takes its claim from its own position of `s`. */
  ghost predicate Rearranges(t: seq<Claim>, s: seq<Claim>, from: seq<nat>) {
    && |from| == |t| == |s|
    && (forall i :: 0 <= i < |t| ==> from[i] < |s| && t[i] == s[from[i]])
    && (forall i, j :: 0 <= i < j < |t| ==> from[i] != from[j])
    && (forall c :: c in s <==> c in t)
  }

  lemma WinnersSame(s: seq<Claim>, t: seq<Claim>)
    requires forall d :: d in s <==> d in t
    ensures forall c :: WinsGroup(s, c) <==> WinsGroup(t, c)
    ensures Winners(s) == Winners(t)
  {
    assert forall w :: Best(s, w) <==> Best(t, w);
  }

  lemma RearrangedApart(t: seq<Claim>, s: seq<Claim>, from: seq<nat>)
    requires Rearranges(t, s, from) && Apart(s)
    ensures Apart(t)
  {
    forall i, j | 0 <= i < j < |t| && t[i].score > 0 && t[j].score > 0
      ensures t[i].ids * t[j].ids == {} && t[j].ids * t[i].ids == {}
    {
      assert from[i] < from[j] || from[j] < from[i];
    }
  }

  /** De-duplicating again, in whatever order, changes nothing. */
  lemma Idempotent(cs: seq<Claim>, again: seq<Claim>, from: seq<nat>)
    requires Rearranges(again, Outcome(cs), from)
    ensures Outcome(again) == again
  {
    var rs := Outcome(cs);
    OutcomeApart(cs);
    RearrangedApart(again, rs, from);
    WinnersSame(rs, again);
    forall i | 0 <= i < |again| ensures Outcome(again)[i] == again[i] {
      if again[i].score > 0 {
        OutcomeWins(cs, from[i]);
        SettledKeepsAll(again, i);
      }
    }
  }

  // ----- arrival order -----

  /**
   `cs` are the claims of `claims` in the order in which they are visited: strongest first, and as
   they arrived where score and rule id tie.
   */
  ghost predicate Visits(claims: seq<Claim>, order: seq<nat>, cs: seq<Claim>) {
    && Permutes(claims, order, cs) && StrongestFirst(cs)
    && forall k, m :: 0 <= k < m < |cs| && SameKey(cs[k], cs[m]) ==> order[k] < order[m]
  }

  predicate Scores(c: Claim) { c.score > 0 }

  /** The scores that are left, as often as they are left. */
  ghost function Survivors(cs: seq<Claim>): multiset<Claim> {
    multiset(Filter(Outcome(cs), Scores))
  }

  ghost predicate Survives(cs: seq<Claim>, c: Claim) {
    exists k :: k in Kept(cs) && cs[k] == c
  }

  predicate Precedes(a: Claim, b: Claim) { Before(a, b) && !SameKey(a, b) }

  /** No surviving score that precedes `c` by score or rule id takes any of its evidence. */
  ghost predicate Unclaimed(cs: seq<Claim>, c: Claim) {
    forall k :: k in Kept(cs) && Precedes(cs[k], c) ==> cs[k].ids * c.ids == {}
  }

  /** `c` still competes for its evidence when its score and rule id come up. */
  ghost predicate Competes(cs: seq<Claim>, c: Claim) {
    c in cs && c.score > 0 && WinsGroup(cs, c) && Unclaimed(cs, c)
  }

  /** No other claim that ties with `c` on score and rule id competes for its evidence. */
  ghost predicate Unrivalled(cs: seq<Claim>, c: Claim) {
    forall d :: Competes(cs, d) && SameKey(d, c) && d.ids * c.ids != {} ==> d == c
  }

  ghost predicate Uncontested(cs: seq<Claim>) {
    forall c :: Competes(cs, c) ==> Unrivalled(cs, c)
  }

  lemma PrecedingComesFirst(cs: seq<Claim>, k: nat, i: nat)
    requires StrongestFirst(cs) && k < |cs| && i < |cs| && Precedes(cs[k], cs[i])
    ensures k < i
  {
    if i < k {
      BeforeAntisymmetric(cs[i], cs[k]);
    }
  }

  lemma SurvivorCompetes(cs: seq<Claim>, c: Claim)
    requires Survives(cs, c)
    ensures Competes(cs, c)
  {
    var k := PositionKept(cs, c);
    KeptWins(cs, k);
    forall j | j in Kept(cs) && Precedes(cs[j], cs[k]) ensures cs[j].ids * c.ids == {} {
      KeptDisjoint(cs, j, k);
    }
  }

  /** Without a rival, competing is all it takes to survive. */
  lemma CompetitorSurvives(cs: seq<Claim>, c: Claim)
    requires StrongestFirst(cs) && Competes(cs, c) && Unrivalled(cs, c)
    ensures Survives(cs, c)
  {
    var i := FirstPosition(cs, c);
    KeptAtOwnStep(cs, Winners(cs), i, |cs|);
    if i !in Kept(cs) {
      var k :| k in KeptAmong(cs, Winners(cs), i) && k < |cs| && cs[k].ids * c.ids != {};
      assert k in Kept(cs) && Survives(cs, cs[k]);
      SurvivorCompetes(cs, cs[k]);
      assert Before(cs[k], c) && SameKey(cs[k], c);
    }
  }

  lemma {:induction false} FirstPosition(cs: seq<Claim>, c: Claim) returns (i: nat)
    requires c in cs
    ensures i < |cs| && cs[i] == c && c !in cs[..i]
  {
    if cs[0] == c {
      i := 0;
    } else {
      var rest := cs[1..];
      i := FirstPosition(rest, c);
      i := i + 1;
      assert cs[..i] == [cs[0]] + rest[..i - 1];
    }
  }

  /** When the preceding claims have the same fate in both lists, `c` competes in both or in neither. */
  lemma SameCompetition(cs: seq<Claim>, ds: seq<Claim>, c: Claim)
    requires forall d :: d in cs <==> d in ds
    requires forall d :: d in cs && Precedes(d, c) ==> (Survives(cs, d) <==> Survives(ds, d))
    ensures Competes(cs, c) <==> Competes(ds, c)
  {
    WinnersSame(cs, ds);
    if Unclaimed(cs, c) { StaysUnclaimed(cs, ds, c); }
    if Unclaimed(ds, c) { StaysUnclaimed(ds, cs, c); }
  }

  lemma StaysUnclaimed(cs: seq<Claim>, ds: seq<Claim>, c: Claim)
    requires forall d :: d in ds && Precedes(d, c) && Survives(ds, d) ==> Survives(cs, d)
    requires Unclaimed(cs, c)
    ensures Unclaimed(ds, c)
  {
    forall k | k in Kept(ds) && Precedes(ds[k], c) ensures ds[k].ids * c.ids == {} {
      assert ds[k] in ds && Survives(ds, ds[k]);
      var j :| j in Kept(cs) && cs[j] == ds[k];
    }
  }

  /** Without contest, every order lets the same claims survive. */
  lemma {:induction false} SameFate(cs: seq<Claim>, ds: seq<Claim>, i: nat)
    requires StrongestFirst(cs) && StrongestFirst(ds) && (forall d :: d in cs <==> d in ds)
    requires Uncontested(cs) && i < |cs|
    ensures Survives(cs, cs[i]) <==> Survives(ds, cs[i])
    decreases i
  {
    var c := cs[i];
    forall d | SameKey(d, c) ensures Competes(cs, d) <==> Competes(ds, d) {
      forall e | e in cs && Precedes(e, d) ensures Survives(cs, e) <==> Survives(ds, e) {
        var j: nat :| j < |cs| && cs[j] == e;
        PrecedingComesFirst(cs, j, i);
        SameFate(cs, ds, j);
      }
      SameCompetition(cs, ds, d);
    }
    if Competes(cs, c) {
      CompetitorSurvives(cs, c);
      CompetitorSurvives(ds, c);
    } else {
      if Survives(cs, c) { SurvivorCompetes(cs, c); }
      if Survives(ds, c) { SurvivorCompetes(ds, c); }
    }
  }

  lemma PositionKept(cs: seq<Claim>, c: Claim) returns (k: nat)
    requires Survives(cs, c)
    ensures k in Kept(cs) && cs[k] == c
  {
    k :| k in Kept(cs) && cs[k] == c;
  }

  /** A claim survives once, or, if it has no evidence, as often as it was made. */
  lemma SurvivorCount(cs: seq<Claim>, c: Claim)
    ensures Survivors(cs)[c] == if !Survives(cs, c) then 0 else if c.ids == {} then multiset(cs)[c] else 1
  {
    var rs := Outcome(cs);
    FilterCount(rs, Scores, c);
    if !Survives(cs, c) {
      assert c.score > 0 ==> c !in rs;
    } else {
      var k := PositionKept(cs, c);
      if c.ids == {} {
        forall i | 0 <= i < |cs| ensures rs[i] == c <==> cs[i] == c {
          if cs[i] == c { AllCopiesSurvive(cs, k, i); }
        }
        SamePlaces(cs, rs, c);
      } else {
        forall i | 0 <= i < |rs| ensures rs[i] == c <==> i == k {
          if i != k && rs[i] == c { KeptDisjoint(cs, i, k); }
        }
        OnePlace(rs, k);
      }
    }
  }

  lemma AllCopiesSurvive(cs: seq<Claim>, k: nat, i: nat)
    requires k in Kept(cs) && i < |cs| && cs[i] == cs[k] && cs[k].ids == {}
    ensures i in Kept(cs)
  {
    KeptWins(cs, k);
    KeptAtOwnStep(cs, Winners(cs), i, |cs|);
  }

  lemma SameSurvivors(cs: seq<Claim>, ds: seq<Claim>)
    requires StrongestFirst(cs) && StrongestFirst(ds) && multiset(cs) == multiset(ds) && Uncontested(cs)
    ensures Survivors(cs) == Survivors(ds)
  {
    SameElements(cs, ds);
    forall c ensures Survivors(cs)[c] == Survivors(ds)[c] {
      SurvivorCount(cs, c);
      SurvivorCount(ds, c);
      SameFateOf(cs, ds, c);
    }
  }

  lemma SameFateOf(cs: seq<Claim>, ds: seq<Claim>, c: Claim)
    requires StrongestFirst(cs) && StrongestFirst(ds) && (forall d :: d in cs <==> d in ds) && Uncontested(cs)
    ensures Survives(cs, c) <==> Survives(ds, c)
  {
    if c in cs {
      var i: nat :| i < |cs| && cs[i] == c;
      SameFate(cs, ds, i);
    }
  }

  // ----- contested evidence -----

  lemma {:induction false} FirstOfKey(cs: seq<Claim>, q: nat) returns (p: nat)
    requires StrongestFirst(cs) && q < |cs|
    ensures p <= q && SameKey(cs[p], cs[q]) && forall k :: 0 <= k < p ==> Precedes(cs[k], cs[q])
    decreases q
  {
    if q == 0 || Precedes(cs[q - 1], cs[q]) {
      p := q;
      forall k | 0 <= k < p ensures Precedes(cs[k], cs[q]) {
        if k < q - 1 && SameKey(cs[k], cs[q]) { BeforeAntisymmetric(cs[q - 1], cs[q]); }
      }
    } else {
      p := FirstOfKey(cs, q - 1);
    }
  }

  lemma {:induction false} SamePrefixKept(cs: seq<Claim>, ds: seq<Claim>, winners: iset<Claim>, n: nat)
    requires n <= |cs| && n <= |ds| && forall i :: 0 <= i < n ==> cs[i] == ds[i]
    ensures KeptAmong(cs, winners, n) == KeptAmong(ds, winners, n)
  {
    if n > 0 { SamePrefixKept(cs, ds, winners, n - 1); }
  }

  /** Moving a claim to the front of those that tie with it gives another visiting order. */
  lemma MovedToFront(cs: seq<Claim>, q: nat, p: nat) returns (ds: seq<Claim>)
    requires StrongestFirst(cs) && p <= q < |cs| && SameKey(cs[p], cs[q])
    ensures |ds| == |cs| && StrongestFirst(ds) && multiset(ds) == multiset(cs) && ds[p] == cs[q]
    ensures forall i :: 0 <= i < p ==> ds[i] == cs[i]
  {
    ds := cs[p := cs[q]][q := cs[p]];
    assert forall i :: 0 <= i < |cs| ==> SameKey(ds[i], cs[i]);
  }

  /** Moved to the front of those that tie with it, a competitor survives and its rivals do not. */
  lemma FirstComeFirstServed(cs: seq<Claim>, a: Claim) returns (ds: seq<Claim>)
    requires StrongestFirst(cs) && Competes(cs, a)
    ensures StrongestFirst(ds) && multiset(ds) == multiset(cs) && Survives(ds, a)
    ensures forall b :: b != a && a.ids * b.ids != {} ==> !Survives(ds, b)
  {
    var q: nat :| q < |cs| && cs[q] == a;
    var p := FirstOfKey(cs, q);
    ds := MovedToFront(cs, q, p);
    SameElements(cs, ds);
    FrontSurvives(cs, ds, p, a);
    forall b | b != a && a.ids * b.ids != {} && Survives(ds, b) ensures false {
      var k := PositionKept(ds, b);
      KeptDisjoint(ds, p, k);
    }
  }

  lemma FrontSurvives(cs: seq<Claim>, ds: seq<Claim>, p: nat, a: Claim)
    requires Competes(cs, a) && (forall d :: d in cs <==> d in ds) && p < |cs| == |ds| && ds[p] == a
    requires forall i :: 0 <= i < p ==> ds[i] == cs[i] && Precedes(cs[i], a)
    ensures p in Kept(ds)
  {
    WinnersSame(cs, ds);
    SamePrefixKept(cs, ds, Winners(cs), p);
    KeptAtOwnStep(cs, Winners(cs), p, |cs|);
    KeptAtOwnStep(ds, Winners(ds), p, |ds|);
  }

  /** A contest is decided by the order. */
  lemma ContestDepends(cs: seq<Claim>) returns (ds: seq<Claim>)
    requires StrongestFirst(cs) && !Uncontested(cs)
    ensures StrongestFirst(ds) && multiset(ds) == multiset(cs) && Survivors(ds) != Survivors(cs)
  {
    var a :| Competes(cs, a) && !Unrivalled(cs, a);
    var b :| Competes(cs, b) && SameKey(b, a) && b.ids * a.ids != {} && b != a;
    var es := FirstComeFirstServed(cs, a);
    var fs := FirstComeFirstServed(cs, b);
    SurvivorCount(es, a);
    SurvivorCount(fs, a);
    ds := if Survivors(es) != Survivors(cs) then es else fs;
  }

  /** A list that is strongest first already is visited as it is. */
  lemma VisitsItself(ds: seq<Claim>)
    requires StrongestFirst(ds)
    ensures Visits(ds, Indices(|ds|), ds)
  {
    forall i | 0 <= i < |ds| ensures i in Indices(|ds|) { assert Indices(|ds|)[i] == i; }
  }

  // ----- the same, read off the findings -----

  /** The claims that precede `c` by score or rule id. */
  ghost function Earlier(claims: seq<Claim>, c: Claim): set<Claim> {
    set d | d in claims && Precedes(d, c)
  }

  lemma EarlierShrinks(claims: seq<Claim>, d: Claim, c: Claim)
    requires d in claims && Precedes(d, c)
    ensures Earlier(claims, d) < Earlier(claims, c)
  {
    forall e | e in Earlier(claims, d) ensures Precedes(e, c) {
      BeforeTransitive(e, d, c);
      if SameKey(e, c) { BeforeAntisymmetric(c, d); }
    }
    assert d in Earlier(claims, c) && d !in Earlier(claims, d);
  }

  /**
   `c` is a winner of its group, and shares no evidence with a claim of higher score, or of equal
   score and smaller rule id, of which the same can be said. No order of the list is involved.
   */
  ghost predicate Eligible(claims: seq<Claim>, c: Claim)
    decreases Earlier(claims, c)
  {
    && c in claims && c.score > 0 && WinsGroup(claims, c)
    && forall d | d in claims && Precedes(d, c) ::
         (EarlierShrinks(claims, d, c); !Eligible(claims, d)) || d.ids * c.ids == {}
  }

  /** No two different eligible claims tie on score and rule id and share evidence. */
  ghost predicate NoContest(claims: seq<Claim>) {
    forall c, d :: Eligible(claims, c) && Eligible(claims, d) && SameKey(d, c) && d.ids * c.ids != {} ==> d == c
  }

  lemma EligibleMeans(claims: seq<Claim>, c: Claim)
    ensures Eligible(claims, c) <==>
              && c in claims && c.score > 0 && WinsGroup(claims, c)
              && forall d :: d in claims && Precedes(d, c) && Eligible(claims, d) ==> d.ids * c.ids == {}
  {}

  /** Where the preceding claims survive exactly if they are eligible, competing is being eligible. */
  lemma CompetesIffEligible(cs: seq<Claim>, claims: seq<Claim>, c: Claim)
    requires forall d :: d in cs <==> d in claims
    requires forall d :: d in cs && Precedes(d, c) ==> (Survives(cs, d) <==> Eligible(claims, d))
    ensures Competes(cs, c) <==> Eligible(claims, c)
  {
    WinnersSame(cs, claims);
    EligibleMeans(claims, c);
    if Eligible(claims, c) {
      forall k | k in Kept(cs) && Precedes(cs[k], c) ensures cs[k].ids * c.ids == {} {
        assert cs[k] in cs && Survives(cs, cs[k]);
      }
    }
    if Competes(cs, c) {
      forall d | d in claims && Precedes(d, c) && Eligible(claims, d) ensures d.ids * c.ids == {} {
        var k := PositionKept(cs, d);
      }
    }
  }

  /** When there is no contest, the survivors are the eligible claims. */
  lemma {:induction false} SurvivesIffEligible(cs: seq<Claim>, claims: seq<Claim>, i: nat)
    requires StrongestFirst(cs) && (forall d :: d in cs <==> d in claims) && i < |cs|
    requires Uncontested(cs) || NoContest(claims)
    ensures Survives(cs, cs[i]) <==> Eligible(claims, cs[i])
    ensures Competes(cs, cs[i]) <==> Eligible(claims, cs[i])
    decreases i
  {
    var c := cs[i];
    forall d | SameKey(d, c) ensures Competes(cs, d) <==> Eligible(claims, d) {
      forall e | e in cs && Precedes(e, d) ensures Survives(cs, e) <==> Eligible(claims, e) {
        var j: nat :| j < |cs| && cs[j] == e;
        PrecedingComesFirst(cs, j, i);
        SurvivesIffEligible(cs, claims, j);
      }
      CompetesIffEligible(cs, claims, d);
    }
    if Competes(cs, c) {
      UnrivalledEitherWay(cs, claims, c);
      CompetitorSurvives(cs, c);
    } else if Survives(cs, c) {
      SurvivorCompetes(cs, c);
    }
  }

  lemma UnrivalledEitherWay(cs: seq<Claim>, claims: seq<Claim>, c: Claim)
    requires Uncontested(cs) || NoContest(claims)
    requires Competes(cs, c) && forall d :: SameKey(d, c) ==> (Competes(cs, d) <==> Eligible(claims, d))
    ensures Unrivalled(cs, c)
  {}

  /** Both ways of saying that no evidence is contested agree. */
  lemma ContestIsOrderless(cs: seq<Claim>, claims: seq<Claim>)
    requires StrongestFirst(cs) && forall d :: d in cs <==> d in claims
    ensures NoContest(claims) <==> Uncontested(cs)
  {
    if Uncontested(cs) || NoContest(claims) {
      forall c ensures Competes(cs, c) <==> Eligible(claims, c) {
        EligibleMeans(claims, c);
        if c in cs {
          var i: nat :| i < |cs| && cs[i] == c;
          SurvivesIffEligible(cs, claims, i);
        }
      }
    }
  }

  /** The visited order plays no part in what `Uncontested` says. */
  lemma SameSurvivorsExactly(claims: seq<Claim>, order: seq<nat>, cs: seq<Claim>)
    requires Visits(claims, order, cs)
    ensures Uncontested(cs) <==>
              forall others, o, ds :: multiset(others) == multiset(claims) && Visits(others, o, ds) ==>
                                        Survivors(ds) == Survivors(cs)
  {
    PermutedElements(claims, order, cs);
    if Uncontested(cs) {
      forall others, o, ds | multiset(others) == multiset(claims) && Visits(others, o, ds)
        ensures Survivors(ds) == Survivors(cs)
      {
        PermutedElements(others, o, ds);
        SameSurvivors(cs, ds);
      }
    } else {
      var ds := ContestDepends(cs);
      VisitsItself(ds);
    }
  }

  /** The same scores survive in every order of arrival if and only if no evidence is contested. */
  lemma ArrivalOrderIrrelevant(claims: seq<Claim>, order: seq<nat>, cs: seq<Claim>)
    requires Visits(claims, order, cs)
    ensures NoContest(claims) <==>
              forall others, o, ds :: multiset(others) == multiset(claims) && Visits(others, o, ds) ==>
                                        Survivors(ds) == Survivors(cs)
  {
    PermutedElements(claims, order, cs);
    SameElements(claims, cs);
    ContestIsOrderless(cs, claims);
    SameSurvivorsExactly(claims, order, cs);
  }

  /** In particular, nothing is contested when no two different scored claims tie. */
  lemma WithoutTies(claims: seq<Claim>)
    requires forall a, b :: a in claims && b in claims && a.score > 0 && SameKey(a, b) ==> a == b
    ensures NoContest(claims)
  {}

  /** Contested evidence exists: one rule reported twice with some evidence in common. */
  lemma TieExample()
    ensures var a, b := Claim(10, "r", "g", {"e"}), Claim(10, "r", "g", {"e", "f"});
            Visits([a, b], [0, 1], [a, b]) && !NoContest([a, b])
  {
    var a, b := Claim(10, "r", "g", {"e"}), Claim(10, "r", "g", {"e", "f"});
    assert "e" in b.ids * a.ids && "f" in b.ids && "f" !in a.ids;
    TieCompetes(a, b);
    assert !Unrivalled([a, b], a);
    ContestIsOrderless([a, b], [a, b]);
  }

  lemma TieCompetes(a: Claim, b: Claim)
    requires SameKey(a, b) && a.group == b.group && a.score > 0
    ensures Visits([a, b], [0, 1], [a, b]) && Competes([a, b], a) && Competes([a, b], b)
  {
    BeforeTotal(a, a);
    assert [0, 1][0] == 0 && [0, 1][1] == 1;
    assert a in [a, b] && b in [a, b];
    assert Best([a, b], a);
  }
}
