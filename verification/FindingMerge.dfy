/**
 Merging the duplicate findings of one scanner result (`deduplicate_findings` in
 `src/detection/validation.rs`).
 */
module FindingMerge {
  import opened Basics
  import opened Ordering
  import Grouping

  // ----- findings -----

  datatype Location = Location(kind: string, offset: u64, length: u64, excerptHex: string)

  /** What duplicates have to agree on. */
  datatype Shared = Shared(metadata: map<string, string>, scope: string, attack: seq<string>, mbc: seq<string>)

  /** What is taken over from the first of them. */
  datatype Presentation = Presentation(title: string, tags: seq<string>, maec: map<string, string>)

  datatype Finding = Finding(
    id: string, rulePack: string, namespace: string, rule: string, shared: Shared, presentation: Presentation,
    locations: seq<Location>, features: seq<string>, evidenceIds: seq<string>)

  datatype Limits = Limits(offsets: nat, features: nat)

  type Key = Grouping.Key

  function KeyOf(f: Finding): Key { [f.rulePack, f.namespace, f.rule] }

  // ----- the order of locations -----

  predicate LocationLeq(a: Location, b: Location) {
    if a.kind != b.kind then TextLeq(a.kind, b.kind)
    else if a.offset != b.offset then a.offset <= b.offset
    else if a.length != b.length then a.length <= b.length
    else TextLeq(a.excerptHex, b.excerptHex)
  }

  lemma LocationLeqOrder()
    ensures TotalPreorder(LocationLeq) && Antisymmetric(LocationLeq)
  {
    forall a, b ensures LocationLeq(a, b) || LocationLeq(b, a) {
      TextLeqTotal(a.kind, b.kind);
      TextLeqTotal(a.excerptHex, b.excerptHex);
    }
    forall a, b | LocationLeq(a, b) && LocationLeq(b, a) ensures a == b { LocationLeqAntisymmetric(a, b); }
    forall a, b, c | LocationLeq(a, b) && LocationLeq(b, c) ensures LocationLeq(a, c) { LocationLeqTransitive(a, b, c); }
  }

  lemma LocationLeqAntisymmetric(a: Location, b: Location)
    requires LocationLeq(a, b) && LocationLeq(b, a)
    ensures a == b
  {
    if a.kind != b.kind { TextLeqAntisymmetric(a.kind, b.kind); }
    else if a.offset == b.offset && a.length == b.length { TextLeqAntisymmetric(a.excerptHex, b.excerptHex); }
  }

  lemma LocationLeqTransitive(a: Location, b: Location, c: Location)
    requires LocationLeq(a, b) && LocationLeq(b, c)
    ensures LocationLeq(a, c)
  {
    if a.kind != b.kind && b.kind != c.kind {
      TextLeqTransitive(a.kind, b.kind, c.kind);
      if a.kind == c.kind { TextLeqAntisymmetric(a.kind, b.kind); }
    } else if a.kind == b.kind == c.kind && a.offset == b.offset == c.offset && a.length == b.length == c.length {
      TextLeqTransitive(a.excerptHex, b.excerptHex, c.excerptHex);
    }
  }

  // ----- groups -----

  function Members(fs: seq<Finding>, key: Key): seq<Finding> {
    Grouping.Group(fs, KeyOf, key)
  }

  function LocationsOf(ms: seq<Finding>): set<Location> {
    set f, l | f in ms && l in f.locations :: l
  }

  function FeaturesOf(ms: seq<Finding>): set<string> {
    set f, x | f in ms && x in f.features :: x
  }

  function EvidenceOf(ms: seq<Finding>): set<string> {
    set f, x | f in ms && x in f.evidenceIds :: x
  }

  predicate Agreeing(ms: seq<Finding>) {
    forall f, g :: f in ms && g in ms ==> f.shared == g.shared
  }

  /** Only what has been merged is held against the limits. */
  predicate Fits(ms: seq<Finding>, limits: Limits) {
    |ms| >= 2 ==> |LocationsOf(ms)| <= limits.offsets && |FeaturesOf(ms)| <= limits.features
  }

  /** `m` stands for all the members of a group. */
  ghost predicate MergeOf(ms: seq<Finding>, m: Finding) {
    && ms != [] && KeyOf(m) == KeyOf(ms[0]) && m.presentation == ms[0].presentation
    && Speaks(ms, m) && LeastId(ms, m.id)
    && if |ms| == 1 then m == ms[0] else ListsUnions(ms, m)
  }

  predicate Speaks(ms: seq<Finding>, m: Finding) {
    forall f :: f in ms ==> m.shared == f.shared
  }

  predicate LeastId(ms: seq<Finding>, id: string) {
    (forall f :: f in ms ==> TextLeq(id, f.id)) && exists f :: f in ms && id == f.id
  }

  ghost predicate ListsUnions(ms: seq<Finding>, m: Finding) {
    && IsListing(m.locations, LocationLeq, LocationsOf(ms))
    && IsListing(m.features, TextLeq, FeaturesOf(ms))
    && IsListing(m.evidenceIds, TextLeq, EvidenceOf(ms))
  }

  function MinText(a: string, b: string): string { if TextLeq(a, b) then a else b }

  /** What becomes of the prior finding of a group when another one arrives. */
  function Merge(prior: Finding, f: Finding): Finding {
    prior.(id := MinText(prior.id, f.id),
           locations := SortDedup(prior.locations + f.locations, LocationLeq),
           features := SortDedup(prior.features + f.features, TextLeq),
           evidenceIds := SortDedup(prior.evidenceIds + f.evidenceIds, TextLeq))
  }

  /** The elements of the prior lists are those of the members, whether they have been merged or not. */
  lemma PriorElements(ms: seq<Finding>, m: Finding)
    requires MergeOf(ms, m)
    ensures forall l :: l in m.locations <==> l in LocationsOf(ms)
    ensures forall x :: x in m.features <==> x in FeaturesOf(ms)
    ensures forall x :: x in m.evidenceIds <==> x in EvidenceOf(ms)
  {
    if |ms| == 1 { assert forall f :: f in ms <==> f == m; }
  }

  lemma UnionsMore(ms: seq<Finding>, f: Finding)
    ensures LocationsOf(ms + [f]) == LocationsOf(ms) + LocationsOf([f])
    ensures FeaturesOf(ms + [f]) == FeaturesOf(ms) + FeaturesOf([f])
    ensures EvidenceOf(ms + [f]) == EvidenceOf(ms) + EvidenceOf([f])
  {
    assert forall g :: g in ms + [f] <==> g in ms || g in [f];
  }

  lemma MergeIds(ms: seq<Finding>, m: Finding, f: Finding)
    requires MergeOf(ms, m)
    ensures LeastId(ms + [f], MinText(m.id, f.id))
  {
    TextLeqTotal(m.id, f.id);
    forall g | g in ms + [f] ensures TextLeq(MinText(m.id, f.id), g.id) {
      if g in ms { if TextLeq(f.id, m.id) { TextLeqTransitive(f.id, m.id, g.id); } }
      else { TextLeqTotal(f.id, f.id); }
    }
    var first :| first in ms && m.id == first.id;
    assert first in ms + [f] && f in ms + [f];
  }

  lemma MergeLists(ms: seq<Finding>, m: Finding, f: Finding)
    requires MergeOf(ms, m)
    ensures ListsUnions(ms + [f], Merge(m, f))
  {
    PriorElements(ms, m);
    UnionsMore(ms, f);
    LocationLeqOrder();
    TextLeqOrder();
    SortDedupLists(m.locations + f.locations, LocationLeq, LocationsOf(ms + [f]));
    SortDedupLists(m.features + f.features, TextLeq, FeaturesOf(ms + [f]));
    SortDedupLists(m.evidenceIds + f.evidenceIds, TextLeq, EvidenceOf(ms + [f]));
  }

  lemma MergeStep(ms: seq<Finding>, m: Finding, f: Finding)
    requires MergeOf(ms, m) && m.shared == f.shared && KeyOf(f) == KeyOf(m)
    ensures MergeOf(ms + [f], Merge(m, f))
  {
    MergeIds(ms, m, f);
    MergeLists(ms, m, f);
    SpeaksMore(ms, m, f);
    assert (ms + [f])[0] == ms[0];
  }

  lemma SpeaksMore(ms: seq<Finding>, m: Finding, f: Finding)
    requires Speaks(ms, m) && m.shared == f.shared
    ensures Speaks(ms + [f], Merge(m, f))
  {
    assert Merge(m, f).shared == m.shared;
  }

  lemma MergeSizes(ms: seq<Finding>, m: Finding, f: Finding)
    requires MergeOf(ms, m)
    ensures |Merge(m, f).locations| == |LocationsOf(ms + [f])| && |Merge(m, f).features| == |FeaturesOf(ms + [f])|
  {
    MergeLists(ms, m, f);
    LocationLeqOrder();
    TextLeqOrder();
    ListingIsUnique(Merge(m, f).locations, Merge(m, f).locations, LocationLeq, LocationsOf(ms + [f]));
    ListingIsUnique(Merge(m, f).features, Merge(m, f).features, TextLeq, FeaturesOf(ms + [f]));
  }

  // ----- the loop -----

  datatype Result = Merged(findings: seq<Finding>) | Conflicting | Oversized

  predicate GroupOk(fs: seq<Finding>, key: Key, limits: Limits) {
    Agreeing(Members(fs, key)) && Fits(Members(fs, key), limits)
  }

  /** No group disagrees, and no merged group is too large. */
  ghost predicate Acceptable(fs: seq<Finding>, limits: Limits) {
    forall key :: GroupOk(fs, key, limits)
  }

  function KeysOf(fs: seq<Finding>): seq<Key> { Grouping.KeysBy(fs, KeyOf) }

  function KeySet(fs: seq<Finding>): set<Key> { Grouping.KeySetOf(fs, KeyOf) }

  ghost predicate EachMerged(fs: seq<Finding>, r: seq<Finding>) {
    forall i :: 0 <= i < |r| ==> MergeOf(Members(fs, KeyOf(r[i])), r[i])
  }

  /** One finding for each key, in the order of the keys. */
  ghost predicate IsMerged(fs: seq<Finding>, r: seq<Finding>) {
    IsListing(KeysOf(r), TextsLeq, KeySet(fs)) && EachMerged(fs, r)
  }

  /** A group only gets worse as findings arrive. */
  lemma {:induction false} GroupOkPrefix(fs: seq<Finding>, n: nat, key: Key, limits: Limits)
    requires n <= |fs| && GroupOk(fs, key, limits)
    ensures GroupOk(fs[..n], key, limits)
    decreases |fs|
  {
    if n == |fs| {
      assert fs[..n] == fs;
    } else {
      var rest, f := fs[..|fs| - 1], fs[|fs| - 1];
      assert rest + [f] == fs && rest[..n] == fs[..n];
      Grouping.GroupMore(rest, KeyOf, f, key);
      UnionsMore(Members(rest, key), f);
      CardOfUnion(LocationsOf(Members(rest, key)), LocationsOf([f]));
      CardOfUnion(FeaturesOf(Members(rest, key)), FeaturesOf([f]));
      assert forall g :: g in Members(rest, key) ==> g in Members(fs, key);
      GroupOkPrefix(rest, n, key, limits);
    }
  }

  lemma CardOfUnion<T>(a: set<T>, b: set<T>)
    ensures |a| <= |a + b|
  {
    assert a + b == a + (b - a);
  }

  ghost predicate Stands(fs: seq<Finding>, groups: map<Key, Finding>, key: Key) {
    key in groups ==> MergeOf(Members(fs, key), groups[key]) && KeyOf(groups[key]) == key
  }

  ghost predicate Groups(fs: seq<Finding>, groups: map<Key, Finding>) {
    KeySet(fs) == groups.Keys && forall key :: Stands(fs, groups, key)
  }

  datatype Step = Go(finding: Finding) | Disagrees | TooLarge

  lemma GroupMore(fs: seq<Finding>, f: Finding, groups: map<Key, Finding>, m: Finding, limits: Limits, key: Key)
    requires Stands(fs, groups, key) && GroupOk(fs, key, limits) && KeyOf(m) == KeyOf(f)
    requires MergeOf(Members(fs, KeyOf(f)) + [f], m)
    requires Agreeing(Members(fs, KeyOf(f)) + [f]) && Fits(Members(fs, KeyOf(f)) + [f], limits)
    ensures Stands(fs + [f], groups[KeyOf(f) := m], key) && GroupOk(fs + [f], key, limits)
  {
    Grouping.GroupMore(fs, KeyOf, f, key);
  }

  /** The groups after one more finding. */
  lemma GroupsMore(fs: seq<Finding>, f: Finding, groups: map<Key, Finding>, m: Finding, limits: Limits)
    requires Groups(fs, groups) && Acceptable(fs, limits) && KeyOf(m) == KeyOf(f)
    requires MergeOf(Members(fs, KeyOf(f)) + [f], m)
    requires Agreeing(Members(fs, KeyOf(f)) + [f]) && Fits(Members(fs, KeyOf(f)) + [f], limits)
    ensures Groups(fs + [f], groups[KeyOf(f) := m]) && Acceptable(fs + [f], limits)
  {
    var more := groups[KeyOf(f) := m];
    forall key: Key ensures GroupOk(fs + [f], key, limits) {
      assert GroupOk(fs, key, limits) && Stands(fs, groups, key);
      GroupMore(fs, f, groups, m, limits, key);
    }
    forall key: Key ensures Stands(fs + [f], more, key) {
      assert GroupOk(fs, key, limits) && Stands(fs, groups, key);
      GroupMore(fs, f, groups, m, limits, key);
    }
    Grouping.KeySetMore(fs, KeyOf, f);
    assert KeySet(fs + [f]) == more.Keys;
  }

  lemma NewGroup(fs: seq<Finding>, f: Finding, groups: map<Key, Finding>, limits: Limits)
    requires Groups(fs, groups) && KeyOf(f) !in groups
    ensures var ms := Members(fs, KeyOf(f)) + [f]; MergeOf(ms, f) && Agreeing(ms) && Fits(ms, limits)
  {
    var ms := Members(fs, KeyOf(f));
    Grouping.NoGroup(fs, KeyOf, KeyOf(f));
    assert ms + [f] == [f];
    TextLeqTotal(f.id, f.id);
    assert f in [f];
  }

  lemma ArriveNew(fs: seq<Finding>, f: Finding, groups: map<Key, Finding>, limits: Limits)
    requires Groups(fs, groups) && Acceptable(fs, limits) && KeyOf(f) !in groups
    ensures Groups(fs + [f], groups[KeyOf(f) := f]) && Acceptable(fs + [f], limits)
  {
    NewGroup(fs, f, groups, limits);
    GroupsMore(fs, f, groups, f, limits);
  }

  /** The members before it agree among themselves, so one of them decides. */
  lemma PriorAgrees(ms: seq<Finding>, prior: Finding, f: Finding)
    requires MergeOf(ms, prior) && Agreeing(ms)
    ensures Agreeing(ms + [f]) <==> prior.shared == f.shared
  {
    assert ms[0] in ms && ms[0] in ms + [f] && f in ms + [f];
  }

  lemma ArriveMerged(fs: seq<Finding>, f: Finding, groups: map<Key, Finding>, limits: Limits)
    requires Groups(fs, groups) && Acceptable(fs, limits) && KeyOf(f) in groups
    ensures var prior := groups[KeyOf(f)]; var merged := Merge(prior, f);
            var small := |merged.locations| <= limits.offsets && |merged.features| <= limits.features;
            if prior.shared == f.shared && small
            then Groups(fs + [f], groups[KeyOf(f) := merged]) && Acceptable(fs + [f], limits)
            else !GroupOk(fs + [f], KeyOf(f), limits)
  {
    var key := KeyOf(f);
    var ms, prior := Members(fs, key), groups[key];
    assert Stands(fs, groups, key) && GroupOk(fs, key, limits);
    Grouping.GroupMore(fs, KeyOf, f, key);
    PriorAgrees(ms, prior, f);
    if prior.shared == f.shared {
      MergeStep(ms, prior, f);
      MergeSizes(ms, prior, f);
      if Fits(ms + [f], limits) {
        GroupsMore(fs, f, groups, Merge(prior, f), limits);
      }
    }
  }

  lemma BadPrefix(fs: seq<Finding>, n: nat, key: Key, limits: Limits)
    requires n <= |fs| && !GroupOk(fs[..n], key, limits)
    ensures !Acceptable(fs, limits)
  {
    if GroupOk(fs, key, limits) { GroupOkPrefix(fs, n, key, limits); }
  }

  /** The body of the loop: a new group, a merged one, or a reason to refuse the whole result. */
  method Arrive(findings: seq<Finding>, i: nat, groups: map<Key, Finding>, limits: Limits) returns (step: Step)
    requires i < |findings| && Groups(findings[..i], groups) && Acceptable(findings[..i], limits)
    ensures step.Go? ==>
              Groups(findings[..i + 1], groups[KeyOf(findings[i]) := step.finding]) && Acceptable(findings[..i + 1], limits)
    ensures !step.Go? ==> !Acceptable(findings, limits)
  {
    var f := findings[i];
    var key := KeyOf(f);
    assert findings[..i + 1] == findings[..i] + [f];
    if key !in groups {
      ArriveNew(findings[..i], f, groups, limits);
      return Go(f);
    }
    ArriveMerged(findings[..i], f, groups, limits);
    var prior := groups[key];
    if prior.shared != f.shared {
      BadPrefix(findings, i + 1, key, limits);
      return Disagrees;
    }
    var merged := Merge(prior, f);
    if |merged.locations| > limits.offsets || |merged.features| > limits.features {
      BadPrefix(findings, i + 1, key, limits);
      return TooLarge;
    }
    return Go(merged);
  }

  lemma CollectedIsMerged(fs: seq<Finding>, groups: map<Key, Finding>, keys: seq<Key>, r: seq<Finding>)
    requires Groups(fs, groups) && IsListing(keys, TextsLeq, groups.Keys)
    requires |r| == |keys| && forall j :: 0 <= j < |keys| ==> keys[j] in groups && r[j] == groups[keys[j]]
    ensures IsMerged(fs, r)
  {
    forall i | 0 <= i < |r| ensures KeyOf(r[i]) == keys[i] && MergeOf(Members(fs, KeyOf(r[i])), r[i]) {
      assert Stands(fs, groups, keys[i]);
    }
    assert KeysOf(r) == keys;
  }

  method DeduplicateFindings(findings: seq<Finding>, limits: Limits) returns (r: Result)
    ensures r.Merged? <==> Acceptable(findings, limits)
    ensures r.Merged? ==> IsMerged(findings, r.findings)
  {
    var groups: map<Key, Finding> := map[];
    for i := 0 to |findings|
      invariant Groups(findings[..i], groups) && Acceptable(findings[..i], limits)
    {
      var f := findings[i];
      var step := Arrive(findings, i, groups, limits);
      if !step.Go? {
        return if step.Disagrees? then Conflicting else Oversized;
      }
      groups := groups[KeyOf(f) := step.finding];
    }
    assert findings[..|findings|] == findings;
    var merged, keys := Grouping.SortedValues(groups);
    CollectedIsMerged(findings, groups, keys, merged);
    return Merged(merged);
  }

  // ----- the order of arrival -----

  /** The same finding, but for what is taken over from the first arrival. */
  predicate SameButPresentation(a: Finding, b: Finding) {
    a == b.(presentation := a.presentation)
  }

  lemma MembersRearranged(fs: seq<Finding>, gs: seq<Finding>, key: Key)
    requires multiset(fs) == multiset(gs)
    ensures multiset(Members(fs, key)) == multiset(Members(gs, key))
    ensures |Members(fs, key)| == |Members(gs, key)|
    ensures forall f :: f in Members(fs, key) <==> f in Members(gs, key)
  {
    Grouping.GroupRearranged(fs, gs, KeyOf, key);
    SameElements(Members(fs, key), Members(gs, key));
  }

  lemma SameUnions(ms: seq<Finding>, ns: seq<Finding>)
    requires forall f :: f in ms <==> f in ns
    ensures LocationsOf(ms) == LocationsOf(ns) && FeaturesOf(ms) == FeaturesOf(ns) && EvidenceOf(ms) == EvidenceOf(ns)
  {}

  lemma MergeIsUnique(ms: seq<Finding>, ns: seq<Finding>, m: Finding, n: Finding)
    requires multiset(ms) == multiset(ns) && MergeOf(ms, m) && MergeOf(ns, n) && KeyOf(m) == KeyOf(n)
    ensures SameButPresentation(m, n)
  {
    SameElements(ms, ns);
    var f :| f in ms && m.id == f.id;
    var g :| g in ns && n.id == g.id;
    TextLeqAntisymmetric(m.id, n.id);
    if |ms| == 1 {
      assert ns[0] in ms;
    } else {
      SameUnions(ms, ns);
      LocationLeqOrder();
      TextLeqOrder();
      ListingIsUnique(m.locations, n.locations, LocationLeq, LocationsOf(ms));
      ListingIsUnique(m.features, n.features, TextLeq, FeaturesOf(ms));
      ListingIsUnique(m.evidenceIds, n.evidenceIds, TextLeq, EvidenceOf(ms));
    }
  }

  /** The order in which findings arrive decides neither whether they are accepted, */
  lemma AcceptanceIgnoresOrder(fs: seq<Finding>, gs: seq<Finding>, limits: Limits)
    requires multiset(fs) == multiset(gs) && Acceptable(fs, limits)
    ensures Acceptable(gs, limits)
  {
    forall key ensures GroupOk(gs, key, limits) {
      assert GroupOk(fs, key, limits);
      MembersRearranged(fs, gs, key);
      SameUnions(Members(fs, key), Members(gs, key));
    }
  }

  /** nor what is made of them, except for title, tags and MAEC data. */
  lemma MergingIgnoresOrder(fs: seq<Finding>, gs: seq<Finding>, r: seq<Finding>, s: seq<Finding>)
    requires multiset(fs) == multiset(gs) && IsMerged(fs, r) && IsMerged(gs, s)
    ensures |r| == |s| && forall i :: 0 <= i < |r| ==> SameButPresentation(r[i], s[i])
  {
    SameKeys(fs, gs, r, s);
    forall i | 0 <= i < |r| ensures SameButPresentation(r[i], s[i]) {
      MembersRearranged(fs, gs, KeyOf(r[i]));
      MergeIsUnique(Members(fs, KeyOf(r[i])), Members(gs, KeyOf(s[i])), r[i], s[i]);
    }
  }

  lemma SameKeys(fs: seq<Finding>, gs: seq<Finding>, r: seq<Finding>, s: seq<Finding>)
    requires multiset(fs) == multiset(gs) && IsMerged(fs, r) && IsMerged(gs, s)
    ensures |r| == |s| && forall i :: 0 <= i < |r| ==> KeyOf(r[i]) == KeyOf(s[i])
  {
    SameKeySets(fs, gs);
    ListingsAgree(KeysOf(r), KeysOf(s), KeySet(fs), KeySet(gs));
    SameKeyAt(r, s);
  }

  lemma ListingsAgree(s: seq<Key>, t: seq<Key>, a: set<Key>, b: set<Key>)
    requires a == b && IsListing(s, TextsLeq, a) && IsListing(t, TextsLeq, b)
    ensures s == t
  {
    TextsLeqOrder();
    ListingIsUnique(s, t, TextsLeq, a);
  }

  lemma SameKeySets(fs: seq<Finding>, gs: seq<Finding>)
    requires multiset(fs) == multiset(gs)
    ensures KeySet(fs) == KeySet(gs)
  {
    SameElements(fs, gs);
    forall key ensures key in KeySet(fs) <==> key in KeySet(gs) {
      Grouping.KeyMember(fs, KeyOf, key);
      Grouping.KeyMember(gs, KeyOf, key);
    }
  }

  lemma SameKeyAt(r: seq<Finding>, s: seq<Finding>)
    requires KeysOf(r) == KeysOf(s)
    ensures |r| == |s| && forall i :: 0 <= i < |r| ==> KeyOf(r[i]) == KeyOf(s[i])
  {
    assert |KeysOf(r)| == |KeysOf(s)|;
    forall i | 0 <= i < |r| ensures KeyOf(r[i]) == KeyOf(s[i]) {
      assert KeysOf(r)[i] == KeysOf(s)[i];
    }
  }

  // ----- the order of the findings and of their locations -----

  /** By rule pack, then by namespace, then by rule; no two findings agree in all three. */
  predicate Precedes(a: Finding, b: Finding) {
    if a.rulePack != b.rulePack then TextLeq(a.rulePack, b.rulePack)
    else if a.namespace != b.namespace then TextLeq(a.namespace, b.namespace)
    else a.rule != b.rule && TextLeq(a.rule, b.rule)
  }

  /** By kind, then by offset, then by length, then by excerpt, without repetition. */
  predicate IsEarlier(a: Location, b: Location) {
    if a.kind != b.kind then TextLeq(a.kind, b.kind)
    else if a.offset != b.offset then a.offset < b.offset
    else if a.length != b.length then a.length < b.length
    else a.excerptHex != b.excerptHex && TextLeq(a.excerptHex, b.excerptHex)
  }

  predicate SameRule(a: Finding, b: Finding) {
    a.rulePack == b.rulePack && a.namespace == b.namespace && a.rule == b.rule
  }

  lemma KeyDecides(a: Finding, b: Finding)
    ensures KeyOf(a) == KeyOf(b) <==> SameRule(a, b)
    ensures KeyOf(a) != KeyOf(b) && TextsLeq(KeyOf(a), KeyOf(b)) ==> Precedes(a, b)
  {
    var k, l := KeyOf(a), KeyOf(b);
    assert k[1..] == [a.namespace, a.rule] && l[1..] == [b.namespace, b.rule];
    assert k[1..][1..] == [a.rule] && l[1..][1..] == [b.rule];
    if k == l { assert k[0] == l[0] && k[1] == l[1] && k[2] == l[2]; }
  }

  /** What is merged into a finding is what has its rule, and nothing else. */
  lemma MembersHaveTheRule(fs: seq<Finding>, m: Finding, f: Finding)
    ensures f in Members(fs, KeyOf(m)) <==> f in fs && SameRule(f, m)
  {
    KeyDecides(f, m);
  }

  lemma MergedInOrder(fs: seq<Finding>, r: seq<Finding>, i: nat, j: nat)
    requires IsMerged(fs, r) && i < j < |r|
    ensures Precedes(r[i], r[j])
  {
    var keys := KeysOf(r);
    assert keys[i] == KeyOf(r[i]) && keys[j] == KeyOf(r[j]);
    KeyDecides(r[i], r[j]);
  }

  lemma LocationsInOrder(ms: seq<Finding>, m: Finding, i: nat, j: nat)
    requires ListsUnions(ms, m) && i < j < |m.locations|
    ensures IsEarlier(m.locations[i], m.locations[j])
  {
    assert LocationLeq(m.locations[i], m.locations[j]) && m.locations[i] != m.locations[j];
  }
}
