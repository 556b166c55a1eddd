/**
 Runtime evidence for a static capability (`static_confirmation` in
 `src/report_analysis/correlation.rs`): four candidates stand for all events.
 */
module StaticConfirmation {
  import opened Basics
  import opened InstanceHistory
  import opened Correlation

  const CONFIRMATION_WINDOW: u64 := 120000

  /** The families of events that can confirm a capability. */
  datatype Family = Injection | Persistence | CredentialRead | TelemetryTamper

  const FAMILIES: seq<Family> := [Injection, Persistence, CredentialRead, TelemetryTamper]

  function FamilyOf(kind: string): Option<Family> {
    if kind == "injection" then Some(Injection)
    else if kind == "persistence" then Some(Persistence)
    else if kind == "credential_read" then Some(CredentialRead)
    else if kind == "telemetry_tamper" then Some(TelemetryTamper)
    else None
  }

  /** The ATT&CK techniques of a family, with their sub-techniques. */
  predicate IsTechnique(f: Family, t: string) {
    match f
    case Injection => "T1055" <= t
    case Persistence => "T1547" <= t || "T1543" <= t
    case CredentialRead => "T1555" <= t
    case TelemetryTamper => "T1562" <= t
  }

  predicate Covers(f: Family, attack: seq<string>) {
    exists i :: 0 <= i < |attack| && IsTechnique(f, attack[i])
  }

  // ----- what confirms -----

  /** The root process, in the run that began at `start`, did something of the family soon after. */
  ghost predicate Confirms(processes: seq<Process>, root: u32, start: u64, e: Activity, f: Family) {
    && FamilyOf(e.kind) == Some(f) && e.pid == root
    && start <= e.time && e.time - start <= CONFIRMATION_WINDOW
    && Uninterrupted(processes, root, start, e.time)
  }

  ghost predicate ConfirmsSome(processes: seq<Process>, root: u32, start: u64, e: Activity, attack: seq<string>) {
    exists f :: Confirms(processes, root, start, e, f) && Covers(f, attack)
  }

  /** The first event, in the order of the events, that confirms a capability with these techniques. */
  ghost predicate IsConfirmation(processes: seq<Process>, root: u32, start: u64, events: seq<Activity>, attack: seq<string>,
                                 first: Option<nat>)
  {
    match first
    case None => forall i :: 0 <= i < |events| ==> !ConfirmsSome(processes, root, start, events[i], attack)
    case Some(n) =>
      && n < |events| && ConfirmsSome(processes, root, start, events[n], attack)
      && forall i :: 0 <= i < n ==> !ConfirmsSome(processes, root, start, events[i], attack)
  }

  // ----- the four candidates -----

  /** The first confirming event of each family among the first `n` events. */
  ghost predicate IsFirst(processes: seq<Process>, root: u32, start: u64, events: seq<Activity>, n: nat, f: Family, first: Option<nat>)
    requires n <= |events|
  {
    match first
    case None => forall i :: 0 <= i < n ==> !Confirms(processes, root, start, events[i], f)
    case Some(m) =>
      && m < n && Confirms(processes, root, start, events[m], f)
      && forall i :: 0 <= i < m ==> !Confirms(processes, root, start, events[i], f)
  }

  type Candidates = map<Family, nat>

  function Candidate(c: Candidates, f: Family): Option<nat> { if f in c then Some(c[f]) else None }

  ghost predicate AreFirst(processes: seq<Process>, root: u32, start: u64, events: seq<Activity>, n: nat, c: Candidates)
    requires n <= |events|
  {
    forall f :: IsFirst(processes, root, start, events, n, f, Candidate(c, f))
  }

  /** Which family, if any, an event confirms: the test in the loop. */
  method FamilyConfirmed(index: CorrelationIndex, ghost processes: seq<Process>, ghost events: seq<Activity>, root: u32, start: u64,
                         e: Activity)
    returns (family: Option<Family>)
    requires Indexes(index, processes, events)
    ensures forall f :: Confirms(processes, root, start, e, f) <==> family == Some(f)
  {
    family := FamilyOf(e.kind);
    if family == None || e.pid != root || e.time < start || e.time - start > CONFIRMATION_WINDOW {
      return None;
    }
    SameInstance(index, processes, events, root, start, e.time);
    var rootInstance := InstanceOf(index, root, start);
    if rootInstance == None || rootInstance != InstanceOf(index, root, e.time) {
      return None;
    }
  }

  method CollectCandidates(index: CorrelationIndex, ghost processes: seq<Process>, events: seq<Activity>, root: u32, start: u64)
    returns (c: Candidates)
    requires Indexes(index, processes, events)
    ensures AreFirst(processes, root, start, events, |events|, c)
  {
    c := map[];
    for n := 0 to |events|
      invariant AreFirst(processes, root, start, events, n, c)
    {
      var family := FamilyConfirmed(index, processes, events, root, start, events[n]);
      if family.Some? {
        NextFirst(processes, root, start, events, n, c, family.value);
        if family.value !in c {
          c := c[family.value := n];
        }
      } else {
        NoNewFirst(processes, root, start, events, n, c);
      }
    }
  }

  lemma NextFirst(processes: seq<Process>, root: u32, start: u64, events: seq<Activity>, n: nat, c: Candidates, f: Family)
    requires n < |events| && AreFirst(processes, root, start, events, n, c) && Confirms(processes, root, start, events[n], f)
    ensures AreFirst(processes, root, start, events, n + 1, if f in c then c else c[f := n])
  {
    var more := if f in c then c else c[f := n];
    forall g ensures IsFirst(processes, root, start, events, n + 1, g, Candidate(more, g)) {
      assert IsFirst(processes, root, start, events, n, g, Candidate(c, g));
    }
  }

  lemma NoNewFirst(processes: seq<Process>, root: u32, start: u64, events: seq<Activity>, n: nat, c: Candidates)
    requires n < |events| && AreFirst(processes, root, start, events, n, c)
    requires forall f :: !Confirms(processes, root, start, events[n], f)
    ensures AreFirst(processes, root, start, events, n + 1, c)
  {
    forall g ensures IsFirst(processes, root, start, events, n + 1, g, Candidate(c, g)) {
      assert IsFirst(processes, root, start, events, n, g, Candidate(c, g));
    }
  }

  // ----- a capability -----

  /** The earliest of the candidates whose family covers the techniques. */
  method Confirmation(ghost processes: seq<Process>, ghost root: u32, ghost start: u64, ghost events: seq<Activity>,
                      c: Candidates, attack: seq<string>)
    returns (first: Option<nat>)
    requires AreFirst(processes, root, start, events, |events|, c)
    ensures IsConfirmation(processes, root, start, events, attack, first)
  {
    first := None;
    for k := 0 to 4
      invariant EarliestAmong(c, attack, k, first)
    {
      var f := FAMILIES[k];
      if f in c && Covers(f, attack) && (first.None? || c[f] < first.value) {
        first := Some(c[f]);
      }
    }
    EarliestConfirms(processes, root, start, events, c, attack, first);
  }

  predicate EarliestAmong(c: Candidates, attack: seq<string>, k: nat, first: Option<nat>)
    requires k <= 4
  {
    && (first.Some? ==> exists i :: 0 <= i < k && FAMILIES[i] in c && Covers(FAMILIES[i], attack) && c[FAMILIES[i]] == first.value)
    && forall i :: 0 <= i < k && FAMILIES[i] in c && Covers(FAMILIES[i], attack) ==> first.Some? && first.value <= c[FAMILIES[i]]
  }

  lemma Listed(f: Family)
    ensures exists i :: 0 <= i < 4 && FAMILIES[i] == f
  {
    match f {
      case Injection => assert FAMILIES[0] == f;
      case Persistence => assert FAMILIES[1] == f;
      case CredentialRead => assert FAMILIES[2] == f;
      case TelemetryTamper => assert FAMILIES[3] == f;
    }
  }

  lemma EarliestConfirms(processes: seq<Process>, root: u32, start: u64, events: seq<Activity>, c: Candidates,
                         attack: seq<string>, first: Option<nat>)
    requires AreFirst(processes, root, start, events, |events|, c) && EarliestAmong(c, attack, 4, first)
    ensures IsConfirmation(processes, root, start, events, attack, first)
  {
    if first.Some? {
      var i :| 0 <= i < 4 && FAMILIES[i] in c && Covers(FAMILIES[i], attack) && c[FAMILIES[i]] == first.value;
      assert IsFirst(processes, root, start, events, |events|, FAMILIES[i], Candidate(c, FAMILIES[i]));
    }
    forall i, f | 0 <= i < |events| && Confirms(processes, root, start, events[i], f) && Covers(f, attack)
      ensures first.Some? && first.value <= i
    {
      assert IsFirst(processes, root, start, events, |events|, f, Candidate(c, f));
      Listed(f);
      var k :| 0 <= k < 4 && FAMILIES[k] == f;
    }
  }

  // ----- all capabilities -----

  /** The earliest positive time at which the process was observed. */
  function EarliestPositive(observations: seq<Observation>): (r: Option<u64>)
    ensures r.None? <==> forall o :: o in observations ==> o.observedAtMs == 0
    ensures r.Some? ==> r.value > 0 && exists o :: o in observations && o.observedAtMs == r.value
    ensures r.Some? ==> forall o :: o in observations && o.observedAtMs > 0 ==> r.value <= o.observedAtMs
  {
    if observations == [] then None
    else
      var first, rest := observations[0], EarliestPositive(observations[1..]);
      if first.observedAtMs > 0 && (rest.None? || first.observedAtMs < rest.value) then Some(first.observedAtMs) else rest
  }

  function RootStart(processes: seq<Process>, root: u32): Option<u64> {
    var p := FirstWithPid(processes, root);
    if p.Some? then EarliestPositive(p.value.observations) else None
  }

  /** Each of the first capabilities is confirmed by the first event that fits. */
  ghost predicate Confirmed(processes: seq<Process>, root: u32, start: u64, events: seq<Activity>, attacks: seq<seq<string>>,
                            r: seq<Option<nat>>)
  {
    r == [] || (
      && Confirmed(processes, root, start, events, attacks, r[..|r| - 1])
      && |r| <= |attacks| && IsConfirmation(processes, root, start, events, attacks[|r| - 1], r[|r| - 1]))
  }

  lemma ConfirmedMore(processes: seq<Process>, root: u32, start: u64, events: seq<Activity>, attacks: seq<seq<string>>,
                      r: seq<Option<nat>>, first: Option<nat>)
    requires Confirmed(processes, root, start, events, attacks, r) && |r| < |attacks|
    requires IsConfirmation(processes, root, start, events, attacks[|r|], first)
    ensures Confirmed(processes, root, start, events, attacks, r + [first])
  {
    assert (r + [first])[..|r|] == r;
  }

  lemma {:induction false} ConfirmedAt(processes: seq<Process>, root: u32, start: u64, events: seq<Activity>,
                                       attacks: seq<seq<string>>, r: seq<Option<nat>>, i: nat)
    requires Confirmed(processes, root, start, events, attacks, r) && i < |r| <= |attacks|
    ensures IsConfirmation(processes, root, start, events, attacks[i], r[i])
  {
    if i < |r| - 1 { ConfirmedAt(processes, root, start, events, attacks, r[..|r| - 1], i); }
  }

  /** A capability is confirmed by the first event that fits, or by none if the root was never seen. */
  method StaticConfirmations(index: CorrelationIndex, processes: seq<Process>, events: seq<Activity>, root: u32,
                             attacks: seq<seq<string>>)
    returns (r: seq<Option<nat>>)
    requires Indexes(index, processes, events)
    ensures |r| == |attacks|
    ensures RootStart(processes, root).None? ==> forall i :: 0 <= i < |r| ==> r[i] == None
    ensures RootStart(processes, root).Some? ==>
              Confirmed(processes, root, RootStart(processes, root).value, events, attacks, r)
  {
    var start := RootStart(processes, root);
    if start == None {
      return seq(|attacks|, i => None);
    }
    var c := CollectCandidates(index, processes, events, root, start.value);
    r := [];
    for i := 0 to |attacks|
      invariant |r| == i && Confirmed(processes, root, start.value, events, attacks, r)
    {
      var first := Confirmation(processes, root, start.value, events, c, attacks[i]);
      ConfirmedMore(processes, root, start.value, events, attacks, r, first);
      r := r + [first];
    }
  }

  // ----- the families -----

  /** An event confirms a family within two minutes of the start of the root, in the same run of it. */
  lemma ConfirmsExactly(processes: seq<Process>, root: u32, start: u64, e: Activity, f: Family)
    ensures Confirms(processes, root, start, e, f) <==>
              && FamilyOf(e.kind) == Some(f) && e.pid == root && start <= e.time <= start + 120_000
              && Uninterrupted(processes, root, start, e.time)
  {}

  lemma CoversExactly(f: Family, attack: seq<string>)
    ensures Covers(f, attack) <==> exists t :: t in attack && IsTechnique(f, t)
  {
    if t :| t in attack && IsTechnique(f, t) {
      var i :| 0 <= i < |attack| && attack[i] == t;
    }
  }

  /** What can confirm a capability is exactly what counts as suspicious. */
  lemma FamiliesAreSuspicious(kind: string)
    ensures FamilyOf(kind).Some? <==> SuspiciousKind(kind)
  {}

  lemma FamilyHasOneKind(k: string, l: string)
    requires FamilyOf(k).Some? && FamilyOf(k) == FamilyOf(l)
    ensures k == l
  {}

  /** No technique belongs to two families, and a technique's own techniques belong where it does. */
  lemma TechniquesAreApart(f: Family, g: Family, t: string, more: string)
    ensures IsTechnique(f, t) && IsTechnique(g, t) ==> f == g
    ensures IsTechnique(f, t) ==> IsTechnique(f, t + more)
  {
    PrefixOfMore("T1055", t, more);
    PrefixOfMore("T1547", t, more);
    PrefixOfMore("T1543", t, more);
    PrefixOfMore("T1555", t, more);
    PrefixOfMore("T1562", t, more);
    if |t| >= 5 {
      assert "T1055"[2] != "T1547"[2] && "T1547"[3] != "T1555"[3] && "T1547"[3] != "T1562"[3] && "T1555"[3] != "T1562"[3];
      assert "T1543"[3] != "T1555"[3] && "T1543"[3] != "T1562"[3];
    }
  }

  lemma PrefixOfMore(p: string, t: string, more: string)
    ensures p <= t ==> p <= t + more
  {}

  /** Process injection, autostart and services, password stores, and impaired defences. */
  lemma FamilyTechniques(more: string)
    ensures FamilyOf("injection") == Some(Injection) && IsTechnique(Injection, "T1055" + more)
    ensures FamilyOf("persistence") == Some(Persistence)
    ensures IsTechnique(Persistence, "T1547" + more) && IsTechnique(Persistence, "T1543" + more)
    ensures FamilyOf("credential_read") == Some(CredentialRead) && IsTechnique(CredentialRead, "T1555" + more)
    ensures FamilyOf("telemetry_tamper") == Some(TelemetryTamper) && IsTechnique(TelemetryTamper, "T1562" + more)
  {}
}
