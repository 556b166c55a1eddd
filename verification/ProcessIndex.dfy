/**
 Attributing an event to a process by lifetime and nearest observation:
 `src/report_analysis/process_index.rs`.
 */
module ProcessIndex {
  import opened Basics
  import opened Ordering
  import opened ProcessTimeline

  /** A Rust string is modelled by its UTF-8 bytes, one per `char`, so that `|image|` is its `len()`. */
  datatype Observation = Observation(status: string, observedAtMs: u64)

  datatype Process = Process(
    pid: u32, parentPid: Option<u32>, image: string, observedAtMs: u64, observations: seq<Observation>)

  // ----- lifetimes and the naive scan -----

  predicate Ended(o: Observation) {
    o.status == "terminated"
  }

  /** The earliest observation that is (or is not) a termination. */
  function Earliest(observations: seq<Observation>, ended: bool): (r: Option<u64>)
    ensures r.None? <==> forall o :: o in observations ==> Ended(o) != ended
    ensures r.Some? ==>
              && (exists o :: o in observations && Ended(o) == ended && o.observedAtMs == r.value)
              && (forall o :: o in observations && Ended(o) == ended ==> r.value <= o.observedAtMs)
  {
    if observations == [] then None
    else
      var o, rest := observations[0], Earliest(observations[1..], ended);
      if Ended(o) != ended then rest
      else if rest.Some? && rest.value < o.observedAtMs then rest
      else Some(o.observedAtMs)
  }

  function Start(p: Process): u64 {
    var earliest := Earliest(p.observations, false);
    if earliest.Some? then earliest.value else p.observedAtMs
  }

  function End(p: Process): u64 {
    var earliest := Earliest(p.observations, true);
    if earliest.Some? then earliest.value else U64_MAX
  }

  predicate Alive(p: Process, time: u64) {
    Start(p) <= time <= End(p)
  }

  /** Distance to the nearest observation, or the largest u64 when there is none. */
  function Distance(observations: seq<Observation>, time: u64): (d: u64)
    ensures observations == [] ==> d == U64_MAX
    ensures forall o :: o in observations ==> d <= AbsDiff(o.observedAtMs, time)
    ensures observations != [] ==> exists o :: o in observations && d == AbsDiff(o.observedAtMs, time)
  {
    if observations == [] then U64_MAX
    else
      var d, rest := AbsDiff(observations[0].observedAtMs, time), Distance(observations[1..], time);
      assert observations[0] in observations;
      if |observations| == 1 || d <= rest then d else rest
  }

  /** The pairs that are compared: distance first, then PID. */
  datatype Near = Near(distance: u64, pid: u32)

  predicate NearLeq(a: Near, b: Near) {
    a.distance < b.distance || (a.distance == b.distance && a.pid <= b.pid)
  }

  function NearOf(p: Process, time: u64): Near {
    Near(Distance(p.observations, time), p.pid)
  }

  // What `time` means for a process, read off its observations without a start or an end.

  /** It has been seen by then; if nothing but its end was ever seen, its own record counts. */
  ghost predicate Appeared(p: Process, time: u64) {
    if exists o :: o in p.observations && o.status != "terminated"
    then exists o :: o in p.observations && o.status != "terminated" && o.observedAtMs <= time
    else p.observedAtMs <= time
  }

  /** Its end has been seen before then. */
  ghost predicate Gone(p: Process, time: u64) {
    exists o :: o in p.observations && o.status == "terminated" && o.observedAtMs < time
  }

  ghost predicate Lives(p: Process, time: u64) { Appeared(p, time) && !Gone(p, time) }

  /** The interval from start to end holds exactly the times at which the process lives. */
  lemma AliveIsLives(p: Process, time: u64)
    ensures Alive(p, time) <==> Lives(p, time)
  {
    StartIsAppearance(p, time);
    EndIsGone(p, time);
  }

  lemma StartIsAppearance(p: Process, time: u64)
    ensures Start(p) <= time <==> Appeared(p, time)
  {
    var earliest := Earliest(p.observations, false);
    if earliest.Some? {
      var o :| o in p.observations && !Ended(o) && o.observedAtMs == earliest.value;
      assert o.status != "terminated";
    }
  }

  lemma EndIsGone(p: Process, time: u64)
    ensures End(p) < time <==> Gone(p, time)
  {
    var earliest := Earliest(p.observations, true);
    if earliest.Some? {
      var o :| o in p.observations && Ended(o) && o.observedAtMs == earliest.value;
      assert o.status == "terminated";
    }
  }

  /** What scanning every process at `time` decides. */
  ghost predicate IsNearest(processes: seq<Process>, time: u64, answer: Option<Near>) {
    match answer
    case None =>
      forall p :: p in processes ==> !Lives(p, time)
    case Some(near) =>
      && (exists p :: p in processes && Lives(p, time) && NearOf(p, time) == near)
      && (forall p :: p in processes && Lives(p, time) ==> NearLeq(near, NearOf(p, time)))
  }

  // ----- the ranges that feed the three timelines -----

  datatype Side = Before | After | Empty

  function Max(a: u64, b: u64): u64 { if a <= b then b else a }

  function Min(a: u64, b: u64): u64 { if a <= b then a else b }

  function BeforeRange(p: Process, o: Observation): Interval {
    Interval(Max(Start(p), o.observedAtMs), End(p), Candidate(o.observedAtMs, p.pid))
  }

  function AfterRange(p: Process, o: Observation): Interval {
    Interval(Start(p), Min(End(p), o.observedAtMs), Candidate(o.observedAtMs, p.pid))
  }

  function EmptyRange(p: Process): Interval {
    Interval(Start(p), End(p), Candidate(0, p.pid))
  }

  function RangeOf(side: Side, p: Process, o: Observation): seq<Interval>
    requires !side.Empty?
  {
    if side.Before? then if o.observedAtMs <= End(p) then [BeforeRange(p, o)] else []
    else if Start(p) <= o.observedAtMs then [AfterRange(p, o)] else []
  }

  function RangesUpTo(side: Side, p: Process, observations: seq<Observation>): seq<Interval>
    requires !side.Empty?
  {
    if observations == [] then []
    else
      RangesUpTo(side, p, observations[..|observations| - 1]) + RangeOf(side, p, observations[|observations| - 1])
  }

  lemma RangesUpToStep(side: Side, p: Process, observations: seq<Observation>, j: nat)
    requires !side.Empty? && j < |observations|
    ensures RangesUpTo(side, p, observations[..j + 1])
         == RangesUpTo(side, p, observations[..j]) + RangeOf(side, p, observations[j])
  {
    assert observations[..j + 1][..j] == observations[..j];
  }

  lemma AllRangesStep(side: Side, processes: seq<Process>, i: nat)
    requires i < |processes|
    ensures AllRanges(side, processes[..i + 1]) == AllRanges(side, processes[..i]) + Ranges(side, processes[i])
  {
    assert processes[..i + 1][..i] == processes[..i];
  }

  function ObservationCount(processes: seq<Process>): nat {
    if processes == [] then 0
    else ObservationCount(processes[..|processes| - 1]) + |processes[|processes| - 1].observations|
  }

  lemma {:induction false} RangesUpToCount(side: Side, p: Process, observations: seq<Observation>)
    requires !side.Empty?
    ensures |RangesUpTo(side, p, observations)| <= |observations|
  {
    if observations != [] {
      RangesUpToCount(side, p, observations[..|observations| - 1]);
    }
  }

  /** The index stays linear in the number of observations. */
  lemma {:induction false} AllRangesCount(side: Side, processes: seq<Process>)
    requires !side.Empty?
    ensures |AllRanges(side, processes)| <= ObservationCount(processes)
  {
    if processes != [] {
      AllRangesCount(side, processes[..|processes| - 1]);
      var last := processes[|processes| - 1];
      RangesUpToCount(side, last, last.observations);
    }
  }

  lemma {:induction false} EmptyRangesCount(processes: seq<Process>)
    ensures |AllRanges(Empty, processes)| <= |processes|
  {
    if processes != [] { EmptyRangesCount(processes[..|processes| - 1]); }
  }

  function Ranges(side: Side, p: Process): seq<Interval> {
    if Start(p) > End(p) then []
    else if side.Empty? then if p.observations == [] then [EmptyRange(p)] else []
    else RangesUpTo(side, p, p.observations)
  }

  function AllRanges(side: Side, processes: seq<Process>): seq<Interval> {
    if processes == [] then []
    else AllRanges(side, processes[..|processes| - 1]) + Ranges(side, processes[|processes| - 1])
  }

  lemma {:induction false} RangesUpToMember(side: Side, p: Process, observations: seq<Observation>, iv: Interval)
    requires !side.Empty?
    ensures iv in RangesUpTo(side, p, observations) <==>
              exists o :: o in observations &&
                (if side.Before? then o.observedAtMs <= End(p) && iv == BeforeRange(p, o)
                 else Start(p) <= o.observedAtMs && iv == AfterRange(p, o))
  {
    if observations != [] {
      RangesUpToMember(side, p, observations[..|observations| - 1], iv);
      var last := observations[|observations| - 1];
      assert forall o :: o in observations <==> o == last || o in observations[..|observations| - 1];
    }
  }

  lemma {:induction false} AllRangesMember(side: Side, processes: seq<Process>, iv: Interval)
    ensures iv in AllRanges(side, processes) <==> exists p :: p in processes && iv in Ranges(side, p)
  {
    if processes != [] {
      AllRangesMember(side, processes[..|processes| - 1], iv);
      var last := processes[|processes| - 1];
      assert forall p :: p in processes <==> p == last || p in processes[..|processes| - 1];
    }
  }

  lemma RangesProper(side: Side, processes: seq<Process>)
    ensures Proper(AllRanges(side, processes))
  {
    forall iv | iv in AllRanges(side, processes) ensures iv.start <= iv.end {
      AllRangesMember(side, processes, iv);
      var p :| p in processes && iv in Ranges(side, p);
      if !side.Empty? {
        RangesUpToMember(side, p, p.observations, iv);
      }
    }
  }

  /** Observation `o` of `p` competes on `side` at `time`. */
  predicate Competes(side: Side, p: Process, o: Observation, time: u64) {
    Alive(p, time) && o in p.observations &&
    if side.Before? then o.observedAtMs <= time else time <= o.observedAtMs
  }

  lemma CompetitorHasRange(side: Side, processes: seq<Process>, p: Process, o: Observation, time: u64)
    requires !side.Empty? && p in processes && Competes(side, p, o, time)
    ensures exists iv :: iv in AllRanges(side, processes) && Covers(iv, time)
                         && iv.candidate == Candidate(o.observedAtMs, p.pid)
  {
    var iv := if side.Before? then BeforeRange(p, o) else AfterRange(p, o);
    RangesUpToMember(side, p, p.observations, iv);
    assert iv in Ranges(side, p);
    AllRangesMember(side, processes, iv);
  }

  lemma RangeHasCompetitor(side: Side, processes: seq<Process>, iv: Interval, time: u64) returns (p: Process, o: Observation)
    requires !side.Empty? && iv in AllRanges(side, processes) && Covers(iv, time)
    ensures p in processes && Competes(side, p, o, time) && iv.candidate == Candidate(o.observedAtMs, p.pid)
  {
    AllRangesMember(side, processes, iv);
    p :| p in processes && iv in Ranges(side, p);
    RangesUpToMember(side, p, p.observations, iv);
    o :| o in p.observations &&
         if side.Before? then o.observedAtMs <= End(p) && iv == BeforeRange(p, o)
         else Start(p) <= o.observedAtMs && iv == AfterRange(p, o);
  }

  function NearObserved(c: Candidate, time: u64): Near {
    Near(AbsDiff(c.observed, time), c.pid)
  }

  /** On either side of `time`, the timeline's winner is the nearest competing observation. */
  lemma SideWinner(side: Side, processes: seq<Process>, time: u64, w: Option<Candidate>)
    requires !side.Empty? && IsWinner(AllRanges(side, processes), side.Before?, time, w)
    ensures w.Some? ==> exists p, o :: p in processes && Competes(side, p, o, time)
                                       && w.value == Candidate(o.observedAtMs, p.pid)
    ensures forall p, o :: p in processes && Competes(side, p, o, time) ==>
              w.Some? && NearLeq(NearObserved(w.value, time), Near(AbsDiff(o.observedAtMs, time), p.pid))
  {
    var ranges := AllRanges(side, processes);
    if w.Some? {
      var iv :| iv in ranges && Covers(iv, time) && iv.candidate == w.value;
      var p, o := RangeHasCompetitor(side, processes, iv, time);
    }
    forall p, o | p in processes && Competes(side, p, o, time)
      ensures w.Some? && NearLeq(NearObserved(w.value, time), Near(AbsDiff(o.observedAtMs, time), p.pid))
    {
      CompetitorHasRange(side, processes, p, o, time);
      var iv :| iv in ranges && Covers(iv, time) && iv.candidate == Candidate(o.observedAtMs, p.pid);
      assert w.Some? && AtLeastAsGood(w.value, iv.candidate, side.Before?);
    }
  }

  lemma EmptyWinner(processes: seq<Process>, time: u64, w: Option<Candidate>)
    requires IsWinner(AllRanges(Empty, processes), false, time, w)
    ensures w.Some? ==> exists p :: p in processes && Alive(p, time) && p.observations == [] && p.pid == w.value.pid
    ensures forall p :: p in processes && Alive(p, time) && p.observations == [] ==> w.Some? && w.value.pid <= p.pid
  {
    var ranges := AllRanges(Empty, processes);
    if w.Some? {
      var iv :| iv in ranges && Covers(iv, time) && iv.candidate == w.value;
      AllRangesMember(Empty, processes, iv);
    }
    forall p | p in processes && Alive(p, time) && p.observations == []
      ensures w.Some? && w.value.pid <= p.pid
    {
      assert EmptyRange(p) in Ranges(Empty, p);
      AllRangesMember(Empty, processes, EmptyRange(p));
      assert Covers(EmptyRange(p), time);
      assert forall iv :: iv in ranges ==> iv.candidate.observed == 0 by {
        forall iv | iv in ranges ensures iv.candidate.observed == 0 {
          AllRangesMember(Empty, processes, iv);
        }
      }
    }
  }

  // ----- the index -----

  function MinNear(a: Option<Near>, b: Option<Near>): Option<Near> {
    if a.None? then b else if b.None? then a else if NearLeq(a.value, b.value) then a else b
  }

  /** The minimum that `associate` takes over its three timelines. */
  function Nearest(before: Option<Candidate>, after: Option<Candidate>, empty: Option<Candidate>, time: u64): Option<Near> {
    var b := if before.None? then None else Some(NearObserved(before.value, time));
    var a := if after.None? then None else Some(NearObserved(after.value, time));
    var e := if empty.None? then None else Some(Near(U64_MAX, empty.value.pid));
    MinNear(MinNear(b, a), e)
  }

  /** Three indexed lookups decide exactly what the scan over all processes decides. */
  lemma NearestIsReference(processes: seq<Process>, time: u64,
                           before: Option<Candidate>, after: Option<Candidate>, empty: Option<Candidate>)
    requires IsWinner(AllRanges(Before, processes), true, time, before)
    requires IsWinner(AllRanges(After, processes), false, time, after)
    requires IsWinner(AllRanges(Empty, processes), false, time, empty)
    ensures IsNearest(processes, time, Nearest(before, after, empty, time))
  {
    var answer := Nearest(before, after, empty, time);
    forall p | p in processes && Lives(p, time)
      ensures answer.Some? && NearLeq(answer.value, NearOf(p, time))
    {
      AliveIsLives(p, time);
      NoneNearer(processes, time, before, after, empty, p);
    }
    if answer.Some? {
      var p := Attained(processes, time, before, after, empty);
      AliveIsLives(p, time);
      assert NearLeq(NearOf(p, time), answer.value);
    }
  }

  lemma NoneNearer(processes: seq<Process>, time: u64,
                   before: Option<Candidate>, after: Option<Candidate>, empty: Option<Candidate>, p: Process)
    requires IsWinner(AllRanges(Before, processes), true, time, before)
    requires IsWinner(AllRanges(After, processes), false, time, after)
    requires IsWinner(AllRanges(Empty, processes), false, time, empty)
    requires p in processes && Alive(p, time)
    ensures var answer := Nearest(before, after, empty, time);
            answer.Some? && NearLeq(answer.value, NearOf(p, time))
  {
    NearestBounds(before, after, empty, time);
    if p.observations == [] {
      EmptyWinner(processes, time, empty);
    } else {
      var o :| o in p.observations && Distance(p.observations, time) == AbsDiff(o.observedAtMs, time);
      var side := if o.observedAtMs <= time then Before else After;
      SideWinner(side, processes, time, if side.Before? then before else after);
      assert Competes(side, p, o, time);
    }
  }

  lemma NearestBounds(before: Option<Candidate>, after: Option<Candidate>, empty: Option<Candidate>, time: u64)
    ensures var answer := Nearest(before, after, empty, time);
            && (before.Some? ==> answer.Some? && NearLeq(answer.value, NearObserved(before.value, time)))
            && (after.Some? ==> answer.Some? && NearLeq(answer.value, NearObserved(after.value, time)))
            && (empty.Some? ==> answer.Some? && NearLeq(answer.value, Near(U64_MAX, empty.value.pid)))
  {}

  lemma Attained(processes: seq<Process>, time: u64,
                 before: Option<Candidate>, after: Option<Candidate>, empty: Option<Candidate>) returns (p: Process)
    requires IsWinner(AllRanges(Before, processes), true, time, before)
    requires IsWinner(AllRanges(After, processes), false, time, after)
    requires IsWinner(AllRanges(Empty, processes), false, time, empty)
    requires Nearest(before, after, empty, time).Some?
    ensures p in processes && Alive(p, time)
    ensures NearLeq(NearOf(p, time), Nearest(before, after, empty, time).value)
  {
    var answer := Nearest(before, after, empty, time).value;
    if before.Some? && answer == NearObserved(before.value, time) {
      SideWinner(Before, processes, time, before);
      var q, o :| q in processes && Competes(Before, q, o, time) && before.value == Candidate(o.observedAtMs, q.pid);
      p := q;
    } else if after.Some? && answer == NearObserved(after.value, time) {
      SideWinner(After, processes, time, after);
      var q, o :| q in processes && Competes(After, q, o, time) && after.value == Candidate(o.observedAtMs, q.pid);
      p := q;
    } else {
      EmptyWinner(processes, time, empty);
      p :| p in processes && Alive(p, time) && p.observations == [] && p.pid == empty.value.pid;
    }
  }

  /** The first process entry with a PID. */
  function FirstWithPid(processes: seq<Process>, pid: u32): Option<Process> {
    Find(processes, (p: Process) => p.pid == pid)
  }

  // ----- the shared image budget -----

  const MAX_ASSOCIATION_IMAGE_BYTES: int := 64 * 1024 * 1024

  /** What one charge does to the running total: an overrun poisons it with the largest usize. */
  function Charged(used: u64, bytes: u64): (r: u64) {
    if used + bytes <= MAX_ASSOCIATION_IMAGE_BYTES then used + bytes else U64_MAX
  }

  function Sum(charges: seq<u64>): nat {
    if charges == [] then 0 else Sum(charges[..|charges| - 1]) + charges[|charges| - 1]
  }

  function ChargedAll(charges: seq<u64>): (r: u64) {
    if charges == [] then 0 else Charged(ChargedAll(charges[..|charges| - 1]), charges[|charges| - 1])
  }

  /**
   The budget never recovers: after any run of charges the total is the exact sum, or it is
   poisoned, and it is poisoned exactly when the sum is over the limit.
   */
  lemma {:induction false} BudgetIsExact(charges: seq<u64>)
    ensures ChargedAll(charges) <= MAX_ASSOCIATION_IMAGE_BYTES <==> Sum(charges) <= 67_108_864
    ensures ChargedAll(charges) == if Sum(charges) <= MAX_ASSOCIATION_IMAGE_BYTES then Sum(charges) else U64_MAX
  {
    if charges != [] {
      BudgetIsExact(charges[..|charges| - 1]);
    }
  }

  class AssociationBudget {
    var used: u64
    ghost var charges: seq<u64>

    ghost predicate Valid()
      reads this
    {
      used == ChargedAll(charges)
    }

    constructor ()
      ensures Valid() && charges == []
    {
      used, charges := 0, [];
    }

    /** Accepts exactly while the sum of everything ever charged fits. */
    method Charge(bytes: u64) returns (ok: bool)
      requires Valid()
      modifies this
      ensures Valid() && charges == old(charges) + [bytes]
      ensures ok <==> Sum(charges) <= MAX_ASSOCIATION_IMAGE_BYTES
    {
      charges := charges + [bytes];
      assert charges[..|charges| - 1] == old(charges);
      BudgetIsExact(charges);
      used := if used + bytes <= MAX_ASSOCIATION_IMAGE_BYTES then used + bytes else U64_MAX;
      ok := Check();
    }

    method Check() returns (ok: bool)
      requires Valid()
      ensures ok <==> Sum(charges) <= MAX_ASSOCIATION_IMAGE_BYTES
    {
      BudgetIsExact(charges);
      ok := used <= MAX_ASSOCIATION_IMAGE_BYTES;
    }
  }

  datatype ProcessIndex = ProcessIndex(
    budget: AssociationBudget, byPid: map<u32, Process>, before: seq<Change>, after: seq<Change>, empty: seq<Change>)

  /** Everything the index must know about a process list. */
  ghost predicate Indexes(index: ProcessIndex, processes: seq<Process>) {
    && Increasing(index.before) && Increasing(index.after) && Increasing(index.empty)
    && (forall t: u64 :: IsWinner(AllRanges(Before, processes), true, t, At(index.before, t)))
    && (forall t: u64 :: IsWinner(AllRanges(After, processes), false, t, At(index.after, t)))
    && (forall t: u64 :: IsWinner(AllRanges(Empty, processes), false, t, At(index.empty, t)))
    && IndexesPids(index.byPid, processes)
  }

  ghost predicate IndexesPids(byPid: map<u32, Process>, processes: seq<Process>) {
    forall pid: u32 :: FirstWithPid(processes, pid) == if pid in byPid then Some(byPid[pid]) else None
  }

  /** The inner loop: the ranges of one process whose lifetime is not empty. */
  method CollectProcess(process: Process, start: u64, end: u64) returns (before: seq<Interval>, after: seq<Interval>)
    requires start == Start(process) && end == End(process) && start <= end
    ensures before == Ranges(Before, process) && after == Ranges(After, process)
  {
    before, after := [], [];
    for j := 0 to |process.observations|
      invariant before == RangesUpTo(Before, process, process.observations[..j])
      invariant after == RangesUpTo(After, process, process.observations[..j])
    {
      RangesUpToStep(Before, process, process.observations, j);
      RangesUpToStep(After, process, process.observations, j);
      var observed := process.observations[j].observedAtMs;
      var candidate := Candidate(observed, process.pid);
      if observed <= end {
        before := before + [Interval(if start <= observed then observed else start, end, candidate)];
      }
      if start <= observed {
        after := after + [Interval(start, if end <= observed then end else observed, candidate)];
      }
    }
    assert process.observations[..|process.observations|] == process.observations;
  }

  lemma FirstWithPidStep(processes: seq<Process>, i: nat, byPid: map<u32, Process>)
    requires i < |processes| && IndexesPids(byPid, processes[..i])
    ensures IndexesPids(if processes[i].pid in byPid then byPid else byPid[processes[i].pid := processes[i]],
                        processes[..i + 1])
  {
    assert processes[..i + 1] == processes[..i] + [processes[i]];
    forall pid: u32 { FindMore(processes[..i], processes[i], (p: Process) => p.pid == pid); }
  }

  /** The loop over processes that collects the ranges and the first entry of every PID. */
  method CollectRanges(processes: seq<Process>)
    returns (byPid: map<u32, Process>, before: seq<Interval>, after: seq<Interval>, empty: seq<Interval>)
    ensures before == AllRanges(Before, processes)
    ensures after == AllRanges(After, processes)
    ensures empty == AllRanges(Empty, processes)
    ensures IndexesPids(byPid, processes)
  {
    byPid, before, after, empty := map[], [], [], [];
    for i := 0 to |processes|
      invariant before == AllRanges(Before, processes[..i])
      invariant after == AllRanges(After, processes[..i])
      invariant empty == AllRanges(Empty, processes[..i])
      invariant IndexesPids(byPid, processes[..i])
    {
      var process := processes[i];
      AllRangesStep(Before, processes, i);
      AllRangesStep(After, processes, i);
      AllRangesStep(Empty, processes, i);
      FirstWithPidStep(processes, i, byPid);
      if process.pid !in byPid {
        byPid := byPid[process.pid := process];
      }
      var start, end := Start(process), End(process);
      if start > end {
        continue;
      }
      if process.observations == [] {
        empty := empty + [Interval(start, end, Candidate(0, process.pid))];
      }
      var moreBefore, moreAfter := CollectProcess(process, start, end);
      before, after := before + moreBefore, after + moreAfter;
    }
    assert processes[..|processes|] == processes;
  }

  method NewProcessIndex(processes: seq<Process>) returns (index: ProcessIndex)
    ensures fresh(index.budget) && index.budget.Valid() && index.budget.charges == []
    ensures Indexes(index, processes)
    ensures |index.before| + |index.after| <= 4 * ObservationCount(processes)
    ensures |index.empty| <= 2 * |processes|
  {
    EmptyRangesCount(processes);
    AllRangesCount(Before, processes);
    AllRangesCount(After, processes);
    var byPid, before, after, empty := CollectRanges(processes);
    RangesProper(Before, processes);
    RangesProper(After, processes);
    RangesProper(Empty, processes);
    var budget := new AssociationBudget();
    var beforeLine := NewTimeline(before, true);
    var afterLine := NewTimeline(after, false);
    var emptyLine := NewTimeline(empty, false);
    index := ProcessIndex(budget, byPid, beforeLine, afterLine, emptyLine);
  }

  datatype Association = Association(pid: u32, image: string, parentPid: Option<u32>, inferred: bool, how: string)

  /** The association that the documentation promises, decided by scanning all processes. */
  ghost predicate IsAssociation(processes: seq<Process>, explicitPid: Option<u32>, time: u64, rootPid: u32, a: Association) {
    && var entry := FirstWithPid(processes, a.pid);
    && a.image == (if entry.Some? then entry.value.image else "<unknown>")
    && a.parentPid == (if entry.Some? then entry.value.parentPid else None)
    && a.inferred == explicitPid.None?
    && (explicitPid.Some? ==> a.pid == explicitPid.value && a.how == "explicit_pid")
    && (explicitPid.None? ==>
          || (a.how == "nearest_process_lifetime" && exists d: u64 :: IsNearest(processes, time, Some(Near(d, a.pid))))
          || (a.how == "root_target_fallback" && a.pid == rootPid && IsNearest(processes, time, None)))
  }

  /** The association that is charged for, and returned while the budget lasts. */
  method ForPid(index: ProcessIndex, pid: u32, inferred: bool, how: string, ghost processes: seq<Process>)
    returns (result: Option<Association>, ghost a: Association)
    requires Indexes(index, processes) && index.budget.Valid()
    requires forall p :: p in index.byPid.Values ==> |p.image| <= U64_MAX
    modifies index.budget
    ensures index.budget.Valid() && |a.image| <= U64_MAX
    ensures a == AssociationFor(processes, pid, inferred, how)
    ensures index.budget.charges == old(index.budget.charges) + [|a.image|]
    ensures result == if Sum(index.budget.charges) <= MAX_ASSOCIATION_IMAGE_BYTES then Some(a) else None
  {
    var image := if pid in index.byPid then index.byPid[pid].image else "<unknown>";
    a := Association(pid, image, if pid in index.byPid then index.byPid[pid].parentPid else None, inferred, how);
    var ok := index.budget.Charge(|image|);
    if !ok { return None, a; }
    result := Some(Association(pid, image, if pid in index.byPid then index.byPid[pid].parentPid else None, inferred, how));
  }

  function AssociationFor(processes: seq<Process>, pid: u32, inferred: bool, how: string): Association {
    var entry := FirstWithPid(processes, pid);
    if entry.Some? then Association(pid, entry.value.image, entry.value.parentPid, inferred, how)
    else Association(pid, "<unknown>", None, inferred, how)
  }

  lemma ExplicitAssociation(processes: seq<Process>, pid: u32, time: u64, rootPid: u32)
    ensures IsAssociation(processes, Some(pid), time, rootPid, AssociationFor(processes, pid, false, "explicit_pid"))
  {}

  lemma NearestAssociation(processes: seq<Process>, time: u64, rootPid: u32, near: Near)
    requires IsNearest(processes, time, Some(near))
    ensures IsAssociation(processes, None, time, rootPid, AssociationFor(processes, near.pid, true, "nearest_process_lifetime"))
  {
    assert Near(near.distance, near.pid) == near;
  }

  lemma RootAssociation(processes: seq<Process>, time: u64, rootPid: u32)
    requires IsNearest(processes, time, None)
    ensures IsAssociation(processes, None, time, rootPid, AssociationFor(processes, rootPid, true, "root_target_fallback"))
  {}

  /** Nobody lives at that time. */
  ghost predicate NobodyLives(processes: seq<Process>, time: u64) {
    forall p :: p in processes ==> !Lives(p, time)
  }

  lemma FallbackExactlyWhen(processes: seq<Process>, explicitPid: Option<u32>, time: u64, rootPid: u32, a: Association)
    requires IsAssociation(processes, explicitPid, time, rootPid, a)
    ensures a.how == "root_target_fallback" <==> explicitPid.None? && NobodyLives(processes, time)
  {
    if explicitPid.None? && a.how == "nearest_process_lifetime" {
      var d: u64 :| IsNearest(processes, time, Some(Near(d, a.pid)));
      var p :| p in processes && Lives(p, time) && NearOf(p, time) == Near(d, a.pid);
    }
  }

  /**
   Indexed association charges for exactly the association `a` that the full scan defines, and
   returns it exactly while the images ever charged fit into the budget.
   */
  method Associate(index: ProcessIndex, explicitPid: Option<u32>, time: u64, rootPid: u32, ghost processes: seq<Process>)
    returns (result: Option<Association>, ghost a: Association)
    requires Indexes(index, processes) && index.budget.Valid()
    requires forall p :: p in index.byPid.Values ==> |p.image| <= U64_MAX
    modifies index.budget
    ensures index.budget.Valid() && |a.image| <= U64_MAX
    ensures IsAssociation(processes, explicitPid, time, rootPid, a)
    ensures a.how == "root_target_fallback" <==> explicitPid.None? && NobodyLives(processes, time)
    ensures index.budget.charges == old(index.budget.charges) + [|a.image|]
    ensures result == if Sum(index.budget.charges) <= MAX_ASSOCIATION_IMAGE_BYTES then Some(a) else None
  {
    if explicitPid.Some? {
      ExplicitAssociation(processes, explicitPid.value, time, rootPid);
      result, a := ForPid(index, explicitPid.value, false, "explicit_pid", processes);
      FallbackExactlyWhen(processes, explicitPid, time, rootPid, a);
      return;
    }
    var before, after, empty := At(index.before, time), At(index.after, time), At(index.empty, time);
    NearestIsReference(processes, time, before, after, empty);
    var nearest := Nearest(before, after, empty, time);
    if nearest.Some? {
      NearestAssociation(processes, time, rootPid, nearest.value);
      result, a := ForPid(index, nearest.value.pid, true, "nearest_process_lifetime", processes);
    } else {
      RootAssociation(processes, time, rootPid);
      result, a := ForPid(index, rootPid, true, "root_target_fallback", processes);
    }
    FallbackExactlyWhen(processes, explicitPid, time, rootPid, a);
  }

  /** The scan has one answer, so `Associate` leaves no freedom in the PID. */
  lemma NearestUnique(processes: seq<Process>, time: u64, a: Option<Near>, b: Option<Near>)
    requires IsNearest(processes, time, a) && IsNearest(processes, time, b)
    ensures a == b
  {
    if a.Some? && b.Some? {
      assert NearLeq(a.value, b.value) && NearLeq(b.value, a.value);
    }
  }
}
