/**
 Process instances: which run of a PID an activity belongs to.
 Models the index of `src/report_analysis/correlation.rs`.
 */
module InstanceHistory {
  import opened Basics
  import opened Ordering
  import opened Text

  /** A raw JSON field: missing, present but not a string, or a string. */
  datatype Field = Missing | NotText | Text(text: string)

  datatype Observation = Observation(
    status: string, image: string, observedAtMs: u64, processGuid: Field, processGuidUpper: Field)

  datatype Process = Process(pid: u32, observations: seq<Observation>)

  /** One run of a PID: when it was first seen, and its canonical image. */
  datatype Instance = Instance(start: u64, image: string)

  datatype State = State(instance: Option<Instance>, guid: string)

  datatype Entry = Entry(at: u64, instance: Option<Instance>)

  // ----- one observation -----

  /** What the fold looks at: the canonical image and the lower-case GUID, "" when there is none. */
  datatype View = View(at: u64, ended: bool, image: string, guid: string)

  function Guid(o: Observation): string {
    var field := if o.processGuid.Missing? then o.processGuidUpper else o.processGuid;
    Lower(if field.Text? then field.text else "")
  }

  function ViewOf(o: Observation): View {
    View(o.observedAtMs, o.status == "terminated", CanonicalPath(o.image), Guid(o))
  }

  function Views(observations: seq<Observation>): (r: seq<View>)
    ensures |r| == |observations|
    ensures forall i :: 0 <= i < |r| ==> r[i] == ViewOf(observations[i])
  {
    seq(|observations|, i requires 0 <= i < |observations| => ViewOf(observations[i]))
  }

  /** The GUID or the image says that this is another process. */
  predicate Restarts(state: State, o: View) {
    || (state.guid != "" && o.guid != "" && state.guid != o.guid)
    || state.instance.None?
    || state.instance.value.image != o.image
  }

  function Step(state: State, o: View): State {
    var instance :=
      if o.ended then None
      else if Restarts(state, o) then Some(Instance(o.at, o.image))
      else state.instance;
    State(instance, if o.guid != "" then o.guid else if o.ended then "" else state.guid)
  }

  /** The state after the first `n` observations. */
  function StateAfter(views: seq<View>, n: nat): State
    requires n <= |views|
  {
    if n == 0 then State(None, "") else Step(StateAfter(views, n - 1), views[n - 1])
  }

  lemma {:induction false} StateAfterPrefix(views: seq<View>, longer: seq<View>, n: nat)
    requires n <= |views| <= |longer| && forall i :: 0 <= i < n ==> views[i] == longer[i]
    ensures StateAfter(views, n) == StateAfter(longer, n)
  {
    if n > 0 {
      StateAfterPrefix(views, longer, n - 1);
    }
  }

  /** The order in which observations are folded: `(time, status, image)`. */
  predicate ObservedBefore(a: Observation, b: Observation) {
    a.observedAtMs < b.observedAtMs ||
    (a.observedAtMs == b.observedAtMs && TextsLeq([a.status, a.image], [b.status, b.image]))
  }

  lemma ObservedBeforePreorder()
    ensures TotalPreorder(ObservedBefore)
  {
    TextsLeqOrder();
  }

  // ----- the naive answer: sort and fold everything seen up to a time -----

  function SeenUpTo(observations: seq<Observation>, time: u64): seq<Observation> {
    Filter(observations, (o: Observation) => 0 < o.observedAtMs <= time)
  }

  function FirstWithPid(processes: seq<Process>, pid: u32): Option<Process> {
    Find(processes, (p: Process) => p.pid == pid)
  }

  function StateAt(processes: seq<Process>, pid: u32, time: u64): State {
    var process := FirstWithPid(processes, pid);
    if process.None? || pid == 0 then State(None, "")
    else
      var seen := SortBy(SeenUpTo(process.value.observations, time), ObservedBefore);
      StateAfter(Views(seen), |seen|)
  }

  /** The instance of `pid` at `time`, by folding every observation up to that time from scratch. */
  function InstanceAt(processes: seq<Process>, pid: u32, time: u64): Option<Instance> {
    StateAt(processes, pid, time).instance
  }

  // ----- the history that is searched instead -----

  ghost predicate InTimeOrder(views: seq<View>) {
    forall i, j :: 0 <= i < j < |views| ==> views[i].at <= views[j].at
  }

  /** The history of time-ordered observations: the state's instance after each of them. */
  ghost predicate IsHistory(views: seq<View>, history: seq<Entry>) {
    && |history| == |views|
    && forall i :: 0 <= i < |views| ==> history[i] == Entry(views[i].at, StateAfter(views, i + 1).instance)
  }

  ghost predicate Searchable(history: seq<Entry>) {
    forall i, j :: 0 <= i < j < |history| ==> history[i].at <= history[j].at
  }

  function Search(history: seq<Entry>, time: u64): Option<Instance>
    requires Searchable(history)
  {
    var end := PartitionPoint(history, (e: Entry) => e.at <= time);
    if end == 0 then None else history[end - 1].instance
  }

  /** How many leading observations are not after `time`. */
  ghost predicate IsCut(views: seq<View>, time: u64, cut: nat) {
    && cut <= |views|
    && (forall i :: 0 <= i < cut ==> views[i].at <= time)
    && (forall i :: cut <= i < |views| ==> time < views[i].at)
  }

  lemma CutExists(views: seq<View>, time: u64) returns (cut: nat)
    requires InTimeOrder(views)
    ensures IsCut(views, time, cut)
  {
    cut := PartitionPoint(views, (o: View) => o.at <= time);
  }

  lemma SearchFinds(views: seq<View>, history: seq<Entry>, time: u64, cut: nat)
    requires IsHistory(views, history) && Searchable(history) && IsCut(views, time, cut)
    ensures Search(history, time) == StateAfter(views, cut).instance
  {
    PartitionPointUnique(history, (e: Entry) => e.at <= time, cut);
  }

  /** `CorrelationIndex::new`: the positive-time observations of one process, in fold order. */
  function Positive(observations: seq<Observation>): seq<Observation> {
    Filter(observations, (o: Observation) => o.observedAtMs > 0)
  }

  function Ordered(observations: seq<Observation>): seq<Observation> {
    SortBy(Positive(observations), ObservedBefore)
  }

  lemma OrderedInTimeOrder(observations: seq<Observation>)
    ensures InTimeOrder(Views(Ordered(observations)))
  {
    ObservedBeforePreorder();
    SortBySorted(Positive(observations), ObservedBefore);
  }

  /** Cutting the sorted list is the same as sorting only what was seen by then. */
  lemma CutIsSeenUpTo(observations: seq<Observation>, time: u64, cut: nat)
    requires IsCut(Views(Ordered(observations)), time, cut)
    ensures Ordered(observations)[..cut] == SortBy(SeenUpTo(observations, time), ObservedBefore)
  {
    ObservedBeforePreorder();
    FilterSort(Positive(observations), ObservedBefore, (o: Observation) => o.observedAtMs <= time);
    FilterTwice(observations, (o: Observation) => o.observedAtMs > 0, (o: Observation) => o.observedAtMs <= time,
                (o: Observation) => 0 < o.observedAtMs <= time);
    var ordered := Ordered(observations);
    assert forall i :: 0 <= i < |ordered| ==> Views(ordered)[i].at == ordered[i].observedAtMs;
    FilterPrefix(ordered, cut, (o: Observation) => o.observedAtMs <= time);
  }

  /** The state at a time is the state after the cut. */
  lemma StateAtCut(processes: seq<Process>, pid: u32, time: u64, cut: nat)
    requires FirstWithPid(processes, pid).Some? && pid != 0
    requires IsCut(Views(Ordered(FirstWithPid(processes, pid).value.observations)), time, cut)
    ensures StateAt(processes, pid, time)
         == StateAfter(Views(Ordered(FirstWithPid(processes, pid).value.observations)), cut)
  {
    var observations := FirstWithPid(processes, pid).value.observations;
    CutIsSeenUpTo(observations, time, cut);
    StateAfterPrefix(Views(Ordered(observations)[..cut]), Views(Ordered(observations)), cut);
  }

  method BuildHistory(observations: seq<View>) returns (history: seq<Entry>)
    requires InTimeOrder(observations)
    ensures IsHistory(observations, history) && Searchable(history)
  {
    var start: Option<Instance> := None;
    var guid := "";
    history := [];
    for i := 0 to |observations|
      invariant |history| == i
      invariant State(start, guid) == StateAfter(observations, i)
      invariant forall k :: 0 <= k < i ==> history[k] == Entry(observations[k].at, StateAfter(observations, k + 1).instance)
    {
      start, guid := Observe(start, guid, observations[i]);
      history := history + [Entry(observations[i].at, start)];
    }
  }

  /** The loop body: one observation updates the running instance and GUID. */
  method Observe(start0: Option<Instance>, guid0: string, observation: View)
    returns (start: Option<Instance>, guid: string)
    ensures State(start, guid) == Step(State(start0, guid0), observation)
  {
    start, guid := start0, guid0;
    if observation.ended {
      start := None;
      guid := "";
    } else if (guid != "" && observation.guid != "" && guid != observation.guid)
           || start.None? || start.value.image != observation.image {
      start := Some(Instance(observation.at, observation.image));
    }
    if observation.guid != "" {
      guid := observation.guid;
    }
  }

  // ----- the index over all processes -----

  ghost predicate HistoryOf(history: seq<Entry>, process: Process) {
    Searchable(history) && IsHistory(Views(Ordered(process.observations)), history)
  }

  ghost predicate IndexesHistories(histories: map<u32, seq<Entry>>, processes: seq<Process>) {
    forall pid: u32 ::
      && (pid in histories <==> FirstWithPid(processes, pid).Some?)
      && (pid in histories ==> HistoryOf(histories[pid], FirstWithPid(processes, pid).value))
  }

  /** The first entry of a PID counts. */
  lemma HistoriesMore(histories: map<u32, seq<Entry>>, processes: seq<Process>, process: Process, more: map<u32, seq<Entry>>)
    requires IndexesHistories(histories, processes)
    requires process.pid in histories ==> more == histories
    requires process.pid !in histories ==>
               exists h :: HistoryOf(h, process) && more == histories[process.pid := h]
    ensures IndexesHistories(more, processes + [process])
  {
    forall pid: u32
      ensures pid in more <==> FirstWithPid(processes + [process], pid).Some?
      ensures pid in more ==> HistoryOf(more[pid], FirstWithPid(processes + [process], pid).value)
    {
      FindMore(processes, process, (p: Process) => p.pid == pid);
    }
  }

  method BuildHistories(processes: seq<Process>) returns (histories: map<u32, seq<Entry>>)
    ensures IndexesHistories(histories, processes)
  {
    histories := map[];
    for i := 0 to |processes|
      invariant IndexesHistories(histories, processes[..i])
    {
      var process := processes[i];
      ghost var before := histories;
      if process.pid !in histories {
        OrderedInTimeOrder(process.observations);
        var history := BuildHistory(Views(Ordered(process.observations)));
        assert HistoryOf(history, process);
        histories := histories[process.pid := history];
      }
      HistoriesMore(before, processes[..i], process, histories);
      assert processes[..i + 1] == processes[..i] + [process];
    }
    assert processes[..|processes|] == processes;
  }

  /** `CorrelationIndex::instance`. */
  function Lookup(histories: map<u32, seq<Entry>>, pid: u32, time: u64): Option<Instance>
    requires forall p :: p in histories ==> Searchable(histories[p])
  {
    if pid == 0 || time == 0 || pid !in histories then None
    else Search(histories[pid], time)
  }

  /** Binary search in the history gives the instance that refolding from scratch gives. */
  lemma LookupIsInstanceAt(histories: map<u32, seq<Entry>>, processes: seq<Process>, pid: u32, time: u64)
    requires IndexesHistories(histories, processes)
    ensures Lookup(histories, pid, time) == InstanceAt(processes, pid, time)
  {
    var process := FirstWithPid(processes, pid);
    if process.Some? && pid != 0 {
      var views := Views(Ordered(process.value.observations));
      OrderedInTimeOrder(process.value.observations);
      var cut := CutExists(views, time);
      StateAtCut(processes, pid, time, cut);
      SearchFinds(views, histories[pid], time, cut);
      if time == 0 {
        NothingAtZero(process.value.observations);
      }
    }
  }

  lemma NothingAtZero(observations: seq<Observation>)
    ensures SeenUpTo(observations, 0) == []
  {
    FilterPrefix(observations, 0, (o: Observation) => 0 < o.observedAtMs <= 0);
  }

  // ----- what equality of instances means -----

  ghost predicate GuidsAgree(views: seq<View>, i: nat, j: nat, known: string, g: string)
    requires i <= j <= |views|
  {
    (known == "" || known == g) && forall k :: i <= k < j ==> views[k].guid == "" || views[k].guid == g
  }

  ghost predicate ImageKept(views: seq<View>, i: nat, j: nat, image: string)
    requires i <= j <= |views|
  {
    forall k :: i <= k < j ==> !views[k].ended && views[k].image == image
  }

  /** An instance never starts after the time at which it is looked up. */
  lemma {:induction false} StartBound(views: seq<View>, n: nat, time: u64)
    requires n <= |views| && forall i :: 0 <= i < n ==> views[i].at <= time
    ensures StateAfter(views, n).instance.Some? ==> StateAfter(views, n).instance.value.start <= time
  {
    if n > 0 {
      StartBound(views, n - 1, time);
    }
  }

  lemma {:induction false} UnbrokenKeeps(views: seq<View>, i: nat, j: nat, from: State, g: string)
    requires i <= j <= |views| && from == StateAfter(views, i) && from.instance.Some?
    requires ImageKept(views, i, j, from.instance.value.image) && GuidsAgree(views, i, j, from.guid, g)
    ensures StateAfter(views, j).instance == from.instance
    ensures StateAfter(views, j).guid == "" || StateAfter(views, j).guid == g
    decreases j
  {
    if i < j {
      UnbrokenKeeps(views, i, j - 1, from, g);
    }
  }

  /** From `i` on, the instance is the one at `i` and nothing contradicted it, or it is gone for good. */
  lemma {:induction false} KeptOrGone(views: seq<View>, i: nat, j: nat, time: u64, from: State)
    requires i <= j <= |views| && IsCut(views, time, i) && from == StateAfter(views, i)
    requires from.instance.Some? && from.instance.value.start <= time
    ensures IsKeptOrGone(views, i, j, time, from, StateAfter(views, j))
    decreases j
  {
    if i < j {
      KeptOrGone(views, i, j - 1, time, from);
      KeptOrGoneStep(views, i, j, time, from, StateAfter(views, j - 1));
    }
  }

  ghost predicate IsKeptOrGone(views: seq<View>, i: nat, j: nat, time: u64, from: State, to: State)
    requires i <= j <= |views|
  {
    if to.instance == from.instance
    then from.instance.Some? && ImageKept(views, i, j, from.instance.value.image) && GuidsAgree(views, i, j, from.guid, to.guid)
    else to.instance.None? || time < to.instance.value.start
  }

  lemma KeptOrGoneStep(views: seq<View>, i: nat, j: nat, time: u64, from: State, before: State)
    requires i < j <= |views| && IsCut(views, time, i) && from.instance.Some? && from.instance.value.start <= time
    requires IsKeptOrGone(views, i, j - 1, time, from, before)
    ensures IsKeptOrGone(views, i, j, time, from, Step(before, views[j - 1]))
  {}

  /** The observations of `pid` in `(from, to]`. */
  ghost predicate ObservedBetween(processes: seq<Process>, pid: u32, from: u64, to: u64, o: Observation) {
    && FirstWithPid(processes, pid).Some?
    && o in FirstWithPid(processes, pid).value.observations
    && from < o.observedAtMs <= to
  }

  ghost predicate ImageStays(processes: seq<Process>, pid: u32, from: u64, to: u64, image: string) {
    forall o :: ObservedBetween(processes, pid, from, to, o) ==>
                  o.status != "terminated" && CanonicalPath(o.image) == image
  }

  ghost predicate GuidStays(processes: seq<Process>, pid: u32, from: u64, to: u64, known: string, g: string) {
    && (known == "" || known == g)
    && (forall o :: ObservedBetween(processes, pid, from, to, o) ==> Guid(o) == "" || Guid(o) == g)
  }

  /** Nothing observed in `(from, to]` ended the process, changed its image or changed its GUID. */
  ghost predicate Uninterrupted(processes: seq<Process>, pid: u32, from: u64, to: u64) {
    var state := StateAt(processes, pid, from);
    && state.instance.Some?
    && ImageStays(processes, pid, from, to, state.instance.value.image)
    && exists g :: GuidStays(processes, pid, from, to, state.guid, g)
  }

  lemma CutsAscend(views: seq<View>, from: u64, to: u64, i: nat, j: nat)
    requires from <= to && IsCut(views, from, i) && IsCut(views, to, j)
    ensures i <= j
  {
    assert j < |views| ==> to < views[j].at;
  }

  /** Positions between two cuts are the observations between the two times. */
  lemma BetweenCuts(observations: seq<Observation>, from: u64, to: u64, i: nat, j: nat)
    requires from <= to && IsCut(Views(Ordered(observations)), from, i) && IsCut(Views(Ordered(observations)), to, j)
    ensures i <= j
    ensures forall k :: i <= k < j ==> Ordered(observations)[k] in observations
                                       && from < Ordered(observations)[k].observedAtMs <= to
    ensures forall o :: o in observations && from < o.observedAtMs <= to ==>
                          exists k :: i <= k < j && Ordered(observations)[k] == o
  {
    var ordered := Ordered(observations);
    CutsAscend(Views(ordered), from, to, i, j);
    SameElements(ordered, Positive(observations));
    forall k | i <= k < j ensures ordered[k] in observations && from < ordered[k].observedAtMs <= to {
      assert ordered[k] in Positive(observations);
      assert Views(ordered)[k].at == ordered[k].observedAtMs;
    }
    forall o | o in observations && from < o.observedAtMs <= to
      ensures exists k :: i <= k < j && ordered[k] == o
    {
      assert o in Positive(observations);
      var k :| 0 <= k < |ordered| && ordered[k] == o;
      assert Views(ordered)[k].at == o.observedAtMs;
    }
  }

  lemma ByPosition(processes: seq<Process>, pid: u32, from: u64, to: u64, ordered: seq<Observation>, i: nat, j: nat)
    requires i <= j <= |ordered| && FirstWithPid(processes, pid).Some?
    requires forall k :: i <= k < j ==> ObservedBetween(processes, pid, from, to, ordered[k])
    requires forall o :: ObservedBetween(processes, pid, from, to, o) ==> exists k :: i <= k < j && ordered[k] == o
    ensures forall image :: ImageKept(Views(ordered), i, j, image) <==> ImageStays(processes, pid, from, to, image)
    ensures forall known, g :: GuidsAgree(Views(ordered), i, j, known, g) <==>
                                 GuidStays(processes, pid, from, to, known, g)
  {
    var views := Views(ordered);
    assert forall k :: i <= k < j ==> views[k] == ViewOf(ordered[k]);
    forall image ensures ImageKept(views, i, j, image) <==> ImageStays(processes, pid, from, to, image) {}
    forall known, g ensures GuidsAgree(views, i, j, known, g) <==> GuidStays(processes, pid, from, to, known, g) {}
  }

  /** Two times see the same instance exactly when the process was not interrupted in between. */
  lemma SameInstanceIffUninterrupted(processes: seq<Process>, pid: u32, from: u64, to: u64)
    requires from <= to && InstanceAt(processes, pid, from).Some?
    ensures InstanceAt(processes, pid, from) == InstanceAt(processes, pid, to) <==>
              Uninterrupted(processes, pid, from, to)
  {
    var observations := FirstWithPid(processes, pid).value.observations;
    var ordered := Ordered(observations);
    OrderedInTimeOrder(observations);
    var i := CutExists(Views(ordered), from);
    var j := CutExists(Views(ordered), to);
    StateAtCut(processes, pid, from, i);
    StateAtCut(processes, pid, to, j);
    BetweenCuts(observations, from, to, i, j);
    ByPosition(processes, pid, from, to, ordered, i, j);
    SameStateByPosition(Views(ordered), from, i, j);
  }

  lemma SameStateByPosition(views: seq<View>, from: u64, i: nat, j: nat)
    requires i <= j <= |views| && IsCut(views, from, i) && StateAfter(views, i).instance.Some?
    ensures var state := StateAfter(views, i);
            StateAfter(views, j).instance == state.instance <==>
              (ImageKept(views, i, j, state.instance.value.image) && exists g :: GuidsAgree(views, i, j, state.guid, g))
  {
    var state := StateAfter(views, i);
    StartBound(views, i, from);
    KeptOrGone(views, i, j, from, state);
    if ImageKept(views, i, j, state.instance.value.image) && exists g :: GuidsAgree(views, i, j, state.guid, g) {
      var g :| GuidsAgree(views, i, j, state.guid, g);
      UnbrokenKeeps(views, i, j, state, g);
    }
  }

  // ----- what the last observation decides -----

  /** Not after the other one in time, and among observations of one time not after it by status and image. */
  predicate NotLater(q: Observation, o: Observation) {
    if q.observedAtMs != o.observedAtMs then q.observedAtMs < o.observedAtMs
    else if q.status != o.status then TextLeq(q.status, o.status)
    else TextLeq(q.image, o.image)
  }

  /** The last thing that was seen of the process up to then. */
  ghost predicate IsLatest(observations: seq<Observation>, time: u64, o: Observation) {
    && o in observations && 0 < o.observedAtMs <= time
    && forall q :: q in observations && 0 < q.observedAtMs <= time ==> NotLater(q, o)
  }

  lemma NotLaterExactly(q: Observation, o: Observation)
    ensures ObservedBefore(q, o) <==> NotLater(q, o)
  {
    TextLeqTotal(o.image, o.image);
    assert [q.status, q.image][1..] == [q.image] && [o.status, o.image][1..] == [o.image];
    assert TextsLeq([q.image], [o.image]) <==> TextLeq(q.image, o.image) by {
      assert [q.image][1..] == [] && [o.image][1..] == [];
    }
  }

  lemma MutuallyNotLater(q: Observation, o: Observation)
    requires NotLater(q, o) && NotLater(o, q)
    ensures q.observedAtMs == o.observedAtMs && q.status == o.status && q.image == o.image
  {
    if q.status != o.status { TextLeqAntisymmetric(q.status, o.status); }
    TextLeqAntisymmetric(q.image, o.image);
  }

  lemma LastOfSorted(seen: seq<Observation>, o: Observation)
    requires o in seen && Sorted(seen, ObservedBefore)
    ensures seen[|seen| - 1] in seen && NotLater(o, seen[|seen| - 1])
  {
    var k :| 0 <= k < |seen| && seen[k] == o;
    NotLaterExactly(o, seen[|seen| - 1]);
    if k == |seen| - 1 { TextLeqTotal(o.image, o.image); } else { assert ObservedBefore(seen[k], seen[|seen| - 1]); }
  }

  lemma SeenInOrder(observations: seq<Observation>, time: u64, o: Observation)
    ensures var seen := SortBy(SeenUpTo(observations, time), ObservedBefore);
            Sorted(seen, ObservedBefore) && (o in seen <==> o in observations && 0 < o.observedAtMs <= time)
  {
    var unsorted := SeenUpTo(observations, time);
    ObservedBeforePreorder();
    SortBySorted(unsorted, ObservedBefore);
    SameElements(SortBy(unsorted, ObservedBefore), unsorted);
  }

  lemma LatestOf(observations: seq<Observation>, time: u64, o: Observation, seen: seq<Observation>, last: Observation)
    requires IsLatest(observations, time, o) && o in seen && Sorted(seen, ObservedBefore)
    requires last == seen[|seen| - 1] && last in observations && 0 < last.observedAtMs <= time
    ensures last.status == o.status && last.image == o.image
  {
    LastOfSorted(seen, o);
    MutuallyNotLater(o, last);
  }

  /** The last in the order of the history is the latest in this sense. */
  lemma LastIsLatest(observations: seq<Observation>, time: u64, o: Observation, seen: seq<Observation>)
    requires IsLatest(observations, time, o) && seen == SortBy(SeenUpTo(observations, time), ObservedBefore)
    ensures seen != [] && seen[|seen| - 1].status == o.status && seen[|seen| - 1].image == o.image
  {
    SeenInOrder(observations, time, o);
    SeenInOrder(observations, time, seen[|seen| - 1]);
    LatestOf(observations, time, o, seen, seen[|seen| - 1]);
  }

  lemma LastViewDecides(views: seq<View>)
    requires views != []
    ensures var instance, last := StateAfter(views, |views|).instance, views[|views| - 1];
            && (instance.Some? <==> !last.ended) && (instance.Some? ==> instance.value.image == last.image)
  {}

  /** A process has an instance exactly if the last thing seen of it is not its end, and then it has that image. */
  lemma LatestDecides(processes: seq<Process>, pid: u32, time: u64, process: Process, o: Observation)
    requires pid != 0 && FirstWithPid(processes, pid) == Some(process) && IsLatest(process.observations, time, o)
    ensures InstanceAt(processes, pid, time).Some? <==> o.status != "terminated"
    ensures InstanceAt(processes, pid, time).Some? ==> InstanceAt(processes, pid, time).value.image == CanonicalPath(o.image)
  {
    var seen := SortBy(SeenUpTo(process.observations, time), ObservedBefore);
    LastIsLatest(process.observations, time, o, seen);
    LastViewDecides(Views(seen));
  }

  /** A GUID is the text of the first of the two fields that is there, in lower case; anything but text is no GUID. */
  lemma GuidIsOfFirstField(o: Observation)
    ensures o.processGuid.Text? ==> Guid(o) == Lower(o.processGuid.text)
    ensures o.processGuid.NotText? ==> Guid(o) == ""
    ensures o.processGuid.Missing? && o.processGuidUpper.Text? ==> Guid(o) == Lower(o.processGuidUpper.text)
    ensures o.processGuid.Missing? && !o.processGuidUpper.Text? ==> Guid(o) == ""
  {}
}
