/**
 Winner changes over inclusive time ranges: the sweep line behind
 `src/report_analysis/process_index.rs`.
 */
module ProcessTimeline {
  import opened Basics
  import opened Ordering

  datatype Candidate = Candidate(observed: u64, pid: u32)

  datatype Interval = Interval(start: u64, end: u64, candidate: Candidate)

  datatype Change = Change(time: u64, winner: Option<Candidate>)

  // ----- what a timeline means -----

  predicate Covers(interval: Interval, time: u64) {
    interval.start <= time <= interval.end
  }

  function Rank(candidate: Candidate, preferLatest: bool): u64 {
    if preferLatest then U64_MAX - candidate.observed else candidate.observed
  }

  /** `a` wins against `b`: the preferred observation first, then the smaller PID. */
  predicate AtLeastAsGood(a: Candidate, b: Candidate, preferLatest: bool) {
    var ra, rb := Rank(a, preferLatest), Rank(b, preferLatest);
    ra < rb || (ra == rb && a.pid <= b.pid)
  }

  /** The naive answer: `w` is the best candidate among all ranges that contain `time`. */
  ghost predicate IsWinner(intervals: seq<Interval>, preferLatest: bool, time: u64, w: Option<Candidate>) {
    match w
    case None =>
      forall iv :: iv in intervals ==> !Covers(iv, time)
    case Some(c) =>
      && (exists iv :: iv in intervals && Covers(iv, time) && iv.candidate == c)
      && (forall iv :: iv in intervals && Covers(iv, time) ==> AtLeastAsGood(c, iv.candidate, preferLatest))
  }

  lemma WinnerUnique(intervals: seq<Interval>, preferLatest: bool, time: u64, v: Option<Candidate>, w: Option<Candidate>)
    requires IsWinner(intervals, preferLatest, time, v) && IsWinner(intervals, preferLatest, time, w)
    ensures v == w
  {}

  // ----- lookup -----

  ghost predicate Increasing(changes: seq<Change>) {
    forall i, j :: 0 <= i < j < |changes| ==> changes[i].time < changes[j].time
  }

  /** The winner recorded by the last change that is not after `time`. */
  function At(changes: seq<Change>, time: u64): Option<Candidate>
    requires Increasing(changes)
  {
    var end := PartitionPoint(changes, (c: Change) => c.time <= time);
    if end == 0 then None else changes[end - 1].winner
  }

  lemma AtAppend(changes: seq<Change>, change: Change, time: u64)
    requires Increasing(changes + [change])
    ensures Increasing(changes)
    ensures At(changes + [change], time) == if change.time <= time then change.winner else At(changes, time)
  {
    var longer := changes + [change];
    assert forall i :: 0 <= i < |changes| ==> changes[i] == longer[i];
    var pred := (c: Change) => c.time <= time;
    if change.time <= time {
      assert forall i :: 0 <= i < |changes| ==> changes[i].time < longer[|changes|].time;
      PartitionPointUnique(longer, pred, |longer|);
    } else {
      PartitionPointUnique(longer, pred, PartitionPoint(changes, pred));
    }
  }

  lemma AtEnd(changes: seq<Change>, time: u64)
    requires Increasing(changes)
    requires forall i :: 0 <= i < |changes| ==> changes[i].time <= time
    ensures At(changes, time) == if changes == [] then None else changes[|changes| - 1].winner
  {
    PartitionPointUnique(changes, (c: Change) => c.time <= time, |changes|);
  }

  // ----- the sweep -----

  /** A range becomes active at `start` and inactive at `end + 1`, when that is representable. */
  datatype Event = Event(time: u64, id: nat, add: bool)

  /** The order of Rust's tuple `(u64, usize, bool)`. */
  predicate EventLeq(a: Event, b: Event) {
    a.time < b.time || (a.time == b.time && (a.id < b.id || (a.id == b.id && (!a.add || b.add))))
  }

  datatype Key = Key(rank: u64, pid: u32, id: nat)

  predicate KeyLeq(a: Key, b: Key) {
    a.rank < b.rank || (a.rank == b.rank && (a.pid < b.pid || (a.pid == b.pid && a.id <= b.id)))
  }

  function KeyOf(intervals: seq<Interval>, preferLatest: bool, id: nat): Key
    requires id < |intervals|
  {
    var candidate := intervals[id].candidate;
    Key(Rank(candidate, preferLatest), candidate.pid, id)
  }

  ghost predicate Proper(intervals: seq<Interval>) {
    forall iv :: iv in intervals ==> iv.start <= iv.end
  }

  ghost predicate IsEvent(intervals: seq<Interval>, e: Event) {
    && e.id < |intervals|
    && (if e.add then e.time == intervals[e.id].start else e.time == intervals[e.id].end + 1)
  }

  function AddEvent(intervals: seq<Interval>, id: nat): Event
    requires id < |intervals|
  {
    Event(intervals[id].start, id, true)
  }

  /** `e` is among the first `next` events. */
  ghost predicate Done(events: seq<Event>, next: nat, e: Event)
    requires next <= |events|
  {
    exists k :: 0 <= k < next && events[k] == e
  }

  ghost predicate Removed(intervals: seq<Interval>, events: seq<Event>, next: nat, id: nat)
    requires id < |intervals| && next <= |events|
  {
    intervals[id].end < U64_MAX && Done(events, next, Event(intervals[id].end + 1, id, false))
  }

  /** The active keys after the first `next` events: those added and not yet removed. */
  ghost predicate ActiveAfter(intervals: seq<Interval>, preferLatest: bool, events: seq<Event>, next: nat, active: set<Key>)
    requires next <= |events|
  {
    && (forall k :: k in active ==> k.id < |intervals| && k == KeyOf(intervals, preferLatest, k.id))
    && (forall id :: 0 <= id < |intervals| ==>
          (KeyOf(intervals, preferLatest, id) in active <==>
             Done(events, next, AddEvent(intervals, id)) && !Removed(intervals, events, next, id)))
  }

  function Toggle(intervals: seq<Interval>, preferLatest: bool, e: Event, active: set<Key>): set<Key>
    requires e.id < |intervals|
  {
    var key := KeyOf(intervals, preferLatest, e.id);
    if e.add then active + {key} else active - {key}
  }

  /** One event keeps the active set exact, provided events arrive in time order. */
  lemma ActiveStep(intervals: seq<Interval>, preferLatest: bool, events: seq<Event>, next: nat, active: set<Key>)
    requires Proper(intervals) && next < |events| && IsEvent(intervals, events[next])
    requires forall i :: 0 <= i < next ==> events[i].time <= events[next].time
    requires ActiveAfter(intervals, preferLatest, events, next, active)
    ensures ActiveAfter(intervals, preferLatest, events, next + 1, Toggle(intervals, preferLatest, events[next], active))
  {
    var e := events[next];
    var toggled := Toggle(intervals, preferLatest, e, active);
    assert forall d :: Done(events, next + 1, d) <==> Done(events, next, d) || d == e;
    forall id | 0 <= id < |intervals|
      ensures KeyOf(intervals, preferLatest, id) in toggled <==>
                Done(events, next + 1, AddEvent(intervals, id)) && !Removed(intervals, events, next + 1, id)
    {
      assert intervals[id] in intervals;
    }
  }

  ghost predicate AllEvents(intervals: seq<Interval>, events: seq<Event>) {
    && (forall e :: e in events ==> IsEvent(intervals, e))
    && (forall id :: 0 <= id < |intervals| ==>
          && AddEvent(intervals, id) in events
          && (intervals[id].end < U64_MAX ==> Event(intervals[id].end + 1, id, false) in events))
  }

  /** Between two event times the active keys are those of the ranges that contain the time. */
  lemma ActiveCovers(intervals: seq<Interval>, preferLatest: bool, events: seq<Event>, next: nat, active: set<Key>,
                     time: u64)
    requires Proper(intervals) && AllEvents(intervals, events) && next <= |events|
    requires ActiveAfter(intervals, preferLatest, events, next, active)
    requires forall i :: 0 <= i < next ==> events[i].time <= time
    requires forall i :: next <= i < |events| ==> time < events[i].time
    ensures forall id :: 0 <= id < |intervals| ==>
              (KeyOf(intervals, preferLatest, id) in active <==> Covers(intervals[id], time))
  {
    forall id | 0 <= id < |intervals|
      ensures KeyOf(intervals, preferLatest, id) in active <==> Covers(intervals[id], time)
    {
      SplitAt(events, next, time, AddEvent(intervals, id));
      if intervals[id].end < U64_MAX {
        SplitAt(events, next, time, Event(intervals[id].end + 1, id, false));
      }
    }
  }

  lemma SplitAt(events: seq<Event>, next: nat, time: u64, e: Event)
    requires next <= |events| && e in events
    requires forall i :: 0 <= i < next ==> events[i].time <= time
    requires forall i :: next <= i < |events| ==> time < events[i].time
    ensures Done(events, next, e) <==> e.time <= time
  {
    var k :| 0 <= k < |events| && events[k] == e;
  }

  /** `BTreeSet::first`. */
  lemma {:induction false} FirstExists(active: set<Key>)
    requires active != {}
    ensures exists k :: k in active && forall j :: j in active ==> KeyLeq(k, j)
    decreases active
  {
    var x :| x in active;
    var rest := active - {x};
    if rest == {} {
      assert forall j :: j in active ==> j in rest || j == x;
    } else {
      FirstExists(rest);
      var y :| y in rest && forall j :: j in rest ==> KeyLeq(y, j);
      var least := if KeyLeq(x, y) then x else y;
      assert forall j :: j in active ==> j == x || j in rest;
      assert least in active && forall j :: j in active ==> KeyLeq(least, j);
    }
  }

  method First(active: set<Key>) returns (first: Option<Key>)
    ensures IsFirst(active, first)
  {
    if active == {} { return None; }
    FirstExists(active);
    var k :| k in active && forall j :: j in active ==> KeyLeq(k, j);
    return Some(k);
  }

  lemma FirstIsWinner(intervals: seq<Interval>, preferLatest: bool, active: set<Key>, first: Option<Key>, time: u64)
    requires forall k :: k in active ==> k.id < |intervals| && k == KeyOf(intervals, preferLatest, k.id)
    requires forall id :: 0 <= id < |intervals| ==>
               (KeyOf(intervals, preferLatest, id) in active <==> Covers(intervals[id], time))
    requires IsFirst(active, first)
    ensures IsWinner(intervals, preferLatest, time, WinnerOf(intervals, first))
  {
    forall iv | iv in intervals && Covers(iv, time)
      ensures first.Some? && AtLeastAsGood(intervals[first.value.id].candidate, iv.candidate, preferLatest)
    {
      var id :| 0 <= id < |intervals| && intervals[id] == iv;
      assert KeyOf(intervals, preferLatest, id) in active;
    }
    if first.Some? {
      assert intervals[first.value.id] in intervals;
      assert Covers(intervals[first.value.id], time);
    }
  }

  method SweepEvents(intervals: seq<Interval>) returns (events: seq<Event>)
    ensures AllEvents(intervals, events)
    ensures |events| <= 2 * |intervals|
    ensures forall i, j :: 0 <= i < j < |events| ==> events[i].time <= events[j].time
  {
    events := [];
    for id := 0 to |intervals|
      invariant |events| <= 2 * id
      invariant forall e :: e in events ==> IsEvent(intervals, e)
      invariant forall k :: 0 <= k < id ==>
                  && AddEvent(intervals, k) in events
                  && (intervals[k].end < U64_MAX ==> Event(intervals[k].end + 1, k, false) in events)
    {
      var interval := intervals[id];
      events := events + [Event(interval.start, id, true)];
      if interval.end < U64_MAX {
        events := events + [Event(interval.end + 1, id, false)];
      }
    }
    SortBySorted(events, EventLeq);
    events := SortBy(events, EventLeq);
  }

  /** The timeline is right for every time before `horizon`. */
  ghost predicate RightBefore(intervals: seq<Interval>, preferLatest: bool, changes: seq<Change>, horizon: int)
    requires Increasing(changes)
  {
    forall t: u64 :: t < horizon ==> IsWinner(intervals, preferLatest, t, At(changes, t))
  }

  function WinnerOf(intervals: seq<Interval>, first: Option<Key>): Option<Candidate>
    requires first.Some? ==> first.value.id < |intervals|
  {
    if first.None? then None else Some(intervals[first.value.id].candidate)
  }

  ghost predicate IsFirst(active: set<Key>, first: Option<Key>) {
    && (first.None? <==> active == {})
    && (first.Some? ==> first.value in active && forall j :: j in active ==> KeyLeq(first.value, j))
  }

  /** The first active key names the winner at every time up to the next event. */
  lemma WinnerUntilNextEvent(intervals: seq<Interval>, preferLatest: bool, events: seq<Event>, next: nat,
                             active: set<Key>, first: Option<Key>, time: u64, t: u64)
    requires Proper(intervals) && AllEvents(intervals, events) && next <= |events|
    requires ActiveAfter(intervals, preferLatest, events, next, active)
    requires forall i :: 0 <= i < next ==> events[i].time <= time
    requires forall i :: next <= i < |events| ==> t < events[i].time
    requires time <= t && IsFirst(active, first)
    ensures first.Some? ==> first.value.id < |intervals|
    ensures IsWinner(intervals, preferLatest, t, WinnerOf(intervals, first))
  {
    ActiveCovers(intervals, preferLatest, events, next, active, t);
    FirstIsWinner(intervals, preferLatest, active, first, t);
  }

  function Record(changes: seq<Change>, time: u64, winner: Option<Candidate>): seq<Change> {
    if changes == [] || changes[|changes| - 1].winner != winner then changes + [Change(time, winner)] else changes
  }

  /** Recording the winner at `time` makes the timeline right up to the next event. */
  lemma RecordChange(intervals: seq<Interval>, preferLatest: bool, changes: seq<Change>, time: u64,
                     winner: Option<Candidate>, horizon: int)
    requires Increasing(changes) && RightBefore(intervals, preferLatest, changes, time)
    requires forall i :: 0 <= i < |changes| ==> changes[i].time < time
    requires forall t: u64 :: time <= t < horizon ==> IsWinner(intervals, preferLatest, t, winner)
    ensures Increasing(Record(changes, time, winner))
    ensures RightBefore(intervals, preferLatest, Record(changes, time, winner), horizon)
  {
    var next := Record(changes, time, winner);
    forall t: u64 | t < horizon ensures IsWinner(intervals, preferLatest, t, At(next, t)) {
      if time <= t {
        AtEnd(next, t);
      } else if next != changes {
        AtAppend(changes, Change(time, winner), t);
      }
    }
  }

  lemma RecordGroup(intervals: seq<Interval>, preferLatest: bool, events: seq<Event>, next: nat, active: set<Key>,
                    first: Option<Key>, changes: seq<Change>, time: u64, horizon: int)
    requires Proper(intervals) && AllEvents(intervals, events) && next <= |events|
    requires ActiveAfter(intervals, preferLatest, events, next, active)
    requires forall i :: 0 <= i < next ==> events[i].time <= time
    requires forall i :: next <= i < |events| ==> horizon <= events[i].time
    requires IsFirst(active, first)
    requires Increasing(changes) && RightBefore(intervals, preferLatest, changes, time)
    requires forall i :: 0 <= i < |changes| ==> changes[i].time < time
    ensures first.Some? ==> first.value.id < |intervals|
    ensures Increasing(Record(changes, time, WinnerOf(intervals, first)))
    ensures RightBefore(intervals, preferLatest, Record(changes, time, WinnerOf(intervals, first)), horizon)
  {
    var winner := WinnerOf(intervals, first);
    forall t: u64 | time <= t < horizon ensures IsWinner(intervals, preferLatest, t, winner) {
      WinnerUntilNextEvent(intervals, preferLatest, events, next, active, first, time, t);
    }
    RecordChange(intervals, preferLatest, changes, time, winner, horizon);
  }

  /** The inner loop: apply every event that happens at the time of `events[start]`. */
  method ApplyEventsAt(intervals: seq<Interval>, preferLatest: bool, events: seq<Event>, start: nat, before: set<Key>)
    returns (next: nat, active: set<Key>)
    requires Proper(intervals) && start < |events| && AllEvents(intervals, events)
    requires forall i, j :: 0 <= i < j < |events| ==> events[i].time <= events[j].time
    requires ActiveAfter(intervals, preferLatest, events, start, before)
    ensures start < next <= |events|
    ensures ActiveAfter(intervals, preferLatest, events, next, active)
    ensures forall i :: 0 <= i < next ==> events[i].time <= events[start].time
    ensures forall i :: next <= i < |events| ==> events[start].time < events[i].time
  {
    var time := events[start].time;
    next, active := start, before;
    while next < |events| && events[next].time == time
      invariant start <= next <= |events|
      invariant forall i :: start <= i < next ==> events[i].time == time
      invariant ActiveAfter(intervals, preferLatest, events, next, active)
    {
      var e := events[next];
      assert e in events;
      ActiveStep(intervals, preferLatest, events, next, active);
      var candidate := intervals[e.id].candidate;
      var rank := if preferLatest then U64_MAX - candidate.observed else candidate.observed;
      var key := Key(rank, candidate.pid, e.id);
      active := if e.add then active + {key} else active - {key};
      next := next + 1;
    }
  }

  /**
   The sweep: for every u64 time, including 0 and the largest one, looking the time up in the
   result gives what scanning all ranges would give.
   */
  method NewTimeline(intervals: seq<Interval>, preferLatest: bool) returns (changes: seq<Change>)
    requires Proper(intervals)
    ensures Increasing(changes)
    ensures |changes| <= 2 * |intervals|
    ensures forall i :: 0 < i < |changes| ==> changes[i - 1].winner != changes[i].winner
    ensures forall t: u64 :: IsWinner(intervals, preferLatest, t, At(changes, t))
  {
    var events := SweepEvents(intervals);
    var active: set<Key> := {};
    var next := 0;
    changes := [];
    ghost var horizon := if events == [] then U64_MAX + 1 else events[0].time;
    NothingBefore(intervals, preferLatest, events, horizon);
    while next < |events|
      invariant next <= |events|
      invariant ActiveAfter(intervals, preferLatest, events, next, active)
      invariant |changes| <= next
      invariant Increasing(changes)
      invariant horizon == if next == |events| then U64_MAX + 1 else events[next].time
      invariant forall i :: 0 <= i < |changes| ==> changes[i].time < horizon
      invariant forall i :: 0 < i < |changes| ==> changes[i - 1].winner != changes[i].winner
      invariant RightBefore(intervals, preferLatest, changes, horizon)
    {
      var time := events[next].time;
      next, active := ApplyEventsAt(intervals, preferLatest, events, next, active);
      var first := First(active);
      horizon := if next == |events| then U64_MAX + 1 else events[next].time;
      RecordGroup(intervals, preferLatest, events, next, active, first, changes, time, horizon);
      var winner := if first.None? then None else Some(intervals[first.value.id].candidate);
      if changes == [] || changes[|changes| - 1].winner != winner {
        changes := changes + [Change(time, winner)];
      }
    }
  }

  /** No range contains a time before the first event. */
  lemma NothingBefore(intervals: seq<Interval>, preferLatest: bool, events: seq<Event>, horizon: int)
    requires AllEvents(intervals, events)
    requires forall i :: 0 <= i < |events| ==> horizon <= events[i].time
    ensures RightBefore(intervals, preferLatest, [], horizon)
  {
    forall t: u64, iv | t < horizon && iv in intervals ensures !Covers(iv, t) {
      var id :| 0 <= id < |intervals| && intervals[id] == iv;
      assert AddEvent(intervals, id) in events;
    }
  }
}
