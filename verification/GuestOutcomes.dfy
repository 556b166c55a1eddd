/**
 How the runs of `GuestRun` end: when a failing agent gets to publish Failed, and when the sequence
 numbers of what an agent publishes ascend.
 */
module GuestOutcomes {
  import opened Basics
  import opened GuestProtocol
  import opened FailedOutput
  import opened GuestRun
  import ScanSession

  predicate HasPublished(a: Agent, state: ProtocolState) {
    exists i :: 0 <= i < |a.published| && a.published[i].state == state
  }

  // ----- one more step of one agent -----

  /** Without the claim an agent leaves everything but the claim alone. */
  lemma OnlyHolderTouchesOutput(run: Run, id: nat, disk: Disk, a: Agent, outcome: Outcome)
    requires Holding(id, disk, a) && !a.holds
    ensures Act(run, id, disk, a, outcome).0.output == disk.output
  {}

  // ----- the files that a run has written -----

  predicate NotExecuted(phase: Phase) {
    phase in {Outside, Checked, Opened, Claimed, Attested, Waiting, Started, Staged, Executing, Cancelling, CancelFinishing}
  }

  /** What an agent has written is in the output until it has been cleared, and then it could be discarded. */
  predicate Files(output: Folders, a: Agent) {
    && (NotExecuted(a.phase) ==> a.wrote == NO_FILES)
    && (a.phase in {Ran, Written, Finishing, FailPreparing} ==> Includes(output, a.wrote))
    && (a.phase in {FailWriting, FailPublishing, FailFinishing} || HasPublished(a, Failed) ==> Discardable(a.wrote))
  }

  /** What publishing can do to an agent. */
  lemma PublishStays(run: Run, disk: Disk, a: Agent, state: ProtocolState, error: Option<GuestError>, outcome: Outcome,
                     next: Phase, otherwise: Phase)
    ensures var after := Publish(run, disk, a, state, error, outcome, next, otherwise);
            var r := NextRecord(a.machine, run.request, state, error, a.digest);
            && after.0.output == disk.output && after.1.wrote == a.wrote && after.1.phase in {next, otherwise}
            && (after.1.published == a.published || after.1.published == a.published + [r])
  {}

  lemma OneRecordMore(p: Records, r: StatusRecord, state: ProtocolState)
    requires exists i :: 0 <= i < |p + [r]| && (p + [r])[i].state == state
    ensures r.state == state || exists i :: 0 <= i < |p| && p[i].state == state
  {
    var i :| 0 <= i < |p + [r]| && (p + [r])[i].state == state;
    if i < |p| { assert p[i].state == state; }
  }

  predicate Quiet(disk: Disk, a: Agent, after: (Disk, Agent)) {
    && after.0.output == disk.output
    && after.1.wrote == a.wrote && after.1.published == a.published && after.1.late == a.late
  }

  lemma WriteStays(disk: Disk, a: Agent, content: Content, outcome: Outcome, next: Phase, otherwise: Phase)
    ensures var after := WriteResult(disk, a, content, outcome, next, otherwise);
            Quiet(disk, a, after) && after.1.phase in {next, otherwise} && after.1.machine == a.machine
  {
    if disk.result.Some? || !Linked(outcome) {
      Rewritten(disk, disk, a, otherwise, None);
    } else if outcome == Fine {
      Rewritten(disk, disk.(result := Some(content)), a, next, Some(content));
    } else {
      Rewritten(disk, disk.(result := Some(content)), a, otherwise, None);
    }
  }

  lemma Rewritten(disk: Disk, more: Disk, a: Agent, phase: Phase, digest: Option<Content>)
    requires more.output == disk.output
    ensures var after := a.(phase := phase, digest := digest);
            Quiet(disk, a, (more, after)) && after.phase == phase && after.machine == a.machine
  {}

  lemma OpenStays(run: Run, disk: Disk, a: Agent, records: Records)
    ensures var after := Open(run, disk, a, records);
            Quiet(disk, a, (disk, after)) && after.phase in {Opened, Stopped}
  {}

  lemma DecideStays(disk: Disk, a: Agent, m: Machine)
    requires a.phase == Waiting
    ensures var after := Decide(a.(machine := m)); Quiet(disk, a, (disk, after)) && after.phase in {Waiting, Started, Cancelling}
  {}

  lemma EarlyStays(run: Run, id: nat, disk: Disk, a: Agent, outcome: Outcome)
    requires a.phase in {Outside, Checked, Opened, Claimed, Waiting, Started}
    ensures var after := Act(run, id, disk, a, outcome);
            Quiet(disk, a, after) && (NotExecuted(after.1.phase) || after.1.phase in {FailPreparing, Stopped})
  {
    match a.phase {
      case Checked => if outcome.Opens? { OpenStays(run, disk, a, outcome.records); }
      case Waiting =>
        assert a.(machine := a.machine) == a;
        DecideStays(disk, a, a.machine);
        if outcome.Sees? {
          var m := Poll(run, disk, a.machine, outcome.start, outcome.cancel);
          if m.Some? { DecideStays(disk, a, m.value); }
        }
      case _ =>
    }
  }

  /** Operations that publish nothing. */
  lemma QuietStays(run: Run, id: nat, disk: Disk, a: Agent, outcome: Outcome)
    requires Publishing(a.phase).None? && a.phase !in {Executing, FailPreparing}
    ensures var after := Act(run, id, disk, a, outcome); Quiet(disk, a, after) && FilesMayStay(a.phase, after.1.phase)
  {
    match a.phase {
      case Ran => WriteStays(disk, a, Executed(id), outcome, Written, FailPreparing);
      case FailWriting => WriteStays(disk, a, FailedRun(id), outcome, FailPublishing, FailPublishing);
      case Cancelling => WriteStays(disk, a, CancelledRun(id), outcome, CancelFinishing, Stopped);
      case Stopped =>
      case _ => EarlyStays(run, id, disk, a, outcome);
    }
  }

  /** Everything but the execution and the clearing leaves the folders alone. */
  lemma ActStays(run: Run, id: nat, disk: Disk, a: Agent, outcome: Outcome)
    requires a.phase !in {Executing, FailPreparing}
    ensures var after := Act(run, id, disk, a, outcome);
            && after.0.output == disk.output && after.1.wrote == a.wrote && FilesMayStay(a.phase, after.1.phase)
            && (HasPublished(after.1, Failed) ==> HasPublished(a, Failed) || a.phase == FailPublishing)
  {
    if Publishing(a.phase).Some? {
      var state := Publishing(a.phase).value;
      ActPublishes(run, id, disk, a, outcome);
      PublishStays(run, disk, a, state, ErrorFor(run, state), outcome, AfterPublishing(a.phase), AfterRefusal(a.phase));
      var after := Act(run, id, disk, a, outcome).1;
      var r := NextRecord(a.machine, run.request, state, ErrorFor(run, state), a.digest);
      if HasPublished(after, Failed) && after.published == a.published + [r] { OneRecordMore(a.published, r, Failed); }
    } else {
      QuietStays(run, id, disk, a, outcome);
    }
  }

  lemma FilesOfRun(disk: Disk, a: Agent, outcome: Outcome)
    requires a.phase == Executing && Files(disk.output, a) && !HasPublished(a, Failed)
    ensures var after := RunTarget(disk, a, outcome); Files(after.0.output, after.1)
  {
    assert RunTarget(disk, a, outcome).1.published == a.published;
  }

  /** Without an I/O error, clearing succeeds exactly if everything in the folders may be discarded. */
  lemma DiscardCases(disk: Disk, a: Agent, outcome: Outcome)
    ensures var after := Discard(disk, a, outcome).1;
            && after.published == a.published && after.wrote == a.wrote && after.machine == a.machine && after.late == a.late
            && after.phase in {FailWriting, Stopped}
            && (after.phase == FailWriting <==> outcome == Fine && Discardable(disk.output))
  {}

  lemma FilesDiscarded(disk: Disk, a: Agent, outcome: Outcome)
    requires a.phase == FailPreparing && Files(disk.output, a)
    ensures var after := Discard(disk, a, outcome); Files(after.0.output, after.1)
  {
    DiscardCases(disk, a, outcome);
    if outcome == Fine && Discardable(disk.output) { DiscardablePart(disk.output, a.wrote); }
  }

  predicate FilesMayStay(from: Phase, to: Phase) {
    || (NotExecuted(from) && (NotExecuted(to) || to in {FailPreparing, Stopped}))
    || (from in {Ran, Written, Finishing} && to in {Ran, Written, Finishing, FailPreparing, Stopped})
    || (from in {FailWriting, FailPublishing, FailFinishing, Stopped} && to in {FailWriting, FailPublishing, FailFinishing, Stopped}
        && (from == Stopped ==> to == Stopped))
  }

  lemma FilesStay(output: Folders, a: Agent, after: Agent)
    requires Files(output, a) && FilesMayStay(a.phase, after.phase) && after.wrote == a.wrote
    requires HasPublished(after, Failed) ==> HasPublished(a, Failed) || a.phase == FailPublishing
    ensures Files(output, after)
  {}

  lemma FilesKept(run: Run, id: nat, disk: Disk, a: Agent, outcome: Outcome)
    requires AgentOk(run, id, disk, a) && Files(disk.output, a)
    ensures var after := Act(run, id, disk, a, outcome); Files(after.0.output, after.1)
  {
    match a.phase {
      case Executing =>
        NotYetFailed(a);
        FilesOfRun(disk, a, outcome);
      case FailPreparing => FilesDiscarded(disk, a, outcome);
      case _ =>
        ActStays(run, id, disk, a, outcome);
        FilesStay(disk.output, a, Act(run, id, disk, a, outcome).1);
    }
  }

  lemma NotYetFailed(a: Agent)
    requires Progress(a.phase, ShapeOf(a.published)) && a.phase in {Executing, FailPreparing, FailWriting, FailPublishing}
    ensures !HasPublished(a, Failed)
  {
    ShapeStates(a.published);
  }

  predicate AllFiles(sys: System) {
    forall i :: 0 <= i < |sys.agents| ==> Files(sys.disk.output, sys.agents[i])
  }

  lemma FilesOfOthers(output: Folders, more: Folders, a: Agent)
    requires Files(output, a) && (a.phase in {Ran, Written, Finishing, FailPreparing} ==> more == output)
    ensures Files(more, a)
  {}

  lemma NextFiles(run: Run, sys: System, e: Event)
    requires SystemOk(run, sys) && AllFiles(sys)
    ensures AllFiles(Next(run, sys, e))
  {
    if e.AgentActs? && e.id < |sys.agents| {
      var (disk', a') := Act(run, e.id, sys.disk, sys.agents[e.id], e.outcome);
      FilesKept(run, e.id, sys.disk, sys.agents[e.id], e.outcome);
      var agents := sys.agents[e.id := a'];
      forall i | 0 <= i < |agents| ensures Files(disk'.output, agents[i]) {
        if i != e.id {
          if sys.agents[i].phase in {Ran, Written, Finishing, FailPreparing} { HolderOrSame(run, sys, e.id, i, e.outcome); }
          FilesOfOthers(sys.disk.output, disk'.output, sys.agents[i]);
        }
      }
    }
  }

  lemma HolderOrSame(run: Run, sys: System, id: nat, i: nat, outcome: Outcome)
    requires SystemOk(run, sys) && id < |sys.agents| && i < |sys.agents| && i != id
    requires sys.agents[i].phase in {Ran, Written, Finishing, FailPreparing}
    ensures Act(run, id, sys.disk, sys.agents[id], outcome).0.output == sys.disk.output
  {
    assert Holding(i, sys.disk, sys.agents[i]) && Holding(id, sys.disk, sys.agents[id]);
    OnlyHolderTouchesOutput(run, id, sys.disk, sys.agents[id], outcome);
  }

  lemma {:induction false} FilesReached(run: Run, sys: System, events: seq<Event>)
    requires SystemOk(run, sys) && AllFiles(sys)
    ensures AllFiles(Execute(run, sys, events))
  {
    if events != [] {
      var before := events[..|events| - 1];
      FilesReached(run, sys, before);
      StaysOk(run, sys, before);
      NextFiles(run, Execute(run, sys, before), events[|events| - 1]);
    }
  }

  /** In every run: whoever has published Failed has written nothing that could not be discarded. */
  lemma FailedWroteNothingElse(run: Run, sys: System, events: seq<Event>, i: nat)
    requires Fresh(run, sys) && Named(sys.disk) && i < |sys.agents|
    ensures |Execute(run, sys, events).agents| == |sys.agents|
    ensures var a := Execute(run, sys, events).agents[i]; HasPublished(a, Failed) ==> Discardable(a.wrote)
  {
    FreshIsOk(run, sys);
    ReachableIsOk(run, sys, events);
    FilesReached(run, sys, events);
    assert Files(Execute(run, sys, events).disk.output, Execute(run, sys, events).agents[i]);
  }

  /** A run in which a file was collected never publishes Failed. */
  lemma CollectedNeverFails(run: Run, sys: System, events: seq<Event>, i: nat, c: ScanSession.Config, s: ScanSession.State)
    requires Fresh(run, sys) && Named(sys.disk) && i < |sys.agents| && i < |Execute(run, sys, events).agents|
    requires ScanSession.ValidConfig(c) && ScanSession.Valid(c, s)
    requires Includes(Execute(run, sys, events).agents[i].wrote, NamesOf(s.artifacts))
    requires exists k :: 0 <= k < |s.artifacts| && s.artifacts[k].kind.TargetCreated?
    ensures !HasPublished(Execute(run, sys, events).agents[i], Failed)
  {
    FailedWroteNothingElse(run, sys, events, i);
    SessionIsDiscardable(c, s);
    if HasPublished(Execute(run, sys, events).agents[i], Failed) {
      DiscardablePart(Execute(run, sys, events).agents[i].wrote, NamesOf(s.artifacts));
    }
  }

  // ----- what a failing run comes to -----

  predicate WithoutAgent(events: seq<Event>, i: nat) {
    forall k :: 0 <= k < |events| && events[k].AgentActs? ==> events[k].id != i
  }

  lemma {:induction false} OthersLeave(run: Run, sys: System, events: seq<Event>, i: nat)
    requires WithoutAgent(events, i) && i < |sys.agents|
    ensures |Execute(run, sys, events).agents| == |sys.agents| && Execute(run, sys, events).agents[i] == sys.agents[i]
  {
    if events != [] {
      var last := events[|events| - 1];
      assert last.AgentActs? ==> last.id != i;
      OthersLeave(run, sys, events[..|events| - 1], i);
    }
  }

  /** Three operations of agent `i`, with whatever host and other agents do in between. */
  function FailingRun(run: Run, sys: System, i: nat, first: seq<Event>, write: Outcome, second: seq<Event>): System {
    var cleared := Next(run, sys, AgentActs(i, Fine));
    var written := Next(run, Execute(run, cleared, first), AgentActs(i, write));
    Next(run, Execute(run, written, second), AgentActs(i, Fine))
  }

  /** The status files that agents write are those of the claim holder. */
  lemma OnDiskIsPublished(run: Run, sys: System, i: nat, state: ProtocolState)
    requires SystemOk(run, sys) && i < |sys.agents| && sys.agents[i].holds
    requires state in sys.disk.status && IsGuestState(state)
    ensures HasPublished(sys.agents[i], state)
  {
    assert Holding(i, sys.disk, sys.agents[i]);
    var k :| 0 <= k < |sys.agents[i].published| && sys.agents[i].published[k] == sys.disk.status[state];
    assert sys.agents[i].published[k].state == state;
  }

  lemma FailedIsFree(run: Run, sys: System, i: nat)
    requires SystemOk(run, sys) && i < |sys.agents| && sys.agents[i].phase == FailPublishing
    ensures Failed !in sys.disk.status
  {
    assert Holding(i, sys.disk, sys.agents[i]);
    if Failed in sys.disk.status { OnDiskIsPublished(run, sys, i, Failed); }
    NotYetFailed(sys.agents[i]);
  }

  lemma FailedStep(run: Run, sys: System, i: nat)
    requires SystemOk(run, sys) && i < |sys.agents| && sys.agents[i].phase == FailPublishing
    ensures HasPublished(Next(run, sys, AgentActs(i, Fine)).agents[i], Failed) <==> sys.agents[i].machine.last < U64_MAX
  {
    var a := sys.agents[i];
    FailedIsFree(run, sys, i);
    NotYetFailed(a);
    GuardRefusesOnlyAtTheLimit(run, i, sys.disk, a);
    ActPublishes(run, i, sys.disk, a, Fine);
    var after := Act(run, i, sys.disk, a, Fine).1;
    if a.machine.last < U64_MAX {
      assert after.published[|a.published|].state == Failed;
    }
  }

  lemma WritingStep(run: Run, disk: Disk, a: Agent, id: nat, outcome: Outcome)
    requires a.phase == FailWriting
    ensures var after := Act(run, id, disk, a, outcome).1;
            after.phase == FailPublishing && after.machine == a.machine && after.published == a.published
  {}

  lemma StoppedStays(run: Run, sys: System, i: nat, events: seq<Event>, outcome: Outcome)
    requires i < |sys.agents| && sys.agents[i].phase == Stopped && WithoutAgent(events, i)
    ensures var after := Next(run, Execute(run, sys, events), AgentActs(i, outcome));
            |after.agents| == |sys.agents| && after.agents[i] == sys.agents[i]
  {
    OthersLeave(run, sys, events, i);
  }

  /**
   A failing agent whose files operations all succeed publishes Failed exactly when every file in
   the folders of the output may be discarded, and there is a sequence number left for the record.
   Whether the result can be written does not matter, nor what the others do.
   */
  lemma FailedIsPublishedExactlyWhen(run: Run, sys: System, i: nat, first: seq<Event>, write: Outcome, second: seq<Event>)
    requires SystemOk(run, sys) && i < |sys.agents| && sys.agents[i].phase == FailPreparing
    requires WithoutAgent(first, i) && WithoutAgent(second, i)
    ensures |FailingRun(run, sys, i, first, write, second).agents| == |sys.agents|
    ensures HasPublished(FailingRun(run, sys, i, first, write, second).agents[i], Failed) <==>
              Discardable(sys.disk.output) && sys.agents[i].machine.last < U64_MAX
  {
    var a := sys.agents[i];
    var cleared := Next(run, sys, AgentActs(i, Fine));
    NextKeeps(run, sys, AgentActs(i, Fine));
    DiscardCases(sys.disk, a, Fine);
    NotYetFailed(a);
    OthersLeave(run, cleared, first, i);
    StaysOk(run, cleared, first);
    var written := Next(run, Execute(run, cleared, first), AgentActs(i, write));
    NextKeeps(run, Execute(run, cleared, first), AgentActs(i, write));
    OthersLeave(run, written, second, i);
    StaysOk(run, written, second);
    if Discardable(sys.disk.output) {
      WritingStep(run, Execute(run, cleared, first).disk, cleared.agents[i], i, write);
      FailedStep(run, Execute(run, written, second), i);
    } else {
      StoppedStays(run, cleared, i, first, write);
      StoppedStays(run, written, i, second, Fine);
    }
  }

  // ----- the sequence numbers -----

  predicate Ascending(p: Records) {
    forall i, j :: 0 <= i < j < |p| ==> p[i].sequence < p[j].sequence
  }

  predicate UpTo(p: Records, last: u64) {
    forall i :: 0 <= i < |p| ==> p[i].sequence <= last
  }

  /** After a late error on Running, the record of the failure repeats the sequence number of Running. */
  predicate LateSequences(phase: Phase, last: u64, p: Records) {
    && phase in {FailPreparing, FailWriting, FailPublishing, FailFinishing, Stopped}
    && |p| >= 2 && p[0].state == GuestReady && p[1].state == Running && p[0].sequence < p[1].sequence
    && (phase in {FailPreparing, FailWriting, FailPublishing} ==> |p| == 2 && p[1].sequence == last + 1)
    && (phase == FailFinishing ==> |p| > 2)
    && (|p| > 2 ==> p[2].state == Failed && p[2].sequence == p[1].sequence)
  }

  predicate Sequences(a: Agent) {
    if a.late then LateSequences(a.phase, a.machine.last, a.published)
    else Ascending(a.published) && (a.phase != Stopped ==> UpTo(a.published, a.machine.last))
  }

  lemma NextSequence(run: Run, a: Agent, state: ProtocolState, error: Option<GuestError>)
    requires Accepts(a.machine, NextRecord(a.machine, run.request, state, error, a.digest))
    ensures NextRecord(a.machine, run.request, state, error, a.digest).sequence == a.machine.last + 1
  {}

  lemma AscendingMore(p: Records, r: StatusRecord, last: u64)
    requires Ascending(p) && UpTo(p, last) && r.sequence > last
    ensures Ascending(p + [r]) && UpTo(p + [r], r.sequence)
  {}

  /** An agent that is on time publishes `r` next. */
  lemma OnTimeMore(run: Run, a: Agent, r: StatusRecord, after: Agent)
    requires Sequences(a) && !a.late && a.phase != Stopped && Publishing(a.phase) == Some(r.state)
    requires LocalOk(run, a) && r.sequence == a.machine.last + 1 && after.published == a.published + [r]
    requires (after.phase == AfterPublishing(a.phase) && after.machine.last == r.sequence && !after.late)
          || (after.phase == AfterRefusal(a.phase) && after.machine == a.machine && after.late == (a.phase == Staged))
    ensures Sequences(after)
  {
    AscendingMore(a.published, r, a.machine.last);
    if after.late { ShapeStates(a.published); }
  }

  /** An agent that is late publishes `r` next. */
  lemma LateMore(a: Agent, r: StatusRecord, after: Agent)
    requires Sequences(a) && a.late && Publishing(a.phase) == Some(r.state) && r.sequence == a.machine.last + 1
    requires after.published == a.published + [r] && after.late
    requires after.phase in {AfterPublishing(a.phase), AfterRefusal(a.phase)}
    ensures Sequences(after)
  {
    var p := a.published + [r];
    assert p[0] == a.published[0] && p[1] == a.published[1];
    if |a.published| == 2 { assert p[2] == r; } else { assert p[2] == a.published[2]; }
  }

  lemma RefusedSequences(a: Agent, after: Agent)
    requires Sequences(a) && Publishing(a.phase).Some? && after == At(a, AfterRefusal(a.phase))
    ensures Sequences(after)
  {}

  lemma PublishedSequences(run: Run, id: nat, disk: Disk, a: Agent, outcome: Outcome)
    requires LocalOk(run, a) && Sequences(a) && Publishing(a.phase).Some?
    ensures Sequences(Act(run, id, disk, a, outcome).1)
  {
    var state := Publishing(a.phase).value;
    var r := NextRecord(a.machine, run.request, state, ErrorFor(run, state), a.digest);
    ActPublishes(run, id, disk, a, outcome);
    var after := Act(run, id, disk, a, outcome).1;
    if Accepts(a.machine, r) && state !in disk.status && Linked(outcome) {
      NextSequence(run, a, state, ErrorFor(run, state));
      if a.late { LateMore(a, r, after); } else { OnTimeMore(run, a, r, after); }
    } else {
      RefusedSequences(a, after);
    }
  }

  // Everything else leaves the published records alone.

  lemma PollAdvances(run: Run, disk: Disk, m: Machine, start: bool, cancel: bool)
    ensures Poll(run, disk, m, start, cancel).Some? ==> Poll(run, disk, m, start, cancel).value.last >= m.last
  {}

  lemma UpToMore(p: Records, last: u64, more: u64)
    requires UpTo(p, last) && last <= more
    ensures UpTo(p, more)
  {}

  lemma WaitingSequences(run: Run, id: nat, disk: Disk, a: Agent, outcome: Outcome)
    requires Sequences(a) && a.phase == Waiting
    ensures Sequences(Act(run, id, disk, a, outcome).1)
  {
    assert a.(machine := a.machine) == a;
    if outcome.Sees? {
      PollAdvances(run, disk, a.machine, outcome.start, outcome.cancel);
      var m := Poll(run, disk, a.machine, outcome.start, outcome.cancel);
      if m.Some? { UpToMore(a.published, a.machine.last, m.value.last); }
    }
  }

  lemma OpeningSequences(run: Run, id: nat, disk: Disk, a: Agent, outcome: Outcome)
    requires a.phase in {Outside, Checked, Opened} && a.published == [] && Sequences(a)
    ensures Sequences(Act(run, id, disk, a, outcome).1)
  {}

  lemma WritingSequences(a: Agent, after: Agent)
    requires Sequences(a) && after.published == a.published && after.machine == a.machine && after.late == a.late
    requires (a.phase, after.phase) in {
               (Ran, Written), (Ran, FailPreparing), (FailWriting, FailPublishing), (Cancelling, CancelFinishing),
               (Cancelling, Stopped), (Executing, Ran), (Executing, FailPreparing), (FailPreparing, FailWriting),
               (FailPreparing, Stopped), (Claimed, Attested), (Claimed, FailPreparing), (Claimed, Cancelling),
               (Started, Staged), (Started, FailPreparing), (Stopped, Stopped)}
    ensures Sequences(after)
  {}

  lemma RunCases(disk: Disk, a: Agent, outcome: Outcome)
    ensures var after := RunTarget(disk, a, outcome).1;
            && after.published == a.published && after.machine == a.machine && after.late == a.late
            && after.phase in {Ran, FailPreparing}
  {}

  lemma ReadyCases(run: Run, id: nat, disk: Disk, a: Agent, outcome: Outcome)
    requires a.phase in {Claimed, Started}
    ensures var after := Act(run, id, disk, a, outcome).1;
            && after.published == a.published && after.machine == a.machine && after.late == a.late
            && (a.phase == Claimed ==> after.phase in {Attested, FailPreparing, Cancelling})
            && (a.phase == Started ==> after.phase in {Staged, FailPreparing})
  {}

  lemma OtherSequences(run: Run, id: nat, disk: Disk, a: Agent, outcome: Outcome)
    requires Sequences(a) && a.phase in {Ran, FailWriting, Cancelling, Executing, FailPreparing, Claimed, Started, Stopped}
    ensures Sequences(Act(run, id, disk, a, outcome).1)
  {
    match a.phase {
      case Ran => WriteStays(disk, a, Executed(id), outcome, Written, FailPreparing);
      case FailWriting => WriteStays(disk, a, FailedRun(id), outcome, FailPublishing, FailPublishing);
      case Cancelling => WriteStays(disk, a, CancelledRun(id), outcome, CancelFinishing, Stopped);
      case Executing => RunCases(disk, a, outcome);
      case FailPreparing => DiscardCases(disk, a, outcome);
      case Stopped =>
      case _ => ReadyCases(run, id, disk, a, outcome);
    }
    WritingSequences(a, Act(run, id, disk, a, outcome).1);
  }

  lemma SequencesKept(run: Run, id: nat, disk: Disk, a: Agent, outcome: Outcome)
    requires AgentOk(run, id, disk, a) && Sequences(a)
    ensures Sequences(Act(run, id, disk, a, outcome).1)
  {
    if Publishing(a.phase).Some? {
      PublishedSequences(run, id, disk, a, outcome);
    } else if a.phase == Waiting {
      WaitingSequences(run, id, disk, a, outcome);
    } else if a.phase in {Outside, Checked, Opened} {
      OpeningSequences(run, id, disk, a, outcome);
    } else {
      OtherSequences(run, id, disk, a, outcome);
    }
  }

  predicate AllSequences(sys: System) {
    forall i :: 0 <= i < |sys.agents| ==> Sequences(sys.agents[i])
  }

  lemma {:induction false} SequencesReached(run: Run, sys: System, events: seq<Event>)
    requires SystemOk(run, sys) && AllSequences(sys)
    ensures AllSequences(Execute(run, sys, events))
  {
    if events != [] {
      var before, e := events[..|events| - 1], events[|events| - 1];
      SequencesReached(run, sys, before);
      StaysOk(run, sys, before);
      var reached := Execute(run, sys, before);
      if e.AgentActs? && e.id < |reached.agents| {
        SequencesKept(run, e.id, reached.disk, reached.agents[e.id], e.outcome);
      }
    }
  }

  lemma AscendExactly(a: Agent)
    requires Sequences(a) && Legal(a.published)
    ensures Ascending(a.published) <==> !(a.late && HasPublished(a, Failed))
  {
    if a.late {
      ShapeStates(a.published);
      if |a.published| > 2 {
        assert a.published[2].state == Failed;
      }
    }
  }

  /**
   In every run, the sequence numbers of what an agent has published ascend if and only if it has not
   published Failed after a late error on Running.
   */
  lemma SequencesAscendExactlyWhen(run: Run, sys: System, events: seq<Event>, i: nat)
    requires Fresh(run, sys) && Named(sys.disk) && i < |sys.agents|
    ensures |Execute(run, sys, events).agents| == |sys.agents|
    ensures var a := Execute(run, sys, events).agents[i];
            Ascending(a.published) <==> !(a.late && HasPublished(a, Failed))
  {
    FreshIsOk(run, sys);
    ReachableIsOk(run, sys, events);
    SequencesReached(run, sys, events);
    PublishedIsLegal(run, sys, events, i);
    AscendExactly(Execute(run, sys, events).agents[i]);
  }

  /** An agent becomes late exactly when linking Running succeeds and reports an error. */
  lemma LateIsLateRunning(run: Run, id: nat, disk: Disk, a: Agent, outcome: Outcome)
    requires AgentOk(run, id, disk, a)
    ensures Act(run, id, disk, a, outcome).1.late <==>
              a.late || (a.phase == Staged && outcome == BreaksLate && Running !in disk.status && a.machine.last < U64_MAX)
  {
    if Publishing(a.phase).Some? {
      GuardRefusesOnlyAtTheLimit(run, id, disk, a);
      ActPublishes(run, id, disk, a, outcome);
    } else {
      LateStays(run, id, disk, a, outcome);
    }
  }

  lemma LateStays(run: Run, id: nat, disk: Disk, a: Agent, outcome: Outcome)
    requires Publishing(a.phase).None?
    ensures Act(run, id, disk, a, outcome).1.late == a.late
  {
    match a.phase {
      case Executing => RunCases(disk, a, outcome);
      case FailPreparing => DiscardCases(disk, a, outcome);
      case _ => QuietStays(run, id, disk, a, outcome);
    }
  }

  /** Whoever has read Running refuses the record of the failure that repeats its sequence number. */
  lemma LateRunningCollides(run: Run, id: nat, disk: Disk, a: Agent, digest: Option<Content>, host: Machine)
    requires AgentOk(run, id, disk, a) && a.phase == Staged && Running !in disk.status && a.machine.last < U64_MAX
    ensures var late := Act(run, id, disk, a, BreaksLate).1;
            var failed := NextRecord(late.machine, run.request, Failed, Some(run.failure), digest);
            && late.phase == FailPreparing && |late.published| == 2
            && failed.sequence == late.published[1].sequence
            && (host.last >= late.published[1].sequence ==> !Accepts(host, failed))
  {
    GuardRefusesOnlyAtTheLimit(run, id, disk, a);
    ShapeStates(a.published);
  }
}
