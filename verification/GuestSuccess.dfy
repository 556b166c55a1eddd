/**
 How the runs of `GuestRun` go when nothing fails: an agent that is allowed to start executes the
 target once and publishes everything up to the shutdown, and one that is cancelled does not execute,
 whatever host and other agents do in between.
 */
module GuestSuccess {
  import opened Basics
  import opened GuestProtocol
  import opened FailedOutput
  import opened GuestRun
  import opened GuestOutcomes

  // ----- operations of one agent among those of others -----

  /** An operation of agent `i`, and what the others do until its next one. */
  function Turn(run: Run, sys: System, i: nat, outcome: Outcome, others: seq<Event>): System {
    Execute(run, Next(run, sys, AgentActs(i, outcome)), others)
  }

  function Turns(run: Run, sys: System, i: nat, outcomes: seq<Outcome>, others: seq<seq<Event>>): System
    requires |outcomes| == |others|
    decreases |outcomes|
  {
    if outcomes == [] then sys
    else Turns(run, Turn(run, sys, i, outcomes[0], others[0]), i, outcomes[1..], others[1..])
  }

  predicate HostOnly(events: seq<Event>) {
    forall k :: 0 <= k < |events| ==> events[k].HostWrites?
  }

  /** As long as nobody has the claim, only the host may act beside the agent. */
  predicate Leaves(phase: Phase, events: seq<Event>, i: nat) {
    WithoutAgent(events, i) && (phase in {Outside, Checked, Opened} ==> HostOnly(events))
  }

  /** What the others leave alone. */
  predicate Undisturbed(sys: System, after: System, i: nat)
    requires i < |sys.agents|
  {
    && |after.agents| == |sys.agents| && after.agents[i] == sys.agents[i] && NothingLost(sys.disk, after.disk)
    && (sys.agents[i].holds ==> after.disk.result == sys.disk.result)
  }

  /** Without the claim an agent does not write a result. */
  lemma OnlyHolderWrites(run: Run, id: nat, disk: Disk, a: Agent, outcome: Outcome)
    requires Holding(id, disk, a) && !a.holds
    ensures Act(run, id, disk, a, outcome).0.result == disk.result
  {}

  lemma OthersLeaveResult(run: Run, sys: System, i: nat, id: nat, outcome: Outcome)
    requires SystemOk(run, sys) && i < |sys.agents| && id < |sys.agents| && id != i && sys.agents[i].holds
    ensures Act(run, id, sys.disk, sys.agents[id], outcome).0.result == sys.disk.result
  {
    assert Holding(i, sys.disk, sys.agents[i]) && Holding(id, sys.disk, sys.agents[id]);
    OnlyHolderWrites(run, id, sys.disk, sys.agents[id], outcome);
  }

  lemma OtherIsQuiet(run: Run, sys: System, i: nat, e: Event)
    requires SystemOk(run, sys) && i < |sys.agents| && (e.AgentActs? ==> e.id != i)
    ensures Undisturbed(sys, Next(run, sys, e), i)
  {
    if e.AgentActs? && e.id < |sys.agents| {
      ActKeeps(run, e.id, sys.disk, sys.agents[e.id], e.outcome);
      if sys.agents[i].holds { OthersLeaveResult(run, sys, i, e.id, e.outcome); }
    }
  }

  lemma {:induction false} OthersAreQuiet(run: Run, sys: System, i: nat, events: seq<Event>)
    requires SystemOk(run, sys) && i < |sys.agents| && WithoutAgent(events, i)
    ensures SystemOk(run, Execute(run, sys, events)) && Undisturbed(sys, Execute(run, sys, events), i)
  {
    if events != [] {
      var before, last := events[..|events| - 1], events[|events| - 1];
      OthersAreQuiet(run, sys, i, before);
      assert last.AgentActs? ==> last.id != i;
      OtherIsQuiet(run, Execute(run, sys, before), i, last);
      NextKeeps(run, Execute(run, sys, before), last);
    }
  }

  /** What a turn comes to for the agent whose it is. */
  lemma TurnIsAct(run: Run, sys: System, i: nat, outcome: Outcome, others: seq<Event>)
    requires SystemOk(run, sys) && i < |sys.agents| && WithoutAgent(others, i)
    ensures var acted, after := Act(run, i, sys.disk, sys.agents[i], outcome), Turn(run, sys, i, outcome, others);
            && SystemOk(run, after) && |after.agents| == |sys.agents| && after.agents[i] == acted.1
            && NothingLost(acted.0, after.disk) && (acted.1.holds ==> after.disk.result == acted.0.result)
  {
    NextKeeps(run, sys, AgentActs(i, outcome));
    OthersAreQuiet(run, Next(run, sys, AgentActs(i, outcome)), i, others);
  }

  lemma {:induction false} HostKeepsClean(run: Run, sys: System, events: seq<Event>)
    requires HostOnly(events) && sys.disk.claim.None? && Clean(sys.disk)
    ensures var after := Execute(run, sys, events); after.disk.claim.None? && Clean(after.disk)
  {
    if events != [] {
      HostKeepsClean(run, sys, events[..|events| - 1]);
    }
  }

  // ----- no result before its time -----

  predicate Unwritten(phase: Phase) {
    phase in {Claimed, Attested, Waiting, Started, Staged, Executing, Ran, Cancelling}
  }

  predicate InTime(disk: Disk, a: Agent) {
    && (disk.claim.None? ==> disk.result.None?)
    && (a.holds && Unwritten(a.phase) ==> disk.result.None?)
  }

  predicate AllInTime(sys: System) {
    forall i :: 0 <= i < |sys.agents| ==> InTime(sys.disk, sys.agents[i])
  }

  lemma WritingInTime(disk: Disk, a: Agent, content: Content, outcome: Outcome, next: Phase, otherwise: Phase)
    requires a.holds && disk.claim.Some? && !Unwritten(next) && !Unwritten(otherwise)
    ensures var after := WriteResult(disk, a, content, outcome, next, otherwise); InTime(after.0, after.1)
  {}

  predicate LeavesResult(disk: Disk, a: Agent, after: (Disk, Agent)) {
    after.0.claim == disk.claim && after.0.result == disk.result && after.1.holds == a.holds
  }

  lemma PublishingLeaves(run: Run, disk: Disk, a: Agent, state: ProtocolState, error: Option<GuestError>, outcome: Outcome,
                         next: Phase, otherwise: Phase)
    ensures LeavesResult(disk, a, Publish(run, disk, a, state, error, outcome, next, otherwise))
  {
    var record := NextRecord(a.machine, run.request, state, error, a.digest);
    var more := disk.(status := disk.status[state := record]);
    assert LeavesResult(disk, a, (disk, At(a, otherwise)));
    assert LeavesResult(disk, a, (more, a.(phase := next, machine := After(a.machine, record), published := a.published + [record])));
    assert LeavesResult(disk, a, (more, a.(phase := otherwise, published := a.published + [record], late := a.late || state == Running)));
  }

  lemma PublishingInTime(run: Run, id: nat, disk: Disk, a: Agent, outcome: Outcome)
    requires InTime(disk, a) && Publishing(a.phase).Some?
    ensures var after := Act(run, id, disk, a, outcome); InTime(after.0, after.1)
  {
    var state := Publishing(a.phase).value;
    ActPublishes(run, id, disk, a, outcome);
    PublishingLeaves(run, disk, a, state, ErrorFor(run, state), outcome, AfterPublishing(a.phase), AfterRefusal(a.phase));
    PublishStays(run, disk, a, state, ErrorFor(run, state), outcome, AfterPublishing(a.phase), AfterRefusal(a.phase));
  }

  lemma OtherInTime(run: Run, id: nat, disk: Disk, a: Agent, outcome: Outcome)
    requires Holding(id, disk, a) && InTime(disk, a)
    requires Publishing(a.phase).None? && a.phase !in {Ran, FailWriting, Cancelling}
    ensures var after := Act(run, id, disk, a, outcome); InTime(after.0, after.1)
  {}

  lemma ActInTime(run: Run, id: nat, disk: Disk, a: Agent, outcome: Outcome)
    requires AgentOk(run, id, disk, a) && InTime(disk, a)
    ensures var after := Act(run, id, disk, a, outcome); InTime(after.0, after.1)
  {
    if Publishing(a.phase).Some? {
      PublishingInTime(run, id, disk, a, outcome);
    } else {
      match a.phase {
        case Ran => WritingInTime(disk, a, Executed(id), outcome, Written, FailPreparing);
        case FailWriting => WritingInTime(disk, a, FailedRun(id), outcome, FailPublishing, FailPublishing);
        case Cancelling => WritingInTime(disk, a, CancelledRun(id), outcome, CancelFinishing, Stopped);
        case _ => OtherInTime(run, id, disk, a, outcome);
      }
    }
  }

  lemma NextInTime(run: Run, sys: System, e: Event)
    requires SystemOk(run, sys) && AllInTime(sys)
    ensures AllInTime(Next(run, sys, e))
  {
    if e.AgentActs? && e.id < |sys.agents| {
      assert InTime(sys.disk, sys.agents[e.id]);
      ActInTime(run, e.id, sys.disk, sys.agents[e.id], e.outcome);
      var after := Next(run, sys, e);
      forall i | 0 <= i < |after.agents| ensures InTime(after.disk, after.agents[i]) {
        if i != e.id {
          assert InTime(sys.disk, sys.agents[i]);
          if sys.agents[i].holds { OthersLeaveResult(run, sys, i, e.id, e.outcome); }
        }
      }
    }
  }

  /** Whoever holds the claim and has not come to its result finds none on disk. */
  lemma {:induction false} ReachableInTime(run: Run, sys: System, events: seq<Event>)
    requires Fresh(run, sys) && Named(sys.disk)
    ensures AllInTime(Execute(run, sys, events))
  {
    if events != [] {
      var before, e := events[..|events| - 1], events[|events| - 1];
      ReachableInTime(run, sys, before);
      ReachableIsOk(run, sys, before);
      NextInTime(run, Execute(run, sys, before), e);
    }
  }

  // ----- a run that is allowed to start -----

  /** The start has been seen and no cancellation, and there are `n` sequence numbers left. */
  predicate Going(m: Machine, n: nat) {
    StartAllowed in m.seen && CancelRequested !in m.seen && m.last + n <= U64_MAX
  }

  /** The start has been seen or is there to be read, and three sequence numbers are left behind it. */
  predicate WillStart(run: Run, disk: Disk, m: Machine) {
    && CancelRequested !in m.seen
    && if StartAllowed in m.seen then m.last + 3 <= U64_MAX
       else
         && StartAllowed in disk.status && disk.status[StartAllowed].request == Some(run.request)
         && Accepts(m, disk.status[StartAllowed]) && disk.status[StartAllowed].sequence + 3 <= U64_MAX
  }

  /** The records are on disk as they are, written by the host, and refer to the request of the run. */
  predicate AreHostRecords(run: Run, disk: Disk, records: seq<StatusRecord>) {
    forall r :: r in records ==>
      r.state !in {GuestReady, Running, Completed, Failed, ShutdownReady} && r.request == Some(run.request)
      && r.state in disk.status && disk.status[r.state] == r
  }

  lemma HostRecordsAreReadable(run: Run, disk: Disk, records: seq<StatusRecord>)
    requires AreHostRecords(run, disk, records)
    ensures Readable(run, disk, records)
  {
    forall i | 0 <= i < |records| ensures records[i] in records {}
  }

  /** The host records of a package that is ready to run. */
  predicate ReadyToRun(run: Run, disk: Disk, records: seq<StatusRecord>) {
    && AreHostRecords(run, disk, records) && Observed(run.runId, records).Some?
    && var m := Observed(run.runId, records).value;
       HostReady in m.seen && RequestWritten in m.seen && Going(m, 4)
  }

  /** The agent executed the target, wrote its result and published all that belongs to it. */
  predicate HasRun(disk: Disk, i: nat, a: Agent) {
    && a.executions == 1 && disk.result == Some(Executed(i))
    && |a.published| == 4 && a.published[0].state == GuestReady && a.published[1].state == Running
    && a.published[2].state == Completed && a.published[3].state == ShutdownReady
  }

  /** What is left to happen can happen. */
  predicate OnCourse(run: Run, disk: Disk, i: nat, a: Agent, records: seq<StatusRecord>) {
    match a.phase
    case Outside | Checked => disk.claim.None? && Clean(disk) && ReadyToRun(run, disk, records)
    case Opened => disk.claim.None? && Clean(disk) && Going(a.machine, 4)
    case Claimed | Attested => a.holds && disk.result.None? && Going(a.machine, 4)
    case Waiting => a.holds && disk.result.None? && WillStart(run, disk, a.machine)
    case Started | Staged => a.holds && disk.result.None? && Going(a.machine, 3)
    case Executing | Ran => a.holds && disk.result.None? && a.machine.last + 2 <= U64_MAX
    case Written => a.holds && a.machine.last + 2 <= U64_MAX
    case Finishing => a.holds && a.machine.last + 1 <= U64_MAX
    case Stopped => a.holds && HasRun(disk, i, a)
    case _ => false
  }

  /** How the next operation turns out when nothing fails and no cancellation is seen. */
  function Success(phase: Phase, records: seq<StatusRecord>, files: Folders): Outcome {
    match phase
    case Checked => Opens(records)
    case Waiting => Sees(true, false)
    case Executing => Executes(true, files)
    case _ => Fine
  }

  function Onwards(phase: Phase): Phase {
    match phase
    case Outside => Checked
    case Checked => Opened
    case Opened => Claimed
    case Claimed => Attested
    case Attested => Waiting
    case Waiting => Started
    case Started => Staged
    case Staged => Executing
    case Executing => Ran
    case Ran => Written
    case Written => Finishing
    case _ => Stopped
  }

  /** How many operations there are to come. */
  function Ahead(phase: Phase): nat {
    match phase
    case Outside => 12
    case Checked => 11
    case Opened => 10
    case Claimed => 9
    case Attested => 8
    case Waiting => 7
    case Started => 6
    case Staged => 5
    case Executing => 4
    case Ran => 3
    case Written => 2
    case Finishing => 1
    case _ => 0
  }

  /** The outcomes of those operations. */
  function Outcomes(phase: Phase, records: seq<StatusRecord>, files: Folders): (r: seq<Outcome>)
    ensures |r| == Ahead(phase)
    decreases Ahead(phase)
  {
    if Ahead(phase) == 0 then [] else [Success(phase, records, files)] + Outcomes(Onwards(phase), records, files)
  }

  ghost predicate Goes(run: Run, i: nat, a: Agent, records: seq<StatusRecord>, after: (Disk, Agent)) {
    after.1.phase == Onwards(a.phase) && OnCourse(run, after.0, i, after.1, records)
  }

  lemma EarlyGoes(run: Run, i: nat, disk: Disk, a: Agent, records: seq<StatusRecord>, files: Folders)
    requires OnCourse(run, disk, i, a, records) && a.phase in {Outside, Checked, Opened, Claimed, Started, Executing}
    ensures Goes(run, i, a, records, Act(run, i, disk, a, Success(a.phase, records, files)))
  {
    if a.phase == Checked { HostRecordsAreReadable(run, disk, records); }
  }

  lemma WaitingGoes(run: Run, i: nat, disk: Disk, a: Agent, records: seq<StatusRecord>, files: Folders)
    requires Named(disk) && OnCourse(run, disk, i, a, records) && a.phase == Waiting
    ensures Goes(run, i, a, records, Act(run, i, disk, a, Sees(true, false)))
  {
    if StartAllowed !in a.machine.seen {
      var m := After(a.machine, disk.status[StartAllowed]);
      assert StartAllowed in m.seen;
      assert Poll(run, disk, a.machine, true, false) == Some(m);
    }
  }

  lemma WritingGoes(run: Run, i: nat, disk: Disk, a: Agent, records: seq<StatusRecord>)
    requires OnCourse(run, disk, i, a, records) && a.phase == Ran
    ensures Goes(run, i, a, records, Act(run, i, disk, a, Fine))
  {}

  /** The next record of an agent on its course is not on disk yet. */
  lemma NotYetOnDisk(run: Run, sys: System, i: nat, state: ProtocolState)
    requires SystemOk(run, sys) && i < |sys.agents| && sys.agents[i].holds && Publishing(sys.agents[i].phase) == Some(state)
    requires sys.agents[i].phase in {Attested, Staged, Written, Finishing, CancelFinishing}
    ensures state !in sys.disk.status
  {
    var a := sys.agents[i];
    if state in sys.disk.status {
      OnDiskIsPublished(run, sys, i, state);
      ShapeIsStates(a.published);
    }
  }

  /** The published states, read off the shape. */
  lemma ShapeIsStates(p: Records)
    requires Legal(p)
    ensures ShapeOf(p) == Some(Nothing) ==> p == []
    ensures ShapeOf(p) == Some(Ready) ==> |p| == 1 && p[0].state == GuestReady
    ensures ShapeOf(p) == Some(Active) ==> |p| == 2 && p[0].state == GuestReady && p[1].state == Running
    ensures ShapeOf(p) == Some(Complete) ==>
              |p| == 3 && p[0].state == GuestReady && p[1].state == Running && p[2].state == Completed
  {
    ShapeStates(p);
    if ShapeOf(p) == Some(Complete) { ShapeStates(p[..|p| - 1]); }
  }

  lemma PublishingGoes(run: Run, sys: System, i: nat, records: seq<StatusRecord>)
    requires SystemOk(run, sys) && i < |sys.agents| && OnCourse(run, sys.disk, i, sys.agents[i], records)
    requires sys.agents[i].phase in {Attested, Staged, Written, Finishing}
    ensures Goes(run, i, sys.agents[i], records, Act(run, i, sys.disk, sys.agents[i], Fine))
  {
    var a := sys.agents[i];
    var state := Publishing(a.phase).value;
    NotYetOnDisk(run, sys, i, state);
    GuardRefusesOnlyAtTheLimit(run, i, sys.disk, a);
    ActPublishes(run, i, sys.disk, a, Fine);
    ShapeIsStates(a.published);
  }

  lemma CourseGoes(run: Run, sys: System, i: nat, records: seq<StatusRecord>, files: Folders)
    requires SystemOk(run, sys) && i < |sys.agents| && OnCourse(run, sys.disk, i, sys.agents[i], records)
    requires sys.agents[i].phase != Stopped
    ensures Goes(run, i, sys.agents[i], records, Act(run, i, sys.disk, sys.agents[i], Success(sys.agents[i].phase, records, files)))
  {
    var a := sys.agents[i];
    if a.phase == Waiting {
      WaitingGoes(run, i, sys.disk, a, records, files);
    } else if a.phase == Ran {
      WritingGoes(run, i, sys.disk, a, records);
    } else if Publishing(a.phase).Some? {
      PublishingGoes(run, sys, i, records);
    } else {
      EarlyGoes(run, i, sys.disk, a, records, files);
    }
  }

  // ----- the whole run -----

  /** Others do not push an agent off its course. */
  lemma OthersLeaveCourse(run: Run, sys: System, i: nat, records: seq<StatusRecord>, others: seq<Event>)
    requires SystemOk(run, sys) && i < |sys.agents| && OnCourse(run, sys.disk, i, sys.agents[i], records)
    requires Leaves(sys.agents[i].phase, others, i)
    ensures var after := Execute(run, sys, others);
            && SystemOk(run, after) && |after.agents| == |sys.agents| && after.agents[i] == sys.agents[i]
            && OnCourse(run, after.disk, i, after.agents[i], records)
  {
    OthersAreQuiet(run, sys, i, others);
    if sys.agents[i].phase in {Outside, Checked, Opened} { HostKeepsClean(run, sys, others); }
    CourseStays(run, sys.disk, Execute(run, sys, others).disk, i, sys.agents[i], records);
  }

  lemma CourseStays(run: Run, disk: Disk, after: Disk, i: nat, a: Agent, records: seq<StatusRecord>)
    requires OnCourse(run, disk, i, a, records) && NothingLost(disk, after)
    requires a.holds ==> after.result == disk.result
    requires a.phase in {Outside, Checked, Opened} ==> after.claim.None? && Clean(after)
    ensures OnCourse(run, after, i, a, records)
  {}

  /** In each of the gaps between its operations, the others leave the agent what it needs. */
  predicate AllLeave(phase: Phase, others: seq<seq<Event>>, i: nat)
    decreases |others|
  {
    others == [] || (Leaves(Onwards(phase), others[0], i) && AllLeave(Onwards(phase), others[1..], i))
  }

  /**
   An agent on its course gets to the end of it when none of its operations fails, whatever the others
   do in between: the target is executed once, its result is on disk, and GuestReady, Running,
   Completed and ShutdownReady are published in this order.
   */
  lemma {:induction false} AllowedRunCompletes(run: Run, sys: System, i: nat, records: seq<StatusRecord>, files: Folders,
                                               others: seq<seq<Event>>)
    requires SystemOk(run, sys) && i < |sys.agents| && OnCourse(run, sys.disk, i, sys.agents[i], records)
    requires |others| == Ahead(sys.agents[i].phase) && AllLeave(sys.agents[i].phase, others, i)
    ensures var after := Turns(run, sys, i, Outcomes(sys.agents[i].phase, records, files), others);
            |after.agents| == |sys.agents| && HasRun(after.disk, i, after.agents[i])
    decreases |others|
  {
    var phase := sys.agents[i].phase;
    if phase != Stopped {
      var outcome := Success(phase, records, files);
      CourseGoes(run, sys, i, records, files);
      NextKeeps(run, sys, AgentActs(i, outcome));
      var next := Next(run, sys, AgentActs(i, outcome));
      OthersLeaveCourse(run, next, i, records, others[0]);
      assert Outcomes(phase, records, files)[1..] == Outcomes(Onwards(phase), records, files);
      AllowedRunCompletes(run, Turn(run, sys, i, outcome, others[0]), i, records, files, others[1..]);
    }
  }

  lemma WaitingLeaves(phase: Phase, others: seq<seq<Event>>, i: nat)
    requires forall k :: 0 <= k < |others| ==> WithoutAgent(others[k], i)
    requires phase !in {Outside, Checked}
    ensures AllLeave(phase, others, i)
    decreases |others|
  {
    if others != [] {
      assert WithoutAgent(others[0], i);
      WaitingLeaves(Onwards(phase), others[1..], i);
    }
  }

  lemma NextOutcome(phase: Phase, records: seq<StatusRecord>, files: Folders)
    requires Ahead(phase) > 0
    ensures Outcomes(phase, records, files) == [Success(phase, records, files)] + Outcomes(Onwards(phase), records, files)
  {}

  lemma WrittenOutcomes(records: seq<StatusRecord>, files: Folders)
    ensures Outcomes(Written, records, files) == [Fine, Fine]
  {
    NextOutcome(Finishing, records, files);
    NextOutcome(Written, records, files);
  }

  lemma ExecutingOutcomes(records: seq<StatusRecord>, files: Folders)
    ensures Outcomes(Executing, records, files) == [Executes(true, files), Fine, Fine, Fine]
  {
    WrittenOutcomes(records, files);
    NextOutcome(Ran, records, files);
    NextOutcome(Executing, records, files);
  }

  lemma WaitingOutcomes(records: seq<StatusRecord>, files: Folders)
    ensures Outcomes(Waiting, records, files) == [Sees(true, false), Fine, Fine, Executes(true, files), Fine, Fine, Fine]
  {
    ExecutingOutcomes(records, files);
    var rest := Outcomes(Executing, records, files);
    assert Outcomes(Staged, records, files) == [Fine] + rest;
    assert Outcomes(Started, records, files) == [Fine] + ([Fine] + rest);
    assert Outcomes(Waiting, records, files) == [Sees(true, false)] + ([Fine] + ([Fine] + rest));
  }

  /** In particular one that is waiting and sees the start. */
  lemma WaitingRunCompletes(run: Run, sys: System, i: nat, files: Folders, others: seq<seq<Event>>)
    requires SystemOk(run, sys) && AllInTime(sys) && i < |sys.agents| && sys.agents[i].phase == Waiting
    requires WillStart(run, sys.disk, sys.agents[i].machine)
    requires |others| == 7 && forall k :: 0 <= k < 7 ==> WithoutAgent(others[k], i)
    ensures var after := Turns(run, sys, i, [Sees(true, false), Fine, Fine, Executes(true, files), Fine, Fine, Fine], others);
            |after.agents| == |sys.agents| && HasRun(after.disk, i, after.agents[i])
  {
    assert Holding(i, sys.disk, sys.agents[i]) && InTime(sys.disk, sys.agents[i]);
    WaitingLeaves(Waiting, others, i);
    WaitingOutcomes([], files);
    AllowedRunCompletes(run, sys, i, [], files, others);
  }

  lemma OpenedOutcomes(records: seq<StatusRecord>, files: Folders)
    ensures Outcomes(Opened, records, files) == [Fine, Fine, Fine] + Outcomes(Waiting, records, files)
  {
    NextOutcome(Attested, records, files);
    NextOutcome(Claimed, records, files);
    NextOutcome(Opened, records, files);
  }

  lemma FreshOutcomes(records: seq<StatusRecord>, files: Folders)
    ensures Outcomes(Outside, records, files) == [Fine, Opens(records), Fine, Fine, Fine] + Outcomes(Waiting, records, files)
  {
    OpenedOutcomes(records, files);
    NextOutcome(Checked, records, files);
    NextOutcome(Outside, records, files);
  }

  /** And one that starts with a fresh package, if only the host acts until it has the claim. */
  lemma FreshRunCompletes(run: Run, sys: System, i: nat, records: seq<StatusRecord>, files: Folders, others: seq<seq<Event>>)
    requires Fresh(run, sys) && Named(sys.disk) && i < |sys.agents| && ReadyToRun(run, sys.disk, records)
    requires |others| == 12 && (forall k :: 0 <= k < 12 ==> WithoutAgent(others[k], i)) && HostOnly(others[0]) && HostOnly(others[1])
    ensures var after := Turns(run, sys, i,
              [Fine, Opens(records), Fine, Fine, Fine, Sees(true, false), Fine, Fine, Executes(true, files), Fine, Fine, Fine], others);
            |after.agents| == |sys.agents| && HasRun(after.disk, i, after.agents[i])
  {
    FreshIsOk(run, sys);
    WaitingLeaves(Opened, others[2..], i);
    FreshOutcomes(records, files);
    WaitingOutcomes(records, files);
    assert [Fine, Opens(records), Fine, Fine, Fine]
           + [Sees(true, false), Fine, Fine, Executes(true, files), Fine, Fine, Fine]
        == [Fine, Opens(records), Fine, Fine, Fine, Sees(true, false), Fine, Fine, Executes(true, files), Fine, Fine, Fine];
    AllowedRunCompletes(run, sys, i, records, files, others);
  }

  /** An agent that knows of a start or a cancellation does not wait for it, so nothing can go wrong there. */
  lemma KnownIsNotWaitedFor(run: Run, i: nat, disk: Disk, a: Agent, outcome: Outcome)
    requires a.phase == Waiting && (StartAllowed in a.machine.seen || CancelRequested in a.machine.seen)
    ensures var after := Act(run, i, disk, a, outcome).1;
            after.phase == (if CancelRequested in a.machine.seen then Cancelling else Started) && after.machine == a.machine
  {}

  // ----- a run that is cancelled -----

  /** A cancellation has been seen or is there to be read, and one sequence number is left behind it. */
  predicate WillCancel(run: Run, disk: Disk, m: Machine) {
    if CancelRequested in m.seen then m.last < U64_MAX
    else
      && StartAllowed !in m.seen
      && CancelRequested in disk.status && disk.status[CancelRequested].request == Some(run.request)
      && Accepts(m, disk.status[CancelRequested]) && disk.status[CancelRequested].sequence < U64_MAX
  }

  /** The agent published the shutdown and the result of a cancelled run, and did not execute the target. */
  predicate HasCancelled(disk: Disk, i: nat, a: Agent) {
    && a.executions == 0 && a.cancelled && disk.result == Some(CancelledRun(i))
    && |a.published| > 0 && a.published[|a.published| - 1].state == ShutdownReady
    && a.published[|a.published| - 1].result == Some(CancelledRun(i))
    && !HasPublished(a, Running) && !HasPublished(a, Completed)
  }

  lemma CancellingStep(run: Run, i: nat, disk: Disk, a: Agent)
    requires Named(disk) && a.phase in {Claimed, Waiting} && WillCancel(run, disk, a.machine)
    requires a.phase == Claimed ==> CancelRequested in a.machine.seen
    ensures var after := Act(run, i, disk, a, Sees(false, true));
            && after.0 == disk && after.1.phase == Cancelling && after.1.cancelled && after.1.holds == a.holds
            && after.1.machine.last < U64_MAX && after.1.published == a.published
  {
    if CancelRequested !in a.machine.seen {
      var m := After(a.machine, disk.status[CancelRequested]);
      assert Poll(run, disk, a.machine, false, true) == Some(m);
    }
  }

  lemma ShutsDown(run: Run, sys: System, i: nat)
    requires SystemOk(run, sys) && i < |sys.agents| && sys.agents[i].phase == CancelFinishing && sys.agents[i].machine.last < U64_MAX
    requires sys.agents[i].holds
    ensures var a, after := sys.agents[i], Act(run, i, sys.disk, sys.agents[i], Fine);
            && after.0.result == sys.disk.result == Some(CancelledRun(i)) && after.1.holds
            && after.1.executions == a.executions && after.1.cancelled == a.cancelled
            && exists r :: after.1.published == a.published + [r] && r.state == ShutdownReady && r.result == Some(CancelledRun(i))
  {
    NotYetOnDisk(run, sys, i, ShutdownReady);
    GuardRefusesOnlyAtTheLimit(run, i, sys.disk, sys.agents[i]);
    ActPublishes(run, i, sys.disk, sys.agents[i], Fine);
  }

  lemma NothingRan(a: Agent, r: StatusRecord, after: Agent)
    requires Legal(a.published) && ShapeOf(a.published) in {Some(Nothing), Some(Ready)}
    requires after.published == a.published + [r] && r.state == ShutdownReady
    ensures !HasPublished(after, Running) && !HasPublished(after, Completed)
  {
    ShapeIsStates(a.published);
  }

  lemma CancelledStep(run: Run, sys: System, i: nat)
    requires SystemOk(run, sys) && i < |sys.agents| && sys.agents[i].phase == CancelFinishing && sys.agents[i].machine.last < U64_MAX
    requires sys.agents[i].holds && sys.agents[i].cancelled
    ensures var after := Act(run, i, sys.disk, sys.agents[i], Fine); HasCancelled(after.0, i, after.1) && after.1.holds
  {
    ShutsDown(run, sys, i);
    var a, after := sys.agents[i], Act(run, i, sys.disk, sys.agents[i], Fine).1;
    var r :| after.published == a.published + [r] && r.state == ShutdownReady && r.result == Some(CancelledRun(i));
    NothingRan(a, r, after);
  }

  lemma WritesCancelled(run: Run, i: nat, disk: Disk, a: Agent)
    requires a.phase == Cancelling && disk.result.None?
    ensures var after := Act(run, i, disk, a, Fine).1;
            after.phase == CancelFinishing && after.machine == a.machine && after.holds == a.holds && after.cancelled == a.cancelled
  {}

  /** Three operations without faults, and a cancelled run is at its end. */
  lemma CancelledRunEnds(run: Run, sys: System, i: nat, first: seq<Event>, second: seq<Event>, third: seq<Event>)
    requires SystemOk(run, sys) && AllInTime(sys) && i < |sys.agents| && sys.agents[i].phase in {Claimed, Waiting}
    requires WillCancel(run, sys.disk, sys.agents[i].machine)
    requires sys.agents[i].phase == Claimed ==> CancelRequested in sys.agents[i].machine.seen
    requires WithoutAgent(first, i) && WithoutAgent(second, i) && WithoutAgent(third, i)
    ensures var after := Turn(run, Turn(run, Turn(run, sys, i, Sees(false, true), first), i, Fine, second), i, Fine, third);
            |after.agents| == |sys.agents| && HasCancelled(after.disk, i, after.agents[i])
  {
    assert Holding(i, sys.disk, sys.agents[i]) && InTime(sys.disk, sys.agents[i]);
    CancellingStep(run, i, sys.disk, sys.agents[i]);
    TurnIsAct(run, sys, i, Sees(false, true), first);
    var one := Turn(run, sys, i, Sees(false, true), first);
    WritesCancelled(run, i, one.disk, one.agents[i]);
    TurnIsAct(run, one, i, Fine, second);
    var two := Turn(run, one, i, Fine, second);
    CancelledStep(run, two, i);
    TurnIsAct(run, two, i, Fine, third);
  }

  /**
   A start and a cancellation that are both there to be read are taken in the order of their numbers: a
   start that comes first is cancelled, and one that comes behind the cancellation is refused, which ends the run.
   */
  lemma StartAndCancel(run: Run, i: nat, disk: Disk, a: Agent)
    requires Named(disk) && a.phase == Waiting && StartAllowed !in a.machine.seen && CancelRequested !in a.machine.seen
    requires StartAllowed in disk.status && disk.status[StartAllowed].request == Some(run.request)
    requires CancelRequested in disk.status && disk.status[CancelRequested].request == Some(run.request)
    requires Accepts(a.machine, disk.status[StartAllowed]) && Accepts(a.machine, disk.status[CancelRequested])
    ensures var start, cancel := disk.status[StartAllowed], disk.status[CancelRequested];
            var after := Act(run, i, disk, a, Sees(true, true)).1;
            && after.phase == (if start.sequence < cancel.sequence then Cancelling else Stopped)
            && after.published == a.published && after.executions == a.executions
  {
    var start, cancel := disk.status[StartAllowed], disk.status[CancelRequested];
    if start.sequence < cancel.sequence {
      var m := After(a.machine, start);
      assert Accepts(m, cancel);
      assert Poll(run, disk, a.machine, true, true) == Some(After(m, cancel));
    } else if start.sequence == cancel.sequence {
      assert !Accepts(After(a.machine, start), cancel);
      assert Poll(run, disk, a.machine, true, true) == None;
    } else {
      assert !Accepts(After(a.machine, cancel), start);
      assert Poll(run, disk, a.machine, true, true) == None;
    }
  }

  // ----- faults -----

  /** An operation that does what it is there for. */
  predicate Faultless(phase: Phase, outcome: Outcome) {
    match phase
    case Checked => outcome.Opens?
    case Waiting => outcome.Sees?
    case Executing => outcome.Executes? && outcome.ok
    case _ => outcome == Fine
  }

  /** A fault between the claim and the result that is noticed makes the run a failing one. */
  lemma FaultsFail(run: Run, i: nat, disk: Disk, a: Agent, outcome: Outcome)
    requires a.phase in {Claimed, Started, Staged, Executing, Ran} && !Faultless(a.phase, outcome)
    requires a.phase == Claimed ==> CancelRequested !in a.machine.seen
    ensures Act(run, i, disk, a, outcome).1.phase == FailPreparing
  {}

  /** Where a run gets to only if nothing has failed. */
  predicate MainLine(phase: Phase) {
    phase in {Outside, Checked, Opened, Claimed, Attested, Waiting, Started, Staged, Executing, Ran, Written, Finishing}
  }

  /** The operation was without a fault, or there was nothing to wait for. */
  predicate LedOn(a: Agent, outcome: Outcome) {
    MainLine(a.phase) && (Faultless(a.phase, outcome) || (a.phase == Waiting && StartAllowed in a.machine.seen))
  }

  lemma FaultyPublish(run: Run, disk: Disk, a: Agent, state: ProtocolState, error: Option<GuestError>, outcome: Outcome,
                      next: Phase, otherwise: Phase)
    requires outcome != Fine
    ensures Publish(run, disk, a, state, error, outcome, next, otherwise).1.phase == otherwise
  {}

  lemma OnlyFaultlessPublish(run: Run, i: nat, disk: Disk, a: Agent, outcome: Outcome)
    requires Publishing(a.phase).Some? && MainLine(Act(run, i, disk, a, outcome).1.phase)
    ensures LedOn(a, outcome)
  {
    var state := Publishing(a.phase).value;
    var next, otherwise := AfterPublishing(a.phase), AfterRefusal(a.phase);
    ActPublishes(run, i, disk, a, outcome);
    PublishStays(run, disk, a, state, ErrorFor(run, state), outcome, next, otherwise);
    if outcome != Fine { FaultyPublish(run, disk, a, state, ErrorFor(run, state), outcome, next, otherwise); }
  }

  lemma OnlyFaultlessRun(run: Run, i: nat, disk: Disk, a: Agent, outcome: Outcome)
    requires a.phase in {Ran, Executing, FailPreparing, FailWriting, Cancelling, Stopped}
    requires MainLine(Act(run, i, disk, a, outcome).1.phase)
    ensures LedOn(a, outcome)
  {
    match a.phase {
      case Ran => WriteStays(disk, a, Executed(i), outcome, Written, FailPreparing);
      case FailWriting => WriteStays(disk, a, FailedRun(i), outcome, FailPublishing, FailPublishing);
      case Cancelling => WriteStays(disk, a, CancelledRun(i), outcome, CancelFinishing, Stopped);
      case FailPreparing => DiscardCases(disk, a, outcome);
      case _ =>
    }
  }

  lemma OnlyFaultlessStart(run: Run, i: nat, disk: Disk, a: Agent, outcome: Outcome)
    requires a.phase in {Outside, Checked, Opened, Claimed, Started}
    requires MainLine(Act(run, i, disk, a, outcome).1.phase)
    ensures LedOn(a, outcome)
  {}

  lemma OnlyFaultlessWait(run: Run, i: nat, disk: Disk, a: Agent, outcome: Outcome)
    requires a.phase == Waiting && MainLine(Act(run, i, disk, a, outcome).1.phase)
    ensures LedOn(a, outcome)
  {}

  lemma OnlyFaultlessLeadOn(run: Run, i: nat, disk: Disk, a: Agent, outcome: Outcome)
    requires MainLine(Act(run, i, disk, a, outcome).1.phase)
    ensures LedOn(a, outcome)
  {
    if Publishing(a.phase).Some? {
      OnlyFaultlessPublish(run, i, disk, a, outcome);
    } else if a.phase == Waiting {
      OnlyFaultlessWait(run, i, disk, a, outcome);
    } else if a.phase in {Outside, Checked, Opened, Claimed, Started} {
      OnlyFaultlessStart(run, i, disk, a, outcome);
    } else {
      OnlyFaultlessRun(run, i, disk, a, outcome);
    }
  }

  /** All operations of the agent so far were without faults; waiting has no operation once the start is known. */
  ghost predicate AllFaultless(run: Run, sys: System, events: seq<Event>, i: nat) {
    events == [] || (
      && AllFaultless(run, sys, events[..|events| - 1], i)
      && FaultlessEvent(Execute(run, sys, events[..|events| - 1]), events[|events| - 1], i))
  }

  predicate FaultlessEvent(sys: System, e: Event, i: nat) {
    e.AgentActs? && e.id == i && i < |sys.agents| ==> LedOn(sys.agents[i], e.outcome)
  }

  lemma StepIsFaultless(run: Run, sys: System, e: Event, i: nat)
    requires i < |sys.agents|
    ensures |Next(run, sys, e).agents| == |sys.agents|
    ensures var phase := Next(run, sys, e).agents[i].phase;
            MainLine(phase) ==> FaultlessEvent(sys, e, i) && MainLine(sys.agents[i].phase)
  {
    if e.AgentActs? && e.id == i {
      if MainLine(Act(run, i, sys.disk, sys.agents[i], e.outcome).1.phase) {
        OnlyFaultlessLeadOn(run, i, sys.disk, sys.agents[i], e.outcome);
      }
    }
  }

  /** In every run, an agent that is on the way to Completed has not met a single fault. */
  lemma {:induction false} MainLineIsFaultless(run: Run, sys: System, events: seq<Event>, i: nat)
    requires i < |sys.agents| && sys.agents[i].phase == Outside
    ensures |Execute(run, sys, events).agents| == |sys.agents|
    ensures MainLine(Execute(run, sys, events).agents[i].phase) ==> AllFaultless(run, sys, events, i)
  {
    if events != [] {
      var before, e := events[..|events| - 1], events[|events| - 1];
      MainLineIsFaultless(run, sys, before, i);
      StepIsFaultless(run, Execute(run, sys, before), e, i);
    }
  }
}
