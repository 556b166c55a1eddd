/**
 The run of a guest agent (`guest-agent/src/runner.rs`, `guest-agent/src/artifacts.rs`) as a state
 machine: any number of agents and the host work on one run package, one file operation at a time,
 in any order, and every operation may fail.
 */
module GuestRun {
  import opened Basics
  import opened GuestProtocol
  import opened FailedOutput

  // ----- the state -----

  /** The run package: `status/`, `status/agent-claim.json`, `output/result.json` and the folders of `output/`. */
  datatype Disk = Disk(
    status: map<ProtocolState, StatusRecord>, claim: Option<nat>, result: Option<Content>, output: Folders)

  /** Where an agent is between two operations of `run`. */
  datatype Phase =
    | Outside | Checked | Opened | Claimed | Attested | Waiting | Started | Staged | Executing | Ran
    | Written | Finishing
    | FailPreparing | FailWriting | FailPublishing | FailFinishing
    | Cancelling | CancelFinishing
    | Stopped

  /**
   `published`, `executions`, `holds`, `cancelled`, `wrote` and `late` are the agent's history: `wrote`
   are the files that its execution left in the output, and `late` says that writing Running
   reported an error although the file was linked.
   */
  datatype Agent = Agent(
    phase: Phase, machine: Machine, digest: Option<Content>,
    published: seq<StatusRecord>, executions: nat, holds: bool, cancelled: bool, wrote: Folders, late: bool)

  /**
   How an operation turns out. A late failure comes after the file has been linked. An execution
   leaves files behind whether it succeeds or not, and an interrupted clearing some of them.
   */
  datatype Outcome =
    | Fine | Breaks | BreaksLate | Opens(records: seq<StatusRecord>) | Sees(start: bool, cancel: bool)
    | Executes(ok: bool, files: Folders) | Interrupted(left: Folders)

  datatype Run = Run(runId: string, request: string, failure: GuestError)

  // ----- one operation of one agent -----

  function At(a: Agent, phase: Phase): Agent { a.(phase := phase) }

  predicate Linked(outcome: Outcome) { outcome == Fine || outcome == BreaksLate }

  /** `StatusPublisher::publish`; the agent goes on to `next` or, after an error, to `otherwise`. */
  function Publish(run: Run, disk: Disk, a: Agent, state: ProtocolState, error: Option<GuestError>, outcome: Outcome,
                   next: Phase, otherwise: Phase): (r: (Disk, Agent))
    ensures a.published <= r.1.published
  {
    var record := NextRecord(a.machine, run.request, state, error, a.digest);
    if !Accepts(a.machine, record) || state in disk.status || !Linked(outcome) then (disk, At(a, otherwise))
    else
      (disk.(status := disk.status[state := record]),
       if outcome == Fine then a.(phase := next, machine := After(a.machine, record), published := a.published + [record])
       else a.(phase := otherwise, published := a.published + [record], late := a.late || state == Running))
  }

  /** `result::write`; only a write without an error yields the digest. */
  function WriteResult(disk: Disk, a: Agent, content: Content, outcome: Outcome, next: Phase, otherwise: Phase): (r: (Disk, Agent))
    ensures r.1.published == a.published
  {
    if disk.result.Some? || !Linked(outcome) then (disk, a.(phase := otherwise, digest := None))
    else if outcome == Fine then (disk.(result := Some(content)), a.(phase := next, digest := Some(content)))
    else (disk.(result := Some(content)), a.(phase := otherwise, digest := None))
  }

  /** The agent can only read host records that are there and that refer to its request. */
  predicate Readable(run: Run, disk: Disk, records: seq<StatusRecord>) {
    forall i :: 0 <= i < |records| ==>
      && !IsGuestState(records[i].state) && records[i].request == Some(run.request)
      && records[i].state in disk.status && disk.status[records[i].state] == records[i]
  }

  /** `StatusPublisher::open`, once the package has been found free of guest states. */
  function Open(run: Run, disk: Disk, a: Agent, records: seq<StatusRecord>): (r: Agent)
    ensures r.published == a.published
  {
    var machine := Observed(run.runId, records);
    if Readable(run, disk, records) && machine.Some? && HostReady in machine.value.seen && RequestWritten in machine.value.seen
    then a.(phase := Opened, machine := machine.value)
    else At(a, Stopped)
  }

  /** One host record, read while waiting. */
  function ObserveLive(run: Run, m: Option<Machine>, r: StatusRecord): Option<Machine> {
    if m.Some? && r.request == Some(run.request) && Accepts(m.value, r) then Some(After(m.value, r)) else None
  }

  /** One round of `wait_for_start_or_cancel`: what is visible is observed in the order of the sequences. */
  function Poll(run: Run, disk: Disk, m: Machine, start: bool, cancel: bool): Option<Machine> {
    var s := start && StartAllowed !in m.seen && StartAllowed in disk.status;
    var c := cancel && CancelRequested !in m.seen && CancelRequested in disk.status;
    if s && c then
      var (a, b) := (disk.status[StartAllowed], disk.status[CancelRequested]);
      if a.sequence <= b.sequence then ObserveLive(run, ObserveLive(run, Some(m), a), b)
      else ObserveLive(run, ObserveLive(run, Some(m), b), a)
    else if s then ObserveLive(run, Some(m), disk.status[StartAllowed])
    else if c then ObserveLive(run, Some(m), disk.status[CancelRequested])
    else Some(m)
  }

  function Decide(a: Agent): (r: Agent)
    ensures r.published == a.published
  {
    if CancelRequested in a.machine.seen then a.(phase := Cancelling, cancelled := true)
    else if StartAllowed in a.machine.seen then At(a, Started)
    else a
  }

  predicate Clean(disk: Disk) {
    disk.result.None? && forall s :: s in disk.status ==> !IsGuestState(s)
  }

  /** The execution of the target, with everything that is collected from it. */
  function RunTarget(disk: Disk, a: Agent, outcome: Outcome): (r: (Disk, Agent))
    ensures r.1.published == a.published
  {
    if outcome.Executes? then
      (disk.(output := Joined(disk.output, outcome.files)),
       a.(phase := if outcome.ok then Ran else FailPreparing, executions := a.executions + 1,
          wrote := Joined(a.wrote, outcome.files)))
    else (disk, a.(phase := FailPreparing, executions := a.executions + 1))
  }

  /** `prepare_failed_publication`. */
  function Discard(disk: Disk, a: Agent, outcome: Outcome): (r: (Disk, Agent))
    ensures r.1.published == a.published
  {
    if outcome == Fine then
      (disk.(output := Cleared(disk.output)), At(a, if Cleared(disk.output) == NO_FILES then FailWriting else Stopped))
    else if outcome.Interrupted? then (disk.(output := outcome.left), At(a, Stopped))
    else (disk, At(a, Stopped))
  }

  function Act(run: Run, id: nat, disk: Disk, a: Agent, outcome: Outcome): (r: (Disk, Agent))
    ensures a.published <= r.1.published
  {
    match a.phase
    case Outside => (disk, At(a, if Clean(disk) && outcome == Fine then Checked else Stopped))
    case Checked => (disk, if outcome.Opens? then Open(run, disk, a, outcome.records) else At(a, Stopped))
    case Opened =>
      if disk.claim.Some? || !Linked(outcome) then (disk, At(a, Stopped))
      else (disk.(claim := Some(id)), if outcome == Fine then a.(phase := Claimed, holds := true) else At(a, Stopped))
    case Claimed =>
      if CancelRequested in a.machine.seen then (disk, a.(phase := Cancelling, cancelled := true))
      else (disk, At(a, if outcome == Fine then Attested else FailPreparing))
    case Attested => Publish(run, disk, a, GuestReady, None, outcome, Waiting, Stopped)
    case Waiting =>
      if CancelRequested in a.machine.seen || StartAllowed in a.machine.seen then (disk, Decide(a))
      else if outcome.Sees? then
        match Poll(run, disk, a.machine, outcome.start, outcome.cancel)
        case None => (disk, At(a, Stopped))
        case Some(m) => (disk, Decide(a.(machine := m)))
      else (disk, At(a, Stopped))
    case Started => (disk, At(a, if outcome == Fine then Staged else FailPreparing))
    case Staged => Publish(run, disk, a, Running, None, outcome, Executing, FailPreparing)
    case Executing => RunTarget(disk, a, outcome)
    case Ran => WriteResult(disk, a, Executed(id), outcome, Written, FailPreparing)
    case Written => Publish(run, disk, a, Completed, None, outcome, Finishing, Stopped)
    case Finishing => Publish(run, disk, a, ShutdownReady, None, outcome, Stopped, Stopped)
    case FailPreparing => Discard(disk, a, outcome)
    case FailWriting => WriteResult(disk, a, FailedRun(id), outcome, FailPublishing, FailPublishing)
    case FailPublishing => Publish(run, disk, a, Failed, Some(run.failure), outcome, FailFinishing, Stopped)
    case FailFinishing => Publish(run, disk, a, ShutdownReady, None, outcome, Stopped, Stopped)
    case Cancelling => WriteResult(disk, a, CancelledRun(id), outcome, CancelFinishing, Stopped)
    case CancelFinishing => Publish(run, disk, a, ShutdownReady, None, outcome, Stopped, Stopped)
    case Stopped => (disk, a)
  }

  // ----- all of them -----

  datatype System = System(disk: Disk, agents: seq<Agent>)

  datatype Event = HostWrites(record: StatusRecord) | AgentActs(id: nat, outcome: Outcome)

  function Next(run: Run, sys: System, e: Event): System {
    match e
    case HostWrites(r) =>
      if IsGuestState(r.state) || r.state in sys.disk.status then sys
      else sys.(disk := sys.disk.(status := sys.disk.status[r.state := r]))
    case AgentActs(id, outcome) =>
      if id >= |sys.agents| then sys
      else
        var (disk, a) := Act(run, id, sys.disk, sys.agents[id], outcome);
        System(disk, sys.agents[id := a])
  }

  predicate Fresh(run: Run, sys: System) {
    && sys.disk.claim.None? && Clean(sys.disk)
    && forall i :: 0 <= i < |sys.agents| ==>
         sys.agents[i] == Agent(Outside, Machine(run.runId, {}, 0), None, [], 0, false, false, NO_FILES, false)
  }

  function Execute(run: Run, sys: System, events: seq<Event>): System {
    if events == [] then sys else Next(run, Execute(run, sys, events[..|events| - 1]), events[|events| - 1])
  }

  // ----- what an agent may publish -----

  type Records = seq<StatusRecord>

  datatype Shape = Nothing | Ready | Active | Complete | Failure | Shut

  /**
   The legal sequences: GuestReady or not, Running or not, then Failed or, after Running, Completed,
   then ShutdownReady. A cancelled run gets to ShutdownReady without Running and without an end.
   */
  function Extend(shape: Option<Shape>, state: ProtocolState): Option<Shape> {
    match (shape, state)
    case (Some(Nothing), GuestReady) => Some(Ready)
    case (Some(Ready), Running) => Some(Active)
    case (Some(Active), Completed) => Some(Complete)
    case (Some(Nothing), Failed) => Some(Failure)
    case (Some(Ready), Failed) => Some(Failure)
    case (Some(Active), Failed) => Some(Failure)
    case (Some(Nothing), ShutdownReady) => Some(Shut)
    case (Some(Ready), ShutdownReady) => Some(Shut)
    case (Some(Complete), ShutdownReady) => Some(Shut)
    case (Some(Failure), ShutdownReady) => Some(Shut)
    case _ => None
  }

  function ShapeOf(p: Records): Option<Shape> {
    if p == [] then Some(Nothing) else Extend(ShapeOf(p[..|p| - 1]), p[|p| - 1].state)
  }

  predicate Legal(p: Records) { ShapeOf(p).Some? }

  lemma ShapeMore(p: Records, r: StatusRecord)
    ensures ShapeOf(p + [r]) == Extend(ShapeOf(p), r.state)
  {
    assert (p + [r])[..|p|] == p;
  }

  /** How far the publishing has come in each phase. */
  predicate Progress(phase: Phase, shape: Option<Shape>) {
    match phase
    case Outside | Checked | Opened | Claimed | Attested => shape == Some(Nothing)
    case Waiting | Started | Staged => shape == Some(Ready)
    case Executing | Ran | Written => shape == Some(Active)
    case Finishing => shape == Some(Complete)
    case FailPreparing | FailWriting | FailPublishing => shape in {Some(Nothing), Some(Ready), Some(Active)}
    case FailFinishing => shape == Some(Failure)
    case Cancelling | CancelFinishing => shape in {Some(Nothing), Some(Ready)}
    case Stopped => shape.Some?
  }

  /** What the shapes look like when they are written out. */
  lemma {:induction false} ShapeStates(p: Records)
    requires Legal(p)
    ensures ShapeOf(p) == Some(Nothing) <==> p == []
    ensures ShapeOf(p) == Some(Ready) <==> |p| == 1 && p[0].state == GuestReady
    ensures ShapeOf(p) == Some(Active) <==> |p| == 2 && p[0].state == GuestReady && p[1].state == Running
    ensures |p| <= 4
    ensures ShapeOf(p) in {Some(Complete), Some(Failure)} ==> 1 <= |p| <= 3
  {
    if p != [] { ShapeStates(p[..|p| - 1]); }
  }

  // ----- what the machine of an agent knows -----

  predicate NoGuestStates(seen: set<ProtocolState>) {
    GuestReady !in seen && Running !in seen && Completed !in seen && Failed !in seen && ShutdownReady !in seen
  }

  predicate Knows(phase: Phase, seen: set<ProtocolState>) {
    Coherent(seen) &&
    match phase
    case Outside | Checked | Stopped => true
    case Opened | Claimed => RequestWritten in seen && NoGuestStates(seen)
    case Attested => RequestWritten in seen && NoGuestStates(seen) && !Terminal(seen)
    case Waiting => GuestReady in seen && Running !in seen && Completed !in seen && Failed !in seen && ShutdownReady !in seen
    case Started | Staged => GuestReady in seen && StartAllowed in seen && Running !in seen && !Terminal(seen)
    case Executing | Ran | Written => Running in seen && !Terminal(seen)
    case Finishing => Completed in seen && ShutdownReady !in seen
    case FailPreparing | FailWriting | FailPublishing => RequestWritten in seen && !Terminal(seen)
    case FailFinishing => Failed in seen && ShutdownReady !in seen
    case Cancelling | CancelFinishing => CancelRequested in seen && ShutdownReady !in seen
  }

  // ----- what the agent has done -----

  predicate AfterExecution(phase: Phase) { phase in {Ran, Written, Finishing} }

  predicate BeforeExecution(phase: Phase) {
    phase in {Outside, Checked, Opened, Claimed, Attested, Waiting, Started, Staged, Executing, Cancelling, CancelFinishing}
  }

  /** The target runs at most once, and never in a cancelled run. */
  predicate Counts(phase: Phase, executions: nat, cancelled: bool) {
    && executions <= 1 && !(executions == 1 && cancelled)
    && (AfterExecution(phase) ==> executions == 1)
    && (BeforeExecution(phase) ==> executions == 0)
    && (cancelled ==> phase in {Cancelling, CancelFinishing, Stopped})
  }

  /** The target has only run if Running was published before. */
  predicate RanAfterRunning(executions: nat, p: Records) {
    executions >= 1 ==> |p| >= 2 && p[1].state == Running
  }

  /** The digest in hand is that of the result on disk, which this agent has written. */
  predicate Digest(id: nat, disk: Disk, a: Agent) {
    && (a.digest.Some? ==> disk.result == a.digest)
    && (a.phase in {Written, Finishing} ==> a.digest == Some(Executed(id)))
    && (a.phase == CancelFinishing ==> a.digest == Some(CancelledRun(id)))
    && (a.phase !in {Written, Finishing, CancelFinishing, FailPublishing, FailFinishing, Stopped} ==> a.digest == None)
    && (a.phase in {FailPublishing, FailFinishing} && a.digest.Some? ==> a.digest == Some(FailedRun(id)))
  }

  /** A published record is on disk, and the result it carries is the one on disk. */
  predicate OnDisk(id: nat, disk: Disk, r: StatusRecord) {
    && r.state in disk.status && disk.status[r.state] == r && IsGuestState(r.state)
    && (r.result.Some? ==> disk.result == r.result)
    && (r.state == Completed ==> r.result == Some(Executed(id)))
  }

  predicate AllOnDisk(id: nat, disk: Disk, p: Records) {
    forall i :: 0 <= i < |p| ==> OnDisk(id, disk, p[i])
  }

  /** Only the agent that holds the claim has done anything. */
  predicate Holding(id: nat, disk: Disk, a: Agent) {
    && (a.holds ==> disk.claim == Some(id))
    && (!a.holds ==> a.phase in {Outside, Checked, Opened, Stopped} && a.published == [] && a.executions == 0)
    && (a.phase in {Outside, Checked, Opened} ==> !a.holds)
  }

  predicate LocalOk(run: Run, a: Agent) {
    && a.machine.runId == run.runId
    && Progress(a.phase, ShapeOf(a.published)) && Knows(a.phase, a.machine.seen)
    && Counts(a.phase, a.executions, a.cancelled) && RanAfterRunning(a.executions, a.published)
  }

  predicate AgentOk(run: Run, id: nat, disk: Disk, a: Agent) {
    LocalOk(run, a) && Digest(id, disk, a) && AllOnDisk(id, disk, a.published) && Holding(id, disk, a)
  }

  /** Status records, the claim and the result are only ever added. */
  predicate NothingLost(before: Disk, after: Disk) {
    && (forall s :: s in before.status ==> s in after.status && after.status[s] == before.status[s])
    && (before.result.Some? ==> after.result == before.result)
    && (before.claim.Some? ==> after.claim == before.claim)
  }

  /** What one operation of an agent may add. */
  predicate Grows(id: nat, before: Disk, after: Disk, a: Agent) {
    && NothingLost(before, after)
    && (forall s :: s in after.status && s !in before.status ==> a.holds && after.status[s] in a.published)
    && (before.result.None? && after.result.Some? ==> a.holds)
    && (before.claim.None? && after.claim.Some? ==> after.claim == Some(id))
  }

  // ----- every operation keeps it so -----

  /** Every record lies under the name of its own state. */
  predicate Named(disk: Disk) {
    forall s :: s in disk.status ==> disk.status[s].state == s
  }

  /** What an operation leaves behind is in order, and the disk has only grown. */
  predicate Keeps(run: Run, id: nat, before: Disk, after: (Disk, Agent)) {
    AgentOk(run, id, after.0, after.1) && Grows(id, before, after.0, after.1) && Named(after.0)
  }

  // ----- publishing -----

  function Publishing(phase: Phase): Option<ProtocolState> {
    match phase
    case Attested => Some(GuestReady)
    case Staged => Some(Running)
    case Written => Some(Completed)
    case FailPublishing => Some(Failed)
    case Finishing | FailFinishing | CancelFinishing => Some(ShutdownReady)
    case _ => None
  }

  function AfterPublishing(phase: Phase): Phase {
    match phase
    case Attested => Waiting
    case Staged => Executing
    case Written => Finishing
    case FailPublishing => FailFinishing
    case _ => Stopped
  }

  function AfterRefusal(phase: Phase): Phase {
    if phase == Staged then FailPreparing else Stopped
  }

  function ErrorFor(run: Run, state: ProtocolState): Option<GuestError> {
    if state == Failed then Some(run.failure) else None
  }

  lemma ActPublishes(run: Run, id: nat, disk: Disk, a: Agent, outcome: Outcome)
    requires Publishing(a.phase).Some?
    ensures var state := Publishing(a.phase).value;
            Act(run, id, disk, a, outcome) ==
            Publish(run, disk, a, state, ErrorFor(run, state), outcome, AfterPublishing(a.phase), AfterRefusal(a.phase))
  {}

  lemma PublishedGrows(id: nat, disk: Disk, p: Records, r: StatusRecord)
    requires Named(disk) && AllOnDisk(id, disk, p) && r.state !in disk.status && IsGuestState(r.state)
    requires (r.result.Some? ==> disk.result == r.result) && (r.state == Completed ==> r.result == Some(Executed(id)))
    ensures var disk' := disk.(status := disk.status[r.state := r]);
            AllOnDisk(id, disk', p + [r]) && Named(disk') && r in p + [r]
  {
    var disk' := disk.(status := disk.status[r.state := r]);
    forall i | 0 <= i < |p + [r]|
      ensures OnDisk(id, disk', (p + [r])[i])
    {
      if i < |p| { assert OnDisk(id, disk, p[i]); }
    }
    assert (p + [r])[|p|] == r;
  }

  lemma PublishingProgress(phase: Phase, shape: Option<Shape>, state: ProtocolState)
    requires Progress(phase, shape) && Publishing(phase) == Some(state)
    ensures Progress(AfterPublishing(phase), Extend(shape, state))
    ensures Progress(AfterRefusal(phase), shape) && Progress(AfterRefusal(phase), Extend(shape, state))
  {}

  lemma PublishingKnows(phase: Phase, m: Machine, r: StatusRecord)
    requires Knows(phase, m.seen) && Publishing(phase) == Some(r.state)
    ensures Accepts(m, r) ==> Knows(AfterPublishing(phase), After(m, r).seen)
    ensures Knows(AfterRefusal(phase), m.seen)
  {
    if Accepts(m, r) { CoherentStep(m.seen, r.state); }
  }

  lemma PublishingCounts(phase: Phase, executions: nat, cancelled: bool, p: Records, r: StatusRecord)
    requires Counts(phase, executions, cancelled) && RanAfterRunning(executions, p) && Publishing(phase).Some?
    ensures Counts(AfterPublishing(phase), executions, cancelled) && Counts(AfterRefusal(phase), executions, cancelled)
    ensures RanAfterRunning(executions, p + [r])
  {}

  lemma PublishingDigest(id: nat, disk: Disk, a: Agent)
    requires Digest(id, disk, a) && Publishing(a.phase).Some?
    ensures Digest(id, disk, At(a, AfterPublishing(a.phase))) && Digest(id, disk, At(a, AfterRefusal(a.phase)))
    ensures a.phase == Written ==> a.digest == Some(Executed(id))
  {}

  /** The three ways in which publishing `r` may turn out are all in order. */
  lemma PublishingLocal(run: Run, a: Agent, r: StatusRecord)
    requires LocalOk(run, a) && Publishing(a.phase) == Some(r.state)
    ensures LocalOk(run, At(a, AfterRefusal(a.phase)))
    ensures forall late :: LocalOk(run, At(a, AfterRefusal(a.phase)).(published := a.published + [r], late := late))
    ensures Accepts(a.machine, r) ==>
              LocalOk(run, a.(phase := AfterPublishing(a.phase), machine := After(a.machine, r), published := a.published + [r]))
  {
    ShapeMore(a.published, r);
    PublishingProgress(a.phase, ShapeOf(a.published), r.state);
    PublishingKnows(a.phase, a.machine, r);
    PublishingCounts(a.phase, a.executions, a.cancelled, a.published, r);
  }

  /** Refused, or not linked: nothing is published. */
  lemma RefusedKeeps(run: Run, id: nat, disk: Disk, a: Agent)
    requires Named(disk) && AgentOk(run, id, disk, a) && Publishing(a.phase).Some? && LocalOk(run, At(a, AfterRefusal(a.phase)))
    ensures Keeps(run, id, disk, (disk, At(a, AfterRefusal(a.phase))))
  {
    PublishingDigest(id, disk, a);
  }

  /** Linked: the record is published, whatever the agent makes of it. */
  lemma PublishedOnDisk(id: nat, disk: Disk, a: Agent, r: StatusRecord, after: Agent)
    requires Named(disk) && Digest(id, disk, a) && AllOnDisk(id, disk, a.published) && Holding(id, disk, a)
    requires Publishing(a.phase) == Some(r.state) && r.result == a.digest && r.state !in disk.status
    requires after == a.(phase := after.phase, machine := after.machine, published := a.published + [r], late := after.late)
    requires after.phase == AfterPublishing(a.phase) || after.phase == AfterRefusal(a.phase)
    ensures var disk' := disk.(status := disk.status[r.state := r]);
            && Digest(id, disk', after) && AllOnDisk(id, disk', after.published) && Holding(id, disk', after)
            && Grows(id, disk, disk', after) && Named(disk')
  {
    PublishingDigest(id, disk, a);
    PublishedGrows(id, disk, a.published, r);
  }

  lemma NotPublishedKeeps(run: Run, id: nat, disk: Disk, a: Agent, r: StatusRecord)
    requires Named(disk) && AgentOk(run, id, disk, a) && Publishing(a.phase) == Some(r.state)
    ensures Keeps(run, id, disk, (disk, At(a, AfterRefusal(a.phase))))
  {
    PublishingLocal(run, a, r);
    RefusedKeeps(run, id, disk, a);
  }

  lemma PublishedKeeps(run: Run, id: nat, disk: Disk, a: Agent, r: StatusRecord)
    requires Named(disk) && AgentOk(run, id, disk, a) && Publishing(a.phase) == Some(r.state)
    requires Accepts(a.machine, r) && r.result == a.digest && r.state !in disk.status
    ensures var after := a.(phase := AfterPublishing(a.phase), machine := After(a.machine, r), published := a.published + [r]);
            Keeps(run, id, disk, (disk.(status := disk.status[r.state := r]), after))
  {
    PublishingLocal(run, a, r);
    var after := a.(phase := AfterPublishing(a.phase), machine := After(a.machine, r), published := a.published + [r]);
    PublishedOnDisk(id, disk, a, r, after);
  }

  lemma LateKeeps(run: Run, id: nat, disk: Disk, a: Agent, r: StatusRecord, late: bool)
    requires Named(disk) && AgentOk(run, id, disk, a) && Publishing(a.phase) == Some(r.state)
    requires r.result == a.digest && r.state !in disk.status
    ensures var after := a.(phase := AfterRefusal(a.phase), published := a.published + [r], late := late);
            Keeps(run, id, disk, (disk.(status := disk.status[r.state := r]), after))
  {
    PublishingLocal(run, a, r);
    var after := a.(phase := AfterRefusal(a.phase), published := a.published + [r], late := late);
    PublishedOnDisk(id, disk, a, r, after);
  }

  lemma PublishKeeps(run: Run, id: nat, disk: Disk, a: Agent, r: StatusRecord, outcome: Outcome, result: (Disk, Agent))
    requires Named(disk) && AgentOk(run, id, disk, a) && Publishing(a.phase) == Some(r.state)
    requires r == NextRecord(a.machine, run.request, r.state, ErrorFor(run, r.state), a.digest)
    requires result == Publish(run, disk, a, r.state, ErrorFor(run, r.state), outcome, AfterPublishing(a.phase), AfterRefusal(a.phase))
    ensures Keeps(run, id, disk, result)
  {
    if !Accepts(a.machine, r) || r.state in disk.status || !Linked(outcome) {
      NotPublishedKeeps(run, id, disk, a, r);
    } else if outcome == Fine {
      PublishedKeeps(run, id, disk, a, r);
    } else {
      LateKeeps(run, id, disk, a, r, a.late || r.state == Running);
    }
  }

  lemma PublishingKeeps(run: Run, id: nat, disk: Disk, a: Agent, outcome: Outcome)
    requires Named(disk) && AgentOk(run, id, disk, a) && Publishing(a.phase).Some?
    ensures Keeps(run, id, disk, Act(run, id, disk, a, outcome))
  {
    var state := Publishing(a.phase).value;
    ActPublishes(run, id, disk, a, outcome);
    PublishKeeps(run, id, disk, a, NextRecord(a.machine, run.request, state, ErrorFor(run, state), a.digest), outcome,
                 Act(run, id, disk, a, outcome));
  }

  // ----- writing the result -----

  lemma OnDiskStays(id: nat, before: Disk, after: Disk, p: Records)
    requires AllOnDisk(id, before, p) && NothingLost(before, after)
    ensures AllOnDisk(id, after, p)
  {
    forall i | 0 <= i < |p|
      ensures OnDisk(id, after, p[i])
    {
      assert OnDisk(id, before, p[i]);
    }
  }

  /** The agent moves on, and the result may or may not have been written. */
  lemma MovedKeeps(run: Run, id: nat, disk: Disk, a: Agent, result: Option<Content>, after: Agent)
    requires Named(disk) && AgentOk(run, id, disk, a) && a.holds
    requires result == disk.result || disk.result.None?
    requires after.published == a.published && after.holds && after.phase !in {Outside, Checked, Opened}
    requires LocalOk(run, after) && Digest(id, disk.(result := result), after)
    ensures Keeps(run, id, disk, (disk.(result := result), after))
  {
    OnDiskStays(id, disk, disk.(result := result), a.published);
  }

  lemma WriteKeeps(run: Run, id: nat, disk: Disk, a: Agent, content: Content, outcome: Outcome, next: Phase, otherwise: Phase)
    requires Named(disk) && AgentOk(run, id, disk, a) && a.holds && a.digest == None
    requires LocalOk(run, At(a, next)) && LocalOk(run, At(a, otherwise))
    requires next !in {Outside, Checked, Opened} && otherwise !in {Outside, Checked, Opened}
    requires Digest(id, disk.(result := Some(content)), At(a, next).(digest := Some(content)))
    requires Digest(id, disk.(result := Some(content)), At(a, otherwise).(digest := None))
    requires Digest(id, disk, At(a, otherwise).(digest := None))
    ensures Keeps(run, id, disk, WriteResult(disk, a, content, outcome, next, otherwise))
  {
    var after := WriteResult(disk, a, content, outcome, next, otherwise);
    if disk.result.Some? || !Linked(outcome) {
      MovedKeeps(run, id, disk, a, disk.result, after.1);
    } else {
      MovedKeeps(run, id, disk, a, Some(content), after.1);
    }
  }

  lemma RanKeeps(run: Run, id: nat, disk: Disk, a: Agent, outcome: Outcome)
    requires Named(disk) && AgentOk(run, id, disk, a) && a.phase == Ran
    ensures Keeps(run, id, disk, Act(run, id, disk, a, outcome))
  {
    WriteKeeps(run, id, disk, a, Executed(id), outcome, Written, FailPreparing);
  }

  lemma FailWritingKeeps(run: Run, id: nat, disk: Disk, a: Agent, outcome: Outcome)
    requires Named(disk) && AgentOk(run, id, disk, a) && a.phase == FailWriting
    ensures Keeps(run, id, disk, Act(run, id, disk, a, outcome))
  {
    WriteKeeps(run, id, disk, a, FailedRun(id), outcome, FailPublishing, FailPublishing);
  }

  lemma CancellingKeeps(run: Run, id: nat, disk: Disk, a: Agent, outcome: Outcome)
    requires Named(disk) && AgentOk(run, id, disk, a) && a.phase == Cancelling
    ensures Keeps(run, id, disk, Act(run, id, disk, a, outcome))
  {
    WriteKeeps(run, id, disk, a, CancelledRun(id), outcome, CancelFinishing, Stopped);
  }

  lemma {:induction false} ObservedIsCoherent(runId: string, records: seq<StatusRecord>)
    requires Observed(runId, records).Some? && forall i :: 0 <= i < |records| ==> !IsGuestState(records[i].state)
    ensures Observed(runId, records).value.runId == runId
    ensures Coherent(Observed(runId, records).value.seen) && NoGuestStates(Observed(runId, records).value.seen)
  {
    AcceptedHistoryIsLegal(runId, records);
  }

  /** A host record that is read does not touch what the agent knows of its own states. */
  predicate Reading(run: Run, m: Machine) {
    m.runId == run.runId && Knows(Waiting, m.seen)
  }

  lemma ObserveKeeps(run: Run, m: Option<Machine>, r: StatusRecord)
    requires (m.Some? ==> Reading(run, m.value)) && !IsGuestState(r.state)
    ensures var after := ObserveLive(run, m, r); after.Some? ==> Reading(run, after.value)
  {
    if m.Some? && Accepts(m.value, r) { CoherentStep(m.value.seen, r.state); }
  }

  lemma PollKeeps(run: Run, disk: Disk, m: Machine, start: bool, cancel: bool)
    requires Named(disk) && Reading(run, m)
    ensures var after := Poll(run, disk, m, start, cancel); after.Some? ==> Reading(run, after.value)
  {
    if StartAllowed in disk.status { ObserveKeeps(run, Some(m), disk.status[StartAllowed]); }
    if CancelRequested in disk.status { ObserveKeeps(run, Some(m), disk.status[CancelRequested]); }
    if StartAllowed in disk.status && CancelRequested in disk.status {
      var a, b := disk.status[StartAllowed], disk.status[CancelRequested];
      ObserveKeeps(run, ObserveLive(run, Some(m), a), b);
      ObserveKeeps(run, ObserveLive(run, Some(m), b), a);
    }
  }

  lemma DecideKeeps(run: Run, id: nat, disk: Disk, a: Agent, m: Machine)
    requires Named(disk) && AgentOk(run, id, disk, a) && a.phase == Waiting && Reading(run, m)
    ensures Keeps(run, id, disk, (disk, Decide(a.(machine := m))))
  {}

  lemma StoppingKeeps(run: Run, id: nat, disk: Disk, a: Agent)
    requires Named(disk) && AgentOk(run, id, disk, a) && Legal(a.published)
    ensures Keeps(run, id, disk, (disk, At(a, Stopped)))
  {}

  lemma WaitingKeeps(run: Run, id: nat, disk: Disk, a: Agent, outcome: Outcome)
    requires Named(disk) && AgentOk(run, id, disk, a) && a.phase == Waiting
    ensures Keeps(run, id, disk, Act(run, id, disk, a, outcome))
  {
    StoppingKeeps(run, id, disk, a);
    if CancelRequested in a.machine.seen || StartAllowed in a.machine.seen {
      DecideKeeps(run, id, disk, a, a.machine);
    } else if outcome.Sees? {
      var m := Poll(run, disk, a.machine, outcome.start, outcome.cancel);
      PollKeeps(run, disk, a.machine, outcome.start, outcome.cancel);
      if m.Some? { DecideKeeps(run, id, disk, a, m.value); }
    }
  }

  lemma OpeningKeeps(run: Run, id: nat, disk: Disk, a: Agent, outcome: Outcome)
    requires Named(disk) && AgentOk(run, id, disk, a) && a.phase in {Outside, Checked, Opened}
    ensures Keeps(run, id, disk, Act(run, id, disk, a, outcome))
  {
    if a.phase == Checked && outcome.Opens? && Observed(run.runId, outcome.records).Some? && Readable(run, disk, outcome.records) {
      ObservedIsCoherent(run.runId, outcome.records);
    }
  }

  /** The folders of the output are nobody else's business. */
  lemma OutputKeeps(run: Run, id: nat, disk: Disk, a: Agent, output: Folders, after: Agent)
    requires Named(disk) && AgentOk(run, id, disk, a) && a.holds && after.holds
    requires after.published == a.published && after.digest == a.digest && after.phase !in {Outside, Checked, Opened}
    requires LocalOk(run, after) && Digest(id, disk, after)
    ensures Keeps(run, id, disk, (disk.(output := output), after))
  {
    OnDiskStays(id, disk, disk.(output := output), a.published);
  }

  lemma ExecutingKeeps(run: Run, id: nat, disk: Disk, a: Agent, outcome: Outcome)
    requires Named(disk) && AgentOk(run, id, disk, a) && a.phase == Executing
    ensures Keeps(run, id, disk, RunTarget(disk, a, outcome))
  {
    ShapeStates(a.published);
    var after := RunTarget(disk, a, outcome);
    OutputKeeps(run, id, disk, a, after.0.output, after.1);
  }

  /** Moves that need nothing but what is known already. */
  predicate Follows(from: Phase, to: Phase, seen: set<ProtocolState>) {
    || (from == Claimed && to in {Attested, FailPreparing} && CancelRequested !in seen)
    || (from == Claimed && to == Cancelling && CancelRequested in seen)
    || (from == Started && to in {Staged, FailPreparing})
    || (from == FailPreparing && to in {FailWriting, Stopped})
    || (from == Stopped && to == Stopped)
  }

  lemma FollowsIsOk(from: Phase, to: Phase, shape: Option<Shape>, seen: set<ProtocolState>)
    requires Follows(from, to, seen) && Progress(from, shape) && Knows(from, seen)
    ensures Progress(to, shape) && Knows(to, seen)
  {}

  lemma MoveIsOk(run: Run, id: nat, disk: Disk, a: Agent, to: Phase, cancelled: bool)
    requires LocalOk(run, a) && Digest(id, disk, a) && Follows(a.phase, to, a.machine.seen)
    requires cancelled == (a.cancelled || to == Cancelling)
    ensures LocalOk(run, a.(phase := to, cancelled := cancelled)) && Digest(id, disk, a.(phase := to, cancelled := cancelled))
  {
    FollowsIsOk(a.phase, to, ShapeOf(a.published), a.machine.seen);
  }

  lemma DiscardKeeps(run: Run, id: nat, disk: Disk, a: Agent, outcome: Outcome)
    requires Named(disk) && AgentOk(run, id, disk, a) && a.phase == FailPreparing
    ensures Keeps(run, id, disk, Discard(disk, a, outcome))
  {
    var after := Discard(disk, a, outcome);
    assert after.1 == a.(phase := after.1.phase, cancelled := a.cancelled);
    MoveIsOk(run, id, disk, a, after.1.phase, a.cancelled);
    OutputKeeps(run, id, disk, a, after.0.output, after.1);
  }

  lemma OtherwiseKeeps(run: Run, id: nat, disk: Disk, a: Agent, outcome: Outcome)
    requires Named(disk) && AgentOk(run, id, disk, a) && a.phase in {Claimed, Started}
    ensures Keeps(run, id, disk, Act(run, id, disk, a, outcome))
  {
    var after := Act(run, id, disk, a, outcome).1;
    MoveIsOk(run, id, disk, a, after.phase, after.cancelled);
    OutputKeeps(run, id, disk, a, disk.output, after);
  }

  /** Whatever an agent does next, and however it turns out. */
  lemma ActKeeps(run: Run, id: nat, disk: Disk, a: Agent, outcome: Outcome)
    requires Named(disk) && AgentOk(run, id, disk, a)
    ensures Keeps(run, id, disk, Act(run, id, disk, a, outcome))
  {
    if Publishing(a.phase).Some? {
      PublishingKeeps(run, id, disk, a, outcome);
    } else {
      match a.phase {
        case Waiting => WaitingKeeps(run, id, disk, a, outcome);
        case Ran => RanKeeps(run, id, disk, a, outcome);
        case FailWriting => FailWritingKeeps(run, id, disk, a, outcome);
        case Cancelling => CancellingKeeps(run, id, disk, a, outcome);
        case Outside => OpeningKeeps(run, id, disk, a, outcome);
        case Checked => OpeningKeeps(run, id, disk, a, outcome);
        case Opened => OpeningKeeps(run, id, disk, a, outcome);
        case Executing => ExecutingKeeps(run, id, disk, a, outcome);
        case FailPreparing => DiscardKeeps(run, id, disk, a, outcome);
        case Stopped =>
        case _ => OtherwiseKeeps(run, id, disk, a, outcome);
      }
    }
  }

  // ----- the whole system -----

  /** The guest states on disk are those that the holder of the claim has published. */
  predicate GuestFilesOwned(sys: System) {
    forall s :: s in sys.disk.status && IsGuestState(s) ==>
      && sys.disk.claim.Some? && sys.disk.claim.value < |sys.agents|
      && sys.disk.status[s] in sys.agents[sys.disk.claim.value].published
  }

  predicate SystemOk(run: Run, sys: System) {
    && Named(sys.disk) && GuestFilesOwned(sys)
    && forall i :: 0 <= i < |sys.agents| ==> AgentOk(run, i, sys.disk, sys.agents[i])
  }

  lemma OthersKeep(run: Run, id: nat, before: Disk, after: Disk, a: Agent)
    requires AgentOk(run, id, before, a) && NothingLost(before, after)
    ensures AgentOk(run, id, after, a)
  {
    OnDiskStays(id, before, after, a.published);
  }

  lemma AgentActsKeeps(run: Run, sys: System, id: nat, outcome: Outcome)
    requires SystemOk(run, sys) && id < |sys.agents|
    ensures SystemOk(run, Next(run, sys, AgentActs(id, outcome)))
  {
    var a := sys.agents[id];
    var (disk', a') := Act(run, id, sys.disk, a, outcome);
    ActKeeps(run, id, sys.disk, a, outcome);
    var sys' := System(disk', sys.agents[id := a']);
    forall i | 0 <= i < |sys'.agents|
      ensures AgentOk(run, i, disk', sys'.agents[i])
    {
      if i != id { OthersKeep(run, i, sys.disk, disk', sys.agents[i]); }
    }
    forall s | s in disk'.status && IsGuestState(s)
      ensures disk'.claim.Some? && disk'.claim.value < |sys'.agents| && disk'.status[s] in sys'.agents[disk'.claim.value].published
    {
      if s in sys.disk.status { assert disk'.status[s] == sys.disk.status[s]; }
    }
  }

  lemma HostWritesKeeps(run: Run, sys: System, r: StatusRecord)
    requires SystemOk(run, sys)
    ensures SystemOk(run, Next(run, sys, HostWrites(r)))
  {
    var sys' := Next(run, sys, HostWrites(r));
    forall i | 0 <= i < |sys'.agents|
      ensures AgentOk(run, i, sys'.disk, sys'.agents[i])
    {
      OthersKeep(run, i, sys.disk, sys'.disk, sys.agents[i]);
    }
  }

  lemma FreshIsOk(run: Run, sys: System)
    requires Fresh(run, sys) && Named(sys.disk)
    ensures SystemOk(run, sys)
  {}

  lemma NextKeeps(run: Run, sys: System, e: Event)
    requires SystemOk(run, sys)
    ensures SystemOk(run, Next(run, sys, e)) && |Next(run, sys, e).agents| == |sys.agents|
  {
    match e {
      case HostWrites(r) => HostWritesKeeps(run, sys, r);
      case AgentActs(id, outcome) => if id < |sys.agents| { AgentActsKeeps(run, sys, id, outcome); }
    }
  }

  lemma {:induction false} StaysOk(run: Run, sys: System, events: seq<Event>)
    requires SystemOk(run, sys)
    ensures SystemOk(run, Execute(run, sys, events)) && |Execute(run, sys, events).agents| == |sys.agents|
  {
    if events != [] {
      StaysOk(run, sys, events[..|events| - 1]);
      NextKeeps(run, Execute(run, sys, events[..|events| - 1]), events[|events| - 1]);
    }
  }

  /** Every state that any interleaving of agents and host can lead to is in order. */
  lemma ReachableIsOk(run: Run, sys: System, events: seq<Event>)
    requires Fresh(run, sys) && Named(sys.disk)
    ensures SystemOk(run, Execute(run, sys, events)) && |Execute(run, sys, events).agents| == |sys.agents|
  {
    FreshIsOk(run, sys);
    StaysOk(run, sys, events);
  }

  // ----- what that means -----

  function TotalExecutions(agents: seq<Agent>): nat {
    if agents == [] then 0 else TotalExecutions(agents[..|agents| - 1]) + agents[|agents| - 1].executions
  }

  lemma {:induction false} OnlyHolderExecutes(run: Run, disk: Disk, agents: seq<Agent>)
    requires forall i :: 0 <= i < |agents| ==> AgentOk(run, i, disk, agents[i])
    ensures TotalExecutions(agents) <= 1
    ensures TotalExecutions(agents) == 1 ==> disk.claim.Some? && disk.claim.value < |agents|
  {
    if agents != [] {
      var rest := agents[..|agents| - 1];
      assert forall i :: 0 <= i < |rest| ==> rest[i] == agents[i];
      OnlyHolderExecutes(run, disk, rest);
    }
  }

  /**
   For every number of agents, every interleaving and every pattern of failures: at most one agent
   gets the claim, and the target is executed at most once.
   */
  lemma AtMostOneExecution(run: Run, sys: System, events: seq<Event>)
    requires Fresh(run, sys) && Named(sys.disk)
    ensures var agents := Execute(run, sys, events).agents;
            && (forall i, j :: 0 <= i < |agents| && 0 <= j < |agents| && agents[i].holds && agents[j].holds ==> i == j)
            && TotalExecutions(agents) <= 1
  {
    ReachableIsOk(run, sys, events);
    OnlyHolderExecutes(run, Execute(run, sys, events).disk, Execute(run, sys, events).agents);
  }

  /**
   What an agent has published is a beginning of a legal sequence; it has executed the target only
   after it published Running, and never after it decided to cancel.
   */
  lemma PublishedIsLegal(run: Run, sys: System, events: seq<Event>, i: nat)
    requires Fresh(run, sys) && Named(sys.disk) && i < |sys.agents|
    ensures |Execute(run, sys, events).agents| == |sys.agents|
    ensures var a := Execute(run, sys, events).agents[i];
            && Legal(a.published)
            && (a.executions > 0 ==> |a.published| >= 2 && a.published[1].state == Running)
            && (a.cancelled ==> a.executions == 0)
  {
    ReachableIsOk(run, sys, events);
    ProgressIsLegal(Execute(run, sys, events).agents[i]);
  }

  lemma ProgressIsLegal(a: Agent)
    requires Progress(a.phase, ShapeOf(a.published))
    ensures Legal(a.published)
  {}

  /** A Completed record on disk carries the digest of the result on disk, written after the one execution. */
  lemma CompletedFollowsResult(run: Run, sys: System, events: seq<Event>)
    requires Fresh(run, sys) && Named(sys.disk) && Completed in Execute(run, sys, events).disk.status
    ensures var after := Execute(run, sys, events);
            && after.disk.claim.Some? && after.disk.claim.value < |after.agents|
            && after.disk.status[Completed].result == after.disk.result == Some(Executed(after.disk.claim.value))
  {
    ReachableIsOk(run, sys, events);
    var after := Execute(run, sys, events);
    var holder := after.disk.claim.value;
    var i :| 0 <= i < |after.agents[holder].published| && after.agents[holder].published[i] == after.disk.status[Completed];
    assert OnDisk(holder, after.disk, after.agents[holder].published[i]);
  }

  /** The agent's own order is never what the machine refuses: only the last sequence number can be. */
  lemma GuardRefusesOnlyAtTheLimit(run: Run, id: nat, disk: Disk, a: Agent)
    requires AgentOk(run, id, disk, a) && Publishing(a.phase).Some?
    ensures var state := Publishing(a.phase).value;
            var r := NextRecord(a.machine, run.request, state, ErrorFor(run, state), a.digest);
            Accepts(a.machine, r) <==> a.machine.last < U64_MAX
  {}
}
