/**
 The status records that host and guest exchange, the state machine that checks them
 (`src/sandbox/hyperv/guest_protocol.rs`), and the publisher that writes the guest's records
 (`guest-agent/src/artifacts.rs`).
 */
module GuestProtocol {
  import opened Basics

  datatype ProtocolState =
    HostReady | RequestWritten | StartAllowed | CancelRequested |
    GuestReady | Running | Completed | Failed | ShutdownReady

  predicate IsGuestState(s: ProtocolState) {
    s in {GuestReady, Running, Completed, Failed, ShutdownReady}
  }

  datatype GuestError = GuestError(stage: string, code: string, message: string)

  /** What `result.json` may hold; a digest is represented by the content it is the digest of. */
  datatype Content = Executed(agent: nat) | FailedRun(agent: nat) | CancelledRun(agent: nat)

  datatype StatusRecord = StatusRecord(
    runId: string, sequence: u64, state: ProtocolState,
    request: Option<string>, result: Option<Content>, error: Option<GuestError>)

  /** `StatusRecord::validate`, without the syntax of digests and texts. */
  predicate ValidRecord(r: StatusRecord) {
    && r.sequence != 0
    && r.request.Some?
    && (r.state == Failed <==> r.error.Some?)
    && (r.state == Completed ==> r.result.Some?)
  }

  // ----- the machine as a value -----

  datatype Machine = Machine(runId: string, seen: set<ProtocolState>, last: u64)

  predicate Terminal(seen: set<ProtocolState>) {
    Completed in seen || Failed in seen || CancelRequested in seen || ShutdownReady in seen
  }

  /** `validate_prerequisites`. */
  predicate Prerequisites(seen: set<ProtocolState>, state: ProtocolState) {
    && (Terminal(seen) ==> state == ShutdownReady)
    && match state
       case HostReady => seen == {}
       case RequestWritten => HostReady in seen
       case StartAllowed => RequestWritten in seen && Running !in seen
       case GuestReady => RequestWritten in seen
       case Running => GuestReady in seen && StartAllowed in seen
       case Completed => Running in seen
       case Failed => RequestWritten in seen
       case CancelRequested => RequestWritten in seen && Completed !in seen && Failed !in seen
       case ShutdownReady => Completed in seen || Failed in seen || CancelRequested in seen
  }

  predicate Accepts(m: Machine, r: StatusRecord) {
    && ValidRecord(r) && r.runId == m.runId && r.sequence > m.last
    && r.state !in m.seen && Prerequisites(m.seen, r.state)
  }

  function After(m: Machine, r: StatusRecord): Machine {
    m.(seen := m.seen + {r.state}, last := r.sequence)
  }

  // ----- every accepted history -----

  /** The machine after a list of records, if it accepted them all. */
  function Observed(runId: string, records: seq<StatusRecord>): Option<Machine> {
    if records == [] then Some(Machine(runId, {}, 0))
    else
      var before := Observed(runId, records[..|records| - 1]);
      var r := records[|records| - 1];
      if before.Some? && Accepts(before.value, r) then Some(After(before.value, r)) else None
  }

  /** What every accepted set of states satisfies. */
  predicate Coherent(seen: set<ProtocolState>) {
    && (seen != {} ==> HostReady in seen)
    && ((StartAllowed in seen || GuestReady in seen || Failed in seen || CancelRequested in seen) ==> RequestWritten in seen)
    && (Running in seen ==> GuestReady in seen && StartAllowed in seen)
    && (Completed in seen ==> Running in seen)
    && !(Completed in seen && Failed in seen)
    && (CancelRequested in seen ==> Completed !in seen && Failed !in seen)
    && (ShutdownReady in seen ==> Completed in seen || Failed in seen || CancelRequested in seen)
  }

  lemma CoherentStep(seen: set<ProtocolState>, state: ProtocolState)
    requires Coherent(seen) && state !in seen && Prerequisites(seen, state)
    ensures Coherent(seen + {state})
  {}

  /**
   Prerequisites and coherence are the same: in a coherent history, what may come next is what leaves it
   coherent, and after a terminal state nothing but the shutdown.
   */
  lemma PrerequisitesAreCoherence(seen: set<ProtocolState>, state: ProtocolState)
    requires Coherent(seen) && state !in seen
    ensures Prerequisites(seen, state) <==> Coherent(seen + {state}) && (Terminal(seen) ==> state == ShutdownReady)
  {}

  /** One record may come before another one in an accepted history. */
  predicate Precedes(a: StatusRecord, b: StatusRecord) {
    && a.sequence < b.sequence && a.state != b.state && a.state != ShutdownReady
    && (Terminal({a.state}) ==> b.state == ShutdownReady)
  }

  /** The records of an accepted history come in order, each state once, the end only at the end. */
  predicate LegalHistory(records: seq<StatusRecord>) {
    forall i, j :: 0 <= i < j < |records| ==> Precedes(records[i], records[j])
  }

  /** The machine has seen exactly the states of the records. */
  predicate HasSeen(m: Machine, records: seq<StatusRecord>) {
    && (forall i :: 0 <= i < |records| ==> records[i].state in m.seen && records[i].sequence <= m.last)
    && (forall s :: s in m.seen ==> exists i :: 0 <= i < |records| && records[i].state == s)
  }

  lemma HasSeenStep(m: Machine, records: seq<StatusRecord>, r: StatusRecord)
    requires HasSeen(m, records) && m.last < r.sequence
    ensures HasSeen(After(m, r), records + [r])
  {
    var all := records + [r];
    forall s | s in m.seen + {r.state}
      ensures exists i :: 0 <= i < |all| && all[i].state == s
    {
      if s in m.seen {
        var i :| 0 <= i < |records| && records[i].state == s;
        assert all[i].state == s;
      } else {
        assert all[|records|].state == s;
      }
    }
  }

  lemma LegalStep(m: Machine, records: seq<StatusRecord>, r: StatusRecord)
    requires HasSeen(m, records) && Coherent(m.seen) && LegalHistory(records) && Accepts(m, r)
    ensures LegalHistory(records + [r])
  {
    forall i | 0 <= i < |records|
      ensures Precedes(records[i], r)
    {
      assert records[i].state in m.seen;
    }
  }

  function StatesOf(records: seq<StatusRecord>): (states: set<ProtocolState>)
    ensures forall s :: s in states <==> exists i :: 0 <= i < |records| && records[i].state == s
  {
    set i | 0 <= i < |records| :: records[i].state
  }

  /** Every state comes after its prerequisites. */
  predicate Justified(records: seq<StatusRecord>) {
    forall j :: 0 <= j < |records| ==> Prerequisites(StatesOf(records[..j]), records[j].state)
  }

  lemma JustifiedStep(m: Machine, records: seq<StatusRecord>, r: StatusRecord)
    requires HasSeen(m, records) && Justified(records) && Accepts(m, r)
    ensures Justified(records + [r])
  {
    var all := records + [r];
    forall j | 0 <= j < |all| ensures Prerequisites(StatesOf(all[..j]), all[j].state) {
      if j < |records| {
        assert all[..j] == records[..j] && all[j] == records[j];
      } else {
        assert all[..j] == records;
        assert StatesOf(records) == m.seen;
      }
    }
  }

  /** The machine of a legal history. */
  predicate Tracks(m: Machine, runId: string, records: seq<StatusRecord>) {
    m.runId == runId && Coherent(m.seen) && HasSeen(m, records) && LegalHistory(records) && Justified(records)
  }

  lemma TracksStep(m: Machine, runId: string, start: seq<StatusRecord>, r: StatusRecord)
    requires Tracks(m, runId, start) && Accepts(m, r)
    ensures Tracks(After(m, r), runId, start + [r])
  {
    CoherentStep(m.seen, r.state);
    HasSeenStep(m, start, r);
    LegalStep(m, start, r);
    JustifiedStep(m, start, r);
  }

  /**
   Whatever records come in whatever order, an accepted list of them is legal, and the machine knows
   it: each state at most once with its prerequisites before it, sequences increasing, nothing but
   the shutdown after a terminal state, and nothing after the shutdown.
   */
  lemma {:induction false} AcceptedHistoryIsLegal(runId: string, records: seq<StatusRecord>)
    requires Observed(runId, records).Some?
    ensures Tracks(Observed(runId, records).value, runId, records)
  {
    if records != [] {
      var start, r := records[..|records| - 1], records[|records| - 1];
      AcceptedHistoryIsLegal(runId, start);
      TracksStep(Observed(runId, start).value, runId, start, r);
      assert start + [r] == records;
    }
  }

  /** A record of the run with its number and request, an error exactly if it reports a failure, and a result if it must. */
  predicate Belongs(runId: string, r: StatusRecord) {
    && r.runId == runId && r.sequence > 0 && r.request != None
    && (r.error != None <==> r.state == Failed) && (r.state == Completed ==> r.result != None)
  }

  predicate AllValid(runId: string, records: seq<StatusRecord>) {
    forall j :: 0 <= j < |records| ==> Belongs(runId, records[j])
  }

  /** What makes a list of records acceptable, said without a machine. */
  predicate WellFormedHistory(runId: string, records: seq<StatusRecord>) {
    AllValid(runId, records) && LegalHistory(records) && Justified(records)
  }

  lemma PrefixJustified(records: seq<StatusRecord>, start: seq<StatusRecord>, r: StatusRecord)
    requires records == start + [r] && Justified(records)
    ensures Justified(start)
  {
    forall j | 0 <= j < |start| ensures Prerequisites(StatesOf(start[..j]), start[j].state) {
      assert start[..j] == records[..j] && start[j] == records[j];
    }
  }

  lemma PrefixLegal(records: seq<StatusRecord>, start: seq<StatusRecord>, r: StatusRecord)
    requires records == start + [r] && LegalHistory(records)
    ensures LegalHistory(start)
  {
    forall i, j | 0 <= i < j < |start| ensures Precedes(start[i], start[j]) {
      assert start[i] == records[i] && start[j] == records[j];
    }
  }

  lemma PrefixValid(runId: string, records: seq<StatusRecord>, start: seq<StatusRecord>, r: StatusRecord)
    requires records == start + [r]
    ensures AllValid(runId, records) <==> AllValid(runId, start) && Belongs(runId, r)
  {
    assert records[|start|] == r;
    assert forall j :: 0 <= j < |start| ==> start[j] == records[j];
  }

  lemma {:induction false} AcceptedAreValid(runId: string, records: seq<StatusRecord>)
    requires Observed(runId, records).Some?
    ensures Observed(runId, records).value.runId == runId && AllValid(runId, records)
  {
    if records != [] {
      var start, r := records[..|records| - 1], records[|records| - 1];
      AcceptedAreValid(runId, start);
      PrefixValid(runId, records, start, r);
    }
  }

  /** The machine accepts exactly the well-formed histories. */
  lemma {:induction false} AcceptsExactlyWellFormed(runId: string, records: seq<StatusRecord>)
    ensures Observed(runId, records).Some? <==> WellFormedHistory(runId, records)
  {
    if Observed(runId, records).Some? {
      AcceptedIsWellFormed(runId, records);
    } else if WellFormedHistory(runId, records) {
      var start, r := records[..|records| - 1], records[|records| - 1];
      PrefixIsWellFormed(runId, records, start, r);
      AcceptsExactlyWellFormed(runId, start);
      LastIsAccepted(runId, start, r, records);
    }
  }

  lemma AcceptedIsWellFormed(runId: string, records: seq<StatusRecord>)
    requires Observed(runId, records).Some?
    ensures WellFormedHistory(runId, records)
  {
    AcceptedAreValid(runId, records);
    AcceptedHistoryIsLegal(runId, records);
  }

  lemma PrefixIsWellFormed(runId: string, records: seq<StatusRecord>, start: seq<StatusRecord>, r: StatusRecord)
    requires records == start + [r] && WellFormedHistory(runId, records)
    ensures WellFormedHistory(runId, start)
  {
    PrefixValid(runId, records, start, r);
    PrefixLegal(records, start, r);
    PrefixJustified(records, start, r);
  }

  lemma LastIsAccepted(runId: string, start: seq<StatusRecord>, r: StatusRecord, records: seq<StatusRecord>)
    requires Observed(runId, start).Some? && records == start + [r] && WellFormedHistory(runId, records)
    ensures Accepts(Observed(runId, start).value, r)
  {
    var m := Observed(runId, start).value;
    AcceptedHistoryIsLegal(runId, start);
    LastSequence(runId, start);
    assert records[|start|] == r && records[..|start|] == start;
    assert StatesOf(start) == m.seen;
    forall i | 0 <= i < |start| ensures Precedes(start[i], r) { assert records[i] == start[i]; }
  }

  lemma LastSequence(runId: string, records: seq<StatusRecord>)
    requires Observed(runId, records).Some?
    ensures Observed(runId, records).value.last == if records == [] then 0 else records[|records| - 1].sequence
  {}

  // ----- the machine and the publisher as objects -----

  class ProtocolStateMachine {
    const runId: string
    var seen: set<ProtocolState>
    var lastSequence: u64

    constructor (runId: string)
      ensures Value() == Machine(runId, {}, 0)
    {
      this.runId := runId;
      seen := {};
      lastSequence := 0;
    }

    constructor Clone(other: ProtocolStateMachine)
      ensures Value() == other.Value()
    {
      runId := other.runId;
      seen := other.seen;
      lastSequence := other.lastSequence;
    }

    function Value(): Machine
      reads this
    {
      Machine(runId, seen, lastSequence)
    }

    method Observe(record: StatusRecord) returns (ok: bool)
      modifies this
      ensures ok <==> Accepts(old(Value()), record)
      ensures Value() == if ok then After(old(Value()), record) else old(Value())
    {
      if !ValidRecord(record) || record.runId != runId || record.sequence <= lastSequence || record.state in seen {
        return false;
      }
      if !Prerequisites(seen, record.state) {
        return false;
      }
      lastSequence := record.sequence;
      seen := seen + {record.state};
      return true;
    }
  }

  /** What a call of `write_atomic_json_new` may run into. */
  datatype Fault = NoFault | BeforeLink | AfterLink

  /** The status directory: one file per state. */
  class StatusDirectory {
    var files: map<ProtocolState, StatusRecord>

    constructor ()
      ensures files == map[]
    {
      files := map[];
    }

    /** A hard link never replaces a file; an error after it leaves the new file behind. */
    method WriteNew(record: StatusRecord, fault: Fault) returns (ok: bool)
      modifies this
      ensures ok <==> record.state !in old(files) && fault == NoFault
      ensures files == if record.state !in old(files) && fault != BeforeLink then old(files)[record.state := record] else old(files)
    {
      if fault == BeforeLink || record.state in files {
        return false;
      }
      files := files[record.state := record];
      return fault == NoFault;
    }
  }

  function NextRecord(m: Machine, request: string, state: ProtocolState, error: Option<GuestError>, result: Option<Content>): StatusRecord {
    StatusRecord(m.runId, SaturatingAdd(m.last, 1), state, Some(request), result, error)
  }

  class StatusPublisher {
    const directory: StatusDirectory
    const requestSha256: string
    var machine: ProtocolStateMachine

    constructor (directory: StatusDirectory, request: string, machine: ProtocolStateMachine)
      ensures this.directory == directory && requestSha256 == request && this.machine == machine
    {
      this.directory := directory;
      requestSha256 := request;
      this.machine := machine;
    }

    /** The record is on disk only if the machine accepts it; the machine moves on only if the write succeeds. */
    method Publish(state: ProtocolState, error: Option<GuestError>, result: Option<Content>, fault: Fault) returns (ok: bool)
      modifies this`machine, directory
      ensures var record := NextRecord(old(machine.Value()), requestSha256, state, error, result);
              var published := Accepts(old(machine.Value()), record) && state !in old(directory.files) && fault != BeforeLink;
              && (ok <==> published && fault == NoFault)
              && directory.files == (if published then old(directory.files)[state := record] else old(directory.files))
              && machine.Value() == (if ok then After(old(machine.Value()), record) else old(machine.Value()))
      ensures machine == old(machine) || fresh(machine)
    {
      var record := NextRecord(machine.Value(), requestSha256, state, error, result);
      var next := new ProtocolStateMachine.Clone(machine);
      var accepted := next.Observe(record);
      if !accepted {
        return false;
      }
      ok := directory.WriteNew(record, fault);
      if ok {
        machine := next;
      }
    }
  }
}
