/**
 The budgets of one detection session (`guest-agent/src/detection.rs`): what is scanned once, what
 is collected, and what is written.
 */
module ScanSession {
  import opened Basics
  import opened Ordering
  import opened Text

  type Bytes = seq<u8>

  // ----- configuration -----

  datatype Scanner = Yara | Pe | Capa | Network

  const STAGES: seq<Scanner> := [Yara, Pe, Capa, Network]

  function Name(s: Scanner): string {
    match s
    case Yara => "yara"
    case Pe => "pe"
    case Capa => "capa"
    case Network => "network"
  }

  const MAX_FILES: nat := 64

  datatype Stage = Stage(enabled: bool, executable: bool, files: nat, inputBytes: u64, outputBytes: u64)

  datatype Config = Config(
    yara: Stage, pe: Stage, capa: Stage, network: Stage,
    totalTimeout: nat, maxCaptureBytes: u64, maxTotalOutputBytes: u64)

  function StageOf(c: Config, s: Scanner): Stage {
    match s
    case Yara => c.yara
    case Pe => c.pe
    case Capa => c.capa
    case Network => c.network
  }

  /** The limits that `DetectionConfig::validate` puts on a configuration, as far as they matter here. */
  predicate ValidConfig(c: Config) {
    && (forall s :: 1 <= StageOf(c, s).files <= MAX_FILES && StageOf(c, s).outputBytes <= 16 * 1024 * 1024)
    && 1 <= c.maxCaptureBytes <= 128 * 1024 * 1024
    && 16384 <= c.maxTotalOutputBytes <= 32 * 1024 * 1024
  }

  function Min(a: nat, b: nat): nat { if a <= b then a else b }

  /** The smallest file limit of the four stages. */
  function FewestFiles(c: Config): nat {
    Min(Min(c.yara.files, c.pe.files), Min(c.capa.files, c.network.files))
  }

  // ----- the manifest -----

  datatype Kind = Detection(scanner: Scanner) | TargetCreated

  datatype Artifact = Artifact(path: string, size: nat, kind: Kind)

  function DetectionName(ordinal: nat, s: Scanner): string {
    Padded(ordinal, 4) + "-" + Name(s) + ".json"
  }

  function DetectionPath(ordinal: nat, s: Scanner): string {
    "detection/" + DetectionName(ordinal, s)
  }

  function ExtractedName(hash: string, extension: string): string {
    hash + "." + extension
  }

  function ExtractedPath(hash: string, extension: string): string {
    "extracted-files/" + ExtractedName(hash, extension)
  }

  // ----- the session as a value -----

  type Key = (Scanner, string)

  /** `log` lists the executions in the order in which they were begun. */
  datatype State = State(
    elapsed: nat, bytes: nat, ordinal: nat, collectedBytes: nat,
    executions: set<Key>, artifacts: seq<Artifact>, log: seq<Key>)

  function Detections(artifacts: seq<Artifact>): nat {
    if artifacts == [] then 0
    else Detections(artifacts[..|artifacts| - 1]) + if artifacts[|artifacts| - 1].kind.Detection? then 1 else 0
  }

  function DetectionBytes(artifacts: seq<Artifact>): nat {
    if artifacts == [] then 0
    else
      var last := artifacts[|artifacts| - 1];
      DetectionBytes(artifacts[..|artifacts| - 1]) + if last.kind.Detection? then last.size else 0
  }

  function CollectedBytes(artifacts: seq<Artifact>): nat {
    if artifacts == [] then 0
    else
      var last := artifacts[|artifacts| - 1];
      CollectedBytes(artifacts[..|artifacts| - 1]) + if last.kind.TargetCreated? then last.size else 0
  }

  function OfScanner(executions: set<Key>, s: Scanner): set<Key> {
    set e | e in executions && e.0 == s
  }

  /** A detection file is numbered by the detection files before it; a collected file is new. */
  ghost predicate WellNamed(artifacts: seq<Artifact>, i: nat)
    requires i < |artifacts|
  {
    match artifacts[i].kind
    case Detection(s) => artifacts[i].path == DetectionPath(Detections(artifacts[..i]), s)
    case TargetCreated =>
      && (exists hash, extension :: |hash| == 64 && artifacts[i].path == ExtractedPath(hash, extension))
      && forall j :: 0 <= j < i ==> artifacts[j].path != artifacts[i].path
  }

  ghost predicate AllWellNamed(artifacts: seq<Artifact>) {
    forall i :: 0 <= i < |artifacts| ==> WellNamed(artifacts, i)
  }

  ghost predicate Logged(s: State) {
    && (forall e :: e in s.executions <==> e in s.log)
    && (forall i, j :: 0 <= i < j < |s.log| ==> s.log[i] != s.log[j])
  }

  predicate WithinFileLimits(c: Config, executions: set<Key>) {
    forall s :: |OfScanner(executions, s)| <= StageOf(c, s).files
  }

  /** What every call keeps, whatever goes wrong in it. */
  ghost predicate Valid(c: Config, s: State) {
    && s.bytes == DetectionBytes(s.artifacts) <= c.maxTotalOutputBytes
    && s.collectedBytes == CollectedBytes(s.artifacts) <= c.maxCaptureBytes
    && s.ordinal == Detections(s.artifacts) <= |s.executions|
    && WithinFileLimits(c, s.executions) && Logged(s) && AllWellNamed(s.artifacts)
  }

  // ----- steps -----

  predicate Admitted(c: Config, s: State, scanner: Scanner, target: string) {
    (scanner, target) !in s.executions && |OfScanner(s.executions, scanner)| < StageOf(c, scanner).files
  }

  function Begin(s: State, key: Key): State {
    s.(executions := s.executions + {key}, log := s.log + [key])
  }

  function WithDetection(s: State, scanner: Scanner, size: nat): State {
    s.(bytes := s.bytes + size, ordinal := s.ordinal + 1,
       artifacts := s.artifacts + [Artifact(DetectionPath(s.ordinal, scanner), size, Detection(scanner))])
  }

  function WithCollected(s: State, path: string, size: nat): State {
    s.(collectedBytes := s.collectedBytes + size, artifacts := s.artifacts + [Artifact(path, size, TargetCreated)])
  }

  lemma BeginKeeps(c: Config, s: State, scanner: Scanner, target: string)
    requires Valid(c, s) && Admitted(c, s, scanner, target)
    ensures Valid(c, Begin(s, (scanner, target))) && s.ordinal < |Begin(s, (scanner, target)).executions|
  {
    var key := (scanner, target);
    var t := Begin(s, key);
    OneMore(c, s.executions, scanner, target);
    assert key !in s.log;
  }

  lemma OneMore(c: Config, executions: set<Key>, scanner: Scanner, target: string)
    requires WithinFileLimits(c, executions) && |OfScanner(executions, scanner)| < StageOf(c, scanner).files
    ensures WithinFileLimits(c, executions + {(scanner, target)})
  {
    var more := executions + {(scanner, target)};
    forall x ensures |OfScanner(more, x)| <= StageOf(c, x).files {
      if x == scanner {
        assert OfScanner(more, x) == OfScanner(executions, x) + {(scanner, target)};
      } else {
        assert OfScanner(more, x) == OfScanner(executions, x);
      }
    }
  }

  lemma AppendNamed(artifacts: seq<Artifact>, a: Artifact)
    requires AllWellNamed(artifacts) && WellNamed(artifacts + [a], |artifacts|)
    ensures AllWellNamed(artifacts + [a])
  {
    var more := artifacts + [a];
    forall i | 0 <= i < |artifacts|
      ensures WellNamed(more, i)
    {
      assert WellNamed(artifacts, i) && more[i] == artifacts[i] && more[..i] == artifacts[..i];
    }
  }

  lemma WithDetectionKeeps(c: Config, s: State, scanner: Scanner, size: nat)
    requires Valid(c, s) && s.ordinal < |s.executions| && s.bytes + size <= c.maxTotalOutputBytes
    ensures Valid(c, WithDetection(s, scanner, size))
  {
    var a := Artifact(DetectionPath(s.ordinal, scanner), size, Detection(scanner));
    assert (s.artifacts + [a])[..|s.artifacts|] == s.artifacts;
    AppendNamed(s.artifacts, a);
  }

  lemma WithCollectedKeeps(c: Config, s: State, hash: string, extension: string, size: nat)
    requires Valid(c, s) && |hash| == 64 && s.collectedBytes + size <= c.maxCaptureBytes
    requires forall i :: 0 <= i < |s.artifacts| ==> s.artifacts[i].path != ExtractedPath(hash, extension)
    ensures Valid(c, WithCollected(s, ExtractedPath(hash, extension), size))
  {
    var a := Artifact(ExtractedPath(hash, extension), size, TargetCreated);
    assert (s.artifacts + [a])[..|s.artifacts|] == s.artifacts;
    AppendNamed(s.artifacts, a);
  }

  // ----- what follows -----

  lemma {:induction false} DetectionsGrow(artifacts: seq<Artifact>, i: nat, j: nat)
    requires i <= j <= |artifacts|
    ensures Detections(artifacts[..i]) <= Detections(artifacts[..j])
    ensures i < j && artifacts[i].kind.Detection? ==> Detections(artifacts[..i]) < Detections(artifacts[..j])
    decreases j
  {
    if i < j {
      assert artifacts[..j][..j - 1] == artifacts[..j - 1];
      DetectionsGrow(artifacts, i, j - 1);
    }
  }

  lemma FourDigits(n: nat)
    requires n < 10000
    ensures |Padded(n, 4)| == 4
  {
    assert |Padded(n / 10000, 0)| == 0;
    assert |Padded(n / 1000, 1)| == 1;
    assert |Padded(n / 100, 2)| == 2;
    assert |Padded(n / 10, 3)| == 3;
  }

  lemma DetectionPathsDiffer(m: nat, a: Scanner, n: nat, b: Scanner)
    requires m < n < 10000
    ensures DetectionPath(m, a) != DetectionPath(n, b)
  {
    if DetectionPath(m, a) == DetectionPath(n, b) {
      FourDigits(m);
      FourDigits(n);
      assert DetectionPath(m, a)[10..14] == Padded(m, 4);
      assert DetectionPath(n, b)[10..14] == Padded(n, 4);
      PaddedInjective(m, n, 4);
    }
  }

  /** Every scanner has its own limit, so there are never more executions than all of them allow. */
  lemma ExecutionsAreFew(c: Config, executions: set<Key>)
    requires ValidConfig(c) && WithinFileLimits(c, executions)
    ensures |executions| <= 4 * MAX_FILES
    ensures forall s :: |OfScanner(executions, s)| < StageOf(c, s).files ==> |executions| < 4 * MAX_FILES
  {
    FourScanners(executions);
    forall s ensures |OfScanner(executions, s)| <= StageOf(c, s).files <= MAX_FILES {}
  }

  lemma FourScanners(executions: set<Key>)
    ensures |executions| == |OfScanner(executions, Yara)| + |OfScanner(executions, Pe)|
                            + |OfScanner(executions, Capa)| + |OfScanner(executions, Network)|
  {
    var y, p, k, n := OfScanner(executions, Yara), OfScanner(executions, Pe), OfScanner(executions, Capa), OfScanner(executions, Network);
    forall e | e in executions ensures e in (y + p) + (k + n) { match e.0 { case _ => } }
    assert executions == (y + p) + (k + n);
    FourDisjoint(y, p, k, n);
  }

  lemma FourDisjoint<T>(a: set<T>, b: set<T>, c: set<T>, d: set<T>)
    requires a !! b && c !! d && (a + b) !! (c + d)
    ensures |(a + b) + (c + d)| == |a| + |b| + |c| + |d|
  {
    DisjointSum(a, b);
    DisjointSum(c, d);
    DisjointSum(a + b, c + d);
  }

  lemma DisjointSum<T>(a: set<T>, b: set<T>)
    requires a !! b
    ensures |a + b| == |a| + |b|
  {}

  /** The number of the next detection file fits the names that a failing run may discard. */
  lemma OrdinalIsDiscardable(c: Config, s: State, scanner: Scanner, target: string)
    requires ValidConfig(c) && Valid(c, s) && Admitted(c, s, scanner, target)
    ensures s.ordinal < 256
  {
    ExecutionsAreFew(c, s.executions);
  }

  /** No two entries of the manifest have the same path. */
  lemma PathsAreDistinct(c: Config, s: State, i: nat, j: nat)
    requires ValidConfig(c) && Valid(c, s) && i < j < |s.artifacts|
    ensures s.artifacts[i].path != s.artifacts[j].path
  {
    var a, b := s.artifacts[i], s.artifacts[j];
    assert WellNamed(s.artifacts, i) && WellNamed(s.artifacts, j);
    if a.kind.Detection? && b.kind.Detection? {
      DetectionsGrow(s.artifacts, i, j);
      DetectionsGrow(s.artifacts, j, |s.artifacts|);
      assert s.artifacts[..|s.artifacts|] == s.artifacts;
      ExecutionsAreFew(c, s.executions);
      DetectionPathsDiffer(Detections(s.artifacts[..i]), a.kind.scanner, Detections(s.artifacts[..j]), b.kind.scanner);
    } else if b.kind.Detection? {
      var hash, extension :| |hash| == 64 && a.path == ExtractedPath(hash, extension);
      assert a.path[0] == 'e' && b.path[0] == 'd';
    }
  }

  lemma NewIsValid(c: Config, s: State)
    requires ValidConfig(c) && s == State(0, 0, 0, 0, {}, [], [])
    ensures Valid(c, s)
  {
    forall scanner ensures OfScanner(s.executions, scanner) == {} {}
  }

  /** The files of a session, by name. */
  lemma FilesAreNamed(ordinal: nat, hash: string, extension: string)
    ensures DetectionPath(ordinal, Yara) == "detection/" + (Padded(ordinal, 4) + "-" + "yara" + ".json")
    ensures DetectionPath(ordinal, Pe) == "detection/" + (Padded(ordinal, 4) + "-" + "pe" + ".json")
    ensures DetectionPath(ordinal, Capa) == "detection/" + (Padded(ordinal, 4) + "-" + "capa" + ".json")
    ensures DetectionPath(ordinal, Network) == "detection/" + (Padded(ordinal, 4) + "-" + "network" + ".json")
    ensures ExtractedPath(hash, extension) == "extracted-files/" + (hash + "." + extension)
  {}

  // ----- the session as an object -----

  datatype Status = Disabled | TimedOut | Unavailable | Partial | Failed

  /** What running a scanner comes to: its output, or a status and a code to report instead. */
  datatype Executed = Output(bytes: Bytes) | Failure(status: Status, code: string)

  /** What the world contributes to one stage: time spent, the scanner, and whether files can be written. */
  datatype StageRun = StageRun(spent: nat, executed: Executed, folderReady: bool, written: bool)

  /** The serialized report of a stage that has nothing to say but its status. */
  type Fallback = (Scanner, string, string, Status, string) -> Bytes

  /** A scanner speaks for itself only where it was enabled, configured, in time and given a capture of known size. */
  predicate Runs(c: Config, elapsed: nat, scanner: Scanner, capture: bool, length: Option<nat>) {
    && StageOf(c, scanner).enabled && StageOf(c, scanner).executable && elapsed < c.totalTimeout
    && (capture ==> length.Some? && length.value <= c.maxCaptureBytes)
  }

  /** The status that stands in for a scanner that does not run: the first reason counts. */
  function Instead(c: Config, elapsed: nat, scanner: Scanner): (Status, string) {
    if !StageOf(c, scanner).enabled then (Disabled, "stage_disabled")
    else if elapsed >= c.totalTimeout then (TimedOut, "total_analysis_timeout")
    else if !StageOf(c, scanner).executable then (Unavailable, "scanner_not_configured")
    else (Partial, "capture_input_limit")
  }

  function Report(c: Config, elapsed: nat, scanner: Scanner, target: string, hash: string, capture: bool, length: Option<nat>,
                  world: StageRun, fallback: Fallback): Bytes
  {
    if Runs(c, elapsed, scanner, capture, length) && world.executed.Output? then world.executed.bytes
    else
      var (status, code) :=
        if Runs(c, elapsed, scanner, capture, length) then (world.executed.status, world.executed.code)
        else Instead(c, elapsed, scanner);
      fallback(scanner, target, hash, status, code)
  }

  /** Output over the budget is replaced by a note that it was. */
  function Affordable(c: Config, bytes: nat, output: Bytes, note: Bytes): Bytes {
    if bytes + |output| > c.maxTotalOutputBytes then note else output
  }

  /** What is scanned, and the report of a stage that has nothing to say but its status. */
  datatype Input = Input(target: string, hash: string, capture: bool, length: Option<nat>, fallback: Fallback)

  /** What a stage writes. */
  function WrittenBy(c: Config, s: State, scanner: Scanner, i: Input, world: StageRun): Bytes {
    Affordable(c, s.bytes, Report(c, s.elapsed, scanner, i.target, i.hash, i.capture, i.length, world, i.fallback),
               i.fallback(scanner, i.target, i.hash, Partial, "total_output_limit"))
  }

  /** A stage works if what it writes fits both budgets and can be written. */
  predicate StageWorks(c: Config, s: State, scanner: Scanner, i: Input, world: StageRun) {
    var size := |WrittenBy(c, s, scanner, i, world)|;
    s.bytes + size <= c.maxTotalOutputBytes && size <= StageOf(c, scanner).outputBytes && world.folderReady && world.written
  }

  function AfterStage(c: Config, s: State, scanner: Scanner, i: Input, world: StageRun): State {
    var begun := Begin(s, (scanner, i.target)).(elapsed := s.elapsed + world.spent);
    if StageWorks(c, s, scanner, i, world) then WithDetection(begun, scanner, |WrittenBy(c, s, scanner, i, world)|) else begun
  }

  /** A stage is run if it is meant for the target, has not seen it yet, and may see one more. */
  predicate IsDue(c: Config, s: State, scanner: Scanner, i: Input) {
    Applies(scanner, i.capture) && Admitted(c, s, scanner, i.target)
  }

  /** After the first `n` stages, of which the last may have failed. */
  function AfterStages(c: Config, s: State, i: Input, world: seq<StageRun>, n: nat): (State, bool)
    requires n <= 4 == |world|
  {
    if n == 0 then (s, true)
    else
      var (t, ok) := AfterStages(c, s, i, world, n - 1);
      if !ok || !IsDue(c, t, STAGES[n - 1], i) then (t, ok)
      else (AfterStage(c, t, STAGES[n - 1], i, world[n - 1]), StageWorks(c, t, STAGES[n - 1], i, world[n - 1]))
  }

  function AfterScan(c: Config, s: State, i: Input, workerReady: bool, world: seq<StageRun>): (State, bool)
    requires |world| == 4
  {
    if workerReady then AfterStages(c, s, i, world, 4) else (s, false)
  }

  /** Once a stage has failed, nothing more happens. */
  lemma {:induction false} FailedStays(c: Config, s: State, i: Input, world: seq<StageRun>, m: nat, n: nat)
    requires m <= n <= 4 == |world| && !AfterStages(c, s, i, world, m).1
    ensures AfterStages(c, s, i, world, n) == AfterStages(c, s, i, world, m)
    decreases n
  {
    if m < n { FailedStays(c, s, i, world, m, n - 1); }
  }

  lemma {:induction false} StagesExtend(c: Config, s: State, i: Input, world: seq<StageRun>, n: nat)
    requires n <= 4 == |world|
    ensures s.artifacts <= AfterStages(c, s, i, world, n).0.artifacts
  {
    if n > 0 { StagesExtend(c, s, i, world, n - 1); }
  }

  /** One stage was run on a target: either it adds one numbered file, or it only counts as begun. */
  predicate StageRan(c: Config, s: State, t: State, scanner: Scanner, target: string, ok: bool) {
    var begun := Begin(s, (scanner, target));
    && s.elapsed <= t.elapsed
    && if ok then
         && |t.artifacts| == |s.artifacts| + 1
         && var size := t.artifacts[|s.artifacts|].size;
         && size <= StageOf(c, scanner).outputBytes
         && t == WithDetection(begun, scanner, size).(elapsed := t.elapsed)
       else t == begun.(elapsed := t.elapsed)
  }

  lemma StageRanEither(c: Config, s: State, begun: State, scanner: Scanner, target: string, size: nat, ok: bool)
    requires Valid(c, Begin(s, (scanner, target))) && s.ordinal < |begun.executions|
    requires begun == Begin(s, (scanner, target)).(elapsed := begun.elapsed) && s.elapsed <= begun.elapsed
    requires ok ==> s.bytes + size <= c.maxTotalOutputBytes && size <= StageOf(c, scanner).outputBytes
    ensures var t := if ok then WithDetection(begun, scanner, size) else begun;
            Valid(c, t) && StageRan(c, s, t, scanner, target, ok)
  {
    if ok { WithDetectionKeeps(c, begun, scanner, size); }
  }

  lemma StageIsOk(c: Config, s: State, scanner: Scanner, i: Input, world: StageRun)
    requires ValidConfig(c) && Valid(c, s) && Admitted(c, s, scanner, i.target)
    ensures Valid(c, AfterStage(c, s, scanner, i, world))
    ensures StageRan(c, s, AfterStage(c, s, scanner, i, world), scanner, i.target, StageWorks(c, s, scanner, i, world))
  {
    BeginKeeps(c, s, scanner, i.target);
    var begun := Begin(s, (scanner, i.target)).(elapsed := s.elapsed + world.spent);
    StageRanEither(c, s, begun, scanner, i.target, |WrittenBy(c, s, scanner, i, world)|, StageWorks(c, s, scanner, i, world));
  }

  predicate Extends(s: State, t: State) {
    s.log <= t.log && s.executions <= t.executions && s.artifacts <= t.artifacts && s.elapsed <= t.elapsed
  }

  predicate Applies(scanner: Scanner, capture: bool) { (scanner == Network) == capture }

  /** Captures are for the network scanner, and all other targets for the other three. */
  predicate MeantFor(scanner: Scanner, capture: bool) {
    if capture then scanner == Network else scanner in {Yara, Pe, Capa}
  }

  predicate OnlyTarget(s: State, t: State, target: string, capture: bool) {
    forall k :: |s.log| <= k < |t.log| ==> t.log[k].1 == target && MeantFor(t.log[k].0, capture)
  }

  predicate OnlyDetections(s: State, t: State) {
    forall k :: |s.artifacts| <= k < |t.artifacts| ==> t.artifacts[k].kind.Detection?
  }

  /** The scanner has run on the target, or may not run any more. */
  predicate Offered(c: Config, executions: set<Key>, scanner: Scanner, target: string) {
    (scanner, target) in executions || |OfScanner(executions, scanner)| >= StageOf(c, scanner).files
  }

  /** The first `n` stages have been offered the target. */
  ghost predicate Scanned(c: Config, s: State, t: State, target: string, capture: bool, n: nat) {
    && n <= 4 && Extends(s, t) && t.collectedBytes == s.collectedBytes
    && OnlyTarget(s, t, target, capture) && OnlyDetections(s, t)
    && t.ordinal - s.ordinal == |t.log| - |s.log| == |t.artifacts| - |s.artifacts|
    && forall i :: 0 <= i < n && MeantFor(STAGES[i], capture) ==> Offered(c, t.executions, STAGES[i], target)
  }

  /** A failed scan has begun one execution more than it has written files. */
  ghost predicate ScanFailed(s: State, t: State, target: string, capture: bool) {
    && Extends(s, t) && t.collectedBytes == s.collectedBytes
    && OnlyTarget(s, t, target, capture) && OnlyDetections(s, t)
    && |t.log| - |s.log| <= t.ordinal - s.ordinal + 1
    && t.ordinal - s.ordinal == |t.artifacts| - |s.artifacts|
  }

  lemma StageKeepsScanned(c: Config, s: State, t: State, u: State, target: string, capture: bool, n: nat, ok: bool)
    requires n < 4 && Scanned(c, s, t, target, capture, n) && Applies(STAGES[n], capture)
    requires StageRan(c, t, u, STAGES[n], target, ok)
    ensures ok ==> Scanned(c, s, u, target, capture, n + 1)
    ensures !ok ==> ScanFailed(s, u, target, capture)
  {
    forall i | 0 <= i < n && MeantFor(STAGES[i], capture)
      ensures Offered(c, u.executions, STAGES[i], target)
    {
      assert Offered(c, t.executions, STAGES[i], target);
      Monotone(t.executions, u.executions, STAGES[i]);
    }
  }

  /** A stage that is not due leaves everything as it is. */
  lemma SkippedKeepsScanned(c: Config, s: State, t: State, i: Input, n: nat)
    requires n < 4 && Scanned(c, s, t, i.target, i.capture, n) && !IsDue(c, t, STAGES[n], i)
    ensures Scanned(c, s, t, i.target, i.capture, n + 1)
  {}

  lemma Monotone(a: set<Key>, b: set<Key>, s: Scanner)
    requires a <= b
    ensures |OfScanner(a, s)| <= |OfScanner(b, s)|
  {
    Subset(OfScanner(a, s), OfScanner(b, s));
  }

  lemma Subset<T>(a: set<T>, b: set<T>)
    requires a <= b
    ensures |a| <= |b|
  {
    assert b == a + (b - a);
  }

  // ----- collecting files -----

  datatype FileObservation = FileObservation(kind: string, path: string)

  /** What there is to read under an observed path; `extension` is that of the path, in lower case. */
  datatype Read = Outside | Unopenable | Unreadable | Contents(data: Bytes, extension: Option<string>)

  /** The world that `collect_files` works in. */
  datatype Files = Files(
    read: string -> Read, digest: Bytes -> string, folderReady: string -> bool, written: string -> bool,
    workerReady: string -> bool, runs: string -> seq<StageRun>)

  ghost predicate ValidFiles(f: Files) {
    (forall m :: |f.digest(m)| == 64) && forall p :: |f.runs(p)| == 4
  }

  predicate WrittenByTarget(o: FileObservation) {
    Contains(o.kind, "create") || Contains(o.kind, "write") || Contains(o.kind, "modify")
  }

  function InputLimit(c: Config): nat {
    Min(Min(c.pe.inputBytes, c.yara.inputBytes), c.capa.inputBytes)
  }

  const EXECUTABLE_EXTENSIONS: seq<string> := ["exe", "dll", "sys", "ps1", "bat", "cmd", "js", "vbs", "py"]

  /** The extension a collected file is kept under, if it is kept. */
  function KeptExtension(data: Bytes, extension: Option<string>): Option<string> {
    var e := if extension.Some? then extension.value else "bin";
    if e in EXECUTABLE_EXTENSIONS then Some(e)
    else if |data| >= 2 && data[0] == 0x4d && data[1] == 0x5a then Some("exe")
    else None
  }

  /** What an observed path may be collected as. */
  function Collectable(c: Config, f: Files, name: string): Option<string> {
    match f.read(name)
    case Contents(data, extension) =>
      if |data| > InputLimit(c) || KeptExtension(data, extension) == None then None
      else Some(ExtractedPath(f.digest(data), KeptExtension(data, extension).value))
    case _ => None
  }

  predicate Listed(artifacts: seq<Artifact>, path: string) {
    exists i :: 0 <= i < |artifacts| && artifacts[i].path == path
  }

  /** A collected file of the manifest is the bounded content of one of the paths. */
  ghost predicate CollectedFrom(c: Config, f: Files, paths: set<string>, a: Artifact) {
    exists name :: name in paths && Collectable(c, f, name) == Some(a.path) && a.size == |f.read(name).data|
  }

  ghost predicate AllCollectedFrom(c: Config, f: Files, paths: set<string>, s: State, t: State) {
    forall k :: |s.artifacts| <= k < |t.artifacts| && t.artifacts[k].kind.TargetCreated? ==>
      CollectedFrom(c, f, paths, t.artifacts[k])
  }

  lemma WithNewKeeps(c: Config, s: State, hash: string, extension: string, size: nat)
    requires Valid(c, s) && |hash| == 64 && s.collectedBytes + size <= c.maxCaptureBytes
    requires !Listed(s.artifacts, ExtractedPath(hash, extension))
    ensures Valid(c, WithCollected(s, ExtractedPath(hash, extension), size))
  {
    WithCollectedKeeps(c, s, hash, extension, size);
  }

  /** The scan that follows a collected file adds no other collected file. */
  lemma OneCollected(c: Config, f: Files, name: string, s: State, t: State, u: State)
    requires Collectable(c, f, name).Some? && t == WithCollected(s, Collectable(c, f, name).value, |f.read(name).data|)
    requires Extends(t, u) && OnlyDetections(t, u)
    ensures AllCollectedFrom(c, f, {name}, s, u) && Listed(u.artifacts, Collectable(c, f, name).value) && Extends(s, u)
  {
    var n := |s.artifacts|;
    assert u.artifacts[n] == t.artifacts[n];
    assert CollectedFrom(c, f, {name}, u.artifacts[n]) by { assert name in {name}; }
    forall k | n <= k < |u.artifacts| && u.artifacts[k].kind.TargetCreated?
      ensures k == n
    {}
  }

  datatype Progress = GoOn | Stop | Error

  datatype Candidate = Broken | Skipped | Candidate(hash: string, extension: string)

  /** Reading a path comes to nothing, to an error, or to something to keep. */
  function AfterCollecting(c: Config, s: State, f: Files, fallback: Fallback, name: string): (State, Progress)
    requires ValidFiles(f)
  {
    if s.elapsed >= c.totalTimeout then (s, Stop)
    else if f.read(name).Unreadable? then (s, Error)
    else
      var path := Collectable(c, f, name);
      if path == None || Listed(s.artifacts, path.value) then (s, GoOn)
      else AfterKeeping(c, s, f, fallback, name, path.value)
  }

  function AfterKeeping(c: Config, s: State, f: Files, fallback: Fallback, name: string, path: string): (State, Progress)
    requires ValidFiles(f) && f.read(name).Contents?
  {
    var data := f.read(name).data;
    if s.collectedBytes + |data| > c.maxCaptureBytes then (s, Stop)
    else if !f.folderReady(name) || !f.written(name) then (s, Error)
    else
      var (t, ok) := AfterScan(c, WithCollected(s, path, |data|), Input(path, f.digest(data), false, None, fallback),
                               f.workerReady(name), f.runs(name));
      (t, if ok then GoOn else Error)
  }

  /** One path after the other, until one of them ends the collection. */
  function AfterAll(c: Config, s: State, f: Files, fallback: Fallback, paths: seq<string>): (State, Progress)
    requires ValidFiles(f)
  {
    if paths == [] then (s, GoOn)
    else
      var (t, progress) := AfterAll(c, s, f, fallback, paths[..|paths| - 1]);
      if progress == GoOn then AfterCollecting(c, t, f, fallback, paths[|paths| - 1]) else (t, progress)
  }

  lemma {:induction false} EndedStays(c: Config, s: State, f: Files, fallback: Fallback, paths: seq<string>, n: nat)
    requires ValidFiles(f) && n <= |paths| && AfterAll(c, s, f, fallback, paths[..n]).1 != GoOn
    ensures AfterAll(c, s, f, fallback, paths) == AfterAll(c, s, f, fallback, paths[..n])
    decreases |paths|
  {
    if n < |paths| {
      assert paths[..|paths| - 1][..n] == paths[..n];
      EndedStays(c, s, f, fallback, paths[..|paths| - 1], n);
    } else {
      assert paths[..n] == paths;
    }
  }

  /** A new file that may be collected. */
  predicate IsNew(c: Config, s: State, f: Files, name: string) {
    Collectable(c, f, name).Some? && !Listed(s.artifacts, Collectable(c, f, name).value)
  }

  /** When a path ends the collection: time, budget, or something that could not be read, written or scanned. */
  lemma EndsExactly(c: Config, s: State, f: Files, fallback: Fallback, name: string)
    requires ValidFiles(f)
    ensures AfterCollecting(c, s, f, fallback, name).1 == Stop <==>
              || s.elapsed >= c.totalTimeout
              || (IsNew(c, s, f, name) && s.collectedBytes + |f.read(name).data| > c.maxCaptureBytes)
    ensures AfterCollecting(c, s, f, fallback, name).1 == Error <==>
              && s.elapsed < c.totalTimeout
              && (|| f.read(name).Unreadable?
                  || (IsNew(c, s, f, name) && s.collectedBytes + |f.read(name).data| <= c.maxCaptureBytes
                      && !(f.folderReady(name) && f.written(name) && ScanWorks(c, s, f, fallback, name))))
  {}

  /** The scan of a file that has just been collected. */
  predicate ScanWorks(c: Config, s: State, f: Files, fallback: Fallback, name: string)
    requires ValidFiles(f) && Collectable(c, f, name).Some?
  {
    var path, data := Collectable(c, f, name).value, f.read(name).data;
    AfterScan(c, WithCollected(s, path, |data|), Input(path, f.digest(data), false, None, fallback),
              f.workerReady(name), f.runs(name)).1
  }

  /** What a path may be collected as is in the manifest afterwards, unless the collection ended there. */
  lemma CollectedOrEnded(c: Config, s: State, f: Files, fallback: Fallback, name: string)
    requires ValidFiles(f)
    ensures var (t, progress) := AfterCollecting(c, s, f, fallback, name);
            && s.artifacts <= t.artifacts
            && (progress == GoOn && Collectable(c, f, name).Some? ==> Listed(t.artifacts, Collectable(c, f, name).value))
  {
    var path := Collectable(c, f, name);
    if path.Some? {
      var data := f.read(name).data;
      var with := WithCollected(s, path.value, |data|);
      StagesExtend(c, with, Input(path.value, f.digest(data), false, None, fallback), f.runs(name), 4);
      assert with.artifacts[|s.artifacts|].path == path.value;
      var t := AfterCollecting(c, s, f, fallback, name).0;
      if with.artifacts <= t.artifacts { assert t.artifacts[|s.artifacts|].path == path.value; }
    }
  }

  function PathsWritten(files: seq<FileObservation>): set<string> {
    set o | o in files && WrittenByTarget(o) :: o.path
  }

  predicate AllCollected(c: Config, f: Files, paths: seq<string>, artifacts: seq<Artifact>) {
    forall k :: 0 <= k < |paths| && Collectable(c, f, paths[k]).Some? ==>
                  Listed(artifacts, Collectable(c, f, paths[k]).value)
  }

  /** When nothing has ended the collection, everything that may be collected is in the manifest. */
  lemma {:induction false} AllListed(c: Config, s: State, f: Files, fallback: Fallback, paths: seq<string>)
    requires ValidFiles(f) && AfterAll(c, s, f, fallback, paths).1 == GoOn
    ensures AllCollected(c, f, paths, AfterAll(c, s, f, fallback, paths).0.artifacts)
  {
    if paths != [] {
      var start := paths[..|paths| - 1];
      AllListed(c, s, f, fallback, start);
      var t := AfterAll(c, s, f, fallback, start).0;
      CollectedOrEnded(c, t, f, fallback, paths[|paths| - 1]);
      forall k | 0 <= k < |start| && Collectable(c, f, paths[k]).Some?
        ensures Listed(AfterAll(c, s, f, fallback, paths).0.artifacts, Collectable(c, f, paths[k]).value)
      {
        assert start[k] == paths[k];
        StaysListed(t.artifacts, AfterAll(c, s, f, fallback, paths).0.artifacts, Collectable(c, f, paths[k]).value);
      }
    }
  }

  lemma StaysListed(before: seq<Artifact>, after: seq<Artifact>, path: string)
    requires before <= after && Listed(before, path)
    ensures Listed(after, path)
  {
    var i :| 0 <= i < |before| && before[i].path == path;
    assert after[i] == before[i];
  }

  /** A collection that has ended early has ended at one of the paths, with time, budget or an error. */
  lemma {:induction false} EndedAt(c: Config, s: State, f: Files, fallback: Fallback, paths: seq<string>) returns (k: nat)
    requires ValidFiles(f) && AfterAll(c, s, f, fallback, paths).1 != GoOn
    ensures k < |paths| && AfterAll(c, s, f, fallback, paths[..k]).1 == GoOn
    ensures AfterAll(c, s, f, fallback, paths)
         == AfterCollecting(c, AfterAll(c, s, f, fallback, paths[..k]).0, f, fallback, paths[k])
  {
    var start := paths[..|paths| - 1];
    if AfterAll(c, s, f, fallback, start).1 == GoOn {
      k := |paths| - 1;
    } else {
      k := EndedAt(c, s, f, fallback, start);
      assert start[..k] == paths[..k];
    }
  }

  class Session {
    var elapsed: nat
    var bytes: nat
    var ordinal: nat
    var collectedBytes: nat
    var warnings: seq<string>
    var executions: set<Key>
    var artifacts: seq<Artifact>
    ghost var log: seq<Key>

    constructor ()
      ensures Value() == State(0, 0, 0, 0, {}, [], []) && warnings == []
      ensures forall c :: ValidConfig(c) ==> Valid(c, Value())
    {
      elapsed, bytes, ordinal, collectedBytes := 0, 0, 0, 0;
      warnings, executions, artifacts, log := [], {}, [], [];
      new;
      forall c | ValidConfig(c) ensures Valid(c, Value()) { NewIsValid(c, Value()); }
    }

    ghost function Value(): State
      reads this
    {
      State(elapsed, bytes, ordinal, collectedBytes, executions, artifacts, log)
    }

    /** What a stage has to report, before the output budget is looked at. */
    method StageOutput(c: Config, scanner: Scanner, target: string, hash: string, capture: bool, length: Option<nat>,
                       world: StageRun, fallback: Fallback)
      returns (output: Bytes)
      ensures output == Report(c, elapsed, scanner, target, hash, capture, length, world, fallback)
    {
      var stage := StageOf(c, scanner);
      if !stage.enabled {
        return fallback(scanner, target, hash, Disabled, "stage_disabled");
      }
      if c.totalTimeout <= elapsed {
        return fallback(scanner, target, hash, TimedOut, "total_analysis_timeout");
      }
      if !stage.executable {
        return fallback(scanner, target, hash, Unavailable, "scanner_not_configured");
      }
      if capture && (length == None || length.value > c.maxCaptureBytes) {
        return fallback(scanner, target, hash, Partial, "capture_input_limit");
      }
      match world.executed {
        case Output(bytes) => return bytes;
        case Failure(status, code) => return fallback(scanner, target, hash, status, code);
      }
    }

    /** What a stage has to report, or the note that it was too much. */
    method AffordableOutput(c: Config, scanner: Scanner, target: string, hash: string, capture: bool, length: Option<nat>,
                            world: StageRun, fallback: Fallback)
      returns (output: Bytes)
      ensures output == WrittenBy(c, Value(), scanner, Input(target, hash, capture, length, fallback), world)
    {
      output := StageOutput(c, scanner, target, hash, capture, length, world, fallback);
      if bytes + |output| > c.maxTotalOutputBytes {
        output := fallback(scanner, target, hash, Partial, "total_output_limit");
      }
    }

    /** The body of the loop in `scan`, for a stage that has not yet seen the target. */
    method RunStage(c: Config, scanner: Scanner, target: string, hash: string, capture: bool, length: Option<nat>,
                    world: StageRun, fallback: Fallback)
      returns (ok: bool)
      requires ValidConfig(c) && Valid(c, Value()) && Admitted(c, Value(), scanner, target)
      modifies this
      ensures Valid(c, Value()) && warnings == old(warnings)
      ensures StageRan(c, old(Value()), Value(), scanner, target, ok)
      ensures var i := Input(target, hash, capture, length, fallback);
              && Value() == AfterStage(c, old(Value()), scanner, i, world)
              && ok == StageWorks(c, old(Value()), scanner, i, world)
    {
      StageIsOk(c, Value(), scanner, Input(target, hash, capture, length, fallback), world);
      var output := AffordableOutput(c, scanner, target, hash, capture, length, world, fallback);
      ok := bytes + |output| <= c.maxTotalOutputBytes
        && world.folderReady && world.written && |output| <= StageOf(c, scanner).outputBytes;
      Finish(scanner, target, world.spent, |output|, ok);
    }

    /** The bookkeeping of one stage. */
    method Finish(scanner: Scanner, target: string, spent: nat, size: nat, ok: bool)
      modifies this
      ensures warnings == old(warnings)
      ensures var begun := Begin(old(Value()), (scanner, target)).(elapsed := old(elapsed) + spent);
              Value() == if ok then WithDetection(begun, scanner, size) else begun
    {
      executions := executions + {(scanner, target)};
      log := log + [(scanner, target)];
      elapsed := elapsed + spent;
      if ok {
        artifacts := artifacts + [Artifact(DetectionPath(ordinal, scanner), size, Detection(scanner))];
        bytes := bytes + size;
        ordinal := ordinal + 1;
      }
    }

    method Scan(c: Config, target: string, hash: string, capture: bool, length: Option<nat>,
                workerReady: bool, world: seq<StageRun>, fallback: Fallback)
      returns (ok: bool)
      requires ValidConfig(c) && Valid(c, Value()) && |world| == 4
      modifies this
      ensures Valid(c, Value()) && old(warnings) <= warnings
      ensures ok ==> Scanned(c, old(Value()), Value(), target, capture, 4)
      ensures !ok ==> ScanFailed(old(Value()), Value(), target, capture)
      ensures (Value(), ok) == AfterScan(c, old(Value()), Input(target, hash, capture, length, fallback), workerReady, world)
    {
      if !workerReady {
        return false;
      }
      ghost var s, input := Value(), Input(target, hash, capture, length, fallback);
      for i := 0 to 4
        invariant Valid(c, Value()) && old(warnings) <= warnings && Scanned(c, s, Value(), target, capture, i)
        invariant (Value(), true) == AfterStages(c, s, input, world, i)
      {
        ok := Offer(c, i, target, hash, capture, length, world[i], fallback, s);
        if !ok {
          FailedStays(c, s, input, world, i + 1, 4);
          return false;
        }
      }
      return true;
    }

    /** The loop over the stages: stage `i` is offered the target. */
    method Offer(c: Config, i: nat, target: string, hash: string, capture: bool, length: Option<nat>,
                 world: StageRun, fallback: Fallback, ghost s: State)
      returns (ok: bool)
      requires ValidConfig(c) && Valid(c, Value()) && i < 4 && Scanned(c, s, Value(), target, capture, i)
      modifies this
      ensures Valid(c, Value()) && old(warnings) <= warnings
      ensures ok ==> Scanned(c, s, Value(), target, capture, i + 1)
      ensures !ok ==> ScanFailed(s, Value(), target, capture)
      ensures var input := Input(target, hash, capture, length, fallback);
              if IsDue(c, old(Value()), STAGES[i], input)
              then Value() == AfterStage(c, old(Value()), STAGES[i], input, world)
                && ok == StageWorks(c, old(Value()), STAGES[i], input, world)
              else Value() == old(Value()) && ok
    {
      var scanner := STAGES[i];
      ghost var input := Input(target, hash, capture, length, fallback);
      if !Applies(scanner, capture) || (scanner, target) in executions {
        SkippedKeepsScanned(c, s, Value(), input, i);
        return true;
      }
      if |OfScanner(executions, scanner)| >= StageOf(c, scanner).files {
        SkippedKeepsScanned(c, s, Value(), input, i);
        warnings := warnings + ["detection " + Name(scanner) + " file count limit exhausted"];
        return true;
      }
      ghost var before := Value();
      ok := RunStage(c, scanner, target, hash, capture, length, world, fallback);
      StageKeepsScanned(c, s, before, Value(), target, capture, i, ok);
    }

    /** The body of the loop in `collect_files`. */
    method CollectOne(c: Config, name: string, f: Files, fallback: Fallback) returns (progress: Progress)
      requires ValidConfig(c) && Valid(c, Value()) && ValidFiles(f)
      modifies this
      ensures Valid(c, Value()) && old(warnings) <= warnings && Extends(old(Value()), Value())
      ensures AllCollectedFrom(c, f, {name}, old(Value()), Value())
      ensures (Value(), progress) == AfterCollecting(c, old(Value()), f, fallback, name)
      ensures progress == GoOn && Collectable(c, f, name).Some? ==> Listed(artifacts, Collectable(c, f, name).value)
    {
      if elapsed >= c.totalTimeout {
        warnings := warnings + ["detection collection stopped at total analysis timeout"];
        return Stop;
      }
      var candidate := ReadPath(c, name, f);
      match candidate {
        case Broken => return Error;
        case Skipped => return GoOn;
        case Candidate(hash, extension) =>
          if Listed(artifacts, ExtractedPath(hash, extension)) {
            return GoOn;
          }
          progress := Keep(c, name, hash, extension, f, fallback);
      }
    }

    /** Reads an observed path as far as the limit, and decides whether it is worth keeping. */
    method ReadPath(c: Config, name: string, f: Files) returns (r: Candidate)
      modifies this
      ensures Value() == old(Value()) && old(warnings) <= warnings
      ensures r == Broken <==> f.read(name).Unreadable?
      ensures r.Candidate? <==> Collectable(c, f, name).Some?
      ensures r.Candidate? ==>
                Collectable(c, f, name) == Some(ExtractedPath(r.hash, r.extension)) && r.hash == f.digest(f.read(name).data)
    {
      match f.read(name) {
        case Outside =>
          warnings := warnings + ["target-written file outside private collection directory was not scanned"];
          return Skipped;
        case Unopenable =>
          warnings := warnings + ["target-written file unavailable, unsafe, or over collection size limit"];
          return Skipped;
        case Unreadable =>
          return Broken;
        case Contents(data, extension) =>
          if |data| > InputLimit(c) {
            warnings := warnings + ["target-written file exceeded collection size limit"];
            return Skipped;
          }
          var kept := KeptExtension(data, extension);
          return if kept == None then Skipped else Candidate(f.digest(data), kept.value);
      }
    }

    /** A new file is kept if the budget allows it, and scanned. */
    method Keep(c: Config, name: string, hash: string, extension: string, f: Files, fallback: Fallback) returns (progress: Progress)
      requires ValidConfig(c) && Valid(c, Value()) && ValidFiles(f) && |hash| == 64
      requires Collectable(c, f, name) == Some(ExtractedPath(hash, extension)) && hash == f.digest(f.read(name).data)
      requires !Listed(artifacts, ExtractedPath(hash, extension))
      modifies this
      ensures Valid(c, Value()) && old(warnings) <= warnings && Extends(old(Value()), Value())
      ensures AllCollectedFrom(c, f, {name}, old(Value()), Value())
      ensures progress == GoOn ==> Listed(artifacts, ExtractedPath(hash, extension))
      ensures progress == Stop <==> old(collectedBytes) + |f.read(name).data| > c.maxCaptureBytes
      ensures (Value(), progress) == AfterKeeping(c, old(Value()), f, fallback, name, ExtractedPath(hash, extension))
    {
      var relative, data := ExtractedPath(hash, extension), f.read(name).data;
      if collectedBytes + |data| > c.maxCaptureBytes {
        warnings := warnings + ["target file collection byte budget exhausted"];
        return Stop;
      }
      if !f.folderReady(name) || !f.written(name) {
        return Error;
      }
      ghost var before := Value();
      AddCollected(c, hash, extension, |data|);
      ghost var with := Value();
      var ok := Scan(c, relative, hash, false, None, f.workerReady(name), f.runs(name), fallback);
      assert Extends(with, Value()) && OnlyDetections(with, Value());
      OneCollected(c, f, name, before, with, Value());
      return if ok then GoOn else Error;
    }

    method AddCollected(c: Config, hash: string, extension: string, size: nat)
      requires Valid(c, Value()) && |hash| == 64 && collectedBytes + size <= c.maxCaptureBytes
      requires !Listed(artifacts, ExtractedPath(hash, extension))
      modifies this
      ensures Valid(c, Value()) && warnings == old(warnings)
      ensures Value() == WithCollected(old(Value()), ExtractedPath(hash, extension), size)
    {
      ghost var before := Value();
      WithNewKeeps(c, before, hash, extension, size);
      artifacts := artifacts + [Artifact(ExtractedPath(hash, extension), size, TargetCreated)];
      collectedBytes := collectedBytes + size;
      assert Value() == WithCollected(before, ExtractedPath(hash, extension), size);
    }

    /**
     Collects what the target has written, each path once in the order of the names, as long as
     nothing ends the collection; `ended` says whether something did.
     */
    method CollectFiles(c: Config, files: seq<FileObservation>, f: Files, fallback: Fallback)
      returns (ok: bool, ghost paths: seq<string>, ghost ended: Progress)
      requires ValidConfig(c) && Valid(c, Value()) && ValidFiles(f)
      modifies this
      ensures Valid(c, Value()) && old(warnings) <= warnings && Extends(old(Value()), Value())
      ensures AllCollectedFrom(c, f, PathsWritten(files), old(Value()), Value())
      ensures IsListing(paths, TextLeq, PathsWritten(files))
      ensures (Value(), ended) == AfterAll(c, old(Value()), f, fallback, paths[..Min(|paths|, FewestFiles(c))])
      ensures ok <==> ended != Error
      ensures ended == GoOn ==> AllCollected(c, f, paths[..Min(|paths|, FewestFiles(c))], artifacts)
    {
      ghost var s := Value();
      var names := SortedNames(files);
      paths := names;
      var maximum := FewestFiles(c);
      if |names| > maximum {
        warnings := warnings + ["detection collection file count limit exhausted"];
      }
      var progress := CollectNames(c, names[..Min(|names|, maximum)], f, fallback, PathsWritten(files));
      if progress == GoOn { AllListed(c, s, f, fallback, names[..Min(|names|, maximum)]); }
      ended := progress;
      ok := progress != Error;
    }

    static method SortedNames(files: seq<FileObservation>) returns (names: seq<string>)
      ensures IsListing(names, TextLeq, PathsWritten(files))
    {
      TextLeqOrder();
      names := SortedElements(PathsWritten(files), TextLeq);
      DistinctElements(names, PathsWritten(files));
    }

    /** The loop over the names. */
    method CollectNames(c: Config, names: seq<string>, f: Files, fallback: Fallback, ghost written: set<string>)
      returns (progress: Progress)
      requires ValidConfig(c) && Valid(c, Value()) && ValidFiles(f) && forall k :: 0 <= k < |names| ==> names[k] in written
      modifies this
      ensures Valid(c, Value()) && old(warnings) <= warnings && Extends(old(Value()), Value())
      ensures AllCollectedFrom(c, f, written, old(Value()), Value())
      ensures (Value(), progress) == AfterAll(c, old(Value()), f, fallback, names)
    {
      ghost var s := Value();
      for i := 0 to |names|
        invariant Valid(c, Value()) && old(warnings) <= warnings && Extends(s, Value())
        invariant AllCollectedFrom(c, f, written, s, Value())
        invariant (Value(), GoOn) == AfterAll(c, s, f, fallback, names[..i])
      {
        ghost var before := Value();
        progress := CollectOne(c, names[i], f, fallback);
        CollectedStep(c, f, written, names[i], s, before, Value());
        assert names[..i + 1][..i] == names[..i];
        if progress != GoOn {
          EndedStays(c, s, f, fallback, names, i + 1);
          return;
        }
      }
      assert names[..|names|] == names;
      progress := GoOn;
    }
  }

  lemma CollectedStep(c: Config, f: Files, written: set<string>, name: string, s: State, t: State, u: State)
    requires Extends(s, t) && Extends(t, u) && name in written
    requires AllCollectedFrom(c, f, written, s, t) && AllCollectedFrom(c, f, {name}, t, u)
    ensures Extends(s, u) && AllCollectedFrom(c, f, written, s, u)
  {
    forall k | |s.artifacts| <= k < |u.artifacts| && u.artifacts[k].kind.TargetCreated?
      ensures CollectedFrom(c, f, written, u.artifacts[k])
    {
      if k < |t.artifacts| {
        assert u.artifacts[k] == t.artifacts[k];
      } else {
        assert CollectedFrom(c, f, {name}, u.artifacts[k]);
      }
    }
  }

  // ----- what may be collected -----

  /** What the target is seen to create, write or modify. */
  lemma WrittenExactly(o: FileObservation)
    ensures WrittenByTarget(o) <==> exists what :: what in {"create", "write", "modify"} && Contains(o.kind, what)
  {}

  predicate Executable(extension: string) {
    extension in ["exe", "dll", "sys", "ps1", "bat", "cmd", "js", "vbs", "py"]
  }

  /** It begins with the two letters MZ of a program. */
  predicate IsProgram(data: Bytes) { |data| >= 2 && data[0] == 'M' as int && data[1] == 'Z' as int }

  predicate FitsAllScanners(c: Config, data: Bytes) {
    |data| <= c.pe.inputBytes && |data| <= c.yara.inputBytes && |data| <= c.capa.inputBytes
  }

  /**
   A file is collected if and only if it can be read, fits every scanner, and has the extension or the
   first bytes of a program; under its digest and its own extension, or `exe` where that says nothing.
   */
  lemma CollectableExactly(c: Config, f: Files, name: string, path: string)
    ensures Collectable(c, f, name) == Some(path) <==>
              && f.read(name).Contents?
              && var data, extension := f.read(name).data, f.read(name).extension;
                 && FitsAllScanners(c, data)
                 && if extension.Some? && Executable(extension.value) then path == ExtractedPath(f.digest(data), extension.value)
                    else IsProgram(data) && path == ExtractedPath(f.digest(data), "exe")
  {
    if f.read(name).Contents? {
      var data, extension := f.read(name).data, f.read(name).extension;
      LimitIsTheLeast(c, data);
      ExtensionExactly(data, extension);
    }
  }

  lemma LimitIsTheLeast(c: Config, data: Bytes)
    ensures |data| <= InputLimit(c) <==> FitsAllScanners(c, data)
  {}

  lemma ExtensionExactly(data: Bytes, extension: Option<string>)
    ensures KeptExtension(data, extension) ==
              if extension.Some? && Executable(extension.value) then extension else if IsProgram(data) then Some("exe") else None
  {}

  /** The file limit of a collection is that of the strictest scanner. */
  lemma FewestIsTheLeast(c: Config, n: nat)
    ensures n <= FewestFiles(c) <==> n <= c.yara.files && n <= c.pe.files && n <= c.capa.files && n <= c.network.files
  {}
}
