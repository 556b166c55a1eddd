/**
 What a failing run may discard of its output before it can report its failure
 (`prepare_failed_publication` in `guest-agent/src/result.rs`).
 */
module FailedOutput {
  import opened Text
  import opened ScanSession

  predicate LowerEq(a: string, b: string) { Lower(a) == Lower(b) }

  /** The names that may be let go of in `output/detection`. */
  predicate DiscardableDetection(name: string) {
    exists ordinal, s :: 0 <= ordinal < 256 && LowerEq(name, DetectionName(ordinal, s))
  }

  /** And in `output/extracted-files`. */
  predicate DiscardableExtracted(name: string) {
    || LowerEq(name, "network-capture.etl") || LowerEq(name, "network-capture.pcapng")
    || LowerEq(name, "telemetry-events.json")
  }

  /** No screenshot may be discarded. */
  predicate DiscardableScreenshot(name: string) { false }

  // ----- one directory -----

  predicate AllKnown(names: seq<string>, known: string -> bool) {
    forall i :: 0 <= i < |names| ==> known(names[i])
  }

  /** What is left of a directory that is cleared in the order in which it is listed. */
  function LeftBy(names: seq<string>, known: string -> bool): (left: seq<string>)
    ensures left == [] <==> AllKnown(names, known)
  {
    if names != [] && known(names[0]) then LeftBy(names[1..], known) else names
  }

  /** `clear_known_artifact_directory` on a directory of plain files: the first unknown name ends it. */
  method ClearKnown(names: seq<string>, known: string -> bool) returns (ok: bool, left: seq<string>)
    ensures ok <==> AllKnown(names, known)
    ensures ok ==> left == []
    ensures !ok ==> 0 < |left| <= |names| && !known(left[0]) && left == names[|names| - |left|..]
    ensures left == LeftBy(names, known)
  {
    left := names;
    while left != []
      invariant |left| <= |names| && left == names[|names| - |left|..]
      invariant forall i :: 0 <= i < |names| - |left| ==> known(names[i])
      invariant LeftBy(left, known) == LeftBy(names, known)
    {
      if !known(left[0]) {
        assert left[0] == names[|names| - |left|];
        return false, left;
      }
      left := left[1..];
    }
    return true, left;
  }

  // ----- the three directories -----

  /** The names in the directories of a run's output, in the order in which they are listed. */
  datatype Folders = Folders(screenshots: seq<string>, extracted: seq<string>, detection: seq<string>)

  const NO_FILES := Folders([], [], [])

  predicate Discardable(f: Folders) {
    && AllKnown(f.screenshots, DiscardableScreenshot) && AllKnown(f.extracted, DiscardableExtracted)
    && AllKnown(f.detection, DiscardableDetection)
  }

  function Cleared(f: Folders): (r: Folders)
    ensures r == NO_FILES <==> Discardable(f)
  {
    var screenshots := LeftBy(f.screenshots, DiscardableScreenshot);
    if screenshots != [] then f.(screenshots := screenshots)
    else
      var extracted := LeftBy(f.extracted, DiscardableExtracted);
      if extracted != [] then f.(screenshots := [], extracted := extracted)
      else Folders([], [], LeftBy(f.detection, DiscardableDetection))
  }

  /** `prepare_failed_publication` without I/O errors: nothing is left exactly if everything may go. */
  method Prepare(f: Folders) returns (ok: bool, left: Folders)
    ensures ok <==> Discardable(f)
    ensures left == Cleared(f) && (ok ==> left == NO_FILES)
  {
    left := f;
    var names;
    ok, names := ClearKnown(f.screenshots, DiscardableScreenshot);
    left := left.(screenshots := names);
    if !ok { return; }
    ok, names := ClearKnown(f.extracted, DiscardableExtracted);
    left := left.(extracted := names);
    if !ok { return; }
    ok, names := ClearKnown(f.detection, DiscardableDetection);
    left := left.(detection := names);
  }

  function Joined(a: Folders, b: Folders): Folders {
    Folders(a.screenshots + b.screenshots, a.extracted + b.extracted, a.detection + b.detection)
  }

  /** Everything that is in `part` is in `f`. */
  predicate Includes(f: Folders, part: Folders) {
    && (forall n :: n in part.screenshots ==> n in f.screenshots) && (forall n :: n in part.extracted ==> n in f.extracted)
    && (forall n :: n in part.detection ==> n in f.detection)
  }

  lemma KnownPart(names: seq<string>, part: seq<string>, known: string -> bool)
    requires AllKnown(names, known) && forall n :: n in part ==> n in names
    ensures AllKnown(part, known)
  {
    forall i | 0 <= i < |part| ensures known(part[i]) { assert part[i] in names; }
  }

  /** What is part of something that may go may go. */
  lemma DiscardablePart(f: Folders, part: Folders)
    requires Discardable(f) && Includes(f, part)
    ensures Discardable(part)
  {
    KnownPart(f.screenshots, part.screenshots, DiscardableScreenshot);
    KnownPart(f.extracted, part.extracted, DiscardableExtracted);
    KnownPart(f.detection, part.detection, DiscardableDetection);
  }

  lemma NamesAreLower(ordinal: nat, s: Scanner)
    ensures Lower(DetectionName(ordinal, s)) == DetectionName(ordinal, s)
  {
    var number, rest := Padded(ordinal, 4), "-" + Name(s) + ".json";
    assert DetectionName(ordinal, s) == number + rest;
    NumberIsLower(ordinal);
    RestIsLower(s);
    AllLower(number, rest);
  }

  predicate IsLower(t: string) {
    forall i :: 0 <= i < |t| ==> LowerChar(t[i]) == t[i]
  }

  lemma AllLower(a: string, b: string)
    requires IsLower(a) && IsLower(b)
    ensures Lower(a + b) == a + b
  {}

  lemma NumberIsLower(n: nat)
    ensures IsLower(Padded(n, 4))
  {
    PaddedIsDecimal(n, 4);
    forall i | 0 <= i < |Padded(n, 4)| ensures LowerChar(Padded(n, 4)[i]) == Padded(n, 4)[i] {
      assert Padded(n, 4)[i] in Padded(n, 4);
    }
  }

  lemma RestIsLower(s: Scanner)
    ensures IsLower("-" + Name(s) + ".json")
  {}

  lemma NoDash(m: nat)
    ensures |Padded(m, 4)| >= 4 && forall i :: 0 <= i < |Padded(m, 4)| ==> Padded(m, 4)[i] != '-'
  {
    PaddedIsDecimal(m, 4);
    forall i | 0 <= i < |Padded(m, 4)| ensures Padded(m, 4)[i] != '-' { assert Padded(m, 4)[i] in Padded(m, 4); }
  }

  lemma NumberInFront(m: nat, s: Scanner, n: nat, t: Scanner)
    requires n < 256 && DetectionName(m, s) == DetectionName(n, t)
    ensures m == n
  {
    assert TenTo(2) == 100 && TenTo(4) == 10000;
    PaddedWidth(n, 4);
    var name, number := DetectionName(m, s), Padded(m, 4);
    NoDash(m);
    assert DetectionName(n, t)[4] == '-' && DetectionName(n, t)[..4] == Padded(n, 4);
    assert name == number + ("-" + Name(s) + ".json");
    assert name[..4] == number;
    PaddedInjective(m, n, 4);
  }

  /** Of the names of detection files exactly those with a number below 256 may be discarded. */
  lemma LowNumbersAreDiscardable(ordinal: nat, s: Scanner)
    ensures DiscardableDetection(DetectionName(ordinal, s)) <==> ordinal < 256
  {
    if DiscardableDetection(DetectionName(ordinal, s)) {
      var n, t :| 0 <= n < 256 && LowerEq(DetectionName(ordinal, s), DetectionName(n, t));
      NamesAreLower(ordinal, s);
      NamesAreLower(n, t);
      NumberInFront(ordinal, s, n, t);
    }
  }

  // Names are compared without regard to case.

  predicate SameButCase(s: string, t: string) {
    |s| == |t| && forall i :: 0 <= i < |s| ==> CaseOf(s[i], t[i]) || CaseOf(t[i], s[i])
  }

  /** They are the same, or `d` is the small letter to the capital `c`. */
  predicate CaseOf(c: char, d: char) {
    c == d || ('A' <= c <= 'Z' && d as int == c as int - 'A' as int + 'a' as int)
  }

  lemma LowerEqExactly(s: string, t: string)
    ensures LowerEq(s, t) <==> SameButCase(s, t)
  {
    forall i | 0 <= i < |s| && i < |t|
      ensures CaseOf(s[i], t[i]) || CaseOf(t[i], s[i]) <==> Lower(s)[i] == Lower(t)[i]
    {}
    if LowerEq(s, t) {
      assert |Lower(s)| == |s| == |t|;
    }
  }

  /** Of the extracted files those of the telemetry may be discarded, and no others. */
  lemma TelemetryIsDiscardable(name: string)
    ensures DiscardableExtracted(name) <==>
              exists file :: file in {"network-capture.etl", "network-capture.pcapng", "telemetry-events.json"}
                             && SameButCase(name, file)
  {
    LowerEqExactly(name, "network-capture.etl");
    LowerEqExactly(name, "network-capture.pcapng");
    LowerEqExactly(name, "telemetry-events.json");
  }

  // ----- the files of a session -----

  /** Every detection file of a session has a name that may be discarded. */
  lemma DetectionsAreDiscardable(c: Config, s: State, i: nat)
    requires ValidConfig(c) && Valid(c, s) && i < |s.artifacts| && s.artifacts[i].kind.Detection?
    ensures exists name :: s.artifacts[i].path == "detection/" + name && DiscardableDetection(name)
  {
    assert WellNamed(s.artifacts, i);
    var ordinal, scanner := Detections(s.artifacts[..i]), s.artifacts[i].kind.scanner;
    DetectionsGrow(s.artifacts, i, |s.artifacts|);
    assert s.artifacts[..|s.artifacts|] == s.artifacts;
    ExecutionsAreFew(c, s.executions);
    var name := DetectionName(ordinal, scanner);
    assert LowerEq(name, DetectionName(ordinal, scanner));
    assert DiscardableDetection(name);
  }

  /** No collected file has such a name. */
  lemma CollectedIsNotDiscardable(c: Config, s: State, i: nat)
    requires Valid(c, s) && i < |s.artifacts| && s.artifacts[i].kind.TargetCreated?
    ensures exists name :: s.artifacts[i].path == "extracted-files/" + name && !DiscardableExtracted(name)
  {
    assert WellNamed(s.artifacts, i);
    var hash, extension :| |hash| == 64 && s.artifacts[i].path == ExtractedPath(hash, extension);
    var name := ExtractedName(hash, extension);
    assert |Lower(name)| >= 64;
    assert s.artifacts[i].path == "extracted-files/" + name;
  }

  function WithoutFolder(path: string, folder: string): string {
    if folder <= path then path[|folder|..] else path
  }

  function WithName(f: Folders, a: Artifact): Folders {
    if a.kind.Detection? then f.(detection := f.detection + [WithoutFolder(a.path, "detection/")])
    else f.(extracted := f.extracted + [WithoutFolder(a.path, "extracted-files/")])
  }

  /** The names under which the entries of a manifest lie. */
  function NamesOf(artifacts: seq<Artifact>): Folders {
    if artifacts == [] then NO_FILES else WithName(NamesOf(artifacts[..|artifacts| - 1]), artifacts[|artifacts| - 1])
  }

  lemma DetectionGoes(c: Config, s: State, i: nat, f: Folders)
    requires ValidConfig(c) && Valid(c, s) && i < |s.artifacts| && s.artifacts[i].kind.Detection?
    ensures Discardable(WithName(f, s.artifacts[i])) <==> Discardable(f)
  {
    DetectionsAreDiscardable(c, s, i);
    var name :| s.artifacts[i].path == "detection/" + name && DiscardableDetection(name);
    assert WithoutFolder(s.artifacts[i].path, "detection/") == name;
    OneMoreKnown(f.detection, name, DiscardableDetection);
  }

  lemma WithoutPrefix(path: string, folder: string, name: string)
    requires path == folder + name
    ensures WithoutFolder(path, folder) == name
  {}

  lemma CollectedName(c: Config, s: State, i: nat) returns (name: string)
    requires Valid(c, s) && i < |s.artifacts| && s.artifacts[i].kind.TargetCreated?
    ensures WithoutFolder(s.artifacts[i].path, "extracted-files/") == name && !DiscardableExtracted(name)
  {
    CollectedIsNotDiscardable(c, s, i);
    name :| s.artifacts[i].path == "extracted-files/" + name && !DiscardableExtracted(name);
    WithoutPrefix(s.artifacts[i].path, "extracted-files/", name);
  }

  lemma CollectedStays(c: Config, s: State, i: nat, f: Folders)
    requires Valid(c, s) && i < |s.artifacts| && s.artifacts[i].kind.TargetCreated?
    ensures !Discardable(WithName(f, s.artifacts[i]))
  {
    var name := CollectedName(c, s, i);
    OneMoreKnown(f.extracted, name, DiscardableExtracted);
  }

  lemma OneNameMore(c: Config, s: State, i: nat, f: Folders)
    requires ValidConfig(c) && Valid(c, s) && i < |s.artifacts|
    ensures Discardable(WithName(f, s.artifacts[i])) <==> Discardable(f) && s.artifacts[i].kind.Detection?
  {
    if s.artifacts[i].kind.Detection? { DetectionGoes(c, s, i, f); } else { CollectedStays(c, s, i, f); }
  }

  predicate OnlyDetections(artifacts: seq<Artifact>) {
    artifacts == [] || (artifacts[|artifacts| - 1].kind.Detection? && OnlyDetections(artifacts[..|artifacts| - 1]))
  }

  lemma {:induction false} NamesDiscardable(c: Config, s: State, n: nat)
    requires ValidConfig(c) && Valid(c, s) && n <= |s.artifacts|
    ensures Discardable(NamesOf(s.artifacts[..n])) <==> OnlyDetections(s.artifacts[..n])
  {
    if n > 0 {
      NamesDiscardable(c, s, n - 1);
      assert s.artifacts[..n][..n - 1] == s.artifacts[..n - 1];
      OneNameMore(c, s, n - 1, NamesOf(s.artifacts[..n - 1]));
    }
  }

  lemma {:induction false} OnlyDetectionsMeans(artifacts: seq<Artifact>)
    ensures OnlyDetections(artifacts) <==> forall i :: 0 <= i < |artifacts| ==> artifacts[i].kind.Detection?
  {
    if artifacts != [] { OnlyDetectionsMeans(artifacts[..|artifacts| - 1]); }
  }

  lemma OneMoreKnown(names: seq<string>, name: string, known: string -> bool)
    ensures AllKnown(names + [name], known) <==> AllKnown(names, known) && known(name)
  {
    assert (names + [name])[|names|] == name;
    assert forall i :: 0 <= i < |names| ==> (names + [name])[i] == names[i];
  }

  /** What a session has written may be discarded exactly if it has not collected any file. */
  lemma SessionIsDiscardable(c: Config, s: State)
    requires ValidConfig(c) && Valid(c, s)
    ensures Discardable(NamesOf(s.artifacts)) <==> forall i :: 0 <= i < |s.artifacts| ==> s.artifacts[i].kind.Detection?
  {
    NamesDiscardable(c, s, |s.artifacts|);
    OnlyDetectionsMeans(s.artifacts);
    assert s.artifacts[..|s.artifacts|] == s.artifacts;
  }
}
