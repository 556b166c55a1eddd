# Foxhole: verified model

Foxhole runs a file in a disposable Windows guest and reports what it did. This project models, in
Dafny 4.11, the parts of it where a fast, stateful or bounded algorithm has to agree with something
simple, and proves that it does: for every input, every run, every interleaving and every pattern of
failures that the model admits. `dafny verify dfyconfig.toml` checks all of it.

What each file is about:

- `ProcessTimeline.dfy`, `ProcessIndex.dfy`: which process an event belongs to. A sweep line over
  inclusive u64 ranges is looked up by binary search; it answers like a scan over all processes.
- `InstanceHistory.dfy`, `Correlation.dfy`, `RelationLaws.dfy`, `PairSearch.dfy`,
  `StaticConfirmation.dfy`: runs of a PID folded from observations, the lookup of suspicious events, what
  the relations of the rules mean, the budgeted search for pairs of activities, and the runtime evidence
  for static capabilities.
- `ScoreDeduplication.dfy`, `ScoreFindings.dfy`: which scores survive the greedy suppression.
- `NetworkFlows.dfy`, `PacketCorrelation.dfy`: packets summed up by flow and matched with processes.
- `FindingMerge.dfy`: duplicate scanner findings merged by key.
- `CivilDate.dfy`, `CommandLine.dfy`, `CommandLineRules.dfy`, `ProgramQuotes.dfy`, `Fips180.dfy`,
  `Fips180Constants.dfy`, `Fips180Example.dfy`, `Sha256.dfy`, `Base58.dfy`, `Pcapng.dfy`,
  `PcapngWriter.dfy`, `DnsName.dfy`, `Normalization.dfy`, `NormalizationLaws.dfy`: the arithmetic and
  encoding kernels, against the Gregorian calendar, the Microsoft C runtime's argument rules, FIPS 180-4,
  base 58 numbers, captures written by draft-ietf-opsawg-pcapng, RFC 1035, and their own fixed points.
- `GuestProtocol.dfy`, `GuestRun.dfy`, `GuestSuccess.dfy`, `GuestOutcomes.dfy`: status records, the
  machine that checks them, the run of any number of agents beside a host as a transition system over
  single file operations, how it goes when nothing fails, and how it ends otherwise.
- `ScanSession.dfy`, `ScanOrder.dfy`, `FailedOutput.dfy`, `ArtifactStore.dfy`: the budgets of a scanning
  session, the order of its scanners, what a failing run may discard of its output, and the publication
  of one bounded file in a bounded directory tree.
- `Basics.dfy`, `Text.dfy`, `Ordering.dfy`, `Grouping.dfy`: machine integers, strings, sorting and
  filtering, grouping by key.

## How the source is modelled

Rust's u64, u32 and u8 are subset types, and every `saturating_*`, `checked_*` and wrapping operation
is written out. A `Vec` that the source grows or shortens is a `seq` variable that the method
reassigns; fixed buffers and the findings of `deduplicate_scores` are arrays updated in place; objects
with state (`AssociationBudget`, `Sha256`, `ProtocolStateMachine`, `StatusPublisher`, `Session`,
`LimitedWriter`, `TemporaryFileGuard`) are classes whose methods state the whole new state. Input
and output, clocks and failures are parameters: an operation that can fail takes the way in which it
fails as an argument, and the contracts hold for all of them.

Properties that turned out not to hold without a condition:

- The base 58 decoder returns one zero byte too many when the number is zero. It undoes the encoding
  if and only if the number is not zero (`Base58.DecodeOfEncode`, `Base58.ZeroExample`); addresses
  are not affected, because the zero payload is too short to write (`Base58.BitcoinAddress`).
- A program name survives quoting if and only if it contains no quote and, where it has to be
  quoted, does not end in a backslash (`CommandLine.CommandLineRoundTrip`,
  `CommandLine.TrailingBackslashExample`).
- The arguments behind the program name survive if and only if no blank comes behind an odd number of
  quotes in the program name and, where there are arguments, the number of those quotes is even
  (`ProgramQuotes.ArgumentsSurviveExactly`). So they always survive a program name without quotes, but
  a single quote can swallow an argument (`ProgramQuotes.SwallowedExample`). The callers
  (`src/sandbox/windows/restricted_process.rs:1354`, `1400`, `guest-agent/src/native_process.rs:866-882`)
  pass Windows paths, which cannot contain a quote, so the input of the example only reaches the
  public function from another caller.
- The comment in `deduplicate_scores` that results are independent of arrival order holds if and only
  if no evidence is contested: no two different findings with the same score and rule id share
  evidence, both winners of their groups and neither ruled out by an eligible finding of higher score
  or smaller rule id (`ScoreDeduplication.ArrivalOrderIrrelevant`, `ScoreDeduplication.TieExample`).
  Without such ties nothing can be contested (`ScoreDeduplication.WithoutTies`). `build_verdict`
  (`src/report_analysis/verdict.rs:22-42`) gives every scored finding a rule id of its own, so the
  input of the example only reaches the public function from another caller.
- A legal DNS name of 64 labels is refused: a name written in full is read back if and only if its
  labels are fewer than the 64 hops, ASCII, and at most 254 octets together
  (`DnsName.PlainNameIsRead`, `DnsName.HopLimitExample`).
- A DNS label may contain a dot of its own, which the joined name does not show: cutting the name at its
  dots gives the labels back if and only if none of them contains one (`DnsName.JoinSplits`).
- Not every failing run publishes Failed: without I/O errors it does if and only if every file in the
  folders of the output has a name that may be discarded, and a sequence number is left
  (`GuestOutcomes.FailedIsPublishedExactlyWhen`). A collected file has no such name
  (`FailedOutput.CollectedIsNotDiscardable`), so a run in which one was collected never publishes
  Failed (`GuestOutcomes.CollectedNeverFails`).
- The sequence numbers of what an agent publishes ascend if and only if it has not published Failed
  after a write of Running that reported an error although the file was linked
  (`GuestOutcomes.SequencesAscendExactlyWhen`); then Failed repeats the number of Running, and whoever
  has read Running refuses it (`GuestOutcomes.LateRunningCollides`).
- A refused publication leaves its new file behind if and only if all that went wrong is that the
  temporary file could not be removed after it was linked (`LeftBehind` in
  `ArtifactStore.SecureWriteNew`). Publication is a link and a removal outside Windows only; on Windows
  it is one rename, and a refusal never leaves a file.
- Packets are correlated as a full scan does if and only if no unambiguous packet is over a budget when
  its turn comes (`PacketCorrelation.ScanExactlyWhen`). Without the warning that is always so
  (`PacketCorrelation.UntruncatedIsScan`), but the warning does not mean that anything is missing
  (`PacketCorrelation.ExceededExample`).

## Model

| member | source | states |
|---|---|---|
| `ProcessTimeline.NewTimeline` | src/report_analysis/process_index.rs:63-105 | For every u64 time, 0 and the largest included, the last change not after it names the best range containing it, as a scan would; the changes increase strictly, no two neighbours agree, and there are at most two per range. |
| `ProcessTimeline.ActiveCovers` | src/report_analysis/process_index.rs:76-93 | Between two event times the active set holds exactly the ranges that contain the time. |
| `ProcessTimeline.WinnerUnique` | src/report_analysis/process_index.rs:94 | The scan has only one best candidate, so the timeline leaves no freedom. |
| `ProcessIndex.NewProcessIndex` | src/report_analysis/process_index.rs:119-184 | The three timelines and the PID table index exactly the given processes; the first two stay linear in the number of observations, the third in that of processes. |
| `ProcessIndex.CollectRanges` | src/report_analysis/process_index.rs:120-176 | The loops produce the ranges of every process with a lifetime, observations outside of it included, and the first entry of each PID. |
| `ProcessIndex.AliveIsLives` | src/report_analysis/process_index.rs:124-142 | A time lies between the start and the end of a process exactly if the process has been seen by then, by an observation other than of its end or, where there is none, by its own record, and its end has not been seen before. |
| `ProcessIndex.NearestIsReference` | src/report_analysis/process_index.rs:195-200 | The minimum over the three lookups is the least pair of distance and PID over all processes alive at the time, with the largest u64 as the distance of a process without observations. |
| `ProcessIndex.NearestUnique` | src/report_analysis/process_index.rs:253-286 | The reference scan has one answer. |
| `ProcessIndex.Associate` | src/report_analysis/process_index.rs:186-205 | Every call charges for the image of the association that the scan defines (explicit PID, nearest lifetime, or the root exactly when no process lives at the time), and returns that association exactly while all images ever charged fit into the budget. Who lives when is read off the observations alone. |
| `ProcessIndex.BudgetIsExact` | src/report_analysis/process_index.rs:25-43 | Charging with checked addition and poisoning accepts a series of charges exactly while their sum fits. |
| `ProcessIndex.AssociationBudget.Charge` | src/report_analysis/process_index.rs:25-33 | A charge succeeds exactly while the sum of everything charged fits, failed charges included. |
| `InstanceHistory.LookupIsInstanceAt` | src/report_analysis/correlation.rs:656-664 | The binary search in the stored history gives the instance that folding all positive-time observations up to the time gives; nothing for PID 0 or time 0. |
| `InstanceHistory.SameInstanceIffUninterrupted` | src/report_analysis/correlation.rs:681-685 | Two times see the same instance exactly when no termination, image change or contradicting GUID was observed in between. |
| `InstanceHistory.BuildHistories` | src/report_analysis/correlation.rs:579-627 | The stored histories are those of the first entry of every PID. |
| `InstanceHistory.LatestDecides` | src/report_analysis/correlation.rs:586-626 | A process has an instance exactly if the last observation up to the time, by time, status and image, is not of its end, and then it has that image. |
| `InstanceHistory.GuidIsOfFirstField` | src/report_analysis/correlation.rs:602-609 | The GUID is the text of the first of its two fields that is there, in lower case. |
| `Text.SamePathExactly` | src/report_analysis/correlation.rs:206-211 | Two paths without quotes around them are the same exactly if they differ in the case of letters and the direction of slashes only. |
| `Text.QuotesAround` | src/report_analysis/correlation.rs:206-211 | Any number of quotes on either side makes no difference. |
| `Correlation.NewIndex` | src/report_analysis/correlation.rs:579-654 | The index records every suspicious event under the instance that it belongs to, and nothing else. |
| `Correlation.SuspiciousIsExact` | src/report_analysis/correlation.rs:665-679 | The indexed test holds exactly when a suspicious event of the same run lies in the two minutes that end at the time. |
| `Correlation.MatchesIsExact` | src/report_analysis/correlation.rs:692-738 | The indexed test of a rule agrees with its meaning, said without any index, for every relation; what the relations mean is said by the rows that follow. |
| `RelationLaws.RunsDecide` | src/report_analysis/correlation.rs:700-738 | `same_process` and `parent_child` match exactly the pairs in the window, of different evidence, in one uninterrupted run, or of a parent and its running child. |
| `RelationLaws.ObjectsDecide` | src/report_analysis/correlation.rs:720-728 | Two events of one run that both name an object match as the same object or as distinct objects, decided by the equality of the objects; all others match as neither. |
| `RelationLaws.ChildrenDecide` | src/report_analysis/correlation.rs:701-719 | A payload is an equal object of parent and child; a pipe is an equal object of two processes that are parent and child or have the same running parent. |
| `RelationLaws.SuspicionDecides` | src/report_analysis/correlation.rs:703-734 | `child_behavior` asks for a suspicious event of its own run and none of the parent, `dns_address` for an equal object, an address and a suspicious event before. |
| `RelationLaws.SuspicionLasts` | src/report_analysis/correlation.rs:665-679 | A process is suspicious exactly if its run has a suspicious event at most 120000 milliseconds before. |
| `RelationLaws.UnknownNeverPairs` | src/report_analysis/correlation.rs:736 | Any other relation matches nothing. |
| `RelationLaws.ObjectsShareTheEvidence` | src/report_analysis/correlation.rs:692-738 | Where all events name objects, the evidence of `same_process` is that of `same_object` and `distinct_objects` together. |
| `RelationLaws.ChildrenShareTheEvidence` | src/report_analysis/correlation.rs:692-738 | Evidence of a payload in a child is evidence of a child. |
| `PairSearch.Correlate` | src/report_analysis/correlation.rs:746-808 | The findings are exactly those of the rules that found anything, each with exactly the evidence found before the search stopped, and the coverage finding exactly if the budget, defined without the search, is exceeded; sorted by rule id. |
| `PairSearch.FindingsAreComplete` | src/report_analysis/correlation.rs:758-799 | Within the budget every rule that some pair matches is reported, with the evidence of all matching pairs. |
| `PairSearch.FindingsAreSound` | src/report_analysis/correlation.rs:758-799 | Whatever happens, what is reported is evidence of matching pairs and at most 257 entries; within the budget it is all of it. |
| `PairSearch.FoundIsExact` | src/report_analysis/correlation.rs:763-799 | A rule finds evidence of matching pairs only, and all of it unless this rule or one before it exceeds the budget. |
| `PairSearch.CoverageIsExact` | src/report_analysis/correlation.rs:800-806 | The coverage finding is there exactly if the budget is exceeded. |
| `PairSearch.CoverageIsAboutTheFirst` | src/report_analysis/correlation.rs:800-804 | It does not score, and its evidence is that of the first of all events. |
| `PairSearch.VisitedInOrder` | src/report_analysis/correlation.rs:747-756 | The events are visited by time, process, kind, object and evidence. |
| `PairSearch.WithinBudget` | src/report_analysis/correlation.rs:772-785 | A million pairs in the windows of all rules, and less than 256 pieces of evidence for each rule, are within the budget. |
| `PairSearch.RunRule` | src/report_analysis/correlation.rs:763-799 | One rule finds exactly the evidence of the pairs before the point where it stops; the counter grows by the number of pairs in the windows, and passes the limit exactly if they are too many or the evidence overflows. |
| `PairSearch.WindowIsEnough` | src/report_analysis/correlation.rs:770-771 | Every matching pair of events is among the pairs that are looked at. |
| `PairSearch.Window` | src/report_analysis/correlation.rs:770-771 | The two partition points enclose exactly the second activities in the window, saturated ends included. |
| `PairSearch.OrderIrrelevant` | src/report_analysis/correlation.rs:747-756 | The evidence of the pairs that match a rule does not depend on the order of the events. |
| `StaticConfirmation.CollectCandidates` | src/report_analysis/correlation.rs:830-856 | The map holds the first confirming event of each family. |
| `StaticConfirmation.Confirmation` | src/report_analysis/correlation.rs:861-877 | The earliest of the four candidates that fit is the first fitting event among all events. |
| `StaticConfirmation.StaticConfirmations` | src/report_analysis/correlation.rs:810-877 | Every capability is confirmed by the first event of the root's run within two minutes that maps to one of its techniques, or by none. |
| `StaticConfirmation.ConfirmedAt` | src/report_analysis/correlation.rs:861-877 | Spelled out for a single capability: no event before the reported one fits it, and without one none does. |
| `StaticConfirmation.ConfirmsExactly` | src/report_analysis/correlation.rs:836-853 | An event confirms its family within 120000 milliseconds of the start of the root, in the same run of it. |
| `StaticConfirmation.CoversExactly` | src/report_analysis/correlation.rs:861-870 | A capability belongs to a family if one of its techniques does. |
| `StaticConfirmation.FamiliesAreSuspicious` | src/report_analysis/correlation.rs:836-845 | The events that can confirm a capability are those that count as suspicious. |
| `StaticConfirmation.TechniquesAreApart` | src/report_analysis/correlation.rs:861-877 | No technique belongs to two families, and a sub-technique belongs where its technique does. |
| `StaticConfirmation.FamilyHasOneKind` | src/report_analysis/correlation.rs:836-845 | Each family is confirmed by one kind of event. |
| `StaticConfirmation.FamilyTechniques` | src/report_analysis/correlation.rs:836-870 | Injection confirms T1055, persistence T1547 and T1543, reading of credentials T1555, tampering with telemetry T1562, and what is below them. |
| `ScoreFindings.DeduplicateScores` | src/report_analysis/correlation.rs:906-947 | In place, every finding is left as it is or suppressed, exactly as the greedy choice over the stable strongest-first order says. |
| `ScoreFindings.SurvivorsAreIndependent` | src/report_analysis/correlation.rs:905-947 | Two findings that still score share no evidence, and in one group they have the same rule id. |
| `ScoreFindings.OneScorePerBehaviour` | src/report_analysis/correlation.rs:948-963 | A finding of a rule without a group and one under the group of the same behaviour do not both score. |
| `ScoreFindings.OnlyTheScoreIsLost` | src/report_analysis/correlation.rs:940-946 | Suppression takes the score and adds to the explanation; everything else stays. |
| `ScoreFindings.TotalSurvives` | src/report_analysis/correlation.rs:906-947 | If anything scored, a strongest score is left unchanged. |
| `ScoreFindings.RunningAgainChangesNothing` | src/report_analysis/correlation.rs:906-947 | A second run leaves every finding as it is. |
| `ScoreDeduplication.KeptDisjoint` | src/report_analysis/correlation.rs:929-946 | Surviving scores have disjoint evidence. |
| `ScoreDeduplication.OnePerGroup` | src/report_analysis/correlation.rs:907-918 | With distinct rule ids a group scores at most once. |
| `ScoreDeduplication.SuppressedForAReason` | src/report_analysis/correlation.rs:935-943 | A suppressed score lost to its group's winner or overlaps a surviving score that is at least as strong. |
| `ScoreDeduplication.StrongestKept` | src/report_analysis/correlation.rs:920-946 | The strongest score of all survives. |
| `ScoreDeduplication.Idempotent` | src/report_analysis/correlation.rs:906-947 | Greedy suppression of its own outcome, in any order, changes nothing. |
| `ScoreDeduplication.ArrivalOrderIrrelevant` | src/report_analysis/correlation.rs:919-946 | The same scores survive for every order in which the findings can arrive if and only if no two different ones that tie on score and rule id are eligible and share evidence; eligibility is a recursion over the stronger findings, without any order of the list. |
| `ScoreDeduplication.SurvivesIffEligible` | src/report_analysis/correlation.rs:929-946 | Where nothing is contested, the survivors of the greedy choice are exactly the eligible findings. |
| `ScoreDeduplication.ContestDepends` | src/report_analysis/correlation.rs:919-946 | Where evidence is contested, another visiting order of the same findings lets other scores survive. |
| `ScoreDeduplication.TieExample` | src/report_analysis/correlation.rs:919-946 | Contested evidence exists: one rule found twice with overlapping evidence. |
| `ScoreDeduplication.SurvivorCount` | src/report_analysis/correlation.rs:929-946 | A claim that survives does so once, or, if it has no evidence, as often as it was made. |
| `ScoreFindings.VisitingOrder` | src/report_analysis/correlation.rs:921-928 | The visiting order is a permutation, strongest first, and stable where score and rule id tie. |
| `CivilDate.CivilIsCalendar` | src/bin/foxhole_analyze.rs:131-144 | For every day count the divisions give the date that many steps after 1 January 1970 in a calendar advanced day by day. |
| `CivilDate.DivisionsAreExact` | src/bin/foxhole_analyze.rs:132-138 | Era, year of era and day of year are exactly those of the shifted day count. |
| `CivilDate.CivilIsIncreasing` | src/bin/foxhole_analyze.rs:131-144 | Every date is valid, and a later count gives a later date. |
| `CivilDate.DayNumberOfCivil` | src/bin/foxhole_analyze.rs:131-144 | Counting whole years and months of the date gives the day count back. |
| `CivilDate.CivilOfDayNumber` | src/bin/foxhole_analyze.rs:131-144 | Every valid date from 1970 on is the date of its day count: the conversion is onto. |
| `CivilDate.LabelNamesTheSecond` | src/bin/foxhole_analyze.rs:116-129 | Two timestamps other than 0 have the same label exactly when they lie in the same second. |
| `CivilDate.LabelOfInstant` | src/bin/foxhole_analyze.rs:116-129 | The label of a given date and time of day spells that date and time. |
| `CivilDate.LabelInPlaces` | src/bin/foxhole_analyze.rs:116-129 | Up to the year 9999 the label is `YYYY-MM-DD hh:mm:ss UTC`, each field the decimal number in its place. |
| `Text.PaddedIsDecimal` | src/bin/foxhole_analyze.rs:116-129 | A padded number reads back as that number and has no leading zeros beyond its width. |
| `CommandLine.QuoteWindowsArg` | src/sandbox/sandbox_utils.rs:36-71 | The loop computes the quoting function that the round trips are about. |
| `CommandLine.QuotedExactlyWhen` | src/sandbox/sandbox_utils.rs:36-46 | An argument is left as it is exactly if it is not empty and contains neither white space nor a quote. |
| `CommandLine.CommandLineRoundTrip` | src/sandbox/sandbox_utils.rs:28-71 | The started program receives exactly the program name and arguments if and only if none contains NUL and the program name fits the rules of the first token. |
| `ProgramQuotes.ArgumentsSurviveExactly` | src/sandbox/sandbox_utils.rs:28-71 | The started program receives exactly the arguments if and only if no blank comes behind an odd number of quotes in the program name, and the number of these quotes is even or there are no arguments. |
| `ProgramQuotes.ArgumentsSurvive` | src/sandbox/sandbox_utils.rs:28-71 | Behind a program name without quotes every argument list arrives unchanged, empty arguments, quotes and trailing backslashes included, even if the name does not. |
| `ProgramQuotes.SwallowedExample` | src/sandbox/sandbox_utils.rs:28-34 | The program name `a"b` swallows the argument `c`. |
| `CommandLineRules.WordsAreArguments` | src/sandbox/sandbox_utils.rs:28-46 | Words that need no quotes are the arguments of every line in which spaces or tabs separate them. |
| `CommandLine.ProgramToken` | src/sandbox/sandbox_utils.rs:28-34 | The program name comes back exactly when it has no quote and, where quoted, no trailing backslash. |
| `CommandLine.TrailingBackslashExample` | src/sandbox/sandbox_utils.rs:66-69 | A quoted program name that ends in a backslash is changed. |
| `Sha256.Hasher.Update` | guest-agent/src/artifacts.rs:422-445 | The state is the standard's hash of the whole blocks seen so far, the buffer the rest; one more piece is appended to the message, however it was cut. |
| `Sha256.Hasher.FinishHex` | guest-agent/src/artifacts.rs:447-468 | The text is that of the SHA-256 of the whole message, for messages below 2^61 bytes. |
| `Sha256.Hasher.Transform` | guest-agent/src/artifacts.rs:470-528 | The register loop is the compression function of section 6.2.2 of FIPS 180-4. |
| `Fips180Constants.RoundConstantsAreRoots` | guest-agent/src/artifacts.rs:471-481 | The 64 constants are the first 32 bits of the fractional parts of the cube roots of the first 64 prime numbers, as section 4.2.2 of FIPS 180-4 defines them. |
| `Fips180Constants.InitialHashIsRoots` | guest-agent/src/artifacts.rs:412-416 | The eight initial words are those of the square roots of the first eight prime numbers. |
| `Fips180Example.AbcDigest` | guest-agent/src/artifacts.rs:547-555 | The digest of "abc" is ba7816bf…20015ad, worked out round by round. |
| `Sha256.Sha256File` | guest-agent/src/artifacts.rs:287-339 | However a file is read, the digest is that of its content; exactly content over the limit is refused. |
| `Base58.DecodeBase58` | src/detection/observables.rs:305-327 | The two loops yield the leading zeros and the shortest bytes of the number that the text spells, or a single zero; exactly text outside the alphabet is refused. |
| `Base58.MultiplyAdd` | src/detection/observables.rs:315-320 | One digit multiplies the bytes in place: carry and bytes together are 58 times the number plus the digit, and the carry stays below 58, so that one more byte is enough. |
| `Base58.DecodeOfEncode` | src/detection/observables.rs:305-327 | Decoding undoes the canonical encoding for exactly the byte strings whose number is not zero, leading zeros included. |
| `Base58.EncodeOfDecode` | src/detection/observables.rs:305-327 | Encoding undoes decoding for exactly the texts that do not spell zero. |
| `Base58.TextRoundTrip` | src/detection/observables.rs:309-313 | The same through the alphabet. |
| `Base58.AlphabetIsExact` | src/detection/observables.rs:309 | The alphabet has all digits and letters but `0`, `O`, `I` and `l`. |
| `Base58.ZeroExample` | src/detection/observables.rs:305-326 | For every length that an address may have, that many `1`s stand for as many zero bytes, and decode to one more. |
| `Base58.BitcoinAddress` | src/detection/observables.rs:305-332 | Accepted are exactly the texts of 26 to 35 characters that canonically encode 25 bytes with version 0 or 5 and a right checksum. |
| `Pcapng.PcapngCounts` | src/network_telemetry.rs:13-82 | Accepted are exactly the files within the limit that tile into valid blocks behind a section header; the counts are those of the one tiling. |
| `Pcapng.TilingIsUnique` | src/network_telemetry.rs:24-80 | A file tiles in at most one way. |
| `Pcapng.CutIsAcceptedAtBoundaries` | src/network_telemetry.rs:24-80 | A cut capture is accepted exactly when it is cut between two blocks. |
| `Pcapng.ConcatenationIsAccepted` | src/network_telemetry.rs:24-37 | Captures written one behind the other are accepted within the limit, whatever their byte orders. |
| `Pcapng.ConcatenationAdds` | src/network_telemetry.rs:55-73 | Their packet counts add up and their truncation flags are joined. |
| `PcapngWriter.WrittenIsAccepted` | src/network_telemetry.rs:24-80 | A capture written in either byte order, a section header and any number of enhanced packet blocks, is accepted exactly if it is within the limit. |
| `PcapngWriter.WrittenIsCounted` | src/network_telemetry.rs:45-73 | Its packets are all counted, and it is truncated exactly if one of them was captured shorter than it was. |
| `DnsName.ReadDnsName` | guest-agent/assets/detection_worker.py:444-467 | The loop returns the joined labels and the end offset of exactly the names whose chain ends within 64 hops, is ASCII and has at most 254 octets; the test on seen offsets refuses no such name. |
| `DnsName.JoinSplits` | guest-agent/assets/detection_worker.py:453-454 | Cutting a name at its dots gives the labels back in order if and only if no label contains a dot. |
| `DnsName.OctetsAreEncoded` | guest-agent/assets/detection_worker.py:463-465 | The limit on octets is one on the encoded name. |
| `DnsName.AcceptableExactly` | guest-agent/assets/detection_worker.py:462-465 | A name is acceptable exactly if its labels are ASCII and it takes at most 254 octets encoded, without its terminator. |
| `DnsName.CyclesNeverResolve` | guest-agent/assets/detection_worker.py:446-449 | A cycle of labels and pointers never spells a name, however many hops are allowed. |
| `DnsName.PlainName` | guest-agent/assets/detection_worker.py:446-466 | Following the hops of a name written in full spells it and ends behind it if and only if it has fewer labels than there are hops. |
| `DnsName.PlainNameIsRead` | guest-agent/assets/detection_worker.py:444-467 | The decoder returns such a name, joined, with the offset behind it, if and only if its labels are fewer than 64, ASCII and at most 254 octets together. |
| `DnsName.CompressedName` | guest-agent/assets/detection_worker.py:454-459 | Labels in front of a pointer to a name elsewhere are read as one name, and the end is behind that pointer. |
| `DnsName.ResolvedIsSpelled` | guest-agent/assets/detection_worker.py:444-467 | And nothing else is a name: what resolves is encoded labels in front of a terminator or such a pointer. |
| `DnsName.HopLimitExample` | guest-agent/assets/detection_worker.py:446-467 | A legal name of 64 one-byte labels is refused. |
| `Normalization.NormalizeIsIdempotent` | src/detection/observables.rs:17-186 | Whatever is accepted is accepted again in its normal form, unchanged, for domains, e-mail addresses, pipes, registry keys, paths, file names, named objects, user agents and certificate digests. |
| `NormalizationLaws.NormalInEitherCase` | src/detection/observables.rs:17-186 | Upper and lower case make no difference to what is accepted or to its normal form, for all kinds but user agents and the local part of addresses. |
| `NormalizationLaws.AddressInEitherCase` | src/detection/observables.rs:65-82 | Nor do they in the domain of an address. |
| `NormalizationLaws.PathWithEitherSlash` | src/detection/observables.rs:108-125 | Nor does the direction of the slashes in a path. |
| `NormalizationLaws.DomainOfExactly` | src/detection/observables.rs:35-42 | A domain is accepted exactly if it is spelled as two or more labels between dots, with or without one at the end; its form is the lower-case name without that dot. |
| `NormalizationLaws.EmailOfExactly` | src/detection/observables.rs:65-82 | An address is accepted exactly if it is a local part and a domain around an `@`. |
| `NormalizationLaws.PathOfExactly` | src/detection/observables.rs:108-125 | A path is accepted exactly if it starts at the root of a drive, has none of the reserved characters, no component `..` and at most 1024 bytes. |
| `NormalizationLaws.PipeOfExactly` | src/detection/observables.rs:83-91 | A pipe is accepted exactly if it is a name without separators behind the prefix of pipes. |
| `NormalizationLaws.RegistryOfExactly` | src/detection/observables.rs:92-106 | A key is accepted exactly if its shortened form begins with a hive and has at most 1024 bytes. |
| `NormalizationLaws.LocalMachineIsHklm` | src/detection/observables.rs:92-97 | `hkey_local_machine` becomes `hklm`, and what is behind it is shortened by itself. |
| `NormalizationLaws.CurrentUserIsHkcu` | src/detection/observables.rs:92-97 | `hkey_current_user` becomes `hkcu`. |
| `NormalizationLaws.ClassesRootIsHkcr` | src/detection/observables.rs:92-97 | `hkey_classes_root` becomes `hkcr`. |
| `NormalizationLaws.UsersIsHku` | src/detection/observables.rs:92-97 | `hkey_users` becomes `hku`. |
| `NormalizationLaws.SameUpToCase` | src/detection/observables.rs:17-186 | Of two texts that differ in case only, both are refused or both have one normal form, kinds with significant case aside. |
| `NormalizationLaws.FilenameExactly` | src/detection/observables.rs:123-141 | A file name is accepted exactly if it has a dot, none of the reserved characters and at most 255 bytes. |
| `NormalizationLaws.NamedExactly` | src/detection/observables.rs:142-148 | Mutexes, services and tasks are accepted exactly without NUL, quotes, angle brackets and bars, up to 256 bytes. |
| `NormalizationLaws.UserAgentExactly` | src/detection/observables.rs:149-154 | A user agent is accepted exactly if it is ASCII with a slash and at most 512 bytes, and kept as it is. |
| `NormalizationLaws.CertificateOfExactly` | src/detection/observables.rs:155-160 | A certificate digest is accepted exactly if it is 64 hexadecimal digits. |
| `NormalizationLaws.PresentableExactly` | src/detection/observables.rs:17-24 | What every kind asks for: text of 1 to 2048 bytes, without control characters, and without white space around it. |
| `NormalizationLaws.OnlyPresentable` | src/detection/observables.rs:17-24 | Anything else is refused for every kind. |
| `NormalizationLaws.NormalizeByKind` | src/detection/observables.rs:34-186 | Each kind has the test of its own row. |
| `NormalizationLaws.CharLenIsFewest` | src/detection/observables.rs:18 | Lengths are those of UTF-8: the fewest bytes that a character fits in. |
| `Text.WhitespaceExactly` | src/detection/observables.rs:21 | White space is the 25 characters that Unicode counts as such. |
| `Normalization.ShortenedHasNoLongHive` | src/detection/observables.rs:92-97 | After the four chained replacements no long hive name is left or has come about, anywhere in the key. |
| `Normalization.ReplaceRemoves` | src/detection/observables.rs:93-97 | A replacement removes its pattern and brings in no occurrence of another one that can not overlap what was inserted. |
| `Normalization.DomainStays` | src/detection/observables.rs:35-42 | The lower-case domain without its final dot is a valid domain and its own normal form. |
| `Normalization.EmailStays` | src/detection/observables.rs:65-82 | The address with a lower-case domain splits and validates as before. |
| `Normalization.RegistryStays` | src/detection/observables.rs:92-106 | The shortened key is its own normal form and has no long hive name. |
| `Normalization.PathStays` | src/detection/observables.rs:108-125 | The lower-case path with backslashes is its own normal form. |
| `GuestProtocol.AcceptedHistoryIsLegal` | src/sandbox/hyperv/guest_protocol.rs:840-909 | An accepted list of records has increasing sequences, each state once with its prerequisites among the records before it, only the shutdown after a terminal state and nothing after the shutdown. |
| `GuestProtocol.AcceptsExactlyWellFormed` | src/sandbox/hyperv/guest_protocol.rs:840-909 | And the machine accepts every such list of valid records of the run. |
| `GuestProtocol.PrerequisitesAreCoherence` | src/sandbox/hyperv/guest_protocol.rs:869-909 | In a coherent set of states, a state has its prerequisites exactly if the set stays coherent with it, and after a terminal state it is the shutdown. |
| `GuestProtocol.ProtocolStateMachine.Observe` | src/sandbox/hyperv/guest_protocol.rs:840-867 | A record is accepted exactly when it is valid, of this run, later, new and has its prerequisites; otherwise the machine does not change. |
| `GuestProtocol.StatusPublisher.Publish` | guest-agent/src/artifacts.rs:113-148 | A record is on disk only if the machine accepts it, and the machine moves on only if the write succeeds. |
| `GuestRun.AtMostOneExecution` | guest-agent/src/runner.rs:69-137 | In every interleaving of any number of agents and host writes at most one agent gets the claim, and the target is executed at most once. |
| `GuestRun.PublishedIsLegal` | guest-agent/src/runner.rs:69-320 | What an agent has published begins a legal sequence; it executes only after Running and never after it decided to cancel. |
| `GuestRun.CompletedFollowsResult` | guest-agent/src/runner.rs:121-150 | A Completed record on disk carries the digest of the result on disk, written by the agent that holds the claim. |
| `GuestRun.GuardRefusesOnlyAtTheLimit` | guest-agent/src/artifacts.rs:118-136 | The agent's own order is refused by the machine exactly when the sequence numbers have run out. |
| `GuestRun.ReachableIsOk` | guest-agent/src/runner.rs:69-320 | Every reachable state keeps the whole invariant: claim, phases, machine, digests and files agree, and the guest files are those of the claimant. |
| `GuestRun.ActKeeps` | guest-agent/src/runner.rs:69-320 | Every single operation of an agent keeps it, however it turns out, and never removes or changes a status record, the claim or the result. |
| `GuestSuccess.WaitingRunCompletes` | guest-agent/src/runner.rs:112-150 | From every state in order, a waiting agent that can read an acceptable start, and meets no fault, executes the target once, leaves its result, and has published GuestReady, Running, Completed and ShutdownReady, whatever host and other agents do in between. |
| `GuestSuccess.FreshRunCompletes` | guest-agent/src/runner.rs:69-150 | So does one that starts with a fresh package that is ready to run, if only the host acts until it holds the claim. |
| `GuestSuccess.CancelledRunEnds` | guest-agent/src/runner.rs:93-123 | An agent that reads a cancellation before the start leaves the result of a cancelled run, publishes the shutdown and does not execute. |
| `GuestSuccess.StartAndCancel` | guest-agent/src/artifacts.rs:150-236 | Of a start and a cancellation that are read together, a start with the lower number is cancelled, and any other is refused, which ends the run. |
| `GuestSuccess.KnownIsNotWaitedFor` | guest-agent/src/artifacts.rs:152-158 | An agent that already knows of a start or a cancellation does not wait for it. |
| `GuestSuccess.FaultsFail` | guest-agent/src/runner.rs:100-142 | A fault between the claim and the result makes the run a failing one. |
| `GuestSuccess.MainLineIsFaultless` | guest-agent/src/runner.rs:69-150 | In every run, an agent on the way to Completed has not met a single fault. |
| `GuestOutcomes.FailedIsPublishedExactlyWhen` | guest-agent/src/runner.rs:256-287 | Without I/O errors a failing agent publishes Failed exactly when every file in the folders of the output may be discarded and a sequence number is left, whatever host and other agents do in between. |
| `GuestOutcomes.FailedWroteNothingElse` | guest-agent/src/result.rs:168-207 | In every run, whoever has published Failed has written only files that may be discarded. |
| `GuestOutcomes.CollectedNeverFails` | guest-agent/src/result.rs:168-207 | A run in which a session collected a file never publishes Failed. |
| `GuestOutcomes.SequencesAscendExactlyWhen` | guest-agent/src/artifacts.rs:113-148 | In every run the sequence numbers that an agent publishes ascend if and only if it has not published Failed after a late error on Running. |
| `GuestOutcomes.LateIsLateRunning` | guest-agent/src/artifacts.rs:113-148 | An agent becomes late exactly when Running is linked and its write reports an error. |
| `GuestOutcomes.LateRunningCollides` | guest-agent/src/artifacts.rs:113-148 | After a late error on Running the Failed record repeats the sequence number, and whoever has read Running refuses it. |
| `ScanSession.Session.Scan` | guest-agent/src/detection.rs:192-297 | The state and the result are exactly those of running the due stages one after the other until one fails; captures go to the network scanner and all other targets to the other three; afterwards every stage meant for the target has run on it or is at its file limit, and all budgets hold whatever fails. |
| `ScanSession.Session.RunStage` | guest-agent/src/detection.rs:203-293 | One stage reports its output, the reason why it did not run, or the note on the budget; it works exactly if that fits both budgets and can be written, and is counted only then. |
| `ScanSession.Session.CollectFiles` | guest-agent/src/detection.rs:62-178 | The state is exactly that of collecting the written paths in order, up to the file limit, until one ends the collection; if none does, everything that may be collected is listed. Every new collected entry is the bounded content of such a path, and all budgets hold whatever fails. |
| `ScanSession.EndsExactly` | guest-agent/src/detection.rs:90-176 | A path stops the collection exactly when the time is up or a new file does not fit the budget, and breaks it exactly when something cannot be read, written or scanned. |
| `ScanSession.EndedAt` | guest-agent/src/detection.rs:89-178 | A collection that has ended early has ended at one of the paths, in the state that the paths before it led to. |
| `ScanSession.Session.CollectOne` | guest-agent/src/detection.rs:90-176 | State and result of one path are given exactly; a path that may be collected is listed afterwards unless it ends the collection. |
| `ScanSession.OrdinalIsDiscardable` | guest-agent/src/detection.rs:274-288 | The number of the next detection file is below 256. |
| `ScanSession.ExecutionsAreFew` | guest-agent/src/detection.rs:210-221 | There are never more executions than the four file limits allow together. |
| `ScanSession.PathsAreDistinct` | guest-agent/src/detection.rs:47-298 | No two manifest entries have the same path. |
| `ScanSession.CollectableExactly` | guest-agent/src/detection.rs:120-153 | A file may be collected exactly if it can be read, fits every scanner, and has the extension or the first bytes of a program; its name is its digest and that extension. |
| `ScanSession.WrittenExactly` | guest-agent/src/detection.rs:65-72 | Looked at is what the target is seen to create, write or modify. |
| `ScanSession.FewestIsTheLeast` | guest-agent/src/detection.rs:62-90 | The file limit of a collection is that of the strictest scanner. |
| `ScanOrder.ScannedInOrder` | src/detection/config.rs:156-163 | A new target is seen by YARA, the PE scanner and capa in this order, up to the first that fails. |
| `ScanOrder.CaptureIsScanned` | guest-agent/src/detection.rs:203-206 | A new capture is seen by the network scanner alone. |
| `ScanOrder.OwnSectionDecides` | guest-agent/src/detection.rs:203-293 | What a scanner may do depends on its own section of the configuration and the common totals, not on the other three. |
| `ScanSession.FilesAreNamed` | guest-agent/src/detection.rs:153-280 | Detection files are named by number and scanner, collected ones by digest and extension. |
| `ScanSession.WithDetectionKeeps` | guest-agent/src/detection.rs:265-293 | Adding a detection file keeps the byte total, the numbering and the names. |
| `ScanSession.WithCollectedKeeps` | guest-agent/src/detection.rs:141-166 | Adding a collected file keeps the capture total and the names. |
| `FailedOutput.DetectionsAreDiscardable` | guest-agent/src/result.rs:192-205 | Every detection file has a name that a failing run may discard. |
| `FailedOutput.LowNumbersAreDiscardable` | guest-agent/src/result.rs:192-205 | Of the names of detection files exactly those with a number below 256 may be discarded. |
| `FailedOutput.TelemetryIsDiscardable` | guest-agent/src/result.rs:185-192 | Of the extracted files exactly the three of the telemetry may be discarded, in either case. |
| `FailedOutput.CollectedIsNotDiscardable` | guest-agent/src/result.rs:183-191 | No collected file has one. |
| `FailedOutput.SessionIsDiscardable` | guest-agent/src/result.rs:168-207 | What a session has written may be discarded exactly if it has not collected any file. |
| `FailedOutput.Prepare` | guest-agent/src/result.rs:168-207 | Without I/O errors the folders are cleared exactly if all their files may be discarded, and are otherwise left from the first unknown name on. |
| `FailedOutput.ClearKnown` | guest-agent/src/result.rs:209-271 | A directory is cleared exactly when all its names are known; otherwise it is left from the first unknown name on. |
| `ArtifactStore.EnforceCeiling` | src/artifact.rs:444-510 | The worklist accepts a tree exactly when its entries are plain and its totals within the limits, in whatever order directories are listed and despite giving up early. |
| `ArtifactStore.CountEntry` | src/artifact.rs:463-500 | An entry is refused only if the whole tree has to be. |
| `ArtifactStore.CoversOpen` | src/artifact.rs:458-462 | Taking a directory off the list and listing it loses and repeats nothing. |
| `ArtifactStore.LimitedWriter.Write` | src/artifact.rs:1700-1715 | A buffer that does not fit as a whole is refused, and the count is that of the bytes in the file, saturated; the largest u64 is no limit. |
| `ArtifactStore.RunWriter` | src/artifact.rs:426-429 | A caller that gives up at the first error gets through exactly if everything it offers fits and the file takes it, and then the file is all of it. |
| `ArtifactStore.SecureWriteNew` | src/artifact.rs:378-442 | A file is published exactly when the arguments are in order, its writer gets through, nothing fails and the totals allow it; then exactly one file is new, it is everything the writer was offered, and the totals are within the limits; otherwise the new file is there, complete and within the limits, exactly if everything was in order and only the removal after the link failed, and in every other case the files are those of before. |
| `ArtifactStore.MovedIsWithin` | src/artifact.rs:433-439 | The totals taken with the temporary file are those with the published one. |
| `FindingMerge.DeduplicateFindings` | src/detection/validation.rs:390-424 | Findings are refused exactly when a group disagrees or a merged group is over a limit; otherwise there is one finding for each key, in order, with the least id and the sorted unions. |
| `FindingMerge.MembersHaveTheRule` | src/detection/validation.rs:390-405 | Merged into a finding is what has its rule pack, namespace and rule, and nothing else. |
| `FindingMerge.MergedInOrder` | src/detection/validation.rs:392-424 | The findings are in the order of rule pack, namespace and rule. |
| `FindingMerge.LocationsInOrder` | src/detection/validation.rs:408-414 | The locations are in the order of kind, offset, length and excerpt, without repetition. |
| `FindingMerge.AcceptanceIgnoresOrder` | src/detection/validation.rs:390-424 | Whether findings are refused does not depend on their order. |
| `FindingMerge.MergingIgnoresOrder` | src/detection/validation.rs:390-424 | Nor does the result, except for title, tags and MAEC data. |
| `FindingMerge.MergeStep` | src/detection/validation.rs:406-417 | Merging one more finding keeps the least id and the sorted unions of the group. |
| `NetworkFlows.PacketsAreConserved` | src/report_analysis/detection.rs:299-324 | The packet counts of the flows sum to the number of packets. |
| `NetworkFlows.Collect` | src/report_analysis/detection.rs:382 | The flows are listed once each, in order. |
| `NetworkFlows.FlowsInOrder` | src/report_analysis/detection.rs:382 | That order is by capture, then by name. |
| `NetworkFlows.FlowSpans` | src/report_analysis/detection.rs:312-323 | No packet of a flow is before its first time or after its last, and both are times of packets of the flow. |
| `PacketCorrelation.SummarizeNetwork` | src/report_analysis/detection.rs:266-386 | Budget exceeded or not, the correlations are exactly those of the unambiguous packets that fit the three budgets when their turn comes, sorted, and the warning is there exactly if some packet did not fit; the budgets are defined without the loop. |
| `PacketCorrelation.ScanExactlyWhen` | src/report_analysis/detection.rs:340-376 | The result is that of a full scan if and only if no unambiguous packet is over a budget. |
| `PacketCorrelation.UntruncatedIsScan` | src/report_analysis/detection.rs:326-381 | Without the warning it is: every packet that has a sender, that is direct events at its sending end within a second and all of one process, is attributed to it. |
| `PacketCorrelation.SummaryIsSound` | src/report_analysis/detection.rs:326-386 | In any case every correlation names the process of all direct events whose local end is the source and whose remote end is the destination of its packet, within a second, and lists their evidence; they are in order, and there are as many as packets that fit. |
| `PacketCorrelation.UnambiguousHasSender` | src/report_analysis/detection.rs:326-358 | A packet is unambiguous exactly if it has a sender, said of the fields of packet and events. |
| `PacketCorrelation.MadeIsScanned` | src/report_analysis/detection.rs:340-376 | The packets that fit are those of the scan if and only if none of these is over a budget, and otherwise fewer. |
| `PacketCorrelation.ExceededMissesNone` | src/report_analysis/detection.rs:342-358 | A packet with more than 256 matching events of several processes exceeds the budget, although nothing is missing. |
| `PacketCorrelation.ExceededExample` | src/report_analysis/detection.rs:342-358 | There are such packets, for every number of events above 256. |
| `PacketCorrelation.NewIndex` | src/report_analysis/detection.rs:268-295 | The index holds, in order of time, exactly the direct events of real processes at known times. |
| `PacketCorrelation.Lookup` | src/report_analysis/detection.rs:339-340 | The two partition points enclose exactly the events at most a second away. |
| `PacketCorrelation.LookupIsScan` | src/report_analysis/detection.rs:330-347 | What the index finds is what a scan of all events finds, in order of time. |
| `PacketCorrelation.Correlate` | src/report_analysis/detection.rs:348-375 | A correlation names the one process of the matching events and lists their evidence and the packet's, sorted and without repetition. |
| `PacketCorrelation.ExactlyIsComplete` | src/report_analysis/detection.rs:358-376 | One correlation for each unambiguous packet means that none is missing. |

## Left out

- Windows calls (handles, tokens, access control lists, job objects, volume queries, services) and the collector, packet capture and network plumbing around them: foreign calls without visible semantics.
- VirusTotal, the Python file servers, PowerShell, command-line parsing, doctor output, report prose and HTML: user interface and plumbing.
- YARA, pefile, capa, LIEF, Authenticode, serde, URL and IP text parsing: libraries. `normalize` is modelled without the kinds `ipv4`, `ipv6`, `ip`, `url` and `bitcoin_address`; `extract` is not modelled.
- Normalization.NormalizeIsIdempotent: assumes that whether a text is an IP address does not depend on the case of its letters; IP parsing itself is a parameter.
- `activities` and the extraction of fields from JSON: events arrive as values. The rule table of `correlation.rs` is a parameter, so that the results hold for every table.
- Titles, explanations, confidence values and false-positive guidance of findings, and the JSON around static confirmations.
- CommandLine.CommandLineRoundTrip: the rules are those of the Microsoft C runtime, by which a doubled quote inside quotes stands for one; UTF-16 encoding is not modelled.
- Sha256.Hasher.FinishHex: states nothing for messages of 2^61 bytes and more, where the bit length saturates.
- Base58.BitcoinAddress: the digest is a parameter of 32 bytes.
- Pcapng.PcapngCounts: the file is a byte string that does not change while it is read; which of the two error kinds is reported is stated only for a single block.
- DnsName.ReadDnsName: says that a refused name raises an error, not which one.
- GuestProtocol.StatusDirectory.WriteNew: takes the temporary file, the flush, the hard link and the removal as one step with one fault; that a hard link never replaces a file is an assumption.
- GuestProtocol.ValidRecord: the syntax of digests, run ids and error texts, and the protocol version, are not checked; a digest is represented by the content it belongs to.
- GuestRun.ReachableIsOk: the host writes each record under the name of its own state; the time limit of the wait, the attestation and the files with fixed names written beside `result.json` are outcomes of the operation that fails; an execution may leave any files in the folders of the output.
- The shutdown request at the end of a run: it changes no file.
- ScanSession.Session.Scan: the text of a scanner's report is opaque, and what is in a file whose write failed late is not tracked.
- ScanSession.Session.CollectFiles: resolving an observed path inside the work directory is a parameter.
- ArtifactStore.SecureWriteNew: assumes, as the source does, that removing the temporary file succeeds; directories created on the way stay.
- ArtifactStore.RunWriter: the closure that writes the file is one that offers piece after piece with `write_all` and passes errors on, as the callers `src/utils.rs:196` and `src/report.rs:346` do.
- FindingMerge.DeduplicateFindings: which of several reasons for a refusal is reported depends on the order of arrival and is not stated.
- PacketCorrelation.Correlate: the constant confidence and method name of a correlation are not modelled.
- IOC merging (`src/report_analysis/ioc.rs`), capture coverage flags, identifier checks and limit ceilings: single branches.
- Real time and sleeping: choices of the environment.
