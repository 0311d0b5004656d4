# irlume release and benchmark tooling: a verified model

irlume is a face-authentication system for Linux. Around its Rust crates sits Python tooling whose
answers people rely on without looking inside: a nightly uploader that must never hand Launchpad the
same version twice, evaluators that produce the published accuracy figures, a rewriter that makes
release SBOMs publishable, and a curator for the TPM vendor certificates the product ships. This
project models the logic of those scripts in Dafny and proves what they are for.

`dafny verify dfyconfig.toml` checks everything. One module per part:

| module | models |
|---|---|
| `Nightly`, `NightlyOrder`, `PpaVerdict`, `Versions` | the nightly PPA protocol, the order of its uploads, the publication verdict behind it, and the version strings |
| `WiderMatch`, `WiderAp`, `WiderTier`, `WiderSweep` | the WIDER FACE matcher, average precision, difficulty tiers, and the threshold sweep |
| `RocAuc`, `Metrics` | Mann-Whitney AUC; FAR thresholds, EER, fold accuracy, grant calibration |
| `Bytes`, `Purl`, `Json`, `Sbom`, `SbomRules`, `SbomCapture` | package URLs, JSON documents, SBOM validation and normalization, their rules in terms of the document, and a document whose graph normalization changes |
| `DerLength`, `AnchorChains`, `AnchorRefresh`, `AnchorFiles`, `AnchorHistory`, `AnchorFixpoint` | the DER length reader, certificate chains, the manifest refresh, its files and `check`, series of refreshes, and refreshing again |
| `ShardResume` | checkpoints and resumption of the spoof-scoring run |
| `Sequences`, `Strings`, `Reals` | stable sorting, filtering, counting; the order of strings; division and order on reals |

How to read it. Code that computes is a function, and lemmas say what it means. Code that loops or
updates is a method (or, for the uploader with its state file, a class), proved equal to a function
or directly to the property it exists for. A raised `ValueError` or a `fail()` is `None` or `false`.
Python's `sorted` is a stable insertion sort on the key. Scores, rates and times are reals. Whatever
comes from outside (Launchpad's answers, dput's outcome, the clock, what a URL serves, what openssl
says of a certificate, what the model makes of an image) is an input, so every theorem holds for all
its values.

## Main results

- **No version twice.** Over every history of timer and dry runs, no Debian version is handed to dput
  twice, and the revisions pushed for one derived version are 1, 2, ..., k with k at most MAX_PPAREV
  (`NoVersionTwice`). Three assumptions carry it: main never returns to a version it has left (a
  hypothesis of the theorem, and `ReturningPushesTwice` shows it is needed); a run is not killed
  between dput and the state save; `NotUploaded` means that nothing reached Launchpad (both part of
  what a run is).
- **Every upload is an upgrade.** If main only moves on (more commits or a higher tag), each version
  handed to dput sorts strictly after every earlier one in Debian's order (`PushesAscend`); such a main
  never returns to a version it left (`AdvancingNeverReturns`).
- **Published means published.** A version is recorded as published only when Launchpad has shown, for
  exactly the last revision ever pushed, a source publication, a nonempty list of builds all
  successful, and a binary past Pending (`PublishedIsProven`).
- **The record settles.** For one version the state file is written at most 2 * MAX_PPAREV times,
  however many runs there are (`SavesAreBounded`), and that bound is reached (`BoundIsReached`).
- **Fast forms are exact.** The rank-sum AUC counts pairs (`RocAuc`); the rectangle sum of `voc_ap` is
  the mean best precision over the ground truth (`VocAp`); one matching cut at each threshold equals
  matching at that threshold (`SweepIsExact`); finite candidate lists are optimal over all real
  thresholds (`Eer`, `TenFold`, `FarThresholdIsLeast`, `GrantCalibration`).
- **Greedy matching is half optimal.** No one-to-one matching has more than twice as many pairs, and
  the factor is attained (`GreedyIsHalfOptimal`, `HalfIsTight`).
- **SBOM rewriting preserves the graph of defined edges.** The renaming is a bijection on refs, and a
  graph isomorphism exactly when every input edge starts at a defined ref and ends at one or doubles an
  edge that does; the output is valid and a fixed point; the spelling of local refs does not matter
  (`RenamingIsBijective`, `GraphIsPreservedExactlyWhen`, `NormalizeIsIdempotent`,
  `SpellingOfLocalRefsIsIrrelevant`).
- **Anchors are sound and never lost.** The chain search is sound, complete and terminating despite
  name cycles (`VerifySet`); over any series of refreshes no digest and no live URL disappears from the
  manifest (`NothingIsEverLost`). With the directory threaded through: from a state that passes
  `check`, as long as no two kept digests get the same file name, `check` passes after every run and no
  run fails for a file (`ChecksForever`); each run breaks `check` exactly when two do
  (`RoundPassesExactlyWhen`).

## Where the code and its documentation disagree

The model follows the code.

- scripts/ppa-nightly.py:38-39 says that exit code 1 leaves the state unchanged. It does exactly for
  a held lock, for a dry run, and when the failure came before dput and no refused revision had to be
  recorded first (`ExitOneMeans`, `ExitOneCanChangeState`).
- benchmarks/bench_pad_rgb.py:47-51 says that a partial shard resumes from the recorded row. The
  counter is seeded with the offset while the batches restart at row 0, so the skip test never fires
  and every row is scored again. The promise holds exactly when each interruption came before
  PROGRESS_EVERY rows (`CodeResumesExactlyWhen`); seeding the counter with 0 would keep it always
  (`DocumentedResumeIsExact`).
- benchmarks/verification_metrics.py: for a FAR below 1 the threshold is optimal. At FAR 1 the code
  stops one unit below the smallest impostor score, and is optimal exactly when no genuine score lies
  that far down (`TarAtFullFar`). Cosine scores, in [-1, 1], can: a genuine score of -0.9 beside an
  impostor at 0.5 (`FullFarCanMiss`).
- scripts/update-tpm-ek-anchors.py: `--add` of a URL that the manifest mentions only on a retained
  entry is ignored (`AddedUrls`, `AddOfRetainedIsIgnored`).
- scripts/update-tpm-ek-anchors.py:381-382 says that a certificate irlume has shipped stays. It does in
  the manifest. On disk, file names carry 8 digits of the digest, so two certificates of one vendor and
  name can share a file; then the refresh succeeds and one overwrites the other (`CollisionLosesBytes`).
  All bytes are kept exactly when the file names differ (`AllHeldExactlyWhen`), which the input decides
  (`DistinctFilesMeans`). Overwriting a retained certificate also makes every later refresh fail, while
  the vendors serve the same (`OverwritingBreaksRefresh`): refreshing again reproduces the manifest
  exactly when none was overwritten (`RefreshAgain`).
- scripts/release_sbom.py:6 says that no edges are invented. One can be: an edge to a package URL that is
  nobody's bom-ref is captured by the component whose local ref is replaced by that URL, so the output
  has an edge between two components that the input did not have (`CaptureInventsAnEdge`). The graph is
  preserved exactly when every input edge is between defined refs, or has a defined start and doubles
  such an edge (`GraphIsPreservedExactlyWhen`); a dangling end survives no other way
  (`DanglingIsCaptured`).

## Model

| member | source | states |
|---|---|---|
| `Nightly.Uploader.constructor` | scripts/ppa-nightly.py:221-225 | with no state file the record is empty |
| `Nightly.Uploader.Save` | scripts/ppa-nightly.py:228-232 | the state is replaced as a whole, the write is logged, nothing is pushed |
| `Nightly.Uploader.RunOnce` | scripts/ppa-nightly.py:498-564 | `main` on the state file refines `Run`: the exit code, the saves in order, the final record and what reached dput, for timer runs, dry runs and a held lock |
| `Nightly.Uploader.PollLaunchpad` | scripts/ppa-nightly.py:551-564 | the polling loop acts on the first definite answer and saves at most once |
| `Nightly.PendingRunMeans` | scripts/ppa-nightly.py:148-160 | a run while a revision is pending: evidence publishes; a failed build, or no source publication 86400 seconds after the upload, is recorded and retried with the next revision up to the fifth; anything else changes nothing |
| `Nightly.OtherRunMeans` | scripts/ppa-nightly.py:146-167 | every other run: a published version is left alone, a failed one retried up to the fifth revision, an unknown one uploaded at revision 1; silence, dry runs and a held lock touch nothing, each with its exit code |
| `Nightly.PollMeans` | scripts/ppa-nightly.py:551-564 | the first poll that is not open decides what is saved and the exit code |
| `Nightly.RunShape` | scripts/ppa-nightly.py:506-564 | a run pushes at most one revision, the successor of the recorded one, within MAX_PPAREV and never of a published version; the record then holds exactly it |
| `Nightly.PollOutcome` | scripts/ppa-nightly.py:551-562 | polling ends pending, published or failed at the pushed revision, and published only on evidence |
| `Nightly.StepKeepsInvariant` | scripts/ppa-nightly.py:141-218 | every run keeps the link between record and push history, including that pending and failed never coexist |
| `Nightly.InvariantHolds` | scripts/ppa-nightly.py:484-564 | the invariant holds after every history of runs |
| `Nightly.NoVersionTwice` | scripts/ppa-nightly.py:25-30 | no Debian version is handed to dput twice; the revisions of one version are 1..k in order, k at most MAX_PPAREV |
| `Nightly.ReturningPushesTwice` | scripts/ppa-nightly.py:164-167 | if main left a version and came back, its first revision would be pushed again |
| `Nightly.PublishingNeedsEvidence` | scripts/ppa-nightly.py:515-518 | a save that changes `published` records the derived version, on evidence seen in this run |
| `Nightly.PublishedIsProven` | scripts/ppa-nightly.py:551-562 | in any history, a recorded publication has evidence for exactly the last revision ever pushed of that version |
| `Nightly.RunClimbs` | scripts/ppa-nightly.py:195-218 | every save lifts the rank of the derived version, which never passes 2 * MAX_PPAREV |
| `Nightly.SavesAreBounded` | scripts/ppa-nightly.py:520-564 | while main stays put, any number of runs writes the state at most 2 * MAX_PPAREV times |
| `Nightly.BoundIsReached` | scripts/ppa-nightly.py:551-562 | runs whose builds keep failing reach that bound |
| `Nightly.SettledStaysSettled` | scripts/ppa-nightly.py:195-198 | a published or exhausted version causes no further save, push or error |
| `Nightly.FreshVersionStartsAtOne` | scripts/ppa-nightly.py:164-167 | from every reachable record a version never derived before is uploaded at revision 1 |
| `Nightly.ReachableIsSane` | scripts/ppa-nightly.py:201-218 | every reachable record has revisions in 1..MAX_PPAREV and not both a pending and a failed entry |
| `Nightly.ExitOneMeans` | scripts/ppa-nightly.py:38-39 | after exit code 1 the state is unchanged if and only if the lock was held, or it was a dry run, or the failure came before dput and no refused revision was pending |
| `Nightly.ExitOneCanChangeState` | scripts/ppa-nightly.py:548-549 | a failing dput exits with 1 and does change the state |
| `NightlyOrder.AdvancingNeverReturns` | scripts/ppa-nightly.py:8-10 | a main that only gains commits or higher tags never returns to a version it left |
| `NightlyOrder.NextPushIsNewer` | scripts/ppa-nightly.py:520-546 | what a run pushes sorts strictly after everything pushed before |
| `NightlyOrder.PushesAscend` | scripts/ppa-nightly.py:484-564 | over every history in which main only moves on, the pushed Debian versions strictly ascend |
| `PpaVerdict.ClassifyMeans` | scripts/verify-ppa-publish.py:178-231 | "ok" if and only if published, some build, all successful, some binary; "failed" if and only if published with a failed build |
| `PpaVerdict.VerdictOfState` | scripts/verify-ppa-publish.py:60-77 | the verdict on each of Launchpad's twelve build states, and on one outside the vocabulary |
| `PpaVerdict.ClassifyIgnoresOrder` | scripts/verify-ppa-publish.py:195-216 | the verdict does not depend on the order of the builds |
| `PpaVerdict.FailureIsNeverMasked` | scripts/verify-ppa-publish.py:195-205 | a failed build decides, whatever other builds and binaries there are |
| `PpaVerdict.EarlyBinariesAreIrrelevant` | scripts/verify-ppa-publish.py:241-245 | fetching the binaries only after all builds succeeded never changes the verdict |
| `PpaVerdict.PublishedBinaries` | scripts/verify-ppa-publish.py:152-175 | the paging loop returns the matching, non-Pending binaries of all pages in order |
| `PpaVerdict.StatusMeans` | scripts/ppa-nightly.py:246-250 | "ok" if and only if the evidence is there, "failed" if and only if a published source has a failed build, "absent" if and only if no source publication is listed |
| `Versions.ParseIsExact` | scripts/ppa-nightly.py:101-108 | the describe pattern matches exactly the well-formed strings, with unique groups |
| `Versions.WellFormedMeans` | scripts/ppa-nightly.py:104 | which characters each group may hold |
| `Versions.DocumentedExample` | scripts/ppa-nightly.py:102-113 | v0.15.0-139-g3c162b83 gives 0.15.0+git139.g3c162b83, and its first upload ends in -0ppa1~resolute1 |
| `Versions.DebianVersionInjective` | scripts/ppa-nightly.py:111-113 | upstream version and revision are recoverable from the Debian version |
| `Versions.UpstreamInjective` | scripts/ppa-nightly.py:107-108 | tag, commit count and hash are recoverable from the upstream version |
| `Versions.DescribeRecoverable` | scripts/ppa-nightly.py:101-113 | describe string and revision are recoverable from an upload's version |
| `Versions.PartAntisymmetric` | scripts/ppa-nightly.py:111-113 | the part ordering of section 5.6.12 of the Debian Policy Manual, used below, is antisymmetric |
| `Versions.CharacterOrder` | scripts/ppa-nightly.py:111-113 | that ordering on characters: a tilde before the end, letters before the rest, then by code |
| `Versions.MoreCommitsIsNewer` | scripts/ppa-nightly.py:101-113 | for one tag a larger commit count sorts strictly later, whatever hashes and revisions |
| `Versions.LaterRevisionIsNewer` | scripts/ppa-nightly.py:111-113 | for one upstream version a larger revision sorts strictly later |
| `Versions.NightlyIsAboveRelease` | scripts/ppa-nightly.py:101-113 | a nightly sorts strictly above its tag's release |
| `Versions.NightlyIsBelowNextPatch` | scripts/ppa-nightly.py:101-113 | a nightly sorts strictly below every later patch release of its line |
| `Versions.LaterIsNewer` | scripts/ppa-nightly.py:101-113 | a larger major, minor, patch or commit count, in that order of precedence, sorts strictly later whatever the hashes and revisions |
| `WiderMatch.IouLaws` | benchmarks/wider_ap.py:46-59 | overlap is symmetric and within [0, 1] |
| `WiderMatch.OverlapMeans` | benchmarks/wider_ap.py:46-59 | it is positive if and only if some point lies inside both boxes |
| `WiderMatch.IouMeans` | benchmarks/wider_ap.py:46-59 | it is the area of the common box as a fraction of the joint area |
| `WiderMatch.MeetIsCommon` | benchmarks/wider_ap.py:47-53 | a point lies inside the common box if and only if it lies inside both |
| `WiderMatch.AreaMeans` | benchmarks/wider_ap.py:54-55 | a box has area if and only if it has a point inside, and then it is width times height |
| `WiderMatch.ScanIsFirstBest` | benchmarks/wider_ap.py:70-78 | the scan selects the first free valid box of greatest overlap at or above the threshold, or none if there is none |
| `WiderMatch.BestFree` | benchmarks/wider_ap.py:70-78 | the inner loop over the `matched` array makes that choice |
| `WiderMatch.Match` | benchmarks/wider_ap.py:62-84 | `_match` with its in-place array returns the flags of the greedy assignment |
| `WiderMatch.AssignSound` | benchmarks/wider_ap.py:62-84 | every true positive has its own distinct, valid box at the threshold |
| `WiderMatch.AssignGreedy` | benchmarks/wider_ap.py:68-83 | a prediction misses an eligible box, or takes a lesser one, only when a better-ranked prediction had it |
| `WiderMatch.AssignPrefix` | benchmarks/wider_ap.py:68-83 | lower-ranked predictions do not change the assignment of higher-ranked ones |
| `WiderMatch.TruePositivesBounded` | benchmarks/wider_ap.py:62-84 | there are at most as many true positives as valid boxes |
| `WiderMatch.GreedyIsMatching` | benchmarks/wider_ap.py:62-84 | the true positives form a one-to-one matching of the given predictions, one pair each |
| `WiderMatch.GreedyIsHalfOptimal` | benchmarks/wider_ap.py:62-84 | no one-to-one matching of the given predictions has more than twice as many pairs as there are true positives |
| `WiderMatch.HalfIsTight` | benchmarks/wider_ap.py:62-84 | at threshold 0.5 two boxes and two predictions attain the factor two |
| `WiderMatch.MatchIgnoresInvalid` | benchmarks/wider_ap.py:72-74 | deleting the invalid boxes from the list leaves every flag unchanged |
| `WiderAp.BestPrecisionIsMax` | benchmarks/wider_ap.py:116-117 | the envelope is the greatest precision at any rank from here on |
| `WiderAp.RecallPrecision` | benchmarks/wider_ap.py:103-113 | the cumulative loop yields recall and precision after each rank |
| `WiderAp.Envelope` | benchmarks/wider_ap.py:114-117 | the backward in-place loop turns the precisions into the envelope |
| `WiderAp.AreaUnder` | benchmarks/wider_ap.py:118-122 | the rectangle sum telescopes to the difference of the remainders |
| `WiderAp.RecallAndEnvelope` | benchmarks/wider_ap.py:103-117 | the padded lists hold the recalls and the envelope |
| `WiderAp.VocAp` | benchmarks/wider_ap.py:98-122 | `voc_ap` is 1/total_gt times the sum, over true-positive ranks i, of the greatest precision at any rank >= i; 0 without ground truth |
| `WiderAp.ApLaws` | benchmarks/wider_ap.py:98-122 | with no more hits than boxes AP is in [0, 1], and 1 if and only if all boxes are found and no false positive ranks above a true one |
| `WiderAp.ApGrows` | benchmarks/wider_ap.py:98-122 | appending lower-ranked detections never lowers AP |
| `WiderAp.ScoreImage` | benchmarks/wider_ap.py:129-138 | one image contributes its ranked scores with their flags, each counted once |
| `WiderAp.ImageHits` | benchmarks/wider_ap.py:134-137 | an image's true positives are those of the matcher at threshold 0.5, at most one per valid box |
| `WiderAp.Summarize` | benchmarks/wider_ap.py:140-143 | sorting the pairs and then ranking them again in `voc_ap` gives the AP of the stable global ranking |
| `WiderAp.Evaluate` | benchmarks/wider_ap.py:125-143 | `evaluate` computes the evaluation of the images in ascending order of the union of the keys, absent entries being empty |
| `WiderAp.EvaluateKeys` | benchmarks/wider_ap.py:126-143 | the accumulating loop, over any list of keys |
| `WiderAp.EvaluationLaws` | benchmarks/wider_ap.py:125-143 | tp + fp is the number of predictions, tp <= n_gt, AP is in [0, 1], and 1 if and only if every valid box is matched with no false positive above a true one |
| `WiderTier.BestOverlapMeans` | benchmarks/wider_ap.py:162-170 | the scan finds k if and only if k is the first valid box of greatest, positive overlap |
| `WiderTier.DroppedMeans` | benchmarks/wider_ap.py:151-158 | a prediction is dropped if and only if its best-overlapping valid box is outside the tier |
| `WiderTier.TierBoxes` | benchmarks/wider_ap.py:146-148 | the boxes counted are the valid ones whose y2 - y1 exceeds the cut, or reaches it when the cut is not strict |
| `WiderTier.FindBestOverlap` | benchmarks/wider_ap.py:162-170 | the scanning loop finds that box |
| `WiderTier.DiscardOffTier` | benchmarks/wider_ap.py:151-174 | the survivors are the predictions not dropped, in order |
| `WiderTier.ScoreTierImage` | benchmarks/wider_ap.py:184-198 | one image contributes its survivors scored against its tier boxes |
| `WiderTier.EvaluateTier` | benchmarks/wider_ap.py:177-202 | `evaluate_tier` is the evaluation of the survivors against the tier boxes, over the union of the keys in ascending order |
| `WiderTier.EvaluateTierKeys` | benchmarks/wider_ap.py:181-202 | the accumulating loop, over any list of keys |
| `WiderTier.FullTier` | benchmarks/wider_ap.py:177-202 | a height cut that admits every valid box gives exactly the result of `evaluate` |
| `WiderTier.TierLaws` | benchmarks/wider_ap.py:177-202 | in every tier tp + fp is the number of survivors, tp <= n_gt, and AP is in [0, 1] |
| `WiderSweep.CutImageExact` | benchmarks/bench_detection_wider.py:192-199 | for one image, matching then cutting at a score equals cutting then matching |
| `WiderSweep.SweepIsExact` | benchmarks/bench_detection_wider.py:189-211 | cutting the globally ranked list at any threshold gives the list that filtering first, then matching and ranking, would give |
| `WiderSweep.MatchAll` | benchmarks/bench_detection_wider.py:190-201 | the matching loop of one input size builds the globally ranked list |
| `WiderSweep.OperatingFppi` | benchmarks/bench_detection_wider.py:202-206 | the budget is the false positives per image of an evaluation at the operating score |
| `WiderSweep.BudgetRecall` | benchmarks/bench_detection_wider.py:214-222 | the loop reports the best recall of any nonempty prefix within the false-positive budget, 0 if there is none or no ground truth |
| `WiderSweep.SweepRow` | benchmarks/bench_detection_wider.py:211-230 | a row holds the AP of an evaluation at that threshold and the budgeted recall of its ranking |
| `WiderSweep.SweepInput` | benchmarks/bench_detection_wider.py:208-230 | every row of an input size means that, though matching was done once |
| `WiderSweep.CutsNest` | benchmarks/bench_detection_wider.py:211 | a higher threshold leaves a prefix of what a lower one leaves |
| `WiderSweep.SweepApFalls` | benchmarks/bench_detection_wider.py:227 | AP never rises with the threshold |
| `WiderSweep.SweepRecallFalls` | benchmarks/bench_detection_wider.py:214-222 | the budgeted recall never rises with the threshold |
| `WiderSweep.OperatingPointRecall` | benchmarks/bench_detection_wider.py:202-222 | at the operating point itself the budgeted recall is its plain recall, also when nothing is detected |
| `RocAuc.EndOfRun` | benchmarks/pad_score.py:35-37 | the inner loop finds the last tie of the run |
| `RocAuc.TieRunRank` | benchmarks/pad_score.py:38 | (i + j) / 2 + 1 is the average rank of a maximal run of ties at positions i..j |
| `RocAuc.AverageRanks` | benchmarks/pad_score.py:32-39 | the outer loop gives every score its average rank: those below, plus half of the ties and of one |
| `RocAuc.SumOfRanks` | benchmarks/pad_score.py:40 | the attack rank sum over the pool |
| `RocAuc.RankSumExcess` | benchmarks/pad_score.py:41 | the rank sum less its minimum counts attack-above-genuine pairs plus half the tied pairs |
| `RocAuc.PairWinsMeans` | benchmarks/pad_score.py:41 | that count is the number of pairs (i, j) with attack i above genuine j, plus half the number of tied pairs |
| `RocAuc.RocAuc` | benchmarks/pad_score.py:26-42 | `roc_auc` is that pair count over n_attack * n_genuine; an error if and only if a list is empty |
| `RocAuc.PairWinsComplement` | benchmarks/pad_score.py:41 | each pair's two comparisons add up to one |
| `RocAuc.AucLaws` | benchmarks/pad_score.py:26-42 | the AUC is in [0, 1], and swapping the lists gives 1 minus it |
| `RocAuc.AucIsOne` | benchmarks/pad_score.py:26-42 | it is 1 if and only if every attack scores above every genuine sample |
| `Metrics.FarThresholdIsLeast` | benchmarks/verification_metrics.py:20-29 | below FAR 1 a real threshold meets the FAR bound if and only if it is at least the computed one |
| `Metrics.FarThresholdFalls` | benchmarks/verification_metrics.py:20-29 | a larger FAR never raises the threshold |
| `Metrics.TarAtFarIsBest` | benchmarks/verification_metrics.py:54-62 | no real threshold within the FAR bound has a higher TAR, and the computed one is within it |
| `Metrics.TarAtFarIsMonotone` | benchmarks/verification_metrics.py:54-62 | TAR never falls as FAR grows |
| `Metrics.TarAtFullFar` | benchmarks/verification_metrics.py:27-28 | at FAR 1 the result is optimal if and only if each genuine score exceeds some impostor score less one |
| `Metrics.FullFarCanMiss` | benchmarks/verification_metrics.py:27-28 | one genuine and one impostor cosine score for which it is not |
| `Metrics.FarThresholdTable` | benchmarks/verification_metrics.py:65-78 | each row agrees with `_far_threshold` and `tar_at_far`; an error if and only if one of them errs |
| `Metrics.AboveMeans` | benchmarks/verification_metrics.py:61-62 | TAR and realized FAR count the scores strictly above the threshold |
| `Metrics.FarMeans` | benchmarks/verification_metrics.py:45 | the FAR of `eer` counts the impostors at or above the threshold |
| `Metrics.FrrMeans` | benchmarks/verification_metrics.py:46 | its FRR counts the genuine scores below the threshold |
| `Metrics.CandidateFor` | benchmarks/verification_metrics.py:36-39 | every real threshold splits the scores as some EER candidate does |
| `Metrics.BestCandidate` | benchmarks/verification_metrics.py:42-51 | the loop stops at the first candidate of least gap |
| `Metrics.FirstBestIsEer` | benchmarks/verification_metrics.py:44-50 | that candidate has the least gap of all real thresholds |
| `Metrics.Eer` | benchmarks/verification_metrics.py:32-51 | `eer` is (FAR + FRR) / 2 at the lowest threshold of least FAR-FRR gap among all reals; an error if and only if a list is empty |
| `Metrics.EerIsUnique` | benchmarks/verification_metrics.py:32-51 | that specification determines the value |
| `Metrics.EerBounds` | benchmarks/verification_metrics.py:32-51 | the EER is in [0, 1] |
| `Metrics.EerZero` | benchmarks/verification_metrics.py:32-51 | it is 0 if and only if every genuine score exceeds every impostor score |
| `Metrics.EerOfIdentical` | benchmarks/verification_metrics.py:32-51 | it is one half for identical lists |
| `Metrics.ThresholdFor` | benchmarks/verification_metrics.py:105-107 | every real threshold has the accuracy of an observed score or of one less than the smallest |
| `Metrics.AccuracyMeans` | benchmarks/verification_metrics.py:81-88 | accuracy counts the pairs that score above the threshold if and only if their label is 1 |
| `Metrics.PerfectFold` | benchmarks/verification_metrics.py:103-111 | a fold's best accuracy is 1 if and only if some threshold separates the pairs of label 1 from the others |
| `Metrics.BestBeatsMajority` | benchmarks/verification_metrics.py:103-111 | it is at least the share of either class, and so at least one half |
| `Metrics.BestFoldAccuracy` | benchmarks/verification_metrics.py:104-111 | a fold's value is the greatest accuracy of any real threshold, and attained |
| `Metrics.GroupByFold` | benchmarks/verification_metrics.py:99-101 | each fold's group is its pairs in input order |
| `Metrics.TenFold` | benchmarks/verification_metrics.py:91-115 | one optimum per distinct fold in ascending order, with mean and variance; an error if and only if lengths differ or there are no scores |
| `Metrics.SumLaws` | benchmarks/verification_metrics.py:113-114 | the laws that determine the sums |
| `Metrics.MeanIsCentre` | benchmarks/verification_metrics.py:113 | a value is the reported mean if and only if the folds' deviations from it sum to 0 |
| `Metrics.BestRow` | benchmarks/bench_recog_suite.py:522-524 | the row chosen is within the cap and no such row has a larger key |
| `Metrics.GrantCalibration` | benchmarks/bench_recog_suite.py:516-529 | best TAR then lowest threshold is the lowest candidate threshold meeting the FAR cap; no grant if and only if none meets it, an error if and only if a row is asked for over an empty list |
| `Purl.DecodeQuote` | scripts/release_sbom.py:44-49 | percent-decoding undoes the encoding used by `urlencode`, for every byte string |
| `Purl.EscapeDecodes` | scripts/release_sbom.py:36 | an escape with digits in either case decodes to its byte |
| `Purl.PercentStays` | scripts/release_sbom.py:36 | a percent sign that starts no escape stays |
| `Purl.QuoteMeans` | scripts/release_sbom.py:49 | what is written for each byte: unreserved ones as they are, a space as a plus sign, others as upper-case escapes |
| `Purl.FieldMeans` | scripts/release_sbom.py:44 | a field is split at its first equals sign, and without one its value is blank |
| `Purl.QueryMeans` | scripts/release_sbom.py:44 | a query is read field by field between ampersands, empty fields skipped |
| `Purl.UrlParts` | scripts/release_sbom.py:42-44 | the fragment starts at the first hash sign, and the query before it at the first question mark |
| `Purl.LocalMeans` | scripts/release_sbom.py:34-36 | a text is local if and only if, decoded, it has "file:" in any case, alone or behind a scheme and "+", at the start of a word |
| `Purl.QueryRoundTrip` | scripts/release_sbom.py:44-49 | parsing an encoded qualifier list gives the list back |
| `Purl.CleanLeavesRemote` | scripts/release_sbom.py:45-48 | without a local download_url the value is returned unchanged |
| `Purl.CleanRewrites` | scripts/release_sbom.py:45-49 | with one, the result is the base, the other qualifiers encoded behind a question mark if any are left, and the fragment |
| `Purl.CleanMeans` | scripts/release_sbom.py:39-49 | base and fragment stay, the qualifiers left are those that are not both named download_url and local, and cleaning again changes nothing |
| `Json.ObjectsOfMap` | scripts/release_sbom.py:13-20 | the objects of a rewritten document are the rewritten objects, in the same order |
| `Json.LeavesOfMap` | scripts/release_sbom.py:23-31 | the strings of a rewritten document are the rewritten strings, in the same order |
| `Sbom.AddRef` | scripts/release_sbom.py:62-70 | one round accepts a well-formed, new ref and records it; a refusal means that the document's refs are bad |
| `Sbom.CollectDefinitions` | scripts/release_sbom.py:61-70 | succeeds if and only if every ref is a nonempty string and none repeats, with the set of refs |
| `Sbom.CheckDependencies` | scripts/release_sbom.py:74-89 | accepts if and only if every entry is well formed over the definitions and no parent repeats |
| `Sbom.ValidateSbom` | scripts/release_sbom.py:52-91 | `validate_sbom` accepts exactly the valid documents |
| `SbomRules.ValidMeans` | scripts/release_sbom.py:52-91 | valid if and only if: a CycloneDX object; components and services absent or arrays of objects; bom-refs nonempty strings, all different; dependencies absent or an array of objects with different, defined refs whose dependsOn is absent or an array of defined refs; no local string |
| `Sbom.ReadEntry` | scripts/release_sbom.py:115-116 | a local ref is mapped to its own component's cleaned package URL, or refused without one |
| `Sbom.MappingAt` | scripts/release_sbom.py:112-116 | with distinct refs no mapping entry is overwritten |
| `Sbom.BuildMapping` | scripts/release_sbom.py:102-116 | the loop succeeds if and only if the refs are good and renamable, with the whole mapping |
| `Sbom.NormalizeSbom` | scripts/release_sbom.py:94-129 | `normalize_sbom` is `Normalize` on every document, errors included |
| `SbomRules.RenamingMeans` | scripts/release_sbom.py:107-116 | exactly the local bom-refs are renamed, each to the cleaned package URL of its own object |
| `SbomRules.OutputStrings` | scripts/release_sbom.py:104-127 | every string of the output, in place: a package URL is cleaned, and any string that is a renamed ref is replaced |
| `SbomRules.PurlsAreStrings` | scripts/release_sbom.py:40-41 | normalization refuses a package URL that is no string or does not start with pkg: |
| `SbomRules.ValidStaysAsItIs` | scripts/release_sbom.py:94-129 | a valid document whose package URLs have no local download_url is returned unchanged |
| `SbomRules.FixedStrings` | scripts/release_sbom.py:40-54 | the byte constants spell pkg:, download_url and CycloneDX |
| `Sbom.RenamingIsBijective` | scripts/release_sbom.py:94-129 | the renaming is a bijection from the input's refs to the output's, in document order |
| `Sbom.OutputEdges` | scripts/release_sbom.py:118-127 | the output's edges are exactly the renamed input edges |
| `Sbom.GraphIsPreserved` | scripts/release_sbom.py:94-129 | if the input's edges join defined refs, the renaming is a graph isomorphism: edges between refs correspond both ways, and the output has no other |
| `Sbom.GraphIsPreservedExactlyWhen` | scripts/release_sbom.py:94-129 | whenever normalization succeeds, the renaming is a graph isomorphism if and only if every input edge starts at a defined ref, and ends at one or stands beside an edge from the same start to a ref renamed to its end |
| `Sbom.ParentsStayApart` | scripts/release_sbom.py:81-83 | the renaming merges no two parents of edges, defined or not |
| `SbomCapture.CaptureInventsAnEdge` | scripts/release_sbom.py:6 | a document that normalization accepts and whose output has an edge between two components that the input does not have |
| `Sbom.DanglingIsCaptured` | scripts/release_sbom.py:118-128 | an edge end undefined in the input can only survive by equalling a package URL that replaces a local ref |
| `Sbom.NormalizeIsIdempotent` | scripts/release_sbom.py:127-129 | the output is valid, and normalizing it again changes nothing |
| `Sbom.SpellingOfLocalRefsIsIrrelevant` | scripts/release_sbom.py:94-129 | inputs that differ by a one-to-one renaming of local refs, with the same cleaned package URLs, give the same result, errors included |
| `DerLength.OctetsRoundTrip` | scripts/update-tpm-ek-anchors.py:81 | reading the minimal octets of a number gives the number |
| `DerLength.BigEndianRoundTrip` | scripts/update-tpm-ek-anchors.py:79-81 | octets without a leading zero are the minimal octets of their value |
| `DerLength.DerLengthIsExact` | scripts/update-tpm-ek-anchors.py:72-85 | a total is reported if and only if the data starts with the minimal SEQUENCE header of a content length below 2^32 (sections 8.1.3 and 10.1 of ITU-T X.690), whatever follows |
| `DerLength.ExactlyOneValue` | scripts/update-tpm-ek-anchors.py:100-101 | the total equals the input's length if and only if the input is one header and its contents |
| `AnchorChains.IndexBySubject` | scripts/update-tpm-ek-anchors.py:261-264 | the index returns exactly the entries of a given subject name |
| `AnchorChains.Expand` | scripts/update-tpm-ek-anchors.py:281-289 | either a root issuer is found, with a chain to it, or every issuer is put on the frontier |
| `AnchorChains.ClosedMeansUnchained` | scripts/update-tpm-ek-anchors.py:276-291 | with an empty frontier and no root issuer seen, no chain exists |
| `AnchorChains.Search` | scripts/update-tpm-ek-anchors.py:273-291 | the worklist terminates, and finds a root if and only if a finite chain of verified issuer links leads to one |
| `AnchorChains.VerifySet` | scripts/update-tpm-ek-anchors.py:259-291 | succeeds if and only if every root is self-signed and every other entry chains to a listed root |
| `AnchorRefresh.KeyTotal` | scripts/update-tpm-ek-anchors.py:321-322 | the sort key orders any two entries, and ties only equal digests |
| `AnchorRefresh.KeyTransitive` | scripts/update-tpm-ek-anchors.py:321-322 | the order is transitive |
| `AnchorRefresh.DownloadAll` | scripts/update-tpm-ek-anchors.py:368-377 | the first loop collects one new entry per live URL and refuses the same bytes twice |
| `AnchorRefresh.RetainAll` | scripts/update-tpm-ek-anchors.py:383-389 | the second loop keeps every listed certificate not collected, as retained, and fails for one whose file does not hold its bytes |
| `AnchorRefresh.RefreshManifest` | scripts/update-tpm-ek-anchors.py:359-402 | the method computes `Refresh`, which the next rows describe |
| `AnchorRefresh.RefreshMeans` | scripts/update-tpm-ek-anchors.py:359-402 | no listed digest is lost, every entry comes from a current download or an earlier listing, every live URL has an entry; the list is sorted, without duplicates and verified |
| `AnchorRefresh.WrittenMeans` | scripts/update-tpm-ek-anchors.py:359-391 | an entry is in the result if and only if the input explains it: a live URL serves it, or none does and the first item to list its digest is readable |
| `AnchorRefresh.WrittenOrder` | scripts/update-tpm-ek-anchors.py:321-322 | vendors ascend; within a vendor roots come first; then subjects ascend; then digests strictly ascend |
| `AnchorRefresh.WrittenEntry` | scripts/update-tpm-ek-anchors.py:147-152 | a root is issued to its own name and self-signed; subject and facts are the certificate's; the file lies in the vendor's directory, named by slug and 8 digits |
| `AnchorRefresh.LiveEntry` | scripts/update-tpm-ek-anchors.py:366-377 | a live entry was fetched over HTTPS and has the vendor of the last item with its URL |
| `AnchorRefresh.RetainedMeans` | scripts/update-tpm-ek-anchors.py:381-389 | an entry is retained if and only if no live URL serves its bytes; each live URL has exactly one entry that is not retained |
| `AnchorRefresh.LiveUrlsKept` | scripts/update-tpm-ek-anchors.py:362-366 | the live URLs after a refresh are those before |
| `AnchorRefresh.DateKept` | scripts/update-tpm-ek-anchors.py:361-389 | the first download date of a digest is kept, a blank one filled in when its URL serves it; of two listings a retained entry takes the first date and a live one the last |
| `AnchorFiles.WriteFiles` | scripts/update-tpm-ek-anchors.py:395-401 | the directory maps each file name to the digest written to it last |
| `AnchorFiles.HeldMeans` | scripts/update-tpm-ek-anchors.py:395-401 | a certificate is on disk after the loop if and only if no later one has the same file name |
| `AnchorFiles.AllHeldExactlyWhen` | scripts/update-tpm-ek-anchors.py:395-401 | every certificate of a manifest is on disk after the loop if and only if no two have the same file name |
| `AnchorFiles.DistinctFilesMeans` | scripts/update-tpm-ek-anchors.py:235-245 | the result's file names differ if and only if those of the digests kept do, in terms of the items, the vendors and what the live URLs serve |
| `AnchorFiles.CheckEntry` | scripts/update-tpm-ek-anchors.py:423-438 | accepts an entry if and only if URL, file name, bytes, description and role are right |
| `AnchorFiles.CheckEntries` | scripts/update-tpm-ek-anchors.py:422-438 | the loop accepts if and only if every entry does |
| `AnchorFiles.NoDigestTwice` | scripts/update-tpm-ek-anchors.py:439-440 | accepts if and only if no digest repeats |
| `AnchorFiles.NoLiveUrlTwice` | scripts/update-tpm-ek-anchors.py:441-443 | accepts if and only if no live URL repeats |
| `AnchorFiles.NoExtraFiles` | scripts/update-tpm-ek-anchors.py:446-448 | accepts if and only if every file belongs to an entry |
| `AnchorFiles.CheckManifest` | scripts/update-tpm-ek-anchors.py:420-451 | `check` accepts exactly the manifests and directories that meet its conditions |
| `AnchorFiles.RefreshChecksExactlyWhen` | scripts/update-tpm-ek-anchors.py:420-451 | what a successful refresh leaves passes `check` (HTTPS, file names, bytes, certificates, descriptions, roles, duplicates, live URLs, extra files, order, chains) if and only if no two digests it keeps get the same file name and the listed certificates no URL serves any more have an HTTPS URL and certificate bytes |
| `AnchorFiles.CollisionLosesBytes` | scripts/update-tpm-ek-anchors.py:235-245 | two certificates of one vendor and name whose digests agree in 8 digits: the refresh succeeds, one is overwritten, and `check` fails |
| `AnchorRefresh.AddedUrls` | scripts/update-tpm-ek-anchors.py:469-475 | exactly which URLs become live through `--add`: those asked for that no entry mentions |
| `AnchorRefresh.AddedItems` | scripts/update-tpm-ek-anchors.py:470-475 | each appended item has the vendor and URL of the first argument that asks for the URL |
| `AnchorRefresh.AddOfRetainedIsIgnored` | scripts/update-tpm-ek-anchors.py:469-475 | adding a URL mentioned only on a retained entry leaves it dead |
| `AnchorRefresh.NextGrows` | scripts/update-tpm-ek-anchors.py:469-476 | one run with its additions, successful or not, drops no digest and no live URL from the manifest |
| `AnchorRefresh.NothingIsEverLost` | scripts/update-tpm-ek-anchors.py:381-382 | neither does any series of runs, each reading the directory that the last successful one wrote |
| `AnchorHistory.FilesNeverFail` | scripts/update-tpm-ek-anchors.py:342-348 | from a state that passes `check` the loop over the shipped files succeeds whatever was downloaded |
| `AnchorHistory.RoundPassesExactlyWhen` | scripts/update-tpm-ek-anchors.py:395-451 | from a state that passes `check` a successful run leaves one that passes if and only if no two digests it keeps get the same file name |
| `AnchorHistory.ChecksForever` | scripts/update-tpm-ek-anchors.py:359-476 | over any series of runs, successful or not, in which no two kept digests get the same file name, `check` passes after every run and no run fails for a file |
| `AnchorFixpoint.OneVendorIsKept` | scripts/update-tpm-ek-anchors.py:469-475 | manifests with one vendor per URL, as `RefreshAgain` asks for, stay so over any series of runs |
| `AnchorFixpoint.RefreshAgain` | scripts/update-tpm-ek-anchors.py:359-402 | if the vendors serve the same, refreshing again on any day out of the directory just written writes the same manifest if and only if no retained certificate shares its file name with one written later, and fails otherwise |
| `AnchorFixpoint.RefreshIsIdempotent` | scripts/update-tpm-ek-anchors.py:359-402 | in particular it does when no two digests kept get the same file name |
| `AnchorFixpoint.OverwritingBreaksRefresh` | scripts/update-tpm-ek-anchors.py:383-401 | a retained certificate and a served one with the same file name: the first refresh succeeds, every later one fails |
| `ShardResume.ScoreBatch` | benchmarks/bench_pad_rgb.py:378-402 | the row loop advances the counters by one batch |
| `ShardResume.ScoreShard` | benchmarks/bench_pad_rgb.py:360-440 | the batch loop leaves the checkpoint, or the done file, that the histories below are made of |
| `ShardResume.CheckpointsAreBalanced` | benchmarks/bench_pad_rgb.py:399-414 | in every history of interruptions, each checkpoint has scored + skipped = rows_done |
| `ShardResume.ResumeLaw` | benchmarks/bench_pad_rgb.py:362-439 | a shard of n rows resumed from checkpoint k writes a done file with k + n outcomes, and it equals that of the uninterrupted run if and only if k = 0 |
| `ShardResume.NoFileMeans` | benchmarks/bench_pad_rgb.py:403-414 | no checkpoint exists if and only if every interruption came before PROGRESS_EVERY rows |
| `ShardResume.CodeResumesExactlyWhen` | benchmarks/bench_pad_rgb.py:47-51 | the done file is that of the uninterrupted run if and only if the shard has fewer than 1000 rows or every interruption came before 1000 rows, in batches of 256 |
| `ShardResume.CodeRepeatsRows` | benchmarks/bench_pad_rgb.py:370-381 | one interruption after four batches makes the written scores or skip count wrong for every shard of at least 1024 rows |
| `ShardResume.DocumentedResumeIsExact` | benchmarks/bench_pad_rgb.py:47-51 | with the counter seeded at 0 every history of interruptions ends with the done file of the uninterrupted run |
| `Sequences.SortIsStable` | benchmarks/wider_ap.py:65 | the sort that stands for Python's `sorted` keeps equal keys in input order |
| `Strings.SortKeys` | benchmarks/wider_ap.py:128 | `sorted` of a set of keys: strictly ascending, with exactly its elements |
| `Strings.LexMeans` | benchmarks/wider_ap.py:128 | the order of strings is decided at the first difference, and a prefix comes first |
| `Strings.SortedIsUnique` | benchmarks/wider_ap.py:128 | there is one such list |

## Left out

- Floating point: scores, rates and times are reals, so rounding, NaN and the 6-digit rounding of stored scores are not modelled.
- Error texts: all `ValueError`s and `fail()` calls of an operation are one outcome.
- The three assumptions of the upload protocol named above; a run killed elsewhere leaves the record of a run that is in the model.
- Git, containers, signing, HTTP, the file lock and the wording of log lines in the PPA scripts: only their outcomes are inputs. That a derived version cannot be read at all, an exception before any decision, is left out. A describe string comes already stripped, with ASCII digits.
- The command line and the deadline loop of verify-ppa-publish.py.
- EvaluateTier: a box is identified by its list position, where the source uses object identity.
- VocAp: takes scores and flags as one list of pairs, where the source has two parallel lists and an index permutation.
- TenFold: reports the variance, of which the source reports the square root.
- GrantCalibration: takes the FAR cap and the thresholds as parameters instead of the module's constants.
- Text in SBOMs is its UTF-8 bytes: replacement of invalid UTF-8 after percent-decoding, and Unicode case folding in the search for "file:", are not modelled. Repeated keys in one JSON object do not occur in Python dictionaries; look-up takes the first.
- Certificates are identified by their digests; name hashes, signatures, subjects, issuers, validity dates, self-signedness, whether bytes are one certificate, and the slug of a file name are uninterpreted functions. PEM decoding and the vendor allow-list of `--add` are left out.
- RefreshChecksExactlyWhen: leaves out that `check` also compares the manifest's keys and the generated Rust list with what a refresh writes, since both are copies of the entries written in the same run.
- ShardResume covers one shard: its checkpoint writes are atomic, and progress.jsonl, which nothing reads back, is left out.
- Easy members next to the modelled ones, such as `evaluate_image`, `apcer_bpcer`, `median_vote`, `species_breakdown` and `nir_operating_band`.
- Model inference, image input and decoding, the other benchmark and release scripts, and the Rust crates.
