# Evidence admission, modelled and proved

omg-cli decides whether a change is admissible with a set of Python programs under `scripts/`:
they read coverage reports, test receipts, mutation outcomes, debt baselines, license values,
kernel replies, cached images and exported evidence, and each of them either admits what it was
given or refuses it. This project models the decision logic of those programs in Dafny and
proves what an admission means, over every input and, where there is a protocol, over every run.

`dafny verify dfyconfig.toml` checks the whole project.

| file | models |
|---|---|
| `LcovReport.dfy`, `LcovGrammar.dfy`, `SourceBlocks.dfy`, `Correspondence.dfy`, `FileAcceptance.dfy`, `Deletion.dfy`, `CoverageGate.dfy`, `CoverageExample.dfy` | the source-aware line coverage gate, which reports it reads, when a file comparison accepts, and one deletion from end to end |
| `ContractAdmission.dfy`, `AdmissionUnion.dfy` | admission of contract receipts for one lane, and the union of the native lanes |
| `ImageCache.dfy` | the bounded image cache as interleaved writers with crashes |
| `RustMask.dfy`, `RustLexemes.dfy`, `LintCount.dfy`, `DebtGate.dfy` | the debt ratchet: masking, the tokens it masks, attribute counting, baselines and the gate |
| `LicenseExpression.dfy` | the bounded license expression parser |
| `EvidenceExport.dfy` | the allowlisted, budgeted evidence export |
| `SocketReply.dfy` | the decoder of UNIX socket diagnostics replies |
| `MutationShards.dfy` | sharded mutation results |
| `TestReconciliation.dfy` | reconciliation of a test listing with a JUnit document |
| `CarriedArtifact.dfy` | build artifacts carried over between attempts, and the metadata retry loop |
| `AuditChain.dfy` | the two audit hash-chain encodings |
| `Text.dfy`, `Prelude.dfy` | lines, numerals, separators; optional results, sums over finite maps, gathering keyed records |

The loops that decide or count something are methods with their invariants, proved equal to a
function or to a declarative condition; loops that only build an index are the filters they
memoise. Objects whose fields change are classes. Results that hold of every input are lemmas
about those functions.

Where the code does not do what its comments or messages suggest, the model follows the code:

- The test for an "ambiguous unchanged source correspondence" counts a block without overlaps, so
  it misses a repeat that overlaps the block or starts on the line after it. `CountedOnceExact`
  says exactly what passes, and `AdjacentRepeatPasses` gives the family that slips through. The
  whole file comparison then accepts two diffs that pair the same head line with different base
  lines (`RepeatedLineAccepted`).
- With the default 16 shards a manifest of 17 mutants leaves later shards empty, and an empty
  slice is refused, so such a run can never be admitted
  (`SeventeenMutantsInSixteenShards`). `AdmissibleManifest` says exactly which manifests can.
- A joined license list can be assessed although a value in it does not parse alone
  (`PartsMustParse`). `JoinedPartsParse` says when its values can be trusted one by one: exactly
  when the parentheses of every value balance on their own; for such lists `ClosedListExact`
  gives the assessment.
- A baseline reads back as written exactly when every path is a nonempty single line
  (`BaselineRoundTrip`), so seeding can leave a baseline on which the gate does not pass
  (`SeededGateFails`, and `SeededGatePasses` for exactly when). Only seeding can: a refresh of a
  readable baseline always leaves the gate passing (`RefreshOnlyLowers`).
- The legacy audit preimage loses field boundaries (`LegacyIsAmbiguous`); `LegacyExact` says
  exactly which records collide.
- The export allows some paths both as a directory and as a file: a trial named like a benchmark
  result (`BothTestsAllow`, `TrialNamedLikeABenchmark`). A file there is an error
  (`BenchmarkAmongTrials`).

## Model

| member | source | states |
|---|---|---|
| LcovReport.ReadCoverage | scripts/check-line-coverage.py:31-96 | the line loop with its dictionaries and totals computes the state machine's result, error by error |
| LcovReport.AcceptedIsWellFormed | scripts/check-line-coverage.py:31-96 | every accepted report has named files, positive line numbers, per-file hits within lines, totals that are sums over the files, and something measured |
| LcovReport.TotalsBounded | scripts/check-line-coverage.py:54-67 | summed over all files, hits never exceed lines, for summary and for mapped figures |
| LcovReport.ReportRoundTrip | scripts/check-line-coverage.py:31-96 | a printed report is accepted exactly when files are named and distinct, lines positive and distinct, hits within lines, and some line is instrumented; then it reads back as printed |
| LcovReport.ExtendedExact | scripts/check-line-coverage.py:69-78 | the line map read from distinct records holds exactly those records |
| LcovReport.SectionsExact | scripts/check-line-coverage.py:51-68 | in a printed report every file gets the section printed for it, in whatever order files come |
| LcovReport.SectionsOnly | scripts/check-line-coverage.py:51-68 | and no other file appears |
| LcovReport.CommentsIgnored | scripts/check-line-coverage.py:40-41 | empty lines and lines that start with a hash change nothing, wherever they stand |
| LcovReport.TestNameLine | scripts/check-line-coverage.py:84-86 | a test name is ignored outside a section and refused inside one |
| LcovReport.DetailLine | scripts/check-line-coverage.py:87-90 | a function, branch or version record is ignored inside a section and refused outside one |
| LcovReport.ChecksumIgnored | scripts/check-line-coverage.py:72-78 | a checksum in the third field of a line record makes no difference |
| LcovReport.UnknownLine | scripts/check-line-coverage.py:91-92 | any other line is refused |
| LcovGrammar.EntryExact | scripts/check-line-coverage.py:69-90 | inside a section a line is a record of a source line or of a summary exactly when it is written as one, and passed over exactly when it is empty, a comment, or a function, branch or version record |
| LcovGrammar.BodyExact | scripts/check-line-coverage.py:51-90 | the lines of a section are read exactly when each is a record or passed over and no record repeats, in whatever order, and then as those records |
| LcovGrammar.EveryReport | scripts/check-line-coverage.py:39-92 | every report that is read to its end is sections of distinct named files with comments and test names between them |
| LcovGrammar.ReportExact | scripts/check-line-coverage.py:31-96 | exactly which texts are read, and as what: those reports in which every section has both summaries, hits within lines and line records if it has lines, and something is measured; the coverage holds exactly those sections and their sums |
| Text.UnsignedExact | scripts/check-line-coverage.py:25-28 | a text reads as a number exactly when it is that number's decimal numeral after any leading zeros |
| Text.NumeralRoundTrip | scripts/check-line-coverage.py:25-28 | reading back a printed decimal numeral gives the number |
| Text.SplitExact | scripts/debt-ratchet.py:280-280 | a line and its ending, a carriage return and line feed together or any other single boundary, are split off as that line; a last line needs no ending |
| Text.PartExact | scripts/check-line-coverage.py:144-144 | splitting at a character gives exactly the parts between separators |
| SourceBlocks.CountIsLineCount | scripts/check-line-coverage.py:207-210 | counting the wrapped block in the wrapped text is counting whole-line matches, resuming one line after each match |
| SourceBlocks.WrappedIsJoin | scripts/check-line-coverage.py:207-210 | the wrapped text is the line-feed join with a line feed at both ends |
| SourceBlocks.CountedOnceExact | scripts/check-line-coverage.py:207-210 | the test passes exactly when all occurrences lie within one block length of the first, and means uniqueness exactly when no other occurrence is that close |
| SourceBlocks.AdjacentRepeatPasses | scripts/check-line-coverage.py:207-210 | a block repeated on the very next line is counted once although it is not unique |
| Correspondence.ReadOps | scripts/check-line-coverage.py:203-214 | the pass over the diff yields its kept pairs and deleted lines, and refuses exactly when a covered kept block fails the block test |
| Correspondence.MatchedExact | scripts/check-line-coverage.py:204-212 | a line is kept exactly when an equal operation spans it, with the image that operation gives |
| Correspondence.DeletedExact | scripts/check-line-coverage.py:213-214 | a line is deleted exactly when a delete operation spans it |
| Correspondence.MatchedText | scripts/check-line-coverage.py:204-212 | kept lines have identical text, for every valid diff |
| Correspondence.TagsPartition | scripts/check-line-coverage.py:204-216 | every base line is in exactly one of an equal, a delete and a replace operation |
| Correspondence.PinLines | scripts/check-line-coverage.py:233-237 | pinning a run of lines refuses exactly when one of them is already pinned elsewhere |
| Correspondence.AnchorOwners | scripts/check-line-coverage.py:217-237 | the loop over the owners computes the anchors |
| Correspondence.AnchorsExact | scripts/check-line-coverage.py:217-237 | the anchors are all pairs of all eligible functions whatever their order; refused exactly when a function leaves the file or two of them disagree |
| Correspondence.PinnedText | scripts/check-line-coverage.py:229-237 | anchored lines have identical text |
| Correspondence.Sift | scripts/check-line-coverage.py:238-265 | the pass over the kept lines, which drops some and refuses others, in ascending order |
| Correspondence.DropJustified | scripts/check-line-coverage.py:243-264 | a dropped line closes a base function that is gone from the head with all its other lines |
| Correspondence.SiftedKeeps | scripts/check-line-coverage.py:238-265 | after every step kept and dropped lines partition the diff's kept lines, and everything gone is deleted or justified |
| Correspondence.ValuesBounded | scripts/check-line-coverage.py:267-268 | counting distinct images is the test for an injective map |
| Correspondence.CompareFile | scripts/check-line-coverage.py:196-277 | the body of the file loop computes the file's correspondence or refuses it |
| Correspondence.ComparedIsSound | scripts/check-line-coverage.py:196-279 | for any valid diff an accepted file has an injective text-preserving line map that keeps coverage, explains every uncovered head line by an uncovered base line, and leaves every other base line gone with a reason or replaced |
| Correspondence.LinesAccounted | scripts/check-line-coverage.py:204-266 | kept and gone lines are disjoint, and together with the replaced ones they are all lines |
| Correspondence.RepeatedLineAccepted | scripts/check-line-coverage.py:196-277 | a file in which a covered line and its adjacent repeat become one line is accepted under either of two diffs that pair it differently |
| Correspondence.UnchangedFile | scripts/check-line-coverage.py:196-277 | a file compared with itself is refused exactly when the report names lines or functions beyond its end, and otherwise corresponds to itself |
| Deletion.CountTouched | scripts/check-line-coverage.py:289-299 | how many regions of a selected file touch deleted lines, refused if a region names no file |
| Deletion.AddRegion | scripts/check-line-coverage.py:318-319 | taking maxima over a region adds its lines, and its hits if its count is positive |
| Deletion.CountRegions | scripts/check-line-coverage.py:309-320 | a deleted function is accepted exactly when all its regions are deleted and instrumented; its lines and hits are those of its regions |
| Deletion.LinesExact | scripts/check-line-coverage.py:309-320 | a line belongs to a function exactly when a region holds it, and is hit exactly when a region with a positive count does |
| Deletion.Attribute | scripts/check-line-coverage.py:289-320 | the verdict on one base function |
| Deletion.AccountAll | scripts/check-line-coverage.py:285-323 | the loop over all base functions computes the attribution, refusing repeated geometries |
| Deletion.AccountSummed | scripts/check-line-coverage.py:285-323 | the running totals are the sums of the per-file figures, and deducted hits never exceed deducted lines |
| Deletion.AccountedIsOwned | scripts/check-line-coverage.py:300-323 | every accounted line belongs to a uniquely named base function that is absent from the head and whose lines are all deleted and instrumented |
| Deletion.TouchedIsWhole | scripts/check-line-coverage.py:289-323 | once the attribution is accepted, every base function that touches a deleted line is gone as a whole |
| Deletion.VerdictExact | scripts/check-line-coverage.py:289-320 | a base function is refused exactly when a region names no file, or it touches a deleted line of a measured file and is not deletable; it is passed over exactly when it touches none; deletable means alone under its name, gone from the head, in one file, with every region whole, deleted and instrumented |
| Deletion.AccountExact | scripts/check-line-coverage.py:285-323 | the attribution succeeds exactly when every function that touches a deletion is deletable and no two of them have one outline in one file, and takes off exactly the lines and hits of those functions, file by file |
| CoverageGate.Canonical | scripts/check-line-coverage.py:143-149 | a path is identified only by the one repository path that ends it |
| CoverageGate.CanonicalExact | scripts/check-line-coverage.py:143-149 | a path is identified exactly when it is absolute, has no backslash and no parent step, and exactly one repository path ends it |
| CoverageGate.ReadSummaries | scripts/check-line-coverage.py:164-169 | the summary loop, refusing unknown and repeated files |
| CoverageGate.RenameSections | scripts/check-line-coverage.py:170-172 | sections are renamed one to one, and refused exactly when a path is unknown or two paths coincide |
| CoverageGate.ReadSide | scripts/check-line-coverage.py:152-176 | one side is read exactly when both reports describe the same files with the same figures |
| CoverageGate.SumRenamed | scripts/check-line-coverage.py:170-176 | renaming the sections preserves every total |
| CoverageGate.SideFigures | scripts/check-line-coverage.py:152-176 | the report's totals are the sums over the renamed sections and are possible figures |
| CoverageGate.CompareFiles | scripts/check-line-coverage.py:196-279 | the file loop accepts exactly when every file is accepted, and its totals count the deleted instrumented and hit lines |
| FileAcceptance.CandidateExact | scripts/check-line-coverage.py:217-237 | which base function carries lines to which head lines: alone under its name on both sides, in one file, with plain regions spanning the same text |
| FileAcceptance.AnchorsAreExact | scripts/check-line-coverage.py:217-237 | the anchors are exactly the lines carried by some function, refused exactly when a span leaves its file or two functions disagree |
| FileAcceptance.HoldersExact | scripts/check-line-coverage.py:247-250 | a line has no owner exactly when no function has a region of the file around it, and one exactly when a single function does |
| FileAcceptance.SiftedExact | scripts/check-line-coverage.py:238-265 | a kept line is dropped, kept or refused exactly by whether it is displaced or lost and closes a wholly deleted function |
| FileAcceptance.ComparedExact | scripts/check-line-coverage.py:196-277 | a file is accepted exactly when its lines are inside the sources, covered kept blocks are found once, anchors exist, no line is in trouble, the pairing is one to one, covered lines stay covered and every uncovered line is an old one; the pairing and the deleted lines are then determined |
| CoverageGate.CheckBalance | scripts/check-line-coverage.py:324-336 | the balance loop accepts exactly when every file is balanced |
| CoverageGate.BalancedExact | scripts/check-line-coverage.py:324-336 | a file balances exactly when its deleted instrumented lines are all attributed and, if anything was taken off, its summary and its mapped figures fell by exactly that |
| CoverageGate.RequireNoRegression | scripts/check-line-coverage.py:179-343 | the gate computes its decision: without a fallen ratio it accepts exactly when every file is accepted and takes nothing off; otherwise it accepts exactly when the deletions explain the fall, and takes off exactly them |
| CoverageGate.SourceGate | scripts/check-line-coverage.py:179-343 | the gate from the reports on: accepted exactly when both sides read, cover the same files and pass, with the same answers |
| CoverageGate.GateIsSound | scripts/check-line-coverage.py:179-343 | acceptance means a sound correspondence for every file and either no fallen ratio, or every function that touches a deletion gone as a whole, every deleted instrumented line owned by such a function, and no ratio below the base without them |
| CoverageGate.DeletionGate | scripts/check-line-coverage.py:280-343 | when a ratio has fallen, the gate accepts exactly the accepted files whose deletions are attributable, own every deleted instrumented line, move every summary by what was taken off and leave figures that the head meets; the deductions are exactly those of the deleted functions |
| CoverageGate.GateExact | scripts/check-line-coverage.py:179-343 | the same for both cases at once: the answer of the gate is determined by that condition |
| CoverageExample.DeletedFunctionAccepted | scripts/check-line-coverage.py:179-343 | removing a fully covered function of three lines lowers five of six to two of three, and is accepted with three lines and three hits taken off, whatever the texts |
| CoverageGate.NormalizedIsValid | scripts/check-line-coverage.py:285-343 | whenever the deductions reach the final comparison, what is left of the base has hits within lines, so the validity check there cannot fire |
| CoverageGate.SummaryFigures | scripts/check-line-coverage.py:324-340 | the summary figures left after deduction are nonnegative and ordered |
| CoverageGate.MappedFigures | scripts/check-line-coverage.py:278-279 | the mapped figures left after deduction are nonnegative and ordered |
| CoverageGate.OwnedDeletions | scripts/check-line-coverage.py:300-326 | in a balanced attribution every deleted instrumented line belongs to a wholly deleted function |
| CoverageGate.WholeDeletions | scripts/check-line-coverage.py:285-323 | in an accepted attribution of a side no function is deleted in part |
| CoverageGate.PlainRatiosSuffice | scripts/check-line-coverage.py:280-284 | if neither ratio fell, only the file comparison can refuse, and nothing is deducted |
| CoverageGate.NoRegressionIsAPreorder | scripts/check-line-coverage.py:99-110 | the comparison is reflexive, and transitive through a report exactly when it measures lines of both kinds |
| CoverageGate.AcceptedReportsCarryOver | scripts/check-line-coverage.py:31-110 | every report the reader accepts is such a report, so a chain of comparisons between accepted reports holds end to end |
| CoverageGate.UnchangedPasses | scripts/check-line-coverage.py:179-284 | a commit measured against itself passes without deductions exactly when its report stays inside its files |
| ContractAdmission.BuildExpected | scripts/check-contract-coverage.py:239-258 | the binding loops yield exactly the tests the lane owes, refusing a contract that is not covered kind by kind |
| ContractAdmission.ContractTests | scripts/check-contract-coverage.py:241-257 | the bindings of one contract, accepted exactly when each is sound, ids are distinct on the lane and all kinds are supplied |
| ContractAdmission.CollectReceipts | scripts/check-contract-coverage.py:259-290 | the receipt loop records every receipt under its test and attempt |
| ContractAdmission.CollectExact | scripts/check-contract-coverage.py:259-290 | receipts are collected exactly when each is acceptable and no attempt repeats, and then exactly they are recorded |
| ContractAdmission.CheckHistory | scripts/check-contract-coverage.py:293-297 | a history is accepted exactly when its attempts are one to n and every receipt says n |
| ContractAdmission.CheckHistories | scripts/check-contract-coverage.py:292-297 | and so for all tests |
| ContractAdmission.CountAll | scripts/check-contract-coverage.py:304-327 | the counting loops compute the sizes of the sets of executed, passed, failed, skipped and retried contracts, overall and per kind |
| ContractAdmission.CountContract | scripts/check-contract-coverage.py:308-318 | counting one more contract moves the overall counts as its tests say |
| ContractAdmission.CountKinds | scripts/check-contract-coverage.py:319-327 | and the counts of each kind it requires |
| ContractAdmission.Admit | scripts/check-contract-coverage.py:239-337 | the report of an admission, refused exactly when the receipts are not admissible; it passes exactly when no receipt that counts is bad and every last attempt passed |
| ContractAdmission.AdmissionExact | scripts/check-contract-coverage.py:239-297 | receipts are admitted exactly when every required contract is soundly bound and supplied kind by kind, some test is owed, every receipt is of this run, for an owed test and its binary, and claims what its result allows, and the receipts of every owed test are its attempts one to n, once each, all saying n |
| ContractAdmission.PassIsBacked | scripts/check-contract-coverage.py:239-337 | in a passed report every required contract has, for every kind it requires, a test on this lane with a complete history whose last attempt passed, cleaned up, and carried that kind and all assertions listed for it; every receipt of that test is one of those attempts and gives the same count |
| ContractAdmission.OwedTest | scripts/check-contract-coverage.py:241-257 | every required kind has an owed test on this lane |
| ContractAdmission.PassedTests | scripts/check-contract-coverage.py:308-318 | if all required contracts count as passed, every owed test passed |
| ContractAdmission.ReceiptOrderIrrelevant | scripts/check-contract-coverage.py:259-303 | permuting the receipts changes neither acceptance nor the evidence, hence not the report |
| ContractAdmission.CountsAddUp | scripts/check-contract-coverage.py:304-327 | passed, failed and skipped add up to required, overall and for every kind |
| ContractAdmission.CriticalFailureIsFinal | scripts/check-contract-coverage.py:298-303 | a receipt of a critical contract that failed, was blocked, hit an error of its test rig or did not clean up fails it and the report, whatever later attempts say |
| ContractAdmission.LastAttemptDecides | scripts/check-contract-coverage.py:298-303 | for a contract that is not critical only the last attempt matters |
| ContractAdmission.OutcomeFromReceipts | scripts/check-contract-coverage.py:292-325 | from the receipts alone, overall and for each kind: a contract failed exactly when a receipt that counts is bad, is skipped exactly when none is and a last attempt was skipped, executed exactly when one passed or failed, and was retried exactly when one says so |
| ContractAdmission.ReportFromReceipts | scripts/check-contract-coverage.py:292-337 | the report passes exactly when no receipt that counts is bad and every last attempt passed; for a critical contract all attempts count, otherwise the last |
| ContractAdmission.OwnersBySurface | scripts/check-contract-coverage.py:347-352 | one pass groups the behavioral contracts by surface |
| ContractAdmission.AddGaps | scripts/check-contract-coverage.py:353-356 | gaps block their surfaces and add unowned ones |
| ContractAdmission.BehavioralProgress | scripts/check-contract-coverage.py:340-365 | covered surfaces are those with owners that all passed and no gap; the target needs 95 of 100 of a reviewed inventory |
| ContractAdmission.ProgressIsMonotone | scripts/check-contract-coverage.py:340-365 | more passes never lose coverage, more gaps never add any, and the total ignores passes |
| AdmissionUnion.SameContracts | scripts/check-contract-coverage.py:83-89 | lanes of one run see the same contracts |
| AdmissionUnion.ScopeExact | scripts/check-contract-coverage.py:83-89 | a contract is in scope exactly when its platform is listed, its features are on and its excluded features off; its skip reason is the one listed for the platform |
| AdmissionUnion.BuildLanes | scripts/check-contract-coverage.py:380-385 | the owners of every native lane that has any |
| AdmissionUnion.AddTests | scripts/check-contract-coverage.py:382-385 | the bindings of one contract |
| AdmissionUnion.ReportExact | scripts/check-contract-coverage.py:395-405 | a report is accepted exactly when it is of its lane and run and says that all required contracts passed at the first attempt |
| AdmissionUnion.CheckClaims | scripts/check-contract-coverage.py:386-406 | the loop over the admissions accepts exactly acceptable claims on distinct lanes |
| AdmissionUnion.ObservedDecides | scripts/check-contract-coverage.py:407-411 | which contracts are selected and credited depends on the manifest alone: those with a native test, and those all of whose tests are native |
| AdmissionUnion.Aggregate | scripts/check-contract-coverage.py:368-419 | the union is certified exactly when every owning native lane of one run is present once with a full pass and no retry, and reports the selected, the credited, the covered and whether the reviewed target is met |
| AdmissionUnion.UnionIsBacked | scripts/check-contract-coverage.py:368-419 | every test of every credited contract has, on its own lane of the same run, exactly one receipt: a clean first-attempt pass with all bound evidence and assertions from the recorded binary |
| AdmissionUnion.SoleReceipt | scripts/check-contract-coverage.py:398-405 | a full pass without retries leaves one receipt per owed test |
| AdmissionUnion.HonestReportOk | scripts/check-contract-coverage.py:395-405 | of an admission's own report only the pass and the absence of retries need checking |
| AdmissionUnion.ForeignTestNeverCredited | scripts/check-contract-coverage.py:407-411 | a contract with a test off the native lanes is never credited, nor is its surface covered |
| ImageCache.StepKeeps | scripts/qemu-image-cache.py:76-156 | every step of every writer, failures and crashes included, keeps the invariant, and keeps publication reports truthful |
| ImageCache.EveryRunKeeps | scripts/qemu-image-cache.py:76-156 | hence every interleaving does |
| ImageCache.CacheStaysWithinBudget | scripts/qemu-image-cache.py:76-156 | the total never exceeds the larger of the initial total and the largest budget |
| ImageCache.MeasurementStaysAccurate | scripts/qemu-image-cache.py:120-152 | until its replace, what the lock holder measured plus its own copy is the directory's total |
| ImageCache.PublishedImagesMatch | scripts/qemu-image-cache.py:128-149 | every pinned file holds bytes with the digest of its name, under the algorithm of its name, or is untouched since the start, also if the source changes in mid copy |
| ImageCache.PublishedIsGood | scripts/qemu-image-cache.py:119-156 | in every run a writer that reports a publication has published: a file of its name with its digest is there |
| ImageCache.FailureReleases | scripts/qemu-image-cache.py:131-156 | an error anywhere under the lock gives it up, removes the temporary copy and changes nothing else |
| ImageCache.CrashReleases | scripts/qemu-image-cache.py:122-156 | a crash under the lock gives it up and leaves the temporary copy behind |
| ImageCache.QuotaIsMeasured | scripts/qemu-image-cache.py:125-127 | in every run a writer reports an exceeded quota exactly when it measured, under the lock, that its image does not fit, unless it crashed since |
| ImageCache.NothingIsLost | scripts/qemu-image-cache.py:76-156 | no file disappears, and only pinned ones change |
| ImageCache.QuietCacheIsClean | scripts/qemu-image-cache.py:127-152 | with nobody inside and nothing abandoned no temporary file has been added |
| ImageCache.PublishedImageStays | scripts/qemu-image-cache.py:76-156 | a valid image stays valid through everything later |
| ImageCache.Cache.constructor | scripts/qemu-image-cache.py:107-113 | a cache over a directory |
| ImageCache.Cache.CacheBytes | scripts/qemu-image-cache.py:55-68 | the sum over all files |
| ImageCache.Cache.Publish | scripts/qemu-image-cache.py:119-152 | publishing replaces the pinned file by verified bytes or leaves the directory as it was, within the budget |
| ImageCache.SoloRun | scripts/qemu-image-cache.py:119-152 | a lone writer of the step system does what the sequential method does |
| ImageCache.Target.constructor | scripts/qemu-image-cache.py:14-24 | a destination directory |
| ImageCache.Target.VerifiedCopy | scripts/qemu-image-cache.py:14-44 | the destination is replaced exactly when the copied bytes carry the digest, and nothing else changes |
| RustMask.MaskAt | scripts/debt-ratchet.py:53-101 | code characters are copied and start no token; all others become blanks of their kind |
| RustMask.MaskShape | scripts/debt-ratchet.py:53-101 | masking keeps length and line feeds and changes characters only into spaces |
| RustMask.NothingLeftToMask | scripts/debt-ratchet.py:53-101 | no comment, string, raw string or character literal starts anywhere in masked text |
| RustMask.MaskIdempotent | scripts/debt-ratchet.py:53-101 | masking twice is masking once |
| RustMask.NoIsolatedBlank | scripts/debt-ratchet.py:91-95 | no single masked character stands between two code characters |
| RustMask.NestedCommentIsOneToken | scripts/debt-ratchet.py:63-74 | a block comment is one token up to its own close, however deeply comments nest in it |
| RustMask.UnclosedCommentRunsOut | scripts/debt-ratchet.py:63-74 | an unclosed block comment runs to the end, whatever comments open or close inside it |
| RustMask.EveryOpening | scripts/debt-ratchet.py:63-74 | every text after an opening is a body with its own close or bodies that are never closed, so the two results cover all block comments |
| RustMask.StringIsOneToken | scripts/debt-ratchet.py:81-90 | a string ends at its first unescaped quote, or at the end |
| RustMask.RawStringIsOneToken | scripts/debt-ratchet.py:76-80 | a raw string ends at the first quote followed by its hashes |
| RustMask.UnclosedRawStringRunsOut | scripts/debt-ratchet.py:76-80 | a raw string without its delimiter runs to the end |
| RustMask.BlockCommentEnd | scripts/debt-ratchet.py:63-74 | the depth loop finds the end of a block comment |
| RustMask.StringLiteralEnd | scripts/debt-ratchet.py:81-90 | the string loop finds the end of a string |
| RustMask.ScanToken | scripts/debt-ratchet.py:57-95 | the branches find the end of the token at a position |
| RustMask.RustCode | scripts/debt-ratchet.py:53-101 | the in-place loop masks the text |
| RustLexemes.LineCommentIsOneToken | scripts/debt-ratchet.py:59-62 | a line comment ends before its first line feed, or at the end |
| RustLexemes.CharIsOneToken | scripts/debt-ratchet.py:91-95 | each form of a character literal, plain, escaped, by two hexadecimal digits or by a code point in braces, is one token |
| RustLexemes.HexDigits | scripts/debt-ratchet.py:50-50 | the digits of an escape are those of the hexadecimal numerals, in either case |
| RustLexemes.LifetimeIsCode | scripts/debt-ratchet.py:91-95 | a quote before a lifetime, a name that is not closed by a quote after one character, starts no token |
| RustLexemes.TokenExact | scripts/debt-ratchet.py:57-95 | a token starts at a position exactly when some lexeme of the grammar is spelled there, and its length is that of every such lexeme |
| RustLexemes.EveryToken | scripts/debt-ratchet.py:57-95 | every token is spelled by a lexeme |
| RustLexemes.MaskLexed | scripts/debt-ratchet.py:53-101 | the mask of code and lexemes one after another is the code with blanks for the lexemes |
| RustLexemes.EveryText | scripts/debt-ratchet.py:53-101 | every text is code and lexemes one after another |
| LintCount.MetaArguments | scripts/debt-ratchet.py:104-116 | the depth loop splits at top-level commas |
| LintCount.SplitJoin | scripts/debt-ratchet.py:104-116 | splitting a comma-joined list of balanced arguments, with any white space around them, gives the arguments |
| LintCount.CountMeta | scripts/debt-ratchet.py:140-151 | the worklist terminates and equals the recursive count through nested conditionals |
| LintCount.DebtLintExact | scripts/debt-ratchet.py:149-149 | the lints that count are dead code, unused, and unused with a suffix of lower case letters, digits and underscores, each perhaps as a raw identifier |
| LintCount.CountLintAttributes | scripts/debt-ratchet.py:119-153 | the attribute loop computes the debt of a text |
| LintCount.MaskedTextHasSameDebt | scripts/debt-ratchet.py:119-153 | masking a text leaves its debt unchanged |
| LintCount.CountMatchesMeaning | scripts/debt-ratchet.py:140-151 | counting a written attribute, however it is spaced, gives the debt it was written with |
| LintCount.EveryMeta | scripts/debt-ratchet.py:140-151 | every attribute text whose lists nest is the writing of such an attribute |
| LintCount.AttributeAddsDebt | scripts/debt-ratchet.py:128-152 | one written attribute adds its debt wherever it stands, and counting goes on right after it |
| LintCount.FileDebtAddsUp | scripts/debt-ratchet.py:119-153 | the debt of a file whose masked text is code and written attributes is the sum of the debts of the attributes |
| LintCount.EveryFile | scripts/debt-ratchet.py:119-153 | every text whose attributes close and nest is code and written attributes, so the sum covers it |
| DebtGate.ReadBaseline | scripts/debt-ratchet.py:278-287 | the row loop computes the parsed baseline |
| DebtGate.RowRoundTrip | scripts/debt-ratchet.py:283-286 | a printed row reads back as itself, also when its path contains the separator |
| DebtGate.BaselineRoundTrip | scripts/debt-ratchet.py:278-287 | a printed baseline reads back exactly when every path is a nonempty single line |
| DebtGate.DuplicateRowsRejected | scripts/debt-ratchet.py:284-285 | two rows for one path invalidate the baseline |
| DebtGate.RowExact | scripts/debt-ratchet.py:283-286 | a line is a row exactly when it is a count, perhaps with leading zeros, the separator and a nonempty path |
| DebtGate.BaselineExact | scripts/debt-ratchet.py:278-287 | a baseline is read exactly when every line is blank or a row and no path has two rows, and it then holds the rows and nothing else |
| DebtGate.RenderBaseline | scripts/debt-ratchet.py:382-384 | the text lists every finding once, one row to a line, by descending count and then by path |
| DebtGate.Evaluate | scripts/debt-ratchet.py:387-398 | the loops yield exactly the regressed and the improved files |
| DebtGate.NoRegressions | scripts/debt-ratchet.py:387-392 | no regression means pointwise at most the baseline, an absent entry counting as zero |
| DebtGate.RaisedIsBelow | scripts/debt-ratchet.py:446-448 | with zero rows dropped, the candidate test is the pointwise comparison |
| DebtGate.Gate | scripts/debt-ratchet.py:437-491 | the gate passes exactly when findings are within the stored baseline and, with a floor, both are within the floor |
| DebtGate.GateAll | scripts/debt-ratchet.py:437-491 | the loop over the ratchets passes exactly when every ratchet does, and stops exactly when one cannot be read |
| DebtGate.BaselineFile.constructor | scripts/debt-ratchet.py:441-443 | a baseline file that may be missing |
| DebtGate.BaselineFile.Refresh | scripts/debt-ratchet.py:459-480 | a refresh seeds a missing baseline or lowers it to the findings, and never raises it; after lowering the gate passes, after seeding it passes exactly when every path is plain |
| DebtGate.RefreshedBaseline | scripts/debt-ratchet.py:459-480 | after a refresh the stored baseline is the findings exactly when their paths are plain |
| DebtGate.RefreshOnlyLowers | scripts/debt-ratchet.py:469-480 | a refresh of a readable baseline stores exactly the findings, at or below what was stored, and leaves the gate passing, whatever the paths |
| DebtGate.SeededGatePasses | scripts/debt-ratchet.py:459-468 | on a seeded baseline the gate passes exactly when every path is a nonempty single line |
| DebtGate.SeededGateFails | scripts/debt-ratchet.py:459-468 | a path with a line feed seeds a baseline on which the gate does not pass |
| DebtGate.DebtNeverGrows | scripts/debt-ratchet.py:437-491 | along any gated history no baseline or finding count ever exceeds the first floor |
| LicenseExpression.Parser.constructor | scripts/qemu-license-oracle.py:143-143 | the parser at the first token |
| LicenseExpression.Parser.ReadAtom | scripts/qemu-license-oracle.py:145-165 | the recursive descent of an operand, with its position |
| LicenseExpression.Parser.ReadChain | scripts/qemu-license-oracle.py:167-176 | and of a chain |
| LicenseExpression.Parser.ReadAll | scripts/qemu-license-oracle.py:178-183 | and of the whole token list: the strongest family claimed by one of its licenses, unresolved exactly when one has an exception or no family |
| LicenseExpression.ReadPrinted | scripts/qemu-license-oracle.py:143-183 | every printed expression parses to its meaning: the strongest family claimed by one of its licenses, unresolved exactly when one has an exception or no family |
| LicenseExpression.ParsesExactlyPrints | scripts/qemu-license-oracle.py:143-183 | a token list parses exactly when it is the print of an expression, and then to its meaning |
| LicenseExpression.ParsedSays | scripts/qemu-license-oracle.py:143-183 | a parsed list gets the greatest category that one of its licenses claims, and is unresolved exactly when one of them carries an exception or belongs to no family |
| LicenseExpression.PlusIrrelevant | scripts/qemu-license-oracle.py:162-164 | a trailing plus makes no difference to the family |
| LicenseExpression.CombineAssociative | scripts/qemu-license-oracle.py:173-175 | taking the stronger family does not depend on grouping |
| LicenseExpression.PreScan | scripts/qemu-license-oracle.py:126-142 | the depth loop accepts exactly balanced, bounded, well-named tokens |
| LicenseExpression.PreScanRulesOutParentheses | scripts/qemu-license-oracle.py:126-183 | after the pre-scan a missing close and a trailing token cannot happen |
| LicenseExpression.ScanChain | scripts/qemu-license-oracle.py:126-142 | of a well-named expression it rejects exactly what nests too deeply |
| LicenseExpression.IdentifierExact | scripts/qemu-license-oracle.py:136-140 | an identifier is a name with at most one plus after it, or a reference into a document |
| LicenseExpression.TokenizeAppend | scripts/qemu-license-oracle.py:123-123 | texts that meet at a word boundary are tokenized separately |
| LicenseExpression.AdvisoryAssessment | scripts/qemu-license-oracle.py:119-183 | the assessment of a text, with every refusal unknown and unresolved, and otherwise what its tokens say |
| LicenseExpression.AssessExact | scripts/qemu-license-oracle.py:119-183 | exactly which texts are assessed: at most 4096 permitted characters whose tokens, at most 256, print an expression of identifiers that nests at most 32 deep |
| LicenseExpression.PrintedExpression | scripts/qemu-license-oracle.py:119-183 | printing an expression and assessing the text gives its meaning exactly within the token and depth limits |
| LicenseExpression.JoinedAssessment | scripts/qemu-license-oracle.py:190-198 | a list of parsing values is assessed as their combination exactly when the joined text fits |
| LicenseExpression.PartsMustParse | scripts/qemu-license-oracle.py:190-198 | a value that does not parse alone can parse when joined |
| LicenseExpression.JoinedPartsParse | scripts/qemu-license-oracle.py:190-198 | of a list that is assessed, all values parse alone exactly when the parentheses of each value balance |
| LicenseExpression.ClosedListExact | scripts/qemu-license-oracle.py:190-198 | a list of values with balanced parentheses is assessed exactly as the combination of its values, within the limits, and refused if one of them is |
| LicenseExpression.PackageAssessment | scripts/qemu-license-oracle.py:190-198 | the category and review marker of a package: what the tokens of its joined values say, and unknown and unresolved when they are refused |
| LicenseExpression.PackageReview | scripts/qemu-license-oracle.py:190-198 | the review marker is set exactly when the list is refused or one of its licenses is in doubt |
| EvidenceExport.Exporter.constructor | scripts/export-qemu-evidence.py:249-250 | an export with empty report |
| EvidenceExport.Exporter.VisitEntry | scripts/export-qemu-evidence.py:269-308 | one entry, with its nested errors caught, also when the destination refuses it or its writing breaks off |
| EvidenceExport.Exporter.WalkDirectory | scripts/export-qemu-evidence.py:262-308 | the recursive walk with shared budgets |
| EvidenceExport.Exporter.Export | scripts/export-qemu-evidence.py:235-325 | the destination tree and exit code; copied files and bytes stay within their budgets and are the whole files of the tree; all its bytes stay within the total budget and one file limit per error |
| EvidenceExport.WalkAccounted | scripts/export-qemu-evidence.py:262-308 | the budgets hold at every level although an exceeded entry budget is caught on the way up |
| EvidenceExport.WalkExact | scripts/export-qemu-evidence.py:262-308 | the walk reports no error exactly when everything is proper and fits, and then copies it all |
| EvidenceExport.WalkPruned | scripts/export-qemu-evidence.py:262-308 | whatever goes wrong, only allowlisted source files are copied, in place; whole files are unchanged, and a write that breaks off leaves the beginning of one |
| EvidenceExport.WalkOverrun | scripts/export-qemu-evidence.py:252-308 | files cut off by a failing write are at most the errors reported, and the destination outgrows the reported bytes by at most one file limit for each |
| EvidenceExport.ZeroMeansComplete | scripts/export-qemu-evidence.py:310-325 | a zero exit code means the destination is the source restricted to the allowlist, plus the report |
| EvidenceExport.BothTestsAllow | scripts/export-qemu-evidence.py:141-214 | if no file table lists the name of an allowed directory, both tests allow a path exactly when it is a trial directory named like a benchmark file |
| EvidenceExport.TrialNamedLikeABenchmark | scripts/export-qemu-evidence.py:141-165 | such a path exists |
| EvidenceExport.BenchmarkAmongTrials | scripts/export-qemu-evidence.py:271-290 | a file at any such path is an error although the file test allows it |
| EvidenceExport.ParentAllowed | scripts/export-qemu-evidence.py:151-165 | allowed directories are closed upwards |
| EvidenceExport.AncestorsAllowed | scripts/export-qemu-evidence.py:151-214 | every directory above an allowlisted file is allowlisted |
| EvidenceExport.ReportNameIsFree | scripts/export-qemu-evidence.py:151-214 | the report file cannot collide with a copied entry |
| SocketReply.DecodeSocketReply | scripts/check-qemu-health.py:292-347 | the decoder with its checks in order |
| SocketReply.ReadAttributes | scripts/check-qemu-health.py:320-347 | the attribute loop terminates and computes the attributes |
| SocketReply.ReadEncoded | scripts/check-qemu-health.py:320-332 | encoded attributes are read back as their payloads |
| SocketReply.WasEncoded | scripts/check-qemu-health.py:320-332 | whatever reads as attributes was encoded from a list of them |
| SocketReply.FixedExact | scripts/check-qemu-health.py:293-319 | a data reply's first 32 bytes are accepted exactly when they are the encoded ones |
| SocketReply.RequestExact | scripts/check-qemu-health.py:298-306 | the request check accepts exactly the bytes the query would send, for a usable cookie |
| SocketReply.DecodesExactly | scripts/check-qemu-health.py:292-347 | a reply decodes to a listener exactly when it encodes, in any order and with any padding, one attribute of each required kind that describes it |
| SocketReply.OrderAndPaddingIrrelevant | scripts/check-qemu-health.py:320-347 | neither attribute order nor padding bytes change the result |
| SocketReply.MessageDecodes | scripts/check-qemu-health.py:292-347 | an encoded message decodes to what its attributes describe, or fails as they do |
| SocketReply.DeviceRecombines | scripts/check-qemu-health.py:339-345 | the split device number recombines to the original |
| MutationShards.SlicesPartition | scripts/check-mutation-results.py:124-125 | the slices of all shards in order are the manifest |
| MutationShards.OwningShard | scripts/check-mutation-results.py:124-125 | every position belongs to exactly one shard |
| MutationShards.AllShardsNonempty | scripts/check-mutation-results.py:124-125 | every shard has work exactly when the shards before the last do not exhaust the manifest |
| MutationShards.SlicesDisjoint | scripts/check-mutation-results.py:124-128 | two shards of a valid manifest share no mutant |
| MutationShards.Records | scripts/check-mutation-results.py:43-54 | the manifest by name, refused exactly when empty, invalid or repeating |
| MutationShards.PhasesDecideSummary | scripts/check-mutation-results.py:72-100 | the phases alone decide the verdict |
| MutationShards.PhasesExact | scripts/check-mutation-results.py:72-100 | the phases each verdict needs, one by one: a full build and a failing test for a caught mutant, both succeeding for a missed one and for the baseline, a failing build for an unviable one, and a build or test that timed out |
| MutationShards.VerdictsAddUp | scripts/check-mutation-results.py:142-157 | every accepted outcome counts as exactly one of the four verdicts |
| MutationShards.CheckOutcomes | scripts/check-mutation-results.py:139-158 | the outcome loop accepts exactly the selected mutants once each, unseen before |
| MutationShards.CheckShard | scripts/check-mutation-results.py:110-168 | all checks of one shard |
| MutationShards.OneBaseline | scripts/check-mutation-results.py:136-138 | the baseline is accepted exactly when there is one and it built and passed |
| MutationShards.CountersExact | scripts/check-mutation-results.py:139-168 | the counters of an accepted shard count its outcomes by verdict, and its total is the length of its slice |
| MutationShards.OutcomeForEach | scripts/check-mutation-results.py:142-158 | in an accepted shard every mutant of its slice has an outcome, for that very record and with phases that fit its verdict |
| MutationShards.CheckReports | scripts/check-mutation-results.py:103-173 | the run is accepted exactly when every shard, the union and the score are |
| MutationShards.NoOverlap | scripts/check-mutation-results.py:150-151 | with distinct indices no mutant can have been seen in an earlier shard |
| MutationShards.AllAccounted | scripts/check-mutation-results.py:169-169 | all shards together select exactly the manifest |
| MutationShards.ScoreFloor | scripts/check-mutation-results.py:170-173 | the floored percentage reaches 75 exactly when three of four viable mutants are caught |
| MutationShards.AcceptedRunIsComplete | scripts/check-mutation-results.py:103-173 | an accepted run accounts for every mutant once, its counts add up to the manifest, every shard had work and three of four viable mutants were caught |
| MutationShards.AdmissibleManifest | scripts/check-mutation-results.py:103-173 | some run over a valid manifest is accepted exactly when the shards before the last do not exhaust it and every name fits on a line of a text report |
| MutationShards.SeventeenMutantsInSixteenShards | scripts/check-mutation-results.py:124-125 | a manifest of 17 mutants is never admitted in 16 shards |
| TestReconciliation.AddSuite | scripts/check-test-selection.py:32-45 | one suite's cases, refused exactly when an identity repeats |
| TestReconciliation.SelectedTests | scripts/check-test-selection.py:21-50 | the discovered tests are exactly the listed cases, refused exactly when the listing is unusable |
| TestReconciliation.HoldsSize | scripts/check-test-selection.py:46-47 | with distinct identities there are as many tests as cases |
| TestReconciliation.Attempts | scripts/check-test-selection.py:107-115 | the attempts of a test are never none, and include a failure exactly when the element reports one |
| TestReconciliation.ElementExact | scripts/check-test-selection.py:73-116 | an element is accepted exactly when it reports a pass after flaky failures, a failure after reruns, or a skip, within 100 attempts |
| TestReconciliation.AttemptsMean | scripts/check-test-selection.py:107-151 | what an element comes to: failed if it reports any failure, otherwise skipped if it reports a skip, otherwise passed |
| TestReconciliation.ReadJUnit | scripts/check-test-selection.py:71-124 | the document is read exactly when every element is consistent and no test repeats, with each test's attempts |
| TestReconciliation.CountTest | scripts/check-test-selection.py:138-151 | one discovered test: an unselected one must not have run, a selected one is counted by its attempts |
| TestReconciliation.Reconcile | scripts/check-test-selection.py:127-153 | the loop accepts exactly consistent results and counts the tests of each outcome |
| TestReconciliation.CountsAddUp | scripts/check-test-selection.py:136-151 | passed, failed, skipped and filtered add up to discovered |
| TestReconciliation.FailureStaysVisible | scripts/check-test-selection.py:149-151 | a selected test counts as failed exactly when any attempt failed |
| TestReconciliation.FlakyFails | scripts/check-test-selection.py:113-151 | a test that failed before it passed is counted as failed |
| TestReconciliation.NoneFailed | scripts/check-test-selection.py:149-151 | the failed count is zero exactly when no selected test has a failing attempt |
| TestReconciliation.VerdictFromDocument | scripts/check-test-selection.py:127-153 | the results are consistent exactly when every element is of a listed case, every selected case has an element and no other case ran; failures and executed binaries are those of the elements |
| TestReconciliation.OutcomeFromDocument | scripts/check-test-selection.py:138-151 | what each listed case is counted as, executed and retried, from its listing and its element |
| TestReconciliation.Check | scripts/check-test-selection.py:156-169 | exit 2 exactly when the listing, the document or their correspondence is refused; exit 0 exactly when besides no element reports a failure and every required binary has a selected case that ran |
| CarriedArtifact.CollectCandidates | scripts/native-build-artifact.py:235-243 | the candidate loop |
| CarriedArtifact.AttemptNamed | scripts/native-build-artifact.py:238-243 | an artifact stands for an attempt exactly when its name is the prefix and the numeral of that attempt, and the attempt is an earlier one |
| CarriedArtifact.First | scripts/native-build-artifact.py:246-246 | the first candidate in descending order is the newest |
| CarriedArtifact.CheckBetween | scripts/native-build-artifact.py:247-263 | the descending loop accepts exactly when no attempt in between ran the owner again |
| CarriedArtifact.PriorArtifact | scripts/native-build-artifact.py:220-291 | the answer: nothing to carry, the newest candidate if everything about it holds, otherwise a refusal |
| CarriedArtifact.AnswerUnique | scripts/native-build-artifact.py:220-291 | the answer is determined by the service and the artifact list |
| CarriedArtifact.CarriedIsNewest | scripts/native-build-artifact.py:220-291 | a carried artifact is the newest earlier one, no attempt since ran the owner again, and it was made by that attempt's successful owner before the current attempt began |
| CarriedArtifact.CarriedExact | scripts/native-build-artifact.py:220-291 | an artifact is carried exactly when all attempts since its own are known not to have run the owner, no two artifacts claim one attempt, it is the newest, the only owner job of its attempt made it in time and on the right commit, and it can be downloaded |
| CarriedArtifact.NothingExact | scripts/native-build-artifact.py:220-291 | there is nothing to carry exactly when the owner runs in this attempt or no artifact is of an earlier one |
| CarriedArtifact.OlderCandidatesIrrelevant | scripts/native-build-artifact.py:246-291 | with the same newest candidate the answer is the same whatever older ones there are |
| CarriedArtifact.FetchJson | scripts/native-build-artifact.py:176-200 | at most three requests, all before one deadline of 90 seconds, each after a time-out or a gateway error and a back-off of one, two and four seconds; each ends as the network has it or at the deadline, and a result is exactly a successful last response |
| AuditChain.PreimageInjective | scripts/qemu-local-oracle.py:125-132 | different nine-field entries have different version 1 preimages |
| AuditChain.FieldsArePrefixFree | scripts/qemu-local-oracle.py:131-132 | length-prefixed fields are read back from the front of anything they precede |
| AuditChain.DomainsAreDisjoint | scripts/qemu-local-oracle.py:125-125 | no version 1 preimage equals a legacy one |
| AuditChain.Utf8Injective | scripts/qemu-audit-log-oracle.py:22-22 | different texts have different encodings |
| AuditChain.LegacyExact | scripts/qemu-audit-log-oracle.py:19-22 | legacy preimages are equal exactly when the records read the same without boundaries, and for equal field widths exactly when the records are equal |
| AuditChain.LegacyIsAmbiguous | scripts/qemu-audit-log-oracle.py:19-22 | two different legacy records share a preimage |
| AuditChain.AuditEntries | scripts/qemu-local-oracle.py:116-134 | the loop chains the events in order and fills in only the link to the predecessor |
| AuditChain.LastHashFixesChain | scripts/qemu-local-oracle.py:116-134 | two chains from genesis with the same last hash are identical or exhibit a collision |

## Left out

- The Rust product, its benches and the guest programs are not part of this model.
- Decoding of JSON, XML, tar, zip and gzip, regular-expression engines and the hash functions: the model starts from decoded values, and a hash is any function.
- File descriptors, links, permissions, ownership, durability and the calls to git, gh and journalctl: replaced by inputs, or by one boolean where the source makes a flat check.
- The diff itself: any list of operations that covers both files and calls only equal parts equal is allowed.
- Scanning of inventory paths and of to-do markers in the debt ratchet, the reading of package databases around license assessment, and the remaining steps of the native artifact search (run selection, download, bundle admission).
- The compiled surface inventory, interface owners and surface digests of contract admission, and the expansion of gap records: flat checks that precede the modelled part.
- LcovReport.ReadCoverage: does not compute the digest of the raw bytes or the limit on the length of decimal numbers.
- CoverageGate.SourceGate: does not bound the size of the region archive; region rows have eight integers, so rows of another length and counts that are not integers, which the source refuses, are not represented.
- CoverageGate.RequireNoRegression: does not build the dictionaries that index functions by name and by file; the filters they memoise stand for them.
- ContractAdmission.Admit: starts from the contracts that apply; the schema, identity, duration and seed checks of a receipt are one boolean.
- ContractAdmission.BehavioralProgress: does not compute the displayed percentage.
- AdmissionUnion.Aggregate: the manifest is a map of well-formed records, so two records with one id are not represented.
- ImageCache.Cache.Publish: starts at the lock; the size found by the first read and the stability of the source are inputs.
- DebtGate.ReadBaseline: digits are ASCII digits, and the limit on the length of decimal numbers is not modelled.
- DebtGate.Gate: decides one ratchet; GateAll is the loop over all of them.
- EvidenceExport.AncestorsAllowed: the literal file tables of the directories that have one, and of a transaction trial, are one predicate parameter; the directory rules and the benchmark names are modelled in full.
- EvidenceExport.BothTestsAllow: the file tables are that parameter, and that they list no directory name is assumed of it.
- EvidenceExport.Exporter.Export: does not model a directory listing that breaks off or a report that cannot be written.
- SocketReply.DecodeSocketReply: the host is little endian.
- MutationShards.CheckShard: the metadata, version and time window of a report and the argument check of each phase are booleans.
- TestReconciliation.SelectedTests: does not model the limits on the length of a name and on control characters in it.
- TestReconciliation.ReadJUnit: does not model durations, skip reasons and captured output, apart from whether a skip marker is present and well formed.
- CarriedArtifact.PriorArtifact: the validation of the producing run is a flag, and timestamps are integers; the source compares them as text, which is a total order too.
- CarriedArtifact.FetchJson: the outcome and duration of each request and the length of each sleep are inputs.
- AuditChain.AuditEntries: the events are any encodable entries, not the fixed fixture texts.
