# Verified models of the merc operations layer

A Dafny model of the operations scripts that hold real algorithms: the licence classifier and the
Cargo.lock reader of the licence inventory, the money guard of paid GPU pods, the mutation preflight cache
with its shards and its log observer, the latency atlas producer, and four smaller pieces (timing
ingestion, the documentation no-loss check, the energy sampler, the placement ranking).

Recursive and expression-shaped code is modelled by functions; code that loops over variables is a method
proved equal to a specification function; objects and files that are updated in place are classes
(`IntentStore`, `CacheDir`, `ManifestFile`, `Sampler`). Money, energy, time and percentiles are exact reals.
`dafny verify dfyconfig.toml` checks everything.

| file | models |
|---|---|
| `Licence`, `LicenceReading`, `LicenceSoundness`, `LicenceVerdict` | the classifier on tokens, the meaning of licence expressions, how the two relate, and what each verdict means |
| `CargoLock` | the line-driven lock file reader and its round trip |
| `SpendMoney`, `SpendReceipts` | budget and spend arithmetic, receipt rules and their re-validation |
| `IntentStore`, `Reconcile` | intent markers on disk, and the reconcile report |
| `PodRuns`, `PodReports`, `PodScenarios` | every interleaving of paid runs with a death at any point, what reconcile then reports, and four runs worth a name |
| `Observer`, `Shards`, `PreflightCache` | log classification, test lanes, and the cache against re-derivation |
| `AtlasCells`, `Atlas`, `AtlasBuild`, `AtlasTheorems` | measurement cells and the freshness gate, stages, the producer, and feeding an atlas back |
| `Sorting`, `Percentiles`, `Manifest` | stable sorting, interpolated percentiles, ingestion of timing campaigns |
| `NoLoss`, `EnergySampler`, `Ranking` | the no-loss check, the cumulative counter, cost before warmth |
| `Common` | shared result types and string operations |

## Results about the code that are not what one might expect

- Licence precedence. The classifier splits on AND before OR, so OR binds tighter for it; section D.4.5 of
  Annex D of SPDX 2.3 says the opposite. `MixedCounterexample` gives `MIT OR Apache-2.0 AND GPL-3.0`, which is
  called incompatible although MIT may be chosen. `ClassifierIsSound` shows that the difference is always on
  the careful side, and `FollowsStandardIffUnmixed` gives the exact condition: the classifier follows the
  standard for every classification of the licences if and only if no level mixes AND with OR without
  parentheses. Its `Distinct` hypothesis (no licence twice) is used only from right to left: an expression
  such as `A OR A AND A` mixes and still agrees. The left to right half is `UnmixedMeets`, without it.
- Weak copyleft choices. A disjunction of a weak and a strong copyleft licence is left undecided although the
  weak one may be chosen: `WeakChoiceCounterexample` is LGPL-3.0-only OR GPL-3.0. `NoticeIsSound` shows that the
  notice verdict is still always justified, `NoticeReading` gives its exact reading, and
  `NoticeFollowsIffNoChoice` when it can be relied on: a class tells, for every classification of the licences,
  whether a permissive or weak copyleft choice exists if and only if the expression has no OR at all. Its
  `Distinct` hypothesis is used only from right to left; the other half is `NoChoiceFollows`, without it.
- Array-table sections of a lock file. Only a single-bracket header closes the open package
  (`generate-license-inventory.py:280`), so the name and version lines of a `[[patch.unused]]` section overwrite
  the last package. `PatchUnusedLosesPackage` is such a file, `PatchReplacesPackage` the family.
  `LockRoundTripIff` gives the exact condition: the text reads back if and only if each package has a name and a
  version, no value has a quote at its ends, and the field lines that follow it before the next package or
  single-bracket header leave its fields as they were.
- The shared request file. Every run records its id in one file, and at its end completes the marker that the
  file names by then (`runpod-vllm.sh:342`, `runpod-vllm.sh:358-365`). `CrossedIsMisread` gives two runs that
  cross: the second run's live, bound pod is then reported unknown instead of abandoned, and the finished first
  run is reported stale. `MarkersTellIffOrderly` gives the exact condition: markers are completed by their own
  runs alone if and only if no run records its id between another run's record and its completion.
- The shared identity files. An experiment learns which pod to tear down from files that a second experiment
  starting up at the same time overwrites (`runpod-vllm.sh:493-521`, `runpod-vllm.sh:637-683`). So in the model
  a run, however far it got itself, may tear down and write the receipt of any pod that some run bound.
  `SwappedIsMisread` shows a pod that is then reported receipted although its own run only bound it; that a live,
  unclaimed pod is an orphan in the report holds regardless (`EveryRowIsSound`). `RowIsOffIff` gives the exact
  condition for a row of any reachable report to carry another class than its run's phase calls for: exactly one
  of the receipt on file and the run's own receipt is verified; or neither is, and a finished run's marker is
  open, or a bound run's marker was completed before the run finished, or a receipt that verified nothing is the
  pod's only trail.
- Completion without a receipt. When startup fails, a refused receipt does not keep the marker from being
  completed (`runpod-vllm.sh:513-518`), although the docstring of `complete_intent` speaks of a receipt.
  `ReceiptlessIsUnknown` shows the consequence: if that pod comes back, it is reported unknown.
- Receipt re-validation. Some bad receipts stop the whole walk with an error instead of being logged as a
  failure: a file that is not UTF-8 or is JSON but no object, and a standing receipt whose orphans cannot be
  listed, whose rate is not positive, or whose cap is below the minimum. `RaisingFiles` gives one of each of the
  first four; `RaisesIff` and `RevalidateAll` say exactly when.
- Intent listing. A marker file that is not UTF-8 or is JSON but no object stops reconcile with an error, where
  torn and foreign files are passed over; `LoadIntents` has the exact condition. No step of a run or crash leaves
  such a file (`AlwaysListable`).
- Merge composition. Two passing merges compose into one for all sources and first ledgers if and only if
  the second merge and its ledger cover the intermediate documents on every atom (`MergesComposeIff`). A
  negative ledger count on an atom the intermediate documents lack breaks it (`NegativeCreditBreaksComposition`);
  non-negative ledgers suffice (`MergesCompose`).
- Database observations. A message in `mutation-preflight-cache.py` speaks of every invariant passing; the
  code asks that every declared test ran in both logs and that at least one passed against the database
  (`ProvedIff`). `AcceptedWithoutAllPassing` is an accepted source with a test that passed nowhere.
- Aggregate logs. A line that is JSON but no object makes the observer raise, whoever's tests the line is
  about. So the aggregate log stands for a source's own log if and only if there is no such line
  (`AggregateStandsForSource`).

## Assumptions

- Licence text is a token sequence, rendered with one space between neighbours.
- SHA-256 is injective; a digest is known by what it digests.
- Request ids stay distinct after sanitising, and the provider issues fresh, non-empty pod ids. Both are
  conditions of the steps in `PodRuns.Enabled`. Runs may interleave in any way; the entry gate that refuses a
  create while something bills is not relied on. An experiment that dies before it writes a marker takes
  no part, although the script lets such a one tear down and complete through the files of another.
- A rename is atomic. A crash may leave anything in the temporary file beside a marker or the cache.
- A catalogue of stages has distinct ids that are no wrapper keys, non-empty reasons, and every column listed
  (`Atlas.ValidCatalog`); `Atlas.ProducerCatalogIsValid` discharges this for the producer's own ids and columns.

## Model

| member | source | states |
|---|---|---|
| `Licence.ComputeStripParens` | ops/scripts/generate-license-inventory.py:327-343 | the stripping loop takes off outer parentheses exactly as long as the first one closes at the very end, and stops where it does not |
| `Licence.ComputeSplitTopLevel` | ops/scripts/generate-license-inventory.py:346-362 | the match loop with its running depth and cut position yields the parts of the left-to-right scan, and nothing when there is no top-level match |
| `Licence.SplitOrAnd` | ops/scripts/generate-license-inventory.py:365-374 | a compound answer has at least two parts, each shorter than the slash-expanded text: the recursion of the classifier terminates |
| `LicenceReading.StandardIsChoice` | ops/scripts/generate-license-inventory.py:377-403 | the reading in which AND binds tighter holds exactly when some resolution of the ORs consists of good licences only |
| `LicenceReading.ReversedImpliesStandard` | ops/scripts/generate-license-inventory.py:365-374 | for any nesting and mixing, what the OR-tighter reading grants the standard reading grants too |
| `LicenceReading.MixedDisagree` | ops/scripts/generate-license-inventory.py:365-374 | every expression with a mixed level has a set of good licences on which the two readings differ |
| `LicenceSoundness.WrapBalanced` | ops/scripts/generate-license-inventory.py:327-343 | parentheses put around balanced text are exactly the ones stripping removes |
| `LicenceSoundness.ScanPieces` | ops/scripts/generate-license-inventory.py:346-362 | on printed text the cuts are exactly the top-level links of that operator, and the parts are the printed sub-chains |
| `LicenceSoundness.ClassifierReading` | ops/scripts/generate-license-inventory.py:346-403 | for every well-formed expression, slashes included, the class is permissive (not copyleft) exactly when the OR-tighter reading holds of the permissive (non-copyleft) licences |
| `LicenceSoundness.ClassifierIsSound` | ops/scripts/generate-license-inventory.py:327-403 | a permissive class means some resolution uses permissive licences only; a class that is not copyleft means some resolution has no copyleft licence |
| `LicenceSoundness.UnmixedIsExact` | ops/scripts/generate-license-inventory.py:346-403 | with compound operands parenthesised: permissive exactly when some resolution is all permissive, copyleft exactly when every resolution contains copyleft |
| `LicenceSoundness.FollowsStandardIffUnmixed` | ops/scripts/generate-license-inventory.py:365-403 | the class agrees with the standard reading for every classification of licences if and only if no level mixes AND with OR |
| `LicenceSoundness.KindOfText` | ops/scripts/generate-license-inventory.py:365-374 | the text counts as a disjunction exactly when, below its outer parentheses, its top level is a pure disjunction |
| `LicenceSoundness.VerdictIsSound` | ops/scripts/generate-license-inventory.py:406-440 | the verdict on licence texts: permissive only with a permissive choice, incompatible whenever every choice is copyleft, the option label only for disjunctions, and both exactly for unmixed expressions |
| `LicenceSoundness.PlaceholderIsUnknown` | ops/scripts/generate-license-inventory.py:407-411 | the two placeholder texts would be unknown by their own text |
| `LicenceSoundness.MixedGap` | ops/scripts/generate-license-inventory.py:365-440 | `a OR b AND z` with a copyleft `z` is called incompatible although `a` alone is a resolution |
| `LicenceSoundness.MixedCounterexample` | ops/scripts/generate-license-inventory.py:365-440 | the concrete case MIT OR Apache-2.0 AND GPL-3.0 |
| `LicenceVerdict.NoticeReading` | ops/scripts/generate-license-inventory.py:377-403 | for every well-formed expression the class is permissive or weak copyleft exactly when in every conjunct some operand is permissive, or one is usable and none is bound to copyleft |
| `LicenceVerdict.NoticeIsSound` | ops/scripts/generate-license-inventory.py:377-403 | for any nesting and mixing, a permissive or weak class means some resolution consists of permissive and weak copyleft licences only |
| `LicenceVerdict.VerdictTable` | ops/scripts/generate-license-inventory.py:406-440 | each of the five verdicts with its exact condition on the expression |
| `LicenceVerdict.NoticeVerdictIsSound` | ops/scripts/generate-license-inventory.py:406-440 | a notice is asked for only with a resolution of permissive and weak licences; an unmixed expression that can avoid copyleft but not unknown licences is left undecided |
| `LicenceVerdict.NoticeFollowsIffNoChoice` | ops/scripts/generate-license-inventory.py:377-403 | the class tells for every classification whether a permissive or weak resolution exists if and only if there is no OR |
| `LicenceVerdict.WeakChoiceGap` | ops/scripts/generate-license-inventory.py:390-396 | a weak or a strong copyleft licence to choose from: nothing is concluded although the weak one is a resolution |
| `LicenceVerdict.WeakChoiceCounterexample` | ops/scripts/generate-license-inventory.py:390-396 | the concrete case LGPL-3.0-only OR GPL-3.0 |
| `LicenceVerdict.TextClassTable` | ops/scripts/generate-license-inventory.py:379-388 | a text is copyleft or permissive exactly by its listed name or family, and of the rest weak exactly when it names the LGPL |
| `LicenceVerdict.ClassIgnoresCase` | ops/scripts/generate-license-inventory.py:323-324 | the class does not depend on letter case or on blanks around the text |
| `LicenceVerdict.ExampleVerdicts` | ops/scripts/generate-license-inventory.py:406-440 | LGPL-3.0-only needs a notice, GPL-3.0 is incompatible, and nothing is concluded about the unlisted CC-BY-4.0 |
| `CargoLock.ParseCargoLock` | ops/scripts/generate-license-inventory.py:267-296 | the loop with its open package and its three flush points computes the fold of the line kinds |
| `CargoLock.ReadsField` | ops/scripts/generate-license-inventory.py:286-293 | a printed field line is read under its own key with the printed value, less any quotes at its ends |
| `CargoLock.RunBlocks` | ops/scripts/generate-license-inventory.py:267-296 | from any state of the loop, package blocks followed by any other lines add one package each, overwritten by the field lines before the next single-bracket header, whichever flush point closes it |
| `CargoLock.LockRoundTripIff` | ops/scripts/generate-license-inventory.py:267-296 | with any preamble, dependency arrays and sections of any other header, the printed packages read back in order, none lost or repeated, if and only if each has a name and a version, no quote at the ends of a value, and no field line before its closing header that changes it |
| `CargoLock.LockRoundTrip` | ops/scripts/generate-license-inventory.py:267-296 | so named packages with quote-free values read back in order, none lost or repeated, whatever dependency arrays and single-bracket sections stand between and after them |
| `CargoLock.PatchReplacesPackage` | ops/scripts/generate-license-inventory.py:280-293 | a `[[patch.unused]]` section after a package replaces it by what the section names, for all names and versions |
| `CargoLock.PatchUnusedLosesPackage` | ops/scripts/generate-license-inventory.py:280-293 | the concrete file: package a 1 is read as b 2 |
| `SpendMoney.SpendBrackets` | ops/scripts/runpod-spend-guard.py:100-108 | reported spend is a whole number of cents, never below the true cost and less than a cent above it |
| `SpendMoney.SpendWithinCap` | ops/scripts/runpod-spend-guard.py:100-108 | spend fits a cap exactly when the cost fits the whole cents of the cap |
| `SpendMoney.SpendMonotoneAndSubadditive` | ops/scripts/runpod-spend-guard.py:100-108 | a longer life never reports less, and splitting a life never lowers the total |
| `SpendMoney.BudgetHoldsCap` | ops/scripts/runpod-spend-guard.py:63-108 | a pod stopped within its budget, or late by up to the unshared part of the cap less a cent, spends at most the cap |
| `SpendMoney.BudgetIsMaximal` | ops/scripts/runpod-spend-guard.py:89-97 | the budget is the longest whole number of seconds whose cost stays within the lifetime share |
| `SpendMoney.BudgetExample` | ops/scripts/runpod-spend-guard.py:63-97 | a dollar an hour under a dollar's cap may live 2880 seconds; caps below a quarter and free pods are refused |
| `SpendReceipts.FreshRevalidates` | ops/scripts/runpod-spend-guard.py:156-260 | re-validating a fresh receipt returns exactly its stored refusals, so admissible and a later pass coincide |
| `SpendReceipts.PassIffClean` | ops/scripts/runpod-spend-guard.py:111-153 | a standing receipt has no refusal exactly when every rule is met; within the lifetime budget the spend rule cannot fire |
| `SpendReceipts.RefusalMeaning` | ops/scripts/runpod-spend-guard.py:111-153 | each refusal stands exactly when its own rule is broken |
| `SpendReceipts.EarlyRefusals` | ops/scripts/runpod-spend-guard.py:232-253 | the refusals before any rule: another kind, a withdrawal without reason, numbers missing or a negative lifetime, each exactly then |
| `SpendReceipts.ReceiptMeaning` | ops/scripts/runpod-spend-guard.py:156-206 | a receipt is built exactly for a lifetime that is not negative, a positive rate and a sufficient cap; it stores what it was given, the budget and a spend that covers the cost, and is admissible exactly when clean |
| `SpendReceipts.WithdrawalMeaning` | ops/scripts/runpod-spend-guard.py:209-229 | a reason is stated exactly when a text of the field that counts is not blank, and holds every such text |
| `SpendReceipts.RetiredWords` | ops/scripts/runpod-spend-guard.py:224-226 | the three words that retire a receipt, in either case |
| `SpendReceipts.PinnedImages` | ops/scripts/runpod-spend-guard.py:142-146 | an image is pinned when it names a digest, and never without an at sign |
| `SpendReceipts.RevalidateAll` | ops/scripts/runpod-spend-guard.py:263-316 | the walk stops exactly when some receipt raises; otherwise it logs each receipt's outcome in order, exits 1 exactly when one failed, and at exit 0 its passing count is right |
| `SpendReceipts.OutcomesPartition` | ops/scripts/runpod-spend-guard.py:263-316 | pass, withdrawn and fail partition the receipts |
| `SpendReceipts.OutcomeMeaning` | ops/scripts/runpod-spend-guard.py:209-260 | passes exactly when standing and clean, withdrawn exactly when retired with a stated reason |
| `SpendReceipts.RaisesIff` | ops/scripts/runpod-spend-guard.py:232-260 | a file raises exactly when it is not UTF-8, is JSON but no object, or is a standing receipt with readable numbers whose orphans cannot be listed, whose rate is not positive or whose cap is below the minimum |
| `SpendReceipts.ExitZeroMeaning` | ops/scripts/runpod-spend-guard.py:263-316 | no failure means every receipt is clean, or withdrawn with a reason |
| `SpendReceipts.RaisingFiles` | ops/scripts/runpod-spend-guard.py:232-260 | a receipt without hourly rate, one whose orphans are a number, a file that is no object and one that is no text: each raises, and so does every walk over it |
| `Intents.IntentStore.Replace` | ops/scripts/runpod-spend-guard.py:396-401 | a crash after any number of disk operations leaves the listing with the whole old marker or the whole new one, and touches no other marker |
| `Intents.IntentStore.Read` | ops/scripts/runpod-spend-guard.py:415-419 | what is read at a path is the listed marker, and nothing for a missing, torn or foreign file |
| `Intents.IntentStore.WriteIntent` | ops/scripts/runpod-spend-guard.py:370-402 | puts a requested marker without a pod at the sanitised id, or refuses an id that is empty |
| `Intents.IntentStore.BindIntent` | ops/scripts/runpod-spend-guard.py:405-431 | binds the stored marker to the pod and changes nothing else of it; refuses an empty pod id, a missing marker and a completed one |
| `Intents.IntentStore.CompleteIntent` | ops/scripts/runpod-spend-guard.py:434-454 | completes the stored marker and changes nothing else of it; refuses a missing one |
| `Intents.IntentStore.LoadIntents` | ops/scripts/runpod-spend-guard.py:457-474 | raises exactly when a listed file is not UTF-8 or is JSON but no object; otherwise lists every marker exactly once in file-name order and passes over torn, foreign and temporary files |
| `Intents.StoreStaysWellFormed` | ops/scripts/runpod-spend-guard.py:370-454 | through any operations and crashes a requested marker has no pod and a bound one has a non-empty pod id |
| `Intents.CompletedIsFinal` | ops/scripts/runpod-spend-guard.py:405-454 | a completed marker stays completed with its pod until its id is written afresh |
| `Intents.RefusesIff` | ops/scripts/runpod-spend-guard.py:370-454 | each refusal of write, bind and complete with its exact condition |
| `Intents.FullLife` | ops/scripts/runpod-spend-guard.py:370-454 | written, bound and completed, a marker carries its request, purpose, pod and all three times, and no other marker changes |
| `Intents.SanitiseIsSafe` | ops/scripts/runpod-spend-guard.py:363-367 | sanitising keeps safe characters in place, leaves only safe ones, and changes nothing twice |
| `Reconcile.CollectTrails` | ops/scripts/runpod-spend-guard.py:517-528 | the loop collects the open intents by pod in first-seen order and the unbound ones |
| `Reconcile.TrailsAreConsistent` | ops/scripts/runpod-spend-guard.py:517-528 | the collected trails are exactly the pods bound by open intents, each once, each with an intent that binds it |
| `Reconcile.TrailIsLast` | ops/scripts/runpod-spend-guard.py:517-528 | the trail of a pod is the last open intent that binds it |
| `Reconcile.TrailsInOrder` | ops/scripts/runpod-spend-guard.py:517-528 | trails come in the order in which their pods were first bound |
| `Reconcile.RowMeaning` | ops/scripts/runpod-spend-guard.py:530-631 | in terms of the given lists: a row is an orphan exactly when its pod is unclaimed, and then abandoned exactly when an open intent binds it and no receipt verified its teardown, receipted but alive exactly when one did, unverified exactly when an unverifying receipt is its only trail, unknown exactly without any; the owner of an abandoned pod is the request of the last open intent that binds it, of an unknown one nobody, else the pod itself |
| `Reconcile.ClassifyRows` | ops/scripts/runpod-spend-guard.py:530-631 | the loop fills live, orphan and owned rows in listing order and skips pods without an id |
| `Reconcile.ListStale` | ops/scripts/runpod-spend-guard.py:633-643 | the loop lists one entry per trail whose pod is not live, in trail order |
| `Reconcile.StaleMeaning` | ops/scripts/runpod-spend-guard.py:633-643 | a stale entry repeats request id, pod and status of the last open intent that binds its pod, the pod is not listed, and entries come in the order of the first binds |
| `Reconcile.ClassifyLivePods` | ops/scripts/runpod-spend-guard.py:499-653 | the whole report equals its specification; an empty active id claims nothing |
| `Reconcile.SelectSplits` | ops/scripts/runpod-spend-guard.py:530-631 | owned and orphan rows split the live rows position by position, each list in listing order, nothing lost or repeated |
| `Reconcile.RowsMembers` | ops/scripts/runpod-spend-guard.py:530-631 | every listed pod with an id has its row, and every row is of a listed pod |
| `Reconcile.RowsInOrder` | ops/scripts/runpod-spend-guard.py:530-631 | the rows are those of the listed pods with an id, in listing order, each once |
| `Reconcile.FailsIffUnclaimed` | ops/scripts/runpod-spend-guard.py:722-724 | the command fails exactly when a listed pod with an id is not the active one, whatever intents and receipts say |
| `Reconcile.UnboundMembers` | ops/scripts/runpod-spend-guard.py:644-652 | the unbound list names exactly the requested intents without a pod |
| `Reconcile.UnboundInOrder` | ops/scripts/runpod-spend-guard.py:644-652 | one entry per requested intent without a pod, in order, with its request id and status |
| `Reconcile.OpenIntentLiveOrStale` | ops/scripts/runpod-spend-guard.py:633-643 | a pod bound by an open intent is live in the report or stale exactly once, never both; no other pod is stale |
| `PodRuns.InvHolds` | ops/scripts/runpod-vllm.sh:331-365 | every sequence of steps of any number of runs, in any interleaving, keeps markers, pods, the shared file and, while every run tears down its own pod, the receipts in agreement with how far each run got and who completed whose marker |
| `PodRuns.StepsAreStoreOperations` | ops/scripts/runpod-spend-guard.py:370-454 | every step changes the markers as the intent store's write, bind or complete does, or not at all |
| `PodRuns.CompletesOwnIffUndisturbed` | ops/scripts/runpod-vllm.sh:358-365 | a completion completes its own run's marker if and only if no other run recorded its id since this run did |
| `PodRuns.MarkersTellIffOrderly` | ops/scripts/runpod-vllm.sh:331-365 | every marker is completed exactly when its own run finished if and only if no run recorded its id between another's record and its completion |
| `PodRuns.AlwaysListable` | ops/scripts/runpod-spend-guard.py:457-474 | no sequence of steps, with a death at any point, leaves a marker directory on which the listing raises |
| `PodReports.TrailsOfRuns` | ops/scripts/runpod-spend-guard.py:517-528 | in every reachable state the open intents name exactly the pods of runs that bound one and whose marker nobody completed |
| `PodReports.EveryRowIsSound` | ops/scripts/runpod-spend-guard.py:499-653 | in every reachable state every live pod but the claimed one is an orphan, a pod no run created is unknown, and the class of any other follows from whether its run bound it, whether its marker is completed, and what the receipts say of it |
| `PodReports.RowIsOffIff` | ops/scripts/runpod-spend-guard.py:499-653 | in every reachable state the class of an orphan row differs from the one its run's phase calls for if and only if exactly one of the receipt on file and the run's own is verified, or neither is and the run's marker is open though it finished, or completed though it is bound and unfinished, or a receipt that verified nothing is the pod's only trail |
| `PodReports.EveryRowTellsItsPhase` | ops/scripts/runpod-spend-guard.py:499-653 | so with orderly records and every run tearing down its own pod, the class tells where the run died: unknown before the bind and after a completion without receipt, abandoned intent before a verified receipt, receipted but alive after |
| `PodReports.EveryRunIsAccountedFor` | ops/scripts/runpod-spend-guard.py:499-653 | in every reachable state each run's live pod is in the report, its vanished pod is stale exactly once while its marker is open, and its marker is unbound exactly until it is bound or completed |
| `PodReports.PhaseDecidesTheRest` | ops/scripts/runpod-spend-guard.py:633-652 | with orderly records: stale exactly from the bind until the run finished, unbound exactly until the bind or the end of a run without one, and a finished run whose pod is gone leaves nothing |
| `PodReports.EmptyReportIffAllFinished` | ops/scripts/runpod-spend-guard.py:499-653 | however runs interleave, reconcile reports nothing exactly when nothing bills, every run ever started finished, and the records were orderly |
| `PodReports.LiveIff` | ops/scripts/runpod-spend-guard.py:530-545 | after any steps a pod is live exactly when something started it and neither the provider nor a verified teardown stopped it since |
| `PodReports.OrphanIffBilling` | ops/scripts/runpod-spend-guard.py:499-653 | however runs interleave and wherever they die, a pod is reported as an orphan exactly when it was started, was not stopped since, and the last active claim is not for it |
| `PodReports.EntriesNameTheirRuns` | ops/scripts/runpod-spend-guard.py:575-643 | in every reachable state the stale entry of a run's pod carries that run's request id and status bound, the owner of an abandoned pod is its run's request, and every stale pod is a gone pod of some run |
| `PodScenarios.CleanRun` | ops/scripts/runpod-vllm.sh:590-625 | a run can take all its steps, from an empty account to no live pod, a verified receipt and its own marker completed |
| `PodScenarios.ReceiptlessIsUnknown` | ops/scripts/runpod-vllm.sh:513-518 | a pod that comes back after its run completed without a receipt has a row, and it is reported unknown |
| `PodScenarios.CrossedIsMisread` | ops/scripts/runpod-vllm.sh:358-365 | two runs that cross in the shared file: the report has a row that calls a live bound pod unknown, and a finished run is stale |
| `PodScenarios.SwappedIsMisread` | ops/scripts/runpod-vllm.sh:493-521 | two runs that swap pods: the report has a row that calls the pod of a run that only bound it receipted but alive |
| `Observer.RootTest` | ops/scripts/mutation-contract-observer.py:26-27 | the root name is the longest slash-free beginning of the test name |
| `Observer.ComputeObserve` | ops/scripts/mutation-contract-observer.py:30-99 | the event fold and branches report the outcome determined by which declared tests showed which actions; a timeout marker comes first, and a line that is JSON but no object makes it raise |
| `Observer.UnusableMeaning` | ops/scripts/mutation-contract-observer.py:56-66 | a timeout marker on any line comes first, and else a line that is JSON but no object makes it raise |
| `Observer.FailureMeaning` | ops/scripts/mutation-contract-observer.py:74-99 | a failing run is caught exactly when some line reports the failure of a declared test or a subtest of it, naming exactly those tests; otherwise no declared test failed |
| `Observer.SuccessMeaning` | ops/scripts/mutation-contract-observer.py:74-94 | under each requirement, the tests that did not run or pass, that passed, or that ran, are named exactly |
| `Observer.SameLinesSameObservation` | ops/scripts/mutation-contract-observer.py:57-99 | an observation depends only on which lines occur, not on order or repetition |
| `Observer.AggregateStandsForSource` | ops/scripts/mutation-contract-observer.py:57-99 | without a timeout marker, a source's observation of the aggregate log is that of the log cut to its own tests if and only if no line is JSON but no object |
| `Shards.ShardedSelectors` | ops/scripts/mutation-preflight-cache.py:147-158 | lane counts from 1 to 32 not above the number of tests are accepted, and only those, with one pattern per stride lane; the guards on the lanes never fire |
| `Shards.SelectorSelects` | ops/scripts/mutation-preflight-cache.py:103-104 | a pattern is anchored and its alternatives are exactly the tests it was made from, in order |
| `Shards.LaneAt` | ops/scripts/mutation-preflight-cache.py:152-153 | lane k holds every count-th name from k on, in order |
| `Shards.LanesPartition` | ops/scripts/mutation-preflight-cache.py:152-157 | the lanes are non-empty, hold every test as often as declared, and differ in size by at most one |
| `Shards.LanesDisjoint` | ops/scripts/mutation-preflight-cache.py:152-157 | distinct tests never share two lanes |
| `Shards.ShardingIsTransparent` | ops/scripts/mutation-preflight-cache.py:201-220 | the lanes' logs joined in any order observe every source as one unsharded log of the same lines |
| `Shards.StrideLanesObserveTheWhole` | ops/scripts/mutation-preflight-cache.py:147-158 | when each stride lane logs its own tests, the lanes joined in any order observe every source whose tests are sharded exactly as the whole log does |
| `Shards.LaneSpeaksForItsTests` | ops/scripts/mutation-preflight-cache.py:147-158 | with distinct tests and lanes that run only their own, each test is observed in the joined log as in its lane |
| `PreflightCache.CacheDir.SourceRecords` | ops/scripts/mutation-preflight-cache.py:161-176 | one record per source with its digest, tests and selector, refused when a source is missing |
| `PreflightCache.CacheDir.ValidateLogs` | ops/scripts/mutation-preflight-cache.py:179-220 | both observations of every record, refused exactly when a log is missing or does not prove a record |
| `PreflightCache.CacheDir.Create` | ops/scripts/mutation-preflight-cache.py:230-251 | puts the payload derived from worktree and logs in place; a crash at any point and any refusal keep the whole old cache |
| `PreflightCache.CacheDir.Verify` | ops/scripts/mutation-preflight-cache.py:261-304 | accepts exactly when header, digests and every selected record equal a fresh derivation |
| `PreflightCache.CacheDir.IndexBySource` | ops/scripts/mutation-preflight-cache.py:274-284 | indexes the records by source, refused exactly when a source repeats |
| `PreflightCache.VerifyAfterCreate` | ops/scripts/mutation-preflight-cache.py:230-304 | verifying right after creating accepts every selection of cached sources |
| `PreflightCache.AcceptedMeansUnchanged` | ops/scripts/mutation-preflight-cache.py:261-304 | acceptance in any later worktree means commit, contracts, both logs, and every selected source's text, tests and observations are those at creation, and both worktrees are clean |
| `PreflightCache.AcceptsIff` | ops/scripts/mutation-preflight-cache.py:261-304 | a payload is accepted exactly when creating one for the selection here and now succeeds with the same header and digests and with records among the payload's |
| `PreflightCache.RecordMeaning` | ops/scripts/mutation-preflight-cache.py:161-220 | a record holds the digest of the source, its tests and pattern, the tests that passed against the database, and those that passed or ran without it |
| `PreflightCache.ProvedIff` | ops/scripts/mutation-preflight-cache.py:201-220 | the logs prove a source exactly when it is known, neither log timed out or is malformed, every declared test ran in both, and one passed against the database |
| `PreflightCache.AcceptedMeansProved` | ops/scripts/mutation-preflight-cache.py:201-220 | and acceptance stands for that, for every selected source |
| `PreflightCache.AcceptedWithoutAllPassing` | ops/scripts/mutation-preflight-cache.py:210-219 | an accepted source with a declared test that passed in no log |
| `AtlasCells.OwnCommit` | ops/scripts/lib/receipt_binding.py:79-97 | a cell with its own full commit resolves to it, whatever it nests |
| `AtlasCells.NoCommit` | ops/scripts/produce-latency-atlas.py:269-293 | a cell whose commit is UNMEASURED or missing and which has no other commit-naming key resolves to none |
| `AtlasCells.CommitIsFirst` | ops/scripts/produce-latency-atlas.py:269-293 | the commit a cell claims is the first full commit in the list of all places that may name one, the outermost cell's fields, blocks and aliases before the measurement nested in it; the last look at the identity never adds one |
| `AtlasCells.WrappedCommit` | ops/scripts/lib/receipt_binding.py:79-97 | a commit may be wrapped in an object, padded with blanks and in capitals |
| `AtlasCells.MetricComesFromChain` | ops/scripts/produce-latency-atlas.py:311-319 | a metric is UNMEASURED or stands in the chain of nested measurements under the field or its alias |
| `AtlasCells.MetricIsFirst` | ops/scripts/produce-latency-atlas.py:311-319 | a metric is what the outermost cell of the chain that supplies it says, the field before its alias, and UNMEASURED when none does |
| `AtlasCells.ValueIff` | ops/scripts/produce-latency-atlas.py:296-308 | a cell carries a value exactly when it or a nested measurement has a number under a metric or alias, a non-blank extra, or the status |
| `AtlasCells.StatusIsNormalised` | ops/scripts/produce-latency-atlas.py:297-298 | a status counts padded with blanks and in small letters |
| `AtlasCells.NumberMakesValue` | ops/scripts/produce-latency-atlas.py:296-319 | a cell that yields a number for any metric is one that carries a value |
| `AtlasCells.AssertFresh` | ops/scripts/produce-latency-atlas.py:326-364 | the gate passes exactly when the resolved commit is the candidate, or there is neither commit nor value, and no value is labelled UNMEASURED; a staleness refusal names both commits |
| `Atlas.FillMetrics` | ops/scripts/produce-latency-atlas.py:394-411 | the metric loop succeeds exactly when every supplied metric is a number or blank and at least one is a number |
| `Atlas.BuildMeasuredStage` | ops/scripts/produce-latency-atlas.py:381-415 | the loops over metrics and extras build the measured stage or refuse it |
| `Atlas.MeasuredFields` | ops/scripts/produce-latency-atlas.py:381-415 | a measured stage holds its head, per metric the number or UNMEASURED, the non-blank extras, and nothing else |
| `Atlas.MeasuredHeadFields` | ops/scripts/produce-latency-atlas.py:381-393 | the head of a measured stage: id and name of the row, the candidate, no reason, and the cell's harness or else the row's |
| `Atlas.UnmeasuredFields` | ops/scripts/produce-latency-atlas.py:367-378 | an unmeasured stage holds the row's head with its reason and UNMEASURED for every metric, and nothing else |
| `Atlas.MeasuredRefeeds` | ops/scripts/produce-latency-atlas.py:381-415 | a measured stage taken as a cell claims the candidate, carries a value and yields itself |
| `Atlas.UnmeasuredRefeeds` | ops/scripts/produce-latency-atlas.py:367-378 | an unmeasured stage taken as a cell claims neither commit nor value |
| `Atlas.ProducerCatalogIsValid` | ops/scripts/produce-latency-atlas.py:53-230 | the producer's stage ids, columns and wrapper keys satisfy what the theorems ask of a catalogue |
| `AtlasBuild.BuildStages` | ops/scripts/produce-latency-atlas.py:482-493 | the stage loop gives every row its stage and stops at the first refusal |
| `AtlasBuild.ConvertStages` | ops/scripts/produce-latency-atlas.py:442-448 | a stages list becomes an object keyed by stage id, refused for an entry that has none |
| `AtlasBuild.PickCells` | ops/scripts/produce-latency-atlas.py:453-464 | every key that wraps nothing must be a known stage id with an object cell, and exactly those cells are picked |
| `AtlasBuild.NormalizeMeasurements` | ops/scripts/produce-latency-atlas.py:418-464 | the whole normalisation, with the refusal of an atlas stamped at another commit |
| `AtlasBuild.AssertAtlasFresh` | ops/scripts/produce-latency-atlas.py:515-552 | the second pass accepts exactly the stages that are measured at the candidate or unmeasured throughout with a reason |
| `AtlasBuild.ComputeAtlas` | ops/scripts/produce-latency-atlas.py:467-512 | the producer's steps compose to the specification |
| `AtlasTheorems.SecondPassNeverFires` | ops/scripts/produce-latency-atlas.py:515-552 | the second pass never refuses what the first pass assembled, and every assembled stage is honest |
| `AtlasTheorems.AtlasIsHonest` | ops/scripts/produce-latency-atlas.py:467-512 | in every successful atlas each stage is unmeasured, or its cell resolves to the candidate and every number stands in that cell's chain, with at least one number; the two counts sum to the catalogue |
| `AtlasTheorems.StageForIff` | ops/scripts/produce-latency-atlas.py:326-415 | a row without a cell is emitted unmeasured; one with a cell exactly when the cell is fresh and readable, and measured exactly when it carries a value |
| `AtlasTheorems.BuildsIff` | ops/scripts/produce-latency-atlas.py:467-512 | the producer succeeds exactly when the candidate has forty characters, the measurements can be read, and the cell of every stage is taken |
| `AtlasTheorems.CandidateIsNormalised` | ops/scripts/produce-latency-atlas.py:467-481 | the candidate may be padded with blanks and in capitals |
| `AtlasTheorems.SecondPassRefuses` | ops/scripts/produce-latency-atlas.py:515-552 | what the second pass refuses in a stage of whatever origin |
| `AtlasTheorems.DocumentCountsSum` | ops/scripts/produce-latency-atlas.py:494-512 | the two counts in the document sum to its stage count, and it lists the stage ids in order |
| `AtlasTheorems.FlatAndNestedAgree` | ops/scripts/produce-latency-atlas.py:437-452 | cells given flat and cells given under stages are read alike |
| `AtlasTheorems.WrappersAreIgnored` | ops/scripts/produce-latency-atlas.py:453-456 | wrapper keys may stand beside the stages, whatever they hold |
| `AtlasTheorems.UnknownStageIsRefused` | ops/scripts/produce-latency-atlas.py:453-464 | any other key that is no stage id is refused |
| `AtlasTheorems.NothingSuppliedNothingMeasured` | ops/scripts/produce-latency-atlas.py:367-512 | without measurements the producer always succeeds with every stage unmeasured |
| `AtlasTheorems.StageFedBack` | ops/scripts/produce-latency-atlas.py:326-415 | an emitted stage fed back yields itself at its own commit; elsewhere a measured one is refused naming both commits |
| `AtlasTheorems.FeedingBackIsFixpoint` | ops/scripts/produce-latency-atlas.py:467-512 | building from an atlas at its own commit reproduces it exactly |
| `AtlasTheorems.StampedIsFixpoint` | ops/scripts/produce-latency-atlas.py:555-586 | so does building from a stamped atlas |
| `AtlasTheorems.StampedElsewhere` | ops/scripts/produce-latency-atlas.py:429-436 | at any other commit a stamped atlas is refused as a whole, naming both commits |
| `AtlasTheorems.BoundAtlasFedBack` | ops/scripts/produce-latency-atlas.py:555-586 | an atlas bound to its commit with any identity is reproduced at that commit and refused as a whole at any other |
| `AtlasTheorems.FeedingBackElsewhere` | ops/scripts/produce-latency-atlas.py:467-512 | at any other commit an unstamped atlas with a measured stage is refused, and one without is reproduced |
| `Sorting.SortedIsUnique` | ops/scripts/prefix-two-worker-measure.py:168-178 | there is one sorted arrangement of elements that differ in rank |
| `Sorting.TextLeIff` | ops/scripts/prefix-two-worker-measure.py:176 | texts are ordered by the first character in which they differ, a beginning before the whole |
| `Percentiles.PercentileBounds` | ops/scripts/mutation-manifest.py:76-87 | a percentile exists exactly for a non-empty list, lies between two of its values, and grows with the fraction |
| `Percentiles.PercentileIgnoresOrder` | ops/scripts/mutation-manifest.py:76-87 | a percentile does not depend on the order of the samples |
| `Percentiles.PercentileIsLinear` | ops/scripts/mutation-manifest.py:82-87 | a share of the way between two positions the percentile lies that share of the way between the ordered values there |
| `Percentiles.MedianIsMiddle` | ops/scripts/mutation-manifest.py:76-87 | the median is the middle one of the ordered values, or the mean of the two middle ones |
| `Manifest.IngestFile` | ops/scripts/mutation-manifest.py:253-288 | the record loop with its seen set and shared candidate takes the file or refuses it |
| `Manifest.ManifestFile.Ingest` | ops/scripts/mutation-manifest.py:244-290 | the stored manifest becomes the ingested one or stays untouched |
| `Manifest.IngestionIsSound` | ops/scripts/mutation-manifest.py:108-290 | every accepted ingestion keeps the manifest valid, adds exactly the files' samples (one per mutation per complete file), ties all records and stamps to one candidate, sets the class to a pathway of a catch, and changes nothing else |
| `Manifest.IngestsIff` | ops/scripts/mutation-manifest.py:244-290 | an ingestion is accepted exactly when no path repeats, every record is a legitimate catch with its inventoried source and description at the one candidate all share, no file repeats a case, files are complete when asked, and the requested commit is that candidate |
| `Manifest.IngestedPercentiles` | ops/scripts/mutation-manifest.py:76-87 | a summarised entry has both percentiles within its samples and p50 not above p90; for suitable counts they are the samples half and nine tenths of the way |
| `NoLoss.ExtractAtoms` | ops/scripts/docs_noloss_check.py:60-126 | the fence-aware loop yields the multiset of the line fold, an unclosed non-empty fence included |
| `NoLoss.TextYields` | ops/scripts/docs_noloss_check.py:96-122 | outside a fence a line yields its own atoms |
| `NoLoss.FenceYields` | ops/scripts/docs_noloss_check.py:69-126 | a fenced block yields one atom, its language and its lines without the blank ones at the end; an unclosed one exactly when it holds a line |
| `NoLoss.TrimMeaning` | ops/scripts/docs_noloss_check.py:70-75 | exactly the blank lines at the end of a fence are taken off |
| `NoLoss.ExtractIsHomomorphism` | ops/scripts/docs_noloss_check.py:60-126 | when the first text ends outside a fence, atoms of the concatenation are the sum |
| `NoLoss.JoinSums` | ops/scripts/docs_noloss_check.py:60-126 | a document of fence-closed blocks has the atoms of its blocks |
| `NoLoss.SumPermutes` | ops/scripts/docs_noloss_check.py:129-137 | the sum of atoms does not depend on the order of the blocks |
| `NoLoss.LoadLedger` | ops/scripts/docs_noloss_check.py:140-171 | credits per atom add up over both ledger forms; a justified entry without a reason and JSON of another shape are refused, the flat form needs no reason |
| `NoLoss.FindDeficits` | ops/scripts/docs_noloss_check.py:232-238 | reports exactly the source atoms that merged plus credits do not cover, with the missing count |
| `NoLoss.RearrangedBlocksPass` | ops/scripts/docs_noloss_check.py:129-238 | merged documents that rearrange fence-closed source blocks over any files always pass |
| `NoLoss.DroppedBlocksPassIff` | ops/scripts/docs_noloss_check.py:129-238 | merged documents that drop some fence-closed blocks pass without a ledger if and only if no dropped block holds an atom |
| `NoLoss.LostAtomFails` | ops/scripts/docs_noloss_check.py:232-238 | an atom of the sources that merged documents lack is reported |
| `NoLoss.MergesComposeIff` | ops/scripts/docs_noloss_check.py:232-238 | two merges compose for all sources and first ledgers exactly when the second covers the intermediate documents on every atom |
| `NoLoss.NegativeCreditBreaksComposition` | ops/scripts/docs_noloss_check.py:232-238 | two merges that pass one by one and fail together, under a negative credit |
| `NoLoss.MergesCompose` | ops/scripts/docs_noloss_check.py:232-238 | two passing merges, the second with a non-negative ledger, pass as one with the ledgers added |
| `EnergySampler.Sampler.Enter` | ops/scripts/bench-harness.py:279-289 | anchors counter and clock and keeps the samples |
| `EnergySampler.Sampler.Loop` | ops/scripts/bench-harness.py:259-277 | the sampling loop with failed reads, zero intervals and resets computes the fold of the readings |
| `EnergySampler.Sampler.Exit` | ops/scripts/bench-harness.py:291-300 | sets the window energy only when both ends were read and the counter did not fall |
| `EnergySampler.DeltasConserve` | ops/scripts/bench-harness.py:259-277 | for every stream, deltas and powers are non-negative, one each, and the deltas sum to the anchor's movement plus what resets dropped |
| `EnergySampler.PowerIntegratesToEnergy` | ops/scripts/bench-harness.py:273-277 | the power samples integrated over their intervals are exactly the energy of the deltas |
| `EnergySampler.NoResetDropsNothing` | ops/scripts/bench-harness.py:268-272 | a counter that never falls drops nothing |
| `EnergySampler.AnchorIsLastRead` | ops/scripts/bench-harness.py:259-277 | with a clock that moves on, the anchor is always the last successful reading |
| `EnergySampler.NothingIsMissed` | ops/scripts/bench-harness.py:259-277 | and without a reset every successful reading gives one delta |
| `EnergySampler.WindowCoversDeltas` | ops/scripts/bench-harness.py:259-300 | without a reset the deltas are the movement up to the last anchor and never exceed the window's energy |
| `Ranking.WinnerIsCheapest` | ops/scripts/prefix-two-worker-measure.py:168-178 | ranking is an ordered permutation whose winner has the least cost rank and then the least ask |
| `Ranking.WarmestWinsItsTier` | ops/scripts/prefix-two-worker-measure.py:168-178 | among candidates of its cost and ask the winner has the deepest warm prefix, then a warm model, then the first worker id |
| `Ranking.WarmthNeverMovesATier` | ops/scripts/prefix-two-worker-measure.py:168-178 | changing warmth leaves the ranked costs and asks, the winner's included, exactly as they were |
| `Ranking.RankIgnoresInputOrder` | ops/scripts/prefix-two-worker-measure.py:168-178 | with distinct worker ids the ranking does not depend on input order |

## Left out

- Characters below the token level of licence text: operator words glued to a parenthesis, other whitespace, letter case of operators.
- Unicode spaces beyond the Latin-1 range at the ends of a stripped text.
- Letters and digits of request ids are ASCII ones; Python's wider `isalnum` is not modelled, and sanitising may merge ids.
- Floating-point rounding, infinities, NaN and numbers too large for a float in rates, caps, samples and percentiles; samples are kept as given rather than to six digits.
- The GPU and name texts of an intent, refusal wording.
- The receipts directory listing of reconcile: it is a map from pod id to verified teardown, so that the listing raises on a receipt file that is not UTF-8 or is no JSON object is not captured there.
- The commit resolver turns non-text JSON values into text first; a number of forty digits is not taken for a commit here.
- Names, harnesses and reasons of the stage catalogue are parameters; only ids, columns and wrapper keys are fixed.
- The energy sampler when no counter is available (it then records nothing), its statistics, the counter reading itself, and the token accounting of `measure`.
- Building the manifest from the inventory (a record-by-record copy of history that the ingestion results take as given) and decoding timing files from JSON. A mutation's source is held without its directory prefix.
- The regular expressions that find atoms in a documentation line, and the surplus report.
- HTTP, SSH, git, database and subprocess calls, report rendering, benchmark drivers, and the Go control plane.
