# A verified model of the harness runtime

This project models the hard core of a coding-agent harness: the Python kernel that keeps a
user's namespace across restarts, three memory services inside that kernel, the background
job skill, and six of the harness's protocols. Every property is stated for all inputs, all
runs or all reachable states.

**Namespace snapshots.** A save visits the namespace in order, admits values under two size
budgets, reuses blobs of the previous snapshot and writes a manifest that describes itself.
A validator re-derives every number in that manifest, including whether the reuse counts can
be attributed to actual entries, which is a subset-sum question decided within a work guard.
A restore gives every root group one decoded value. Publication moves directories around
with renames; a crash may fall between any two filesystem operations.

- `SnapshotFormat`, `BlobNames`, `BlobAttribution`, `BoundedSink` - the pieces of the format
- `SnapshotValidation`, `SnapshotSave`, `SnapshotRestore` - the three operations
- `SnapshotRoundTrip` - what a save writes validates, and aliasing survives
- `SnapshotReuse`, `SnapshotLoss` - what the next save reuses, and two saves of which the second is refused
- `SnapshotPaths`, `SnapshotPublication` - sibling names, and the rename protocol with crashes

**Kernel memory services.** `HistoryCensus` measures the objects reachable from the output
history. `ColdResidency` marks memory ranges cold and pages them out, in budgeted steps,
while an adversary chooses every sample. `MimeHistory` shares equal values through an index
of weak references while records die and callbacks arrive late or twice.

**Background jobs.** `BackgroundJobs` interleaves operations under the store lock with
supervisors, adoption watchers and process deaths that take no lock.

**Protocols.** `ActorResultLifetime`, `ActorStream`, `SseReader`, `BackgroundCompletions`,
`DescendantTraversal` and `ColdHistoryAnchor` take the actions of the TLA+ modules of the
same purpose without their exploration bounds and fault switches: any number of runs, calls,
items, jobs, nodes or entries.

Classes carry the state the Python classes carry (`ColdResidency`, `MimeHistory`,
`BoundedBytesIO`); loops of the source are loops here, proved against specification
functions. The rename protocol, the background jobs and the TLA+ modules are state machines
over values: a predicate per step, an invariant, and lemmas over whole runs.

## What turned out not to hold

- A snapshot that was just saved does not always validate: with mixed reuse the attribution
  may exceed the validator's work guard. `ReuseDecidesValidity` and `SaveAndRestore` state the
  exact condition in terms of what the save may reuse, `UnmixedReuseValidates` the safe case,
  and `FifteenThenThirty` runs the saver twice on a concrete namespace: fifteen values, then
  thirty, of which the second save's snapshot is refused.
- So startup does not always load the newest snapshot. In every run it loads the newest
  published one if and only if the validator accepts that one's manifest, and otherwise
  nothing, since an older one is not looked at (`StartupNeverGoesBack`). When those two
  saves are published, startup would load the first once it has returned and nothing once the
  second has (`RefusedSnapshotLost`).
- The validator's answers for a set of entries and for all the others differ when both are
  half of the snapshot and only one of the two sums is within the guard, since it then keeps
  the side it was asked about. `ComplementAnswered` has the exact condition,
  `HalvesAnsweredApart` such halves.
- An exit record is not write-once for every job. `ReplacedExactly` states when one is
  replaced: a stop of an adopted job overwrites the record its watcher has published since
  the stop looked. `AdoptedRecordReplaced` is such a run; launched jobs are free of it.
- A blob name reads back only while the ordinal and the group fit their fixed widths;
  `BlobNameRoundTrip` has the exact range, which the manifest size limit keeps saves within.
- The name of every `.previous` directory matches the cleanup's pattern for old temporaries;
  only the explicit exception protects it (`PreviousLooksLegacy`, `StaleNames`).

## Assumptions

Renames are atomic and there is one saving process. A published snapshot is *not* assumed to
validate: whether the validator accepts its manifest is chosen freely for every save, and
`SnapshotRoundTrip` says when it does; its entries, once written, are not altered. Digests are 64 lowercase hexadecimal
characters and identify a payload only as far as equality of digests goes: no lemma needs
collision freedom, since stored bytes are compared by length and digest. A successful load
makes a new object. While a save holds a value, no other object gets its address
(`KeptAlive`). The text of a manifest is at least as long as the digests in it. A process identity, pid with start time, never comes back.

## Model

| member | source | states |
|---|---|---|
| BlobAttribution.ExactBlobAttributionPossible | python-runtime/kernel.py:335-371 | the decision is true exactly when some set of that many distinct entries has that sum and, unless it is none or all of them, its smaller side (k, b) has at most 250,000 in entries times k and at most 64,000,000 in (k + 1) times (b + 1); the inner loop runs at most 250,000 times |
| BlobAttribution.AcceptedExactly | python-runtime/kernel.py:347-362 | what is accepted, in these numbers, for any entries, count and sum |
| BlobAttribution.ComplementAnswered | python-runtime/kernel.py:351-362 | a selection and its complement are answered alike if and only if they are not two equal halves of which one is within the bounds and the other is not |
| BlobAttribution.HalvesAnsweredApart | python-runtime/kernel.py:351-362 | two such halves: the small one is accepted and the large one refused |
| BlobAttribution.OneOrAllButOneAccepted | python-runtime/kernel.py:351-362 | in a snapshot within its total limit and of at most 250,000 entries every true attribution of one entry, or of all but one, is accepted |
| BlobAttribution.DecideBySubsetSum | python-runtime/kernel.py:362-371 | the bitset table decides the question exactly, on an array updated downwards, in at most entries times count rounds |
| BlobAttribution.AddEntry | python-runtime/kernel.py:367-368 | one round over the counts turns the table of a list of entries into the table of that list with one more entry, none used twice |
| BlobAttribution.LastEntry | python-runtime/kernel.py:366-368 | the recurrence: with one more entry a total is attributable with it or without it, and no other way |
| BlobAttribution.Complement | python-runtime/kernel.py:351-354 | proving the smaller side of a selection proves the requested side, and conversely |
| BlobAttribution.ExtremeBounds | python-runtime/kernel.py:355-357 | no selection lies outside the sums of the smallest and of the largest entries |
| BlobAttribution.HalfOfThirtyRefused | python-runtime/kernel.py:361-362 | a true attribution of half of thirty equal blobs in a 16 MB snapshot that the guard refuses |
| BlobNames.BlobNameRoundTrip | python-runtime/kernel.py:657-658 | a blob name parses back to its ordinal and group exactly when both fit their widths |
| BlobNames.ParseIsExact | python-runtime/kernel.py:667-671 | any accepted file name is the one name written for the numbers it parses to |
| BlobNames.BlobNamesApart | python-runtime/kernel.py:891 | different ordinals never share a file name, whatever the groups and widths |
| BlobNames.NumeralUnique | python-runtime/kernel.py:891 | a padded numeral of a given width is determined by its value |
| BoundedSink.BoundedBytesIO.Write | python-runtime/kernel.py:240-243 | a write is refused, without effect, exactly if it would pass the limit; otherwise it overwrites at the position |
| BoundedSink.Dump | python-runtime/kernel.py:873-881 | a serialisation written in pieces is kept whole exactly if its length is within the limit, however it is divided |
| SnapshotFormat.IndexBy | python-runtime/kernel.py:682-698 | the index of names holds for each name exactly the positions that carry it |
| SnapshotValidation.StatsAcceptedExactly | python-runtime/kernel.py:557-609 | the statistics are accepted if and only if they are the true counts of saved, skipped and size-limited members and name a split of the entries that some actual subset realises, within the work guard |
| SnapshotValidation.ManifestAcceptedExactly | python-runtime/kernel.py:502-609 | a manifest is accepted as a whole if and only if its shape is right, its declared total is the sum of its entries within the limit, and its statistics are true |
| SnapshotValidation.CheckSkipped | python-runtime/kernel.py:620-636 | a skipped entry is kept exactly if well formed, unique by name and not also saved |
| SnapshotValidation.CheckSaved | python-runtime/kernel.py:638-698 | a saved entry is valid exactly if well formed, within limits, unique by name and by usable file and not also skipped |
| SnapshotValidation.ReadSaved | python-runtime/kernel.py:710-732 | entries are read in order; each is listed if and only if it is readable and its bytes fit the total together with those listed before it, and otherwise has the one error of its own cause, whatever else is wrong around it |
| SnapshotValidation.ValidateSnapshotDirectory | python-runtime/kernel.py:460-741 | the report of any directory content whatsoever is the specified one: without a readable sound manifest nothing is listed, and with one every saved and skipped entry is judged on its own |
| SnapshotValidation.ReportJudgedExactly | python-runtime/kernel.py:620-741 | a report lists exactly the readable entries that fit, keeps exactly the valid skipped ones, and contains each error exactly for its own cause |
| SnapshotValidation.AllJudged | python-runtime/kernel.py:710-732 | in every prefix of the reading each entry is listed, beyond the total or unreadable by its own payload and the bytes listed before it |
| SnapshotValidation.CompleteExactly | python-runtime/kernel.py:733-741 | the report on the entries of a well-shaped manifest is complete if and only if every entry is valid, unique, vouched for by its group owner and reads back, every skipped entry is valid, and the total is within the limit |
| SnapshotValidation.ReportCompleteExactly | python-runtime/kernel.py:460-741 | the report on any directory is complete if and only if it has a readable manifest within its limit that is sound, and its entries are as above |
| SnapshotValidation.ReadErrors | python-runtime/kernel.py:710-732 | reading a prefix raises no error exactly if each entry of it is readable and its total within the limit |
| SnapshotValidation.ListedEntries | python-runtime/kernel.py:710-732 | also of a corrupt snapshot, what is listed is valid, in manifest order, read back from its own file and has the root it is entitled to |
| SnapshotValidation.ListedNamesDistinct | python-runtime/kernel.py:682-685 | no two listed entries share a name |
| SnapshotSave.ReuseBlob | python-runtime/kernel.py:809-836 | a blob is reused exactly if the prior entry matches by size and digest and its linked file reads back so |
| SnapshotSave.ReasonToSkip | python-runtime/kernel.py:868-884 | a member is skipped exactly if it is live, its serialisation raises, or it exceeds 4 MiB or what is left of the total; a size reason names the total exactly if less than 4 MiB was left, and only size limits count as bounded |
| SnapshotSave.StoreValue | python-runtime/kernel.py:885-912 | admitting a value keeps the manifest, files and groups a description of what has been visited, and the reuse statistics the number and bytes of exactly the blobs reused |
| SnapshotSave.SaveSnapshot | python-runtime/kernel.py:839-929 | a visit is saved if and only if it is visible, not live, its serialisation ends and fits both limits beside the payloads saved before it, and every other visible one is skipped once for its own reason; the manifest counts exactly the blobs that the prior snapshot had, only an invalid checkpoint is refused, and no alias is missed while objects are kept alive |
| SnapshotSave.TallyExactly | python-runtime/kernel.py:863-912 | the admission of every prefix of the visits is that, told by the visits alone |
| SnapshotSave.SavedAsVisited | python-runtime/kernel.py:863-929 | so both lists of any manifest that describes the visits hold exactly these, in order |
| SnapshotSave.CountOneMore | python-runtime/kernel.py:893-903 | one more entry is counted as reused exactly if it is |
| SnapshotReuse.ReuseCandidates | python-runtime/kernel.py:421-458 | the candidates are exactly the names that one entry of the prior manifest alone has, with that entry's blob if it is usable |
| SnapshotLoss.ReusesUnchanged | python-runtime/kernel.py:893-896 | where links are possible, the next save reuses exactly the blobs of entries whose name, size and digest are unchanged |
| SnapshotSave.TallyTotal | python-runtime/kernel.py:871-912 | the running total is the sum of the admitted payloads |
| SnapshotSave.ColonFree | python-runtime/kernel.py:883 | no exception text and no live-object reason can be mistaken for a size limit when the validator recounts |
| SnapshotSave.RootsExtend | python-runtime/kernel.py:887-911 | under any reuse of addresses, a recorded group only ever joins entries of one object |
| SnapshotSave.RootsStayFull | python-runtime/kernel.py:887-911 | while admitted objects are kept alive, every alias of one is found by its address |
| SnapshotRestore.RestoreEntry | python-runtime/kernel.py:979-993 | one entry receives its group's value if there is one, otherwise its own load if that succeeds |
| SnapshotRestore.RestoreValidatedSnapshot | python-runtime/kernel.py:975-998 | names are bound to the value of their source entry, all others are untouched; an incomplete report gives no checkpoint and a complete one exactly the member its manifest has |
| SnapshotRestore.RestoreSnapshot | python-runtime/kernel.py:1001-1005 | the same for an arbitrary directory, which may be missing or corrupt |
| SnapshotRestore.GroupSharesOneValue | python-runtime/kernel.py:985-990 | all restored entries of a group share the value of its earliest unprotected loadable entry, and no two groups share one |
| SnapshotRestore.LostExactly | python-runtime/kernel.py:982-993 | an entry is lost exactly if it is protected or nothing of its group up to it loads |
| SnapshotRestore.BadGroupIsolated | python-runtime/kernel.py:663-674 | an entry with bad group metadata restores on its own, and the checkpoint of the whole snapshot is withheld |
| SnapshotRestore.ReportNamesDistinct | python-runtime/kernel.py:682-685 | no restore binds one name twice |
| SnapshotRoundTrip.SavedSnapshotValidates | python-runtime/kernel.py:839-929 | for any namespace, outcomes and reuse, what a save wrote validates completely if and only if its reuse statistics are within the attribution guard, and then every entry reads back |
| SnapshotRoundTrip.ReuseDecidesValidity | python-runtime/kernel.py:893-903 | the same decided before the save: by the number and bytes of the entries that the prior snapshot has |
| SnapshotRoundTrip.UnmixedReuseValidates | python-runtime/kernel.py:347-350 | with no blob or every blob reused a saved snapshot always validates |
| SnapshotRoundTrip.UnmixedCountsValidate | python-runtime/kernel.py:347-350 | the same told from the statistics |
| SnapshotRoundTrip.SaveAndRestore | python-runtime/kernel.py:839-998 | saving, validating and restoring end to end: the snapshot validates if and only if its manifest fits and the entries it may reuse are within the guard; then two admitted names are one object if and only if they were when visited, every other name is as before and the checkpoint is the one saved |
| SnapshotLoss.FifteenThenThirty | python-runtime/kernel.py:839-929 | the saver run on a concrete namespace of fifteen and then thirty equal values, reusing what it finds: if the first manifest fits, the first snapshot validates, and the second, with half of its blobs reused, does not |
| SnapshotLoss.HalfReusedRefused | python-runtime/kernel.py:361-362 | any save of thirty equal values of which half are reused is refused |
| SnapshotRoundTrip.AliasingPreserved | python-runtime/kernel.py:886-911 | given groups that miss no alias, after restore two admitted names are one object if and only if their values were one object when visited |
| SnapshotRoundTrip.ReadsEverything | python-runtime/kernel.py:710-732 | validating a saved snapshot reads back every admitted value, in order, with its group |
| SnapshotRoundTrip.ManifestVerdict | python-runtime/kernel.py:533-609 | a saved manifest passes every manifest check except possibly the attribution guard |
| SnapshotRoundTrip.TallyNames | python-runtime/kernel.py:863-912 | no name is both saved and skipped, or skipped twice |
| SnapshotPaths.NamesApart | python-runtime/kernel.py:846-847 | target, previous, temporary and configuration hold never coincide |
| SnapshotPaths.StaleNames | python-runtime/kernel.py:246-280 | cleanup touches temporaries and legacy leftovers but never the target, its previous or a hold |
| SnapshotPaths.PreviousLooksLegacy | python-runtime/kernel.py:252-264 | the previous directory matches the legacy pattern, so only the explicit exception spares it |
| SnapshotPublication.StepKeeps | python-runtime/kernel.py:933-972 | every single filesystem step, exception, crash and restart keeps the newest snapshot whole where startup looks for it and never lowers a generation |
| SnapshotPublication.RollbackKeeps | python-runtime/kernel.py:955-972 | rollback leaves the newest snapshot where startup looks for it and does nothing once the target is in place |
| SnapshotPublication.RollbackRestores | python-runtime/kernel.py:955-972 | a completed rollback puts back at the target the directory that was moved aside, the held configuration or the old snapshot, exactly if nothing is there, and changes nothing else |
| SnapshotPublication.StartupNeverGoesBack | python-runtime/kernel.py:755-807 | in every run startup would load the newest published generation, at least as new as the last save that returned, if and only if its manifest is one the validator accepts, and nothing otherwise |
| SnapshotPublication.StartupRestoresNewest | python-runtime/kernel.py:1050-1056 | the recovery decision, the cleanup after it and the restore together put exactly that generation, or nothing, into memory |
| SnapshotPublication.NewestIsStored | python-runtime/kernel.py:933-972 | the newest published directory is whole in the target or in its previous, accepted or not |
| SnapshotPublication.TwoSavesReturn | python-runtime/kernel.py:933-965 | two saves with any numbers of blobs and any verdicts can be published one after the other and return |
| SnapshotLoss.RefusedSnapshotLost | python-runtime/kernel.py:933-965 | with the blobs and verdicts of those two saves: startup would load the first when it has returned, and nothing when the second has |
| HistoryCensus.CollectHistoryMemory | python-runtime/_memory_diagnostics.py:31-72 | unless truncated, every count is the number, or the sum of the sizes, of the objects of its own kind among those reachable from the roots, cycles and sharing included; otherwise lower bounds; at most MAX_VALUES visits, and it gives up only at that limit or at the first turn past the deadline |
| HistoryCensus.TotalCounts | python-runtime/_memory_diagnostics.py:38-69 | the counts of any set of objects, summed object by object, are these field by field |
| HistoryCensus.NextKeeps | python-runtime/_memory_diagnostics.py:38-69 | taking the next value leaves every reachable object counted or still pending |
| HistoryCensus.WalkEnds | python-runtime/_memory_diagnostics.py:34-42 | with an empty stack the seen objects are exactly the reachable ones |
| HistoryCensus.ReachableSetExists | python-runtime/_memory_diagnostics.py:26-33 | there is a finite set of everything reachable, so exactness is never vacuous |
| ColdResidency.PressureBudget | python-runtime/_cold_residency.py:77-102 | a budget is granted exactly when all readings are there, some swap is left beyond the reserve, and headroom is small or the pressure high; it is then the largest within the pass limit, and each refusal has its own exact cause |
| ColdResidency.LookupExactly | python-runtime/_cold_residency.py:150-154 | a range is looked up as the last mapping of a sample with its bounds |
| ColdResidency.MappedExactly | python-runtime/_cold_residency.py:150-160 | a range may be advised exactly if that mapping is unlocked and resident, and be paged out exactly if it is also unreferenced |
| ColdResidency.ChooseMarkPlan | python-runtime/_cold_residency.py:135-143 | the mark plan holds only complete, resident, unlocked mappings within the budget, and passes over none that would still fit |
| ColdResidency.ChoosePageoutPlan | python-runtime/_cold_residency.py:150-160 | the pageout plan holds only marked ranges that stayed idle, within a new budget, and passes over none that would still fit |
| ColdResidency.ColdResidency.Start | python-runtime/_cold_residency.py:122-143 | a pass begins exactly if a budget is granted, the process is large enough and some mapping fits; its budget is the one its own sample granted |
| ColdResidency.ColdResidency.ChoosePageout | python-runtime/_cold_residency.py:145-160 | paging out begins exactly if a budget sampled afresh is granted and some marked range that stayed idle fits it |
| ColdResidency.ColdResidency.AdviseLoop | python-runtime/_cold_residency.py:176-208 | the loop advises less than a step and a chunk, keeps the pass consistent, moves on unless it stops, and advises nothing only if no range left is to be advised or a call fails |
| ColdResidency.ColdResidency.Step | python-runtime/_cold_residency.py:162-231 | every step keeps the pass valid, restarts only for a new token and advises only under its own sample and within its limits; unless the time runs out it advises a whole step or ends its phase, and a phase ends only for a cause it has |
| ColdResidency.AdvanceKeeps | python-runtime/_cold_residency.py:185-206 | each accepted chunk is justified: a page-out lies in a range marked throughout in the same pass and idle now, paged never exceeds marked, both stay within their budgets |
| ColdResidency.AdvanceExactly | python-runtime/_cold_residency.py:185-206 | the ranges taken as marked are exactly those of the plan whose last chunk was advised cold in this pass |
| ColdResidency.PhaseEnds | python-runtime/_cold_residency.py:176-214 | a step that stays in its phase leaves strictly less of the plan |
| ColdResidency.PhaseSteps | python-runtime/_cold_residency.py:176-214 | a phase takes at most as many steps as its budget has bytes |
| MimeHistory.MimeHistory.Discard | python-runtime/_mime_history.py:24-32 | removes exactly the one registration with that token and reference |
| MimeHistory.MimeHistory.Candidate | python-runtime/_mime_history.py:34-47 | answers an equal same-type value of the owner if there is one, and prunes only an owner that no longer holds the signature |
| MimeHistory.MimeHistory.Find | python-runtime/_mime_history.py:49-66 | whatever dies before the lookup or between its candidates, the answer is the first registered match that survives, and the value itself only if none does |
| MimeHistory.MimeHistory.Record | python-runtime/_mime_history.py:82-95 | no value changes type or content, each stored object existed before in the bundle or a registered record, under every key the object of a record registered before is used if an equal one survives, and no other live record loses a registration |
| MimeHistory.SharesPlainly | python-runtime/_mime_history.py:82-95 | whatever a signature is: a value equal to one that a fully registered record holds, and that stays alive, becomes an object such a record holds |
| MimeHistory.OldComesFirst | python-runtime/_mime_history.py:54-62 | the registrations that were there before a record come before its own, through every pruning |
| MimeHistory.FirstEarlier | python-runtime/_mime_history.py:61-65 | the first match after deaths and pruning is the first of the whole bucket that survives them |
| MimeHistory.AnswerShares | python-runtime/_mime_history.py:87-94 | an answer found in the middle of recording a bundle is right for the index as it was before |
| MimeHistory.FadedFurther | python-runtime/_mime_history.py:68-80 | deaths, late callbacks and pruning compose without losing a registration still in use |
| MimeHistory.DiscardedMembers | python-runtime/_mime_history.py:24-32 | a discard drops no other registration of any bucket |
| BackgroundJobs.StepKeeps | skills/background/src/harness_background/__init__.py:672-766 | every locked or lock-free step keeps the limits, the single writer of each directory and what the lock holder relies on, and only evolves records |
| BackgroundJobs.LimitsInEveryRun | skills/background/src/harness_background/__init__.py:522-541 | in every reachable state at most 32 jobs run, under distinct names and in distinct processes |
| BackgroundJobs.RunsOnlyWithRoom | skills/background/src/harness_background/__init__.py:522-541 | a job comes to run only in a step before which fewer than 32 ran and none under its name |
| BackgroundJobs.LaunchSucceeds | skills/background/src/harness_background/__init__.py:672-766 | with such room, a free lock and fresh ids a launch can complete, and then its job runs beside exactly those that ran before |
| BackgroundJobs.AdoptSucceeds | skills/background/src/harness_background/__init__.py:720-766 | so can the adoption of a live process that no unfinished job has |
| BackgroundJobs.StopSucceeds | skills/background/src/harness_background/__init__.py:924-936 | every running job can be stopped, and a stop that finds no record leaves one |
| BackgroundJobs.RemoveSucceeds | skills/background/src/harness_background/__init__.py:955-972 | every job can be removed, a running one after its process is dead, without a trace in any other |
| BackgroundJobs.ExitRecorded | skills/background/src/harness_background/supervisor.py:34-55 | a job without a record gets one from its live supervisor, or from its watcher once the process is dead, and nothing else changes |
| BackgroundJobs.NeverRunsAgain | skills/background/src/harness_background/__init__.py:469-482 | a job that has stopped running never runs again |
| BackgroundJobs.SupervisorOnlyExit | skills/background/src/harness_background/supervisor.py:34-55 | a supervisor writes only its own job's record, never while a stop is about to write it |
| BackgroundJobs.ReplacedExactly | skills/background/src/harness_background/__init__.py:924-936 | a record is replaced if and only if a stop of an adopted job writes over one published since it looked; no supervisor or watcher replaces one |
| BackgroundJobs.LaunchedWriteOnce | skills/background/src/harness_background/supervisor.py:109-174 | until removal a launched job keeps the first exit record it gets, in every interleaving |
| BackgroundJobs.AdoptedRecordReplaced | skills/background/src/harness_background/__init__.py:924-926 | a run in which an adopted job's record is replaced |
| ActorResultLifetime.StepKeeps | specification/ActorResultLifetime.tla:22-73 | every step keeps the batches contiguous, disjoint and in order on the canonical sequence, the gaps being what was released |
| ActorResultLifetime.OwnershipConserved | specification/ActorResultLifetime.tla:89-94 | a result is published if and only if it is in exactly one of pending, delivered and released |
| ActorResultLifetime.DeliveredOnce | specification/ActorResultLifetime.tla:92-94 | no result is delivered twice, in one batch or in two |
| ActorResultLifetime.DeliveryOrder | specification/ActorResultLifetime.tla:81-98 | results reach only their own run, after canonical commit and in canonical order, across batches too |
| ActorResultLifetime.StepOwnership | specification/ActorResultLifetime.tla:46-70 | only a settlement with no task and no flight releases, and then exactly what is pending |
| ActorResultLifetime.NeverRequeued | specification/ActorResultLifetime.tla:88-94 | a delivered or released result is never pending again and never changes its owner |
| ActorResultLifetime.SettledLeavesNothing | specification/ActorResultLifetime.tla:86-87 | when a run is over, everything committed has been delivered or released |
| ActorStream.StepKeeps | specification/ActorStream.tla:18-60 | every step keeps the invariant behind the properties below |
| ActorStream.SourcePrefix | specification/ActorStream.tla:61-62 | the committed content is a contiguous source prefix, frozen as it is |
| ActorStream.AdmittedInOrder | specification/ActorStream.tla:63-64 | calls are admitted at most once, in source order, only when committed, and while admission is possible all committed ones are |
| ActorStream.OpenAdmitsProved | specification/ActorStream.tla:65-67 | while the stream is open only proved native calls are admitted, with everything before them closed |
| ActorStream.MarkersExact | specification/ActorStream.tla:69-72 | native markers go exactly to the admitted calls with a proof |
| ActorStream.SuccessAdmitsAll | specification/ActorStream.tla:37-47 | a successful stream that has committed everything has admitted every call |
| ActorStream.RunExtends | specification/ActorStream.tla:41-50 | committed and admitted only ever grow, and not at all after a cancellation |
| SseReader.StepKeeps | specification/NativeSseAccounting.tla:26-77 | every step keeps: events so far, then the events of buffer and unread chunks, are the events of the whole stream |
| SseReader.CountsExact | specification/NativeSseAccounting.tla:79-82 | maintained byte counts equal a full recount in every state, limit decisions are those of a recount, and finished requests are released |
| SseReader.LimitDecided | specification/NativeSseAccounting.tla:60-72 | a check ends the request with the limit error if and only if what is pending exceeds the limit, and every line that is cut is checked |
| SseReader.LineOfStream | specification/NativeSseAccounting.tla:37-55 | a line cut from the buffer is the next line of the stream, given that a CR at its very end is held |
| SseReader.FinishedExactly | specification/NativeSseAccounting.tla:31-72 | a request that is not cancelled and does not reach its limit reports exactly the events of the whole stream up to the first bad one, however long the stream is |
| SseReader.FittingStreamCompletes | specification/NativeSseAccounting.tla:47-72 | a stream that fits into the limit as a whole never reaches it, however it is divided |
| SseReader.EventsBeginReference | specification/NativeSseAccounting.tla:37-72 | under any limit and cancellation the events reported begin the events of the whole stream |
| SseReader.ChunkingInvisible | specification/NativeSseAccounting.tla:31-57 | two requests with the same concatenated stream that do not reach their limits report the same, wherever the chunks divide it |
| SseReader.EventsComeBack | specification/NativeSseAccounting.tla:37-55 | events written as data lines with any one kind of line end are read back as they were |
| SseReader.WrittenEventsReported | specification/NativeSseAccounting.tla:31-72 | so a request that ends without error reports exactly the events that were written, in whatever chunks they came |
| SseReader.RequestAdvances | specification/NativeSseAccounting.tla:31-75 | every step of a request brings it nearer to its end |
| SseReader.RequestBounded | specification/NativeSseAccounting.tla:26-75 | a request ends within a number of steps fixed by the length of its stream and the number of its chunks |
| BackgroundCompletions.StepKeeps | specification/BackgroundCompletions.tla:23-51 | every step keeps bounded ownership, truthful handoff, visibility and the order of each owner's jobs |
| BackgroundCompletions.AdmittedPrefix | specification/BackgroundCompletions.tla:55-66 | each owner's admitted jobs are a prefix of its reserved jobs, none twice |
| BackgroundCompletions.HandoffInEveryRun | specification/BackgroundCompletions.tla:52-56 | dispatch is bounded, only reserved jobs of ready owners are handed over, and nothing is admitted before its owner's checkpoint |
| BackgroundCompletions.AdmissionNotBlocked | specification/BackgroundCompletions.tla:60-62 | a ready owner with a checkpoint can have a job admitted exactly while some reserved job of its is not |
| BackgroundCompletions.NeverReplayed | specification/BackgroundCompletions.tla:71-99 | however stale its read, the scan dispatches no sent job: a job's dispatches are its failures plus at most one |
| BackgroundCompletions.SentIsFinal | specification/BackgroundCompletions.tla:86-87 | a sent job stays sent and is never dispatched by a later step |
| DescendantTraversal.IndexEquivalent | specification/DescendantTraversal.tla:10-12 | the parent index yields the children a scan finds |
| DescendantTraversal.ReachClosed | specification/DescendantTraversal.tla:13-16 | expansion to the number of nodes is closed, cycles or not |
| DescendantTraversal.TraversalIsFinite | specification/DescendantTraversal.tla:33-34 | the traversal takes one step per visited node, at most as many as there are nodes, and visits no deleted one |
| DescendantTraversal.CountsDescendants | specification/DescendantTraversal.tla:35-36 | the frontier is empty exactly when the visited nodes are those bounded expansion reaches, and the count excludes the target |
| DescendantTraversal.VisitsDescendants | specification/DescendantTraversal.tla:13-35 | a finished traversal has visited a node if and only if a chain of existing children leads to it from the target |
| ColdHistoryAnchor.StepKeeps | specification/ColdHistoryAnchor.tla:67-103 | every append, checkpoint, summary, restart and rewind keeps summary and context right |
| ColdHistoryAnchor.FactsMatchFullRead | specification/ColdHistoryAnchor.tla:37-40 | restoring from a summary on the branch equals reading everything |
| ColdHistoryAnchor.ContextMatchesFullRead | specification/ColdHistoryAnchor.tla:107-110 | the context is the full read divided at the bookmark: all of it, nothing twice |

## Left out

- fsync and power loss: crashes fall between filesystem operations, and what an operation did stays done.
- The attributes of files, descriptors and `O_NOFOLLOW`: a directory is its listing, a file regular with a content or not.
- The texts inside per-entry error reports: each bad entry has one error of a kind instead of the joined reasons, and the key named in a shape error is not modelled.
- JSON decoding: the manifest arrives parsed or unreadable, with its size; floats are reals, finite or not.
- dill and SHA-256: a serialisation is an arbitrary byte sequence, divided into writes in any way, that ends or raises; a load succeeds or fails as the caller's predicate says.
- The census's lookup of its three roots in the history object, and their entry counts: the roots are given.
- Timings: durations, advice times and the deadline of the census are arbitrary inputs.
- A `KeyboardInterrupt` in the middle of a cold-residency step, which the source does not catch.
- `_linux_memory.collect` and `/proc/self/smaps`: every sample is an arbitrary value or a failed read.
- Threads in `MimeHistory`: the lock serialises its methods, so deaths and callbacks fall before a search and between its candidates; a record's weak reference never leads to a later object.
- Command validation, logs, status, wait and list of the background skill, and the signals themselves: a death may happen at any moment.
- Background job ids are never reused, and removing a job directory succeeds as a whole; a removal that stops half way is not modelled.
- The operations of the background skill and the renames of a save are steps of a state machine rather than methods, because their interleavings and crashes are what is proved; the order of statements inside one step is not visible.
- Polling loops of stop, launch and the watchers: a step is enabled once what they wait for holds, with no bound on the wait.
- The lookups and checks of one adopt or launch are one step, since the store can only lose running jobs between them.
- The exploration bounds of the TLA+ modules (two requests, two flights, one failure per job, at most two dispatches): the models have none.
- Liveness under fairness (`EventuallyDone`, `ScanEventuallyCompletes`): finiteness is proved by counting steps instead where there is a bound; eventual completion of the scan is not stated.
- The hook and freeze scenarios of `specification/ActorStream.tla`, the constant text identities, and all fault switches: each is a fixed list of a few statuses or twelve fixed nodes.
- The sources of the supervisor and the coordinator: not part of this model; the protocols are modelled as their TLA+ modules state them.
- The other kernel parts (protocol streams, display hooks, IPython), launchers, installers and the terminal client: input and output only.
- The other TLA+ modules, such as `HostFileEdit`, `LivenessScope` and `KernelColdStatus`: machines over a few flags, with no unbounded state.
