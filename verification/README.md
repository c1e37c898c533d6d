# Verified model of cfdi-vault

A Dafny model of the stateful core of cfdi-vault, the local vault that asks the Mexican tax authority
(SAT) for invoice metadata and XML, verifies its requests later, and keeps what it was given. Six parts
are modelled, each with the branches, edge cases, error paths and constants of the source:

- **Verification scheduler and request file** (`Clock`, `Iso`, `Text`, `Sorting`, `RequestState`,
  `VerifyScheduler`, `VerifyWorker`, `VerifyOrder`, `VerifyTheorems`, `VerifyHistory`, `VerifyOutcomes`). The file is
  the list of documents it stores; `Decode` and `Encode` are `from_document` and `to_document`. The verifier is an arbitrary function
  of everything that happened before, and may raise. Histories are any sequence of returning runs, at any
  times, mixed with newly accepted requests.
- **Credential setup** (`SetupProtocol`, `SetupService`). `SetupService` performs the file and provider
  effects one by one on a file system on which every operation may fail as its plan says, failed copies and
  writes leaving debris. Each method is proved to compute the value protocol of `SetupProtocol`, about which
  the theorems speak.
- **Recovery ledger** (`Reconciliation`, `RecoveryLedger`, `RecoveryService`, `RecoveryTheorems`,
  `RecoveryClashes`, `RecoverySpelling`, `RecoveryRows`, `RecoveryExamples`). Tables
  are maps under the unique keys of the schema. Sessions do not autoflush: queries see stored rows only, and
  an added row that repeats a key makes the flush fail and the transaction roll back, which is modelled by
  `clash`. So nothing is assumed about repeated or oddly spelled UUIDs.
- **Backfill and its gates** (`Domain`, `Backfill`, `BackfillSubmit`, `BackfillTheorems`, `LivePermit`,
  `Gates`, `BackfillCommand`). `BackfillCommand` is the submit command from its plan through permit, guard and
  adapter to the stored request.
- **Registry and packages** (`Registry`, `RegistryService`, `PackageNames`, `NameSpelling`, `PackageStores`,
  `PackageMembers`, `Packages`, `PackageHistory`, `PackageService`). Packages are processed on either store: the
  one in memory, and the local one, which makes folders, fails where a file is in the way, and compares digests.
- **Minimal PDF printer** (`Decimal`, `PdfText`, `Pdf`, `PdfLayout`, `PdfWriter`), with a reader written from
  sections 7.3.4.2, 7.3.8, 7.5.4 and 7.5.5 of ISO 32000-1:2008, and an interpreter of the operators for moves and
  fonts from its sections 9.3 and 9.4. The reader finds every object through the file's own offsets, references
  and lengths; within a dictionary it expects the keys in the order in which this printer writes them, and does
  not parse dictionaries in general.

Code that updates state is modelled by classes, fields and loops (`StateFile`, `Worker`, `Disk`,
`PendingImport`, `Provider`, `RecoveryStore`, `PermitFile`, `RequestRegistry`,
`DownloadRequestOrchestrator`, `MemoryPackageStorage`, `LocalStorage`, and the loop methods beside them),
each tied by its `ensures` to a function of the old state. The theorems are lemmas about those functions. For
every main operation one or more of them tell the result from fields and texts alone, without the functions that
compute it (`VerifyOutcomes`, `RecoveryRows`, `NameSpelling`, `ConsumeExactly`, `InstantsPartition`, `ResultTells`,
`CommandTells`).

SHA-256 is an abstract function. Where distinct inputs must have distinct digests, that is a hypothesis of
the lemma (`Injective`, `DigestsDiffer`); most results need none. The package theorems use that a digest is
hexadecimal and at least twelve digits long (`HexDigests`).

## What the proofs found

Where a promised property is false of the code, the project gives an input and states exactly when it holds.

- A *second* rollback can destroy the certificate that the first one restored, because the names of installed
  files are forgotten only when the staging folder goes (`src/cfdi_vault/setup_intake.py:81-104`, reached from
  line 62 and then from `src/cfdi_vault/setup_service.py:89`). `OldBytesSurviveExactly` gives the one family of
  runs in which this happens, `SecondRollbackCanDestroy` a concrete member. The key is never lost.
- On the local store, the one the command line uses, a package can fail after it was stored in part: when one
  member's name is a folder of another's, as in `a.txt` and `a.txt/b.txt` (`FileAndFolder`). `AtomicExactly`
  says when a failure leaves the store as it was, `ProcessIs` what the result is in every case, and
  `SameResultExactly` and `LocalAgreesExactly` when the local store answers and holds as the one in memory.
- `sat backfill submit` plans under the stored profile id but stores the request under the id that was typed,
  and ` default` loads the profile `default` (`SpacedProfileLoads`) and passes its permit
  (`IssuedPermitPasses`). If the two ids differ, the plan never advances and every accepted submit sends the
  same window: `MistypedProfileNeverAdvances`, `MistypedRepeatsOneWindow`, `MistypedSubmitsTwice`. If they are
  equal, `ResumableBackfill`.
- The tiling loop steps past the end of the calendar for ranges that end on the last day of the year 9999
  (`LastDayOverflows`), where a date overflows. `GeneratePeriods` states the exact condition, `InCalendar`.
- The policy's maximum age never counts for a stored record, because reading fills in an expiry:
  `StoredExpiryIgnoresPolicy`.
- Due records and stored records are sorted by stamps as text. A whole second is printed without a fraction
  and sorts behind the other instants of its second: `TextOrderVersusTime`, `InvertedStamps`. So the due list
  is in time order exactly when no two records fall into one second in that way (`DueInTimeOrderExactly`,
  `LaterIsVerifiedFirst`).
- The event table holds no direction. Read by tenant and UUID alone, a document's events form a chain
  exactly when it has rows in one direction only: `DirectionlessLogIsChainExactly`, `TwoDirections`.
- A session does not find the rows it has just added. So one new UUID listed twice in a metadata file loses the
  whole import, and a job fails in the same way: `BatchFailsExactly`, `StoringFailsExactly`, `CommittedExactly`,
  `NewUuidTwice`.
- XML storage upper-cases UUIDs and metadata upsert does not. A row whose XML was stored becomes
  `XML_DOWNLOADED` exactly when its UUID is spelled in upper case: `JobDownloadsExactly`,
  `ReconcileDownloadsExactly`, `LowerCaseRow`.
- The queue payload has no field for the recovery variant and drops empty texts:
  `HashSurvivesQueueExactly`, `VariantIsLost`, `EmptyStatusIsLost`.
- One range written with two UTC offsets has two criteria hashes: `OffsetChangesHash`.
- The command line can accept a range that the adapter or the permit refuses, if the two ends of the range have
  different UTC offsets: exactly when its end reads as a day before its start or it lasts more than seven days
  (`CliIsAdapterAndPermit`, `EndReadsEarlier`, `SevenLongDays`). The command line itself hands none to these
  functions today: `sat backfill submit` passes planner windows, which are in UTC (`src/cfdi_vault/cli.py:1061`,
  `WindowsPassAllGates`), and the two other callers pass stored periods and never the adapter at seven days
  (lines 1151 and 1208). So the difference concerns code that builds queries of its own.
- The adapter's range check alone is weaker than the command line's: `AdapterAloneIsWeaker`.
- Two criteria that are given one request id leave the first record unreachable by that id:
  `AgreementExactly`, `SharedId`.
- A member named `./C:.xml` is accepted under the name `C:.xml`, which would be rejected itself
  (`AcceptedAgainExactly`, `DriveBehindDot`), and where the empty suffix is allowed `.` is an accepted name
  (`AcceptedNameIsSafe`, `DotIsAccepted`).
- The PDF's cross-reference offsets do not depend on the text, so no bound on the file size is needed.

## Model

| member | source | states |
|---|---|---|
| Iso.RenderOrder | src/cfdi_vault/sat_live_request_state.py:415-416 | the printed stamps of any two instants a datetime can hold, from calendar to fraction, compare as texts in the order of a rank on instants |
| Iso.TextOrderVersusTime | src/cfdi_vault/sat_live_request_state.py:415-416 | of two instants the earlier one also has the smaller text, except exactly when it is a whole second and the later one lies within that second |
| Iso.FirstStamps | src/cfdi_vault/sat_live_request_state.py:415-416 | the printed texts of two concrete instants a microsecond apart, field by field |
| Iso.InvertedStamps | src/cfdi_vault/sat_live_request_state.py:415-416 | of these two the later one has the smaller text |
| Iso.CalendarIsGregorian | src/cfdi_vault/sat_live_request_state.py:415-416 | the printed date of every day is the one that the closed formula of the proleptic Gregorian calendar gives, leap years and month lengths included |
| RequestState.StatusRoundTrip | src/cfdi_vault/sat_live_request_state.py:434-438 | a status survives writing and reading exactly when it is one that reading can produce: legacy spellings are folded away and unknown ones are kept in stripped form |
| RequestState.ReadsAsScheduled | src/cfdi_vault/sat_live_request_state.py:434-438 | which texts read as scheduled: nothing, the status itself and the three legacy spellings, white space aside |
| RequestState.ReadsAsNamed | src/cfdi_vault/sat_live_request_state.py:434-438 | each other known status is read from its own name and from no other text |
| RequestState.DocumentRoundTrip | src/cfdi_vault/sat_live_request_state.py:114-186 | a record comes back from its document unchanged exactly when it is in normal form |
| RequestState.ReadingNormalizes | src/cfdi_vault/sat_live_request_state.py:148-186 | whatever a document holds, reading gives a normal form, and writing and reading again changes nothing more |
| RequestState.ReadingDefaults | src/cfdi_vault/sat_live_request_state.py:148-186 | what reading puts where a document says nothing, field by field: a first check five minutes and an expiry 72 hours after creation for a pending status, and empty values |
| RequestState.DecodeEncode | src/cfdi_vault/sat_live_request_state.py:394-412 | a written list of normalized records reads back as the same list |
| RequestState.UpsertMembers | src/cfdi_vault/sat_live_request_state.py:255-264 | after an upsert the list holds the new record, every old record of another reference as often as before, and nothing else |
| RequestState.UpsertKeepsInvariant | src/cfdi_vault/sat_live_request_state.py:255-264 | upsert keeps references unique and leaves the list in descending text order of creation stamps |
| RequestState.UpsertRefinesMap | src/cfdi_vault/sat_live_request_state.py:255-264 | seen as a map from references to records, an upsert is exactly one map update |
| RequestState.UpsertOverwrites | src/cfdi_vault/sat_live_request_state.py:255-264 | of two upserts of one reference the first leaves no trace, not even in the order of the list |
| RequestState.StateFile.List | src/cfdi_vault/sat_live_request_state.py:267-281 | listing changes nothing and returns normalized records only, all of them or the pending ones |
| RequestState.RereadUpsert | src/cfdi_vault/sat_live_request_state.py:255-264 | for any record, normalized or not, writing the upserted list and reading it back is upserting the record as it will be read |
| RequestState.StateFile.UpsertRecord | src/cfdi_vault/sat_live_request_state.py:255-264 | the read, filter, append, sort and write sequence leaves a file that reads back as the upsert of the record as it is read, and of the record itself if it is normalized |
| VerifyScheduler.LaterDelayBounds | src/cfdi_vault/sat_async_verify.py:55-72 | from the fourth attempt on the jittered delay stays between its two bounds, for every jitter digest |
| VerifyScheduler.StoredExpiryIgnoresPolicy | src/cfdi_vault/sat_async_verify.py:324-326 | any two policies give a record read from the file the same expiry; a document without one expires after the built-in age |
| VerifyScheduler.RescheduledIsLater | src/cfdi_vault/sat_async_verify.py:303-315 | a next check never lies past the expiry, and lies after now exactly when the delay is positive |
| VerifyScheduler.HandledShape | src/cfdi_vault/sat_async_verify.py:165-300 | for every verifier answer, handling keeps identity and expiry, counts one attempt exactly when the verifier was called, ends pending or terminal, and has a next check exactly when pending |
| VerifyWorker.Worker.VerifyOne | src/cfdi_vault/sat_async_verify.py:165-216 | the two writes around one verifier call leave the file and the visit log of one specified step |
| VerifyWorker.Worker.VerifySelected | src/cfdi_vault/sat_async_verify.py:138-147 | the loop handles each selected record once, in order, each in the state that the others left |
| VerifyWorker.Worker.RunVerifyDue | src/cfdi_vault/sat_async_verify.py:102-162 | the report counts the due and selected records of the old file, lists the handled ones and summarizes the new file, next verification included; a dry run lists the selected ones and changes nothing |
| VerifyWorker.DueMembers | src/cfdi_vault/sat_async_verify.py:318-321 | the due list holds exactly the records in scope that are due |
| VerifyOutcomes.RunSelects | src/cfdi_vault/sat_async_verify.py:117-122 | which records a run handles, told from their fields: of the profile, of the named request without white space, in one of three waiting statuses and due; and how many of them for any limit, negative ones included |
| VerifyOutcomes.AnswerDecidesStatus | src/cfdi_vault/sat_async_verify.py:219-271 | one condition per status on the actions, states and codes of the answer and the attempts made: the record gets the status exactly then |
| VerifyOutcomes.AnswerIsRecorded | src/cfdi_vault/sat_async_verify.py:219-271 | a finished answer replaces the package ids and their redacted forms, every other one keeps them; state, code and count are the answer's |
| VerifyOutcomes.AnswerLeavesKind | src/cfdi_vault/sat_async_verify.py:219-271 | which kind of error each answer leaves |
| VerifyOutcomes.ErrorIsRetried | src/cfdi_vault/sat_async_verify.py:274-300 | after an error the record waits again until its attempts are used up, and keeps all it knew from SAT |
| VerifyOutcomes.ClosedUnasked | src/cfdi_vault/sat_async_verify.py:173-196 | past its expiry, and otherwise without attempts left, a record is closed without a call and nothing else of it changes |
| VerifyOutcomes.NextCheckIs | src/cfdi_vault/sat_async_verify.py:55-72 | when a record that stays pending is due again, attempt by attempt: after the policy's delay for that attempt or at its expiry, whichever comes first |
| VerifyOutcomes.DefaultDelays | src/cfdi_vault/sat_async_verify.py:43-53 | the default policy in minutes |
| VerifyOutcomes.ReadyOnlyByOwnAnswer | src/cfdi_vault/sat_async_verify.py:165-271 | over any history a record becomes ready only by a finished answer to a call under its own id, and then holds exactly the package ids of that answer |
| VerifyOutcomes.SummaryCounts | src/cfdi_vault/sat_live_request_state.py:296-317 | the summary counts places by literal statuses: waiting, due, finished, failed and ready |
| VerifyOrder.DueBeforeIsTupleOrder | src/cfdi_vault/sat_async_verify.py:318-321 | the selection order is the order of the tuples of printed next check, printed creation and reference |
| VerifyOrder.NewerFirstIsTextOrder | src/cfdi_vault/sat_live_request_state.py:255-264 | the file order is the descending order of printed creation stamps |
| VerifyOrder.DueInTimeOrderExactly | src/cfdi_vault/sat_async_verify.py:318-321 | the due list is in time order exactly when no due record is due at a whole second and another one later in that second |
| VerifyOrder.LaterIsVerifiedFirst | src/cfdi_vault/sat_async_verify.py:318-321 | a record due at a whole second is listed behind one due a microsecond later |
| VerifyOrder.NextDueIsFirstText | src/cfdi_vault/sat_live_request_state.py:296-317 | the reported next verification is a pending record's check with the smallest text, and nothing exactly when there is none |
| VerifyTheorems.HandledIsSettled | src/cfdi_vault/sat_async_verify.py:219-315 | under positive delays a handled record is terminal without a next check, or pending with now < next check <= expiry; it is not due any more |
| VerifyTheorems.HandlingLowersMeasure | src/cfdi_vault/sat_async_verify.py:165-300 | handling a pending record strictly lowers a measure made of its remaining attempts and its being open |
| VerifyTheorems.ExpiredIsDueAndClosed | src/cfdi_vault/sat_async_verify.py:173-196 | a pending record at or past its expiry is due, and is closed as expired without a verifier call |
| VerifyTheorems.StepDue | src/cfdi_vault/sat_async_verify.py:318-321 | handling one due record takes exactly that record out of the due list of every scope that contains it |
| VerifyTheorems.VerifyAllMembers | src/cfdi_vault/sat_async_verify.py:138-147 | a run replaces exactly the selected records by their handled forms and keeps file and references well formed |
| VerifyTheorems.DueAfterPrefix | src/cfdi_vault/sat_async_verify.py:115-147 | after the first k due records were handled, the due list is exactly the rest, in the same order |
| VerifyTheorems.BatchEqualsSteps | src/cfdi_vault/sat_async_verify.py:115-147 | one run of limit n and n runs of limit one at the same instant leave the same file and make the same verifier calls |
| VerifyTheorems.RunPostcondition | src/cfdi_vault/sat_async_verify.py:102-162 | after any run each processed record is settled, no other record has changed, and the due count of the profile has fallen by exactly the processed count |
| VerifyTheorems.RunFrame | src/cfdi_vault/sat_async_verify.py:117-122 | a run leaves records of other profiles and records that are not pending exactly as they were |
| VerifyTheorems.RunAtExpiryDrains | src/cfdi_vault/sat_async_verify.py:173-196 | once all pending records of a scope are past expiry, one unlimited run closes them all and calls the verifier not once |
| VerifyHistory.HistoryProgress | src/cfdi_vault/sat_async_verify.py:165-300 | over any history a record's verifier calls equal the growth of its attempt count, each selection uses up its measure, and a closed record never changes again |
| VerifyHistory.FreshRequestIsBounded | src/cfdi_vault/sat_async_verify.py:165-300 | over any history a fresh request gets at most max_attempts verifier calls and one further selection, after which it is closed |
| VerifyHistory.HistoryInvariant | src/cfdi_vault/sat_live_request_state.py:207-264 | in every reachable file references are unique, records are in normal form and no pending record is scheduled past its expiry |
| SetupProtocol.SuccessIsComplete | src/cfdi_vault/setup_service.py:74-97 | setup succeeds exactly when every step it takes works, and then both files, the profile and the phrase are the new ones and no temporary file is left |
| SetupProtocol.OneRollbackKeepsOldBytes | src/cfdi_vault/setup_intake.py:75-104 | after one rollback from any point of the moves, whatever fails in it, the old bytes of a replaced file are at its final path or in its backup, and it counts as restored only with them at the final path |
| SetupProtocol.FolderRemovedOnlyWhenRestored | src/cfdi_vault/setup_intake.py:100-104 | the folder with the backups goes only when both files have their old bytes back |
| SetupProtocol.WorkingRollbackRestores | src/cfdi_vault/setup_intake.py:75-104 | if its steps work, one rollback from any point of the moves brings both files back, absent ones included |
| SetupProtocol.FailedCommit | src/cfdi_vault/setup_intake.py:42-65 | a failed commit stopped in the middle of the two moves, or rolled back once from there; it had installed the certificate before rolling back exactly when the key's install was what failed |
| SetupProtocol.FailureRestoresAll | src/cfdi_vault/setup_service.py:74-96 | for every step that may fail: if the compensation works, both files, the profile and the phrase are as before |
| SetupProtocol.FailureKeepsProfile | src/cfdi_vault/setup_service.py:74-96 | no failure, of whatever steps, ever changes the stored profile |
| SetupProtocol.PhraseAfterFailure | src/cfdi_vault/setup_service.py:88-96 | the phrase after any failed setup depends on the phrase steps alone, whatever becomes of the files |
| SetupProtocol.SecondRollback | src/cfdi_vault/setup_intake.py:75-104 | a second rollback loses a file's old bytes exactly when the first had used up the backup of an installed file and the second can unlink it |
| SetupProtocol.RollbackTwice | src/cfdi_vault/setup_intake.py:75-104 | after two rollbacks the key's old bytes survive always, and the certificate's except in that case |
| SetupProtocol.OldBytesSurviveExactly | src/cfdi_vault/setup_service.py:88-96 | after any failed setup, with faults anywhere, the old certificate is still on disk exactly when the run is outside one described family, and the old key always is |
| SetupProtocol.SecondRollbackCanDestroy | src/cfdi_vault/setup_intake.py:60-63 | a concrete plan of three failing operations after which the old certificate is nowhere |
| SetupService.PendingImport.Commit | src/cfdi_vault/setup_intake.py:42-65 | the moves on disk, with backups and remembered names, are the protocol's commit, and no other path is touched |
| SetupService.PendingImport.Rollback | src/cfdi_vault/setup_intake.py:75-104 | the unlink and restore loops on disk are the protocol's rollback, and no other path is touched |
| SetupService.PendingImport.Finalize | src/cfdi_vault/setup_intake.py:67-73 | dropping the folder is the protocol's finalize |
| SetupService.StageCopies | src/cfdi_vault/setup_intake.py:160-186 | in copied mode staging succeeds exactly when the folder can be cleared and both files can be copied; it hands over an import with the selected files' bytes, and touches nothing outside the staging folder either way |
| SetupService.Provider.Backup | src/cfdi_vault/setup_service.py:122-129 | the backup is the phrase that was stored, or none if there was none |
| SetupService.Provider.Restore | src/cfdi_vault/setup_service.py:132-148 | restoring puts a backed-up phrase back, or deletes the new one where the provider can |
| SetupService.TrySteps | src/cfdi_vault/setup_service.py:76-87 | the try block on disk and provider computes the protocol's |
| SetupService.CompensateFailure | src/cfdi_vault/setup_service.py:88-96 | the except block on disk and provider computes the protocol's |
| SetupService.RunSetup | src/cfdi_vault/setup_service.py:60-97 | in both credential modes: success installs the selected bytes, the phrase and a profile whose fingerprint is the digest of the installed certificate; failure keeps the profile, and with a working compensation also both files and the phrase; with any other, in copied mode, the old key is at its place or in its backup, and the old certificate exactly outside the one family of runs |
| Reconciliation.DecideFollowsEvidence | src/cfdi_vault/reconciliation.py:71-117 | which of the five states is decided, each by an if-and-only-if over evidence, cancellation, doubt and novelty, and exactly when XML or a status check is asked for, never both |
| RecoveryService.UpsertMetadata | src/cfdi_vault/recovery_service.py:669-802 | the loop leaves the session of entry-by-entry upserts and counts every entry |
| RecoveryService.StoreXmlPackage | src/cfdi_vault/recovery_service.py:804-938 | over the archive's names in order, skipping folders and other kinds, the session of storing each parsed member and their count; nothing but an error if one of them cannot be parsed |
| RecoveryService.StorePackages | src/cfdi_vault/recovery_service.py:480-483 | the packages of a job store the members of all of them in order, or fail together |
| RecoveryService.MembersTell | src/cfdi_vault/recovery_service.py:804-812 | which members of a package are stored, from the archive alone: those whose name ends in `.xml` in any letter case, each as often as listed, in text order; and a failure exactly if one of them cannot be parsed |
| RecoveryService.RecoveryStore.IngestMetadataFile | src/cfdi_vault/recovery_service.py:334-367 | one transaction: the upserted tables with the accepted and rejected counts, or the old tables if the query has errors or a key was repeated |
| RecoveryService.RecoveryStore.ProcessSatRequestJob | src/cfdi_vault/recovery_service.py:477-489 | upsert, flush and XML storage of all packages in one transaction; it succeeds exactly when no key is repeated and every member can be parsed, and otherwise leaves all tables as they were |
| RecoveryService.RecoveryStore.Reconcile | src/cfdi_vault/recovery_service.py:636-667 | every row of the tenant is reconciled once in some order; the returned count is the number of events appended, and earlier events stay |
| RecoveryTheorems.LedgerIsReplay | src/cfdi_vault/recovery_service.py:636-938 | in every reachable state each row's events start from no state, link without gaps or self-loops and end at the row's state, documents agree with the XML evidence, and a downloaded row has evidence |
| RecoveryTheorems.DownloadedStays | src/cfdi_vault/recovery_service.py:636-938 | no writer ever takes a row out of the downloaded state |
| RecoveryTheorems.ReconciledFollowsEvidence | src/cfdi_vault/recovery_service.py:644-653 | though it looks at the document only, reconcile calls a row downloaded exactly when evidence exists |
| RecoveryTheorems.ReconcileIsExactAndIdempotent | src/cfdi_vault/recovery_service.py:636-667 | after one reconcile listed rows are downloaded exactly when they have evidence, and a second one in any order changes nothing and logs nothing |
| RecoveryRows.IngestTells | src/cfdi_vault/recovery_service.py:669-802 | after an ingest of distinct UUIDs each listed row holds its entry and digest and the state that stored evidence, the folded new status in the literal word lists, the stored status and its presence before decide; documents likewise; all else is untouched |
| RecoveryRows.MetadataJobIsIngest | src/cfdi_vault/recovery_service.py:477-489 | a metadata job leaves what an ingest of its rows leaves |
| RecoveryRows.JobTells | src/cfdi_vault/recovery_service.py:477-489 | after a committed CFDI job of distinct UUIDs each listed row is as its entry says unless its XML was stored, each stored XML's document has the digest of the last member of its UUID, evidence grows by the members' own, and all else is untouched |
| RecoveryRows.ReconcileTells | src/cfdi_vault/recovery_service.py:636-667 | a reconcile changes nothing but states of the tenant's rows, and which state each of them gets, with and without evidence |
| RecoveryClashes.BatchFailsExactly | src/cfdi_vault/recovery_service.py:669-802 | a metadata batch fails exactly when it lists a UUID twice whose row, or for metadata requests whose document, is not stored yet |
| RecoveryClashes.StoringFailsExactly | src/cfdi_vault/recovery_service.py:804-938 | storing XML fails exactly when two members have one UUID, letter case aside, whose document is not stored yet, or the same bytes for it whose evidence is not |
| RecoveryClashes.CommittedExactly | src/cfdi_vault/recovery_service.py:477-489 | a CFDI job goes through exactly when neither its metadata nor its packages repeat what is new |
| RecoveryClashes.NewUuidTwice | src/cfdi_vault/recovery_service.py:334-367 | a file that lists one new UUID twice leaves the tables empty, whatever else it holds |
| RecoveryTheorems.DirectionlessLogIsChainExactly | src/cfdi_vault/recovery_service.py:652-665 | the events of a document, read without direction, form one chain exactly when it has rows in one direction only |
| RecoverySpelling.OnlyUpperCaseRowsDownload | src/cfdi_vault/recovery_service.py:804-938 | over any history a row that is downloaded has its UUID spelled in upper case |
| RecoverySpelling.StoredEvidenceExactly | src/cfdi_vault/recovery_service.py:804-938 | after a committed job a row of its tenant whose XML it stored, whatever the spelling, has evidence exactly when its UUID is spelled in upper case |
| RecoverySpelling.JobDownloadsExactly | src/cfdi_vault/recovery_service.py:804-938 | after any history and a committed job, a row of its tenant and direction whose XML it stored is downloaded exactly when its UUID is spelled in upper case |
| RecoverySpelling.ReconcileDownloadsExactly | src/cfdi_vault/recovery_service.py:636-667 | after a reconcile the same holds for the rows of both directions |
| RecoveryExamples.LowerCaseRow | src/cfdi_vault/recovery_service.py:804-938 | one job whose metadata spells a UUID in lower case: its XML is stored and its row is not downloaded |
| RecoveryExamples.TwoDirections | src/cfdi_vault/recovery_service.py:652-665 | one UUID in the metadata of both directions: its events are no chain |
| Domain.SortForgetsOrder | src/cfdi_vault/domain.py:151 | two receiver lists sort to the same list exactly when they hold the same values equally often |
| Domain.SameHashExactly | src/cfdi_vault/domain.py:141-160 | two queries share a criteria hash exactly when they mean the same: case of RFCs and UUID and order of receivers are ignored, multiplicity and the offsets of the period are not |
| Domain.OffsetChangesHash | src/cfdi_vault/domain.py:104-105 | any one day's range written in UTC and an hour east of it has two hashes |
| Domain.HashSurvivesQueueExactly | src/cfdi_vault/recovery_service.py:1019-1058 | a query keeps its criteria hash through the queue exactly when it has no recovery variant and no empty status, type or complement |
| Domain.QueueKeepsExactly | src/cfdi_vault/recovery_service.py:1019-1058 | a query comes out of the queue as it went in exactly when its RFC is in upper case, no optional text is empty and there is no recovery variant |
| Domain.VariantIsLost | src/cfdi_vault/recovery_service.py:1019-1058 | a query with a recovery variant comes out with another hash |
| Domain.EmptyStatusIsLost | src/cfdi_vault/recovery_service.py:1019-1058 | so does one with an empty status |
| Backfill.TileAt | src/cfdi_vault/sat_backfill.py:95-111 | the windows number the ceiling of days over step; the i-th starts i steps in and is a whole step long unless the range ends before |
| Backfill.TilesPartition | src/cfdi_vault/sat_backfill.py:95-111 | each day of the range lies in exactly one window and no window reaches outside |
| Backfill.WindowsAreContiguous | src/cfdi_vault/sat_backfill.py:95-111 | in instants: the first window starts with the first midnight, each next one in the microsecond after the one before, the last ends in the last microsecond of the last day, and every offset is UTC |
| Backfill.WindowsLast | src/cfdi_vault/sat_backfill.py:95-111 | every window but the last lasts a day or seven days to the microsecond, and the last one no longer |
| Backfill.InstantsPartition | src/cfdi_vault/sat_backfill.py:95-111 | every instant of the range falls into exactly one window, and no window holds any other instant |
| Backfill.WindowWords | src/cfdi_vault/sat_backfill.py:127-132 | which words name a window, and which length each names |
| Backfill.InCalendarExactly | src/cfdi_vault/sat_backfill.py:103-110 | the condition of the loop's success is that every date it computes lies within the calendar |
| Backfill.LastDayOverflows | src/cfdi_vault/sat_backfill.py:103-110 | it fails for every range that ends on the last day of the calendar, and holds for the day before it |
| Backfill.Generate | src/cfdi_vault/sat_backfill.py:100-111 | the loop yields the tiling exactly when the range stays clear of the end of the calendar, and overflows otherwise |
| Backfill.GeneratePeriods | src/cfdi_vault/sat_backfill.py:95-111 | which of tiling, wrong order, unknown window or overflow results, for every input |
| BackfillSubmit.ExistingByCriteria | src/cfdi_vault/sat_backfill.py:114-116 | the last stored record of the profile under each hash |
| BackfillSubmit.BuildBackfillPlan | src/cfdi_vault/sat_backfill.py:46-92 | the whole plan, window by window with its stored request, or the first of its errors |
| BackfillSubmit.PlannedWindowIs | src/cfdi_vault/sat_backfill.py:62-83 | what the i-th window asks for, field by field, and that it names the last record that the profile stored for the same criteria |
| BackfillSubmit.ExistingIsLast | src/cfdi_vault/sat_backfill.py:114-116 | the loop's map holds the last record of the profile per hash, and nothing without one |
| BackfillSubmit.NewRecordIsNormalized | src/cfdi_vault/sat_live_request_state.py:207-252 | a persisted request reads back as stored, is pending without attempts and is scheduled before its expiry |
| BackfillSubmit.NewRecordIs | src/cfdi_vault/sat_live_request_state.py:207-252 | a new record says what it was sent for, is verified under the stripped accepted id, first after five minutes, and expires after 72 hours |
| BackfillCommand.SatBackfillSubmit | src/cfdi_vault/cli.py:1030-1086 | plan errors, refusals of permit, guard and adapter in their order, the consumed permit and the stored record: outcome, file and permit of the specified command |
| BackfillCommand.CommandIsSubmit | src/cfdi_vault/cli.py:1050-1086 | on the file the command is one submit of the backfill loop whose reply the checks may deny |
| BackfillCommand.CommandTells | src/cfdi_vault/cli.py:1050-1086 | the effect of a command from the fields of its permit: the permit is spent exactly when it is for the first new window, and stays spent; a request is stored exactly if, besides, the other checks pass and SAT accepts it under an id; the two range checks never refuse |
| BackfillCommand.IssuedPermitPasses | src/cfdi_vault/cli.py:1056-1077 | with an unused, unexpired permit issued for the next window's own dates, no check of range or permit refuses, under any spelling that loads the profile: the request is stored exactly when it is accepted under an id |
| BackfillTheorems.HashesDiffer | src/cfdi_vault/sat_backfill.py:62-83 | different windows of one plan have different criteria hashes |
| BackfillTheorems.NewCountIs | src/cfdi_vault/sat_backfill.py:37-43 | the plan's count of new windows is the number of its hashes that the profile has not stored |
| BackfillTheorems.RunKeepsTaken | src/cfdi_vault/sat_async_verify.py:102-162 | a verification run changes neither the profile nor the criteria of any record |
| BackfillTheorems.StepAdvances | src/cfdi_vault/cli.py:2485-2500 | each submit or run adds at most one hash that the plan lists and the file did not hold, and the count of new windows falls by one exactly if the profile was typed as it is stored |
| BackfillTheorems.ResumableBackfill | src/cfdi_vault/cli.py:1050-1086 | over any history of submits and runs, new windows and accepted submits add up to the initial count, and no window is submitted twice |
| BackfillTheorems.SubmitsWhileNew | src/cfdi_vault/cli.py:1050-1086 | a submit goes through exactly when the plan has a new window and the reply is an acceptance with an id; otherwise nothing changes |
| BackfillTheorems.MistypedProfileNeverAdvances | src/cfdi_vault/cli.py:2485-2500 | with the profile typed differently, no history of accepted submits lowers the count of new windows |
| BackfillTheorems.MistypedRepeatsOneWindow | src/cfdi_vault/cli.py:2485-2500 | and all of them send one window, the first that was new |
| BackfillTheorems.MistypedSubmitsTwice | src/cfdi_vault/cli.py:2485-2500 | so two accepted submits in a row send it twice |
| LivePermit.SpacedProfileLoads | src/cfdi_vault/setup_core.py:122-128 | a typed id that differs from the stored one and loads the profile |
| LivePermit.CreatedPassesPolicyExactly | src/cfdi_vault/live_permit.py:359-432 | a created permit passes the separately written policy check exactly while unconsumed, unexpired and in the same checkout |
| LivePermit.CreateExactly | src/cfdi_vault/live_permit.py:359-400 | which requests get a permit, condition by condition, and what the permit says, field by field |
| LivePermit.CreateRefuses | src/cfdi_vault/live_permit.py:359-400 | for what reason every other request is refused |
| LivePermit.PolicyExactly | src/cfdi_vault/live_permit.py:402-432 | which stored documents pass the policy check, told from their fields |
| LivePermit.ConsumeExactly | src/cfdi_vault/live_permit.py:240-313 | an attempt is let through exactly when scope, loaded profile, kind, direction, both dates and the named envelope options agree and the document is sound, unused, unexpired and of this checkout; it is then marked as used and keeps the rest |
| LivePermit.RefusedField | src/cfdi_vault/live_permit.py:260-284 | which field a refusal names: the first that differs |
| LivePermit.RefusedState | src/cfdi_vault/live_permit.py:402-432 | refusals for the state of a document: used before expired before made elsewhere |
| LivePermit.AttemptsUseOnce | src/cfdi_vault/live_permit.py:240-313 | any sequence of attempts leaves the permit untouched or consumed once, and consumes it exactly if some attempt meets it |
| LivePermit.UsedByItsOwn | src/cfdi_vault/live_permit.py:240-313 | the one attempt of a sequence that used the permit had its scope, profile, kind, direction, dates and options, and came in time and from its checkout |
| LivePermit.ConsumableExactlyOnce | src/cfdi_vault/live_permit.py:181-313 | of any sequence of attempts on a created permit exactly one is let through if one meets it, and none otherwise |
| LivePermit.PermitFile.ValidateAndConsume | src/cfdi_vault/live_permit.py:240-313 | a refused attempt leaves the stored permit unchanged, an accepted one stores it as consumed at that time |
| Gates.AdapterAndPermitExactly | src/cfdi_vault/sat_live_smoke.py:803-819 | for every range, the adapter at seven days and the permit's date check together are the command line's check and two conditions more, and which of them refuses when one of these fails |
| Gates.HintTells | src/cfdi_vault/sat_live_smoke.py:803-819 | what the adapter says of each query that it refuses, and which it accepts, on the instants of the range |
| Gates.CliIsAdapterAndPermit | src/cfdi_vault/cli.py:2408-2413 | the command line agrees with the two together on every range, except exactly where it accepts one whose end reads as a day before its start or one of more than seven days |
| Gates.OneOffsetAgrees | src/cfdi_vault/cli.py:2408-2413 | they agree on every range whose two ends have one UTC offset |
| Gates.EndReadsEarlier | src/cfdi_vault/live_permit.py:467-473 | a range of a minute that passes the command line and the adapter and is refused a permit |
| Gates.SevenLongDays | src/cfdi_vault/sat_live_smoke.py:818-819 | a range of seven calendar days that passes the command line and the permit and is refused by the adapter |
| Gates.AdapterAloneIsWeaker | src/cfdi_vault/sat_live_smoke.py:803-819 | seven full days from noon to noon pass the adapter and not the command line |
| Gates.WindowPermit | src/cfdi_vault/live_permit.py:316-326 | for any window of up to seven days a permit for its own dates is granted and met by its own query until it expires |
| Gates.WindowsPassAllGates | src/cfdi_vault/cli.py:2408-2413 | every window that the planner can produce passes the command line, the adapter and the creation of a permit that it then meets |
| Registry.AppendUniqueMerges | src/cfdi_vault/sat_orchestration.py:231-238 | merging only appends, loses nothing, invents nothing and makes no duplicate |
| Registry.AppendUniqueConcat | src/cfdi_vault/sat_orchestration.py:231-238 | merging twice is merging the concatenation once |
| Registry.AppendUniqueAgain | src/cfdi_vault/sat_orchestration.py:231-238 | hearing known ids again changes nothing |
| Registry.IndexesAgree | src/cfdi_vault/sat_orchestration.py:62-108 | over any history every record found by request id is the one stored under its criteria |
| Registry.AgreementExactly | src/cfdi_vault/sat_orchestration.py:105-108 | the indexes agree both ways exactly when no two criteria were given the same request id |
| Registry.SharedId | src/cfdi_vault/sat_orchestration.py:105-108 | two tenants whose requests get one id: by it only the second record is found |
| Registry.SubmittedAtMostOnce | src/cfdi_vault/sat_orchestration.py:125-133 | over any history criteria are registered exactly when a submission of theirs was answered, and the requester is not called for them after that |
| Registry.RepeatExactly | src/cfdi_vault/sat_orchestration.py:125-133 | a second query goes without a call exactly when it means the same as the one just registered |
| Registry.PackageIdsAreDelivered | src/cfdi_vault/sat_orchestration.py:84-103 | over any history a record's package ids are those of its finished verifications, each once, in order of first appearance |
| Registry.PackageIdsExactly | src/cfdi_vault/sat_orchestration.py:84-103 | over any history an id is in a record exactly when some finished reply that the record took lists it |
| Registry.SubmitRegisters | src/cfdi_vault/sat_orchestration.py:65-79 | what a submission registers, field by field, and that it changes nothing if the key is known or the requester raises |
| Registry.PollRecords | src/cfdi_vault/sat_orchestration.py:135-146 | what a poll records, in both indexes, and that an unknown id or a raising verifier changes nothing |
| Registry.RecordsOnlyGrow | src/cfdi_vault/sat_orchestration.py:84-108 | no operation loses a record, changes its request or submission, or does anything to its package ids but append |
| RegistryService.MergePackageIds | src/cfdi_vault/sat_orchestration.py:231-238 | the loop with its set of seen ids returns the specified merge |
| RegistryService.RequestRegistry.RegisterSubmission | src/cfdi_vault/sat_orchestration.py:65-79 | a registered key keeps its record and its registry; a new one is stored in both indexes |
| RegistryService.RequestRegistry.RecordVerification | src/cfdi_vault/sat_orchestration.py:84-103 | an unknown id is an error that changes nothing; otherwise the outcome replaces the old one and ids are merged only when finished |
| RegistryService.DownloadRequestOrchestrator.SubmitOnce | src/cfdi_vault/sat_orchestration.py:125-133 | registry and call log of the specified submit; the result is the record stored under the criteria |
| RegistryService.DownloadRequestOrchestrator.PollOnce | src/cfdi_vault/sat_orchestration.py:135-146 | registry and call log of the specified poll; a failed one leaves the registry alone |
| PackageNames.AcceptedNameIsSafe | src/cfdi_vault/package_processor.py:162-175 | for any set of allowed suffixes an accepted name is relative, climbs nowhere, holds no reverse solidus and has an allowed suffix; it has no empty or `.` part exactly when the raw name has parts, and is `.` otherwise |
| PackageNames.DotIsAccepted | src/cfdi_vault/package_processor.py:170-175 | where the empty suffix is allowed, `.` is accepted |
| PackageNames.AcceptedAgainExactly | src/cfdi_vault/package_processor.py:162-175 | an accepted name passes validation again, unchanged, exactly when it does not begin with a drive letter |
| NameSpelling.RefusedNameExactly | src/cfdi_vault/package_processor.py:162-175 | which raw names are accepted and for which reason each other one is refused, told from its text: folder, reverse solidus, absolute path or drive, climbing component, suffix |
| NameSpelling.SuffixTells | src/cfdi_vault/package_processor.py:172-175 | the suffix of a normalised name is what stands behind the last dot of its last component, if something stands on both sides |
| PackageNames.DriveBehindDot | src/cfdi_vault/package_processor.py:168-175 | a concrete name that is accepted under a name that is rejected |
| PackageNames.SegmentIsStable | src/cfdi_vault/package_processor.py:178-182 | a key segment holds safe characters only and is its own segment |
| NameSpelling.CollapseTells | src/cfdi_vault/package_processor.py:178-179 | portable characters stay and every run of others becomes one dash |
| NameSpelling.SegmentTells | src/cfdi_vault/package_processor.py:178-182 | the segment is the collapsed text without the dots, dashes and underscores at its ends, and an error exactly if nothing else is left |
| PackageMembers.AcceptExactly | src/cfdi_vault/package_processor.py:121-136 | a ZIP is accepted exactly when each member is valid and readable and no two names agree in lower case; what is accepted is each member under its normalised name |
| PackageMembers.AcceptedAsListed | src/cfdi_vault/package_processor.py:121-136 | an accepted member has the bytes of its entry and a name of the same parts |
| PackageMembers.FirstRefused | src/cfdi_vault/package_processor.py:126-134 | a list is refused for its first unacceptable member, and for which reason |
| PackageMembers.SafeMembersAre | src/cfdi_vault/package_processor.py:121-136 | accepted members are the listed ones, in name order, with distinct normalised names |
| PackageStores.PathOfSlot | src/cfdi_vault/storage.py:109-117 | the key of a package or member leads to a file of its own below the root |
| PackageStores.BelowSlots | src/cfdi_vault/storage.py:97-99 | such a file lies in the folder of another only within one package, by their names |
| PackageStores.PutSlot | src/cfdi_vault/storage.py:89-107 | what one write does at every place of package processing, in either store: refused below or above a file, refused for other bytes, nothing for the same ones, and otherwise a change of that place alone |
| Packages.ReachExactly | src/cfdi_vault/storage.py:97-99 | the local store takes all members exactly when no name is a folder of another |
| Packages.ClashIsPrefix | src/cfdi_vault/storage.py:97-99 | among accepted names other than `.`, one is a folder of another exactly when it is a prefix of it up to a slash |
| Packages.DotClashes | src/cfdi_vault/storage.py:97-99 | the accepted name `.` is a folder of every other name |
| Packages.ProcessIs | src/cfdi_vault/package_processor.py:81-118 | on any reachable store, local or in memory, the result of a package is foretold by what is stored under its key; the store is unchanged exactly when the package is not acceptable or its key is taken |
| Packages.ResultTells | src/cfdi_vault/package_processor.py:94-118 | what a good result reports: for each member, in name order, its name, the digest and length of the very bytes stored under its key, its kind as a fact of the name's text, and whether the key was free before; and the same of the package |
| Packages.RefusedPackageExactly | src/cfdi_vault/package_processor.py:81-136 | for every package and store, whether processing succeeds and otherwise with which error, in the order of the checks |
| Packages.AtomicExactly | src/cfdi_vault/package_processor.py:81-118 | a failure leaves the store as it was, except exactly when the store is local and the package acceptable, new and nested |
| Packages.AcceptedIsStored | src/cfdi_vault/package_processor.py:81-118 | an accepted package is stored with all its members, each under a key of its own |
| PackageHistory.HistoryIsWhole | src/cfdi_vault/package_processor.py:81-118 | over any history, on either store, each stored package is the first acceptable one of its key and has all members that can be stored, and no member is stored without its package |
| PackageHistory.WriteOnce | src/cfdi_vault/package_processor.py:81-118 | over any history bytes under a key never change, on either store |
| PackageHistory.ResultIs | src/cfdi_vault/package_processor.py:81-118 | the result of any package after any history, from the first acceptable package of its key alone |
| PackageHistory.ReprocessChangesNothing | src/cfdi_vault/package_processor.py:81-118 | a package accepted once is accepted after any further history, writes nothing and gives the same result except for the written flags |
| PackageHistory.CollidesExactly | src/cfdi_vault/package_processor.py:90-94 | a package collides exactly when it is acceptable and the first acceptable package of its key had other bytes |
| PackageHistory.NoneCollidesExactly | src/cfdi_vault/package_processor.py:90-94 | no package of a history collides exactly when all its acceptable packages of one key have the same bytes |
| PackageHistory.NoCollision | src/cfdi_vault/package_processor.py:90-94 | in particular none does whose short digest tells it from those before it |
| PackageHistory.SameResultExactly | src/cfdi_vault/storage.py:89-107 | after any history a package has one result on disk and in memory, except exactly when it is acceptable, does not collide and is nested |
| PackageHistory.LocalAgreesExactly | src/cfdi_vault/storage.py:89-107 | after any history the local store holds at every place exactly what the memory store holds, exactly when no first package of any key is nested |
| PackageHistory.LocalRefinesMemory | src/cfdi_vault/storage.py:89-107 | in particular after any history without nested packages |
| PackageHistory.FileAndFolder | src/cfdi_vault/storage.py:97-99 | a ZIP of `a.txt` and `a.txt/b.txt` is accepted in memory, and fails on disk after its package was written |
| PackageService.MemoryPackageStorage.WriteBytesIdempotent | src/cfdi_vault/package_processor.py:70-78 | a key is written once; equal bytes are reported as not written, different ones are refused |
| PackageService.LocalStorage.WriteBytesIdempotent | src/cfdi_vault/storage.py:89-107 | folders are made or are in the way, digests are compared, a folder is no file; the reported size is that of the stored file |
| PackageService.CheckedMembers | src/cfdi_vault/package_processor.py:121-136 | the loop with its set of lower-case names returns the accepted members in name order, or the error of the first bad member |
| PackageService.KeysStayBelow | src/cfdi_vault/package_processor.py:90-98 | no key of an acceptable package has a part that climbs |
| PackageService.ProcessSatPackage | src/cfdi_vault/package_processor.py:81-118 | on either store, contents and result of the specified processing, error by error |
| Decimal.PadIsTenWide | src/cfdi_vault/recovery_service.py:1010 | a padded offset stands for the offset, and is ten digits wide exactly below ten to the tenth |
| PdfText.PassesAreEscape | src/cfdi_vault/recovery_service.py:986 | the three replace passes are one escape per character: none touches what an earlier one put in |
| PdfText.SplitEscaped | src/cfdi_vault/recovery_service.py:986-987 | splitting the escaped text gives the escaped lines of the text |
| PdfText.SplitTells | src/cfdi_vault/recovery_service.py:987 | the lines hold no line break and are glued by breaks to the text, a carriage return and a line feed being one break |
| PdfText.LiteralRoundTrip | src/cfdi_vault/recovery_service.py:992 | a literal-string reader recovers any line from its escape and stops behind its parenthesis |
| Pdf.StartXrefOf | src/cfdi_vault/recovery_service.py:1011 | the number before the end marker reads back as the offset that was written |
| Pdf.LocateLands | src/cfdi_vault/recovery_service.py:1002-1011 | whatever the objects are, a reader that goes from the end of the file to the table and any 20-byte entry lands on the first byte of that object, if offsets fit ten digits |
| Pdf.CrossReferences | src/cfdi_vault/recovery_service.py:994-1011 | for every text each of the five objects is where the table says |
| Pdf.StreamOfObject | src/cfdi_vault/recovery_service.py:1000 | `/Length` is the exact length of the stream, whatever bytes it holds |
| Pdf.StreamShows | src/cfdi_vault/recovery_service.py:988-993 | the content stream of some lines shows those lines, as Latin-1 can hold them |
| Pdf.PageTells | src/cfdi_vault/recovery_service.py:987-989 | the page shows the first 45 lines of the text, or one empty line |
| PdfLayout.StreamPlaces | src/cfdi_vault/recovery_service.py:988-993 | read as operators, the content stream shows line k at (50, 780 - 16 k) in font F1 of eleven points |
| PdfLayout.PageHasFont | src/cfdi_vault/recovery_service.py:994-1000 | the printed page is 612 by 792 and its font reference leads through the file to the font object |
| PdfLayout.LinesAreOnPage | src/cfdi_vault/recovery_service.py:988-996 | whatever the text, every shown line starts inside the page |
| Pdf.PageRoundTrip | src/cfdi_vault/recovery_service.py:981-1012 | for every text, following the file's own offsets, references and lengths leads to a page that shows the text's first 45 lines as Latin-1 can hold them |
| Pdf.TextSurvivesExactly | src/cfdi_vault/recovery_service.py:987-993 | a text comes back line by line exactly when it has one to 45 lines and all of them are Latin-1 |
| Pdf.Latin1RoundTrip | src/cfdi_vault/recovery_service.py:981-1012 | a Latin-1 text of any length shows its first 45 lines unchanged |
| PdfWriter.WriteMinimalPdf | src/cfdi_vault/recovery_service.py:981-1012 | the bytes the three loops build are the specified file, and they read back as the page |

## Left out

- SAT transport, authentication, SOAP envelopes, XML signing and parsing, RabbitMQ, Redis and Windows
  Credential Manager: foreign code behind the ports, here arbitrary answers.
- Printing, prompts, redaction of output and the typed guards of the command line before the plan is
  built: user interface.
- JSON, CSV and ZIP byte formats, and documents with missing or mistyped keys: a document is a record, a ZIP
  is a list of members with a flag for unreadable bytes, the scan for reverse solidi in raw headers is a
  parameter.
- Concurrent access to the state file, to a permit or to a store, and a process that dies between the
  in-progress write and the result write: runs return, and histories are sequential.
- I/O errors while saving request state, permits and packages: only setup is modelled with faults.
- Re-persisting a request id that is stored already: new requests carry references of their own.
- Unicode case folding and Unicode white space: `upper`, `lower` and `strip` are modelled on ASCII.
- Error kind and HTTP status taken from a raised exception, and the texts of messages: parameters.
- Time stamps, parties, amounts and search texts of ledger rows and documents: nothing depends on them.
- `DownloadQuery.validate`, `retry_action_for_state`, `MetadataFirstSatOrchestrator.run`: single passes of
  branches over port answers; they would only add easy members.
- Permit paths, the permit root outside the repository and the computation of the repository identity: the
  identity is a parameter.
- Symbolic links, reserved file names, name lengths and letter case of the file system below the local store.
- The guards before staging (`guard_credential_intake`, `discover_credentials`, `validate_rfc`), and provider
  errors that its caller does not catch: setup starts with selected files.
- Which names `rmtree` leaves behind when it ignores errors: any choice, as a parameter.
- RequestState.ReadingNormalizes: documents with missing or mistyped keys, which the source refuses, have no
  form in the model.
- RequestState.StateFile.UpsertRecord: stamps are instants, printed as the source prints them. A state file whose
  stamps are spelled otherwise, with `+00:00` for `Z`, keeps that spelling in the source and sorts by it.
- RequestState.StateFile.List: a file that cannot be read or parsed raises in the source; the model's file holds
  documents.
- PackageService.LocalStorage.WriteBytesIdempotent: keys with `..` parts are not modelled; `KeysStayBelow` shows
  that package processing builds none.
- Domain.SameHashExactly: a stamp is its wall clock and its offset; that `isoformat()` tells exactly these two
  apart is taken from the library.
- Gates.WindowsPassAllGates: calendar dates are day numbers with an abstract text form that reads back.
- PackageHistory.NoCollision: gives one direction; `CollidesExactly` and `NoneCollidesExactly` are the exact
  conditions.
- BackfillCommand.SatBackfillSubmit: the checks of profile, credentials, checkout and terminal are one flag.
