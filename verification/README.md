# Verification of openproject-nexgen-rs

A model in Dafny of the parts of openproject-nexgen-rs that hold algorithms or state machines, with proofs of what they
promise. `dafny verify dfyconfig.toml` checks all of it.

**Jobs** (`Jobs.dfy`, `JobQueue.dfy`, `JobSystem.dfy`, sums in `Totals.dfy`, the time type in `Clock.dfy`). The job
record and its status machine; the in-memory queue as a class over a map of jobs; the worker. A job is a value because
the code clones it out of the map and clones it back. `JobSystem` lets any number of workers interleave: a worker holds
its copy from `dequeue` to `update`, and enqueue, retry_dead, clear_completed, delete and the clock may step in between.
The clock may even run backwards: no property needs it to be monotone. The iteration order of the hash map is left open.
Handler answers are a parameter. The backoff is computed in wrapping 64-bit arithmetic, as an optimised build does.

**SQL** (`Sql*.dfy`, `Strings.dfy`). The printers of WHERE and ORDER BY clauses, and independently a reader: a lexer
that works a character at a time, a parser for conditions joined by AND and OR, LIKE patterns, three-valued logic and
the placing of NULLs, after ISO/IEC 9075-2 (section 5.3 `<literal>`, sections 8.2 to 8.8 on predicates), with
PostgreSQL's ILIKE folding, its defaults for NULLS FIRST/LAST and standard_conforming_strings on. How a column value
compares with an operand and how characters fold are parameters, so the theorems hold for every database.

**Journals** (`JournalData.dfy`, `Journals.dfy`, `JournalHistory.dfy`). Snapshots and diffs; the store and the service
as classes; runs of sequential calls in which an entity is created only when it has no history. The events given to
handlers are a list on the service. The type discriminator of a snapshot takes no part in a diff, so an update that
changes nothing else is suppressed; the model follows the code in this.

**Projection** (`Projection.dfy`, `Texts.dfy`, `Canonical.dfy`). The passes over the triples, each a method; the schema
as a function of the set of facts; the lowering to the schema tree. A comment in the code says characters outside ASCII
pass through the capitalisation unchanged, but the code upper-cases them; the model follows the code and takes the
upper-casing of a character, which may give several, as a parameter.

**Attachments** (`Storage.dfy`, `Attachments.dfy`, `AttachmentRuns.dfy`). Blob storage, record store and service as
classes; runs with fresh UUIDs, whose steps are those the methods of the service ensure (`Performed`). Digest, MIME
guessing and path parsing are parameters; the UUID and the time of a call are passed in.

**Smaller pieces**: paging and its links (`Paging.dfy`), cookies (`Cookies.dfy`), the session store (`Sessions.dfy`),
the order of columns (`Columns.dfy`), canonical value lists (`Canonical.dfy`).

Some promises hold only under a condition, and then the exact condition is proved: the backoff beyond 57 retries
(`BackoffExactIff`, `BackoffIsExponential`); Equals and NotEquals filters without values, which print `IN ()`, and dates
with a quote in them, which are printed unescaped (`WhereClauseMeansFilters`, with `DateReadAsTwoConditions` and
`DateReadAsAlternative` as inputs that fail); reversing a sort order without any supported criterion
(`ReversalIsConverseIff`); deleting a job that a worker holds (`DeletionIsFinalIff`); creating an entity that has a
history (`CreationKeepsVersionsIff`); page counts at limits below 1 and at offsets that are no multiple of the limit
(`HasNextMatchesPagesIff`); pages of size 0 (`PageRoundTrip`); and cookie names and values with separators or white
space at their ends (`ExtractFromBuiltIff`).

## Model

| member | source | states |
|---|---|---|
| `Jobs.BuiltJob` | crates/op-notifications/src/jobs.rs:94-137 | a new job waits in the default queue at normal priority, may be retried three times and is due at once; the builders set what they are named for, in any order |
| `Jobs.BackoffExactIff` | crates/op-notifications/src/jobs.rs:174-176 | the delay computed in wrapping 64-bit arithmetic is 2^retries minutes if and only if retries is at most 57 |
| `Jobs.BackoffCollapses` | crates/op-notifications/src/jobs.rs:174-176 | the input that shows the promise failing beyond the bound: the 62nd delay is 0 seconds |
| `Jobs.FailureSchedules` | crates/op-notifications/src/jobs.rs:167-180 | a failing job that may retry is put off, counting this failure, and by exactly 2^retries minutes if and only if that is at most its 57th retry; any other dies with its schedule and count unchanged |
| `JobQueue.DequeueMeans` | crates/op-notifications/src/jobs.rs:142-291 | in terms of the jobs' fields, exactly when a dequeue may take a job: it was waiting in that queue, its time had come, Pending jobs go first and no more urgent one stays behind; and exactly when it may take none: every waiting job of the queue has a time still to come |
| `JobQueue.MemoryJobQueue.Dequeue` | crates/op-notifications/src/jobs.rs:250-291 | the two searches, in that order, do exactly that to the map and leave the choice between equals open |
| `JobQueue.MemoryJobQueue.BestPending` | crates/op-notifications/src/jobs.rs:253-262 | the job found is due, pending and of highest priority among those, and none is found only if there is none |
| `JobQueue.RevivalMeans` | crates/op-notifications/src/jobs.rs:324-339 | in the queue the jobs with status Dead become Pending with no retries, no error and no time; all others, completed ones too, stay as they are |
| `JobQueue.MemoryJobQueue.RetryDead` | crates/op-notifications/src/jobs.rs:324-339 | the loop does that in place, and returns the number of the dead jobs |
| `JobQueue.RevivingMakesWork` | crates/op-notifications/src/jobs.rs:324-339 | after a revival no job of the queue is dead, and if there was one the queue has work that is due at any time |
| `JobQueue.ClearingMeans` | crates/op-notifications/src/jobs.rs:341-355 | what goes is the completed jobs of the queue |
| `JobQueue.MemoryJobQueue.ClearCompleted` | crates/op-notifications/src/jobs.rs:341-355 | exactly the completed jobs of the queue go, and their number is returned |
| `JobQueue.JobWorker.ProcessOne` | crates/op-notifications/src/jobs.rs:386-414 | a round settles one job that dequeue may hand out, by the answer of its handler or as an unknown type, and otherwise changes nothing and finds nothing due |
| `JobQueue.RoundMeans` | crates/op-notifications/src/jobs.rs:386-414 | a round takes a waiting job of the queue whose time had come; it completes only if its handler is registered and succeeds, otherwise it has the error and waits for its next retry or is dead; no other job is touched |
| `JobQueue.ProcessingCosts` | crates/op-notifications/src/jobs.rs:386-414 | a round that processed something lowers the budget of its queue, loses no job and leaves the other queues alone |
| `JobQueue.JobWorker.RunUntilIdle` | crates/op-notifications/src/jobs.rs:417-438 | left alone, the worker loop is idle after at most as many rounds as the queue has budget; then every job of the queue that is due is Completed or Dead, none is lost and other queues are untouched |
| `JobSystem.MutualExclusion` | crates/op-notifications/src/jobs.rs:250-297 | in every state of every interleaving of workers, enqueues, revivals, clearings and deletions no two workers hold the same job, and a stored job is Running if and only if someone holds it |
| `JobSystem.HeldIffRunning` | crates/op-notifications/src/jobs.rs:250-302 | without deletions the ids in the hands of workers are exactly the ids stored as Running |
| `JobSystem.NoLostUpdate` | crates/op-notifications/src/jobs.rs:293-297 | a write-back replaces nothing but the very copy that was handed out |
| `JobSystem.DeletionIsFinalIff` | crates/op-notifications/src/jobs.rs:293-302 | a deleted id stays absent in every continuation if and only if it was enqueued and nobody holds its job at that moment; a worker that does writes it back |
| `JobSystem.RetryAccounting` | crates/op-notifications/src/jobs.rs:155-180 | in every run, counting since enqueue or revival: Pending jobs were never handed out, Retrying ones `retries` times, Running and Completed ones `retries + 1` times, Dead ones `max_retries + 1` times; nobody gets more, and Failed is unreachable |
| `JobSystem.BackoffIsExponential` | crates/op-notifications/src/jobs.rs:167-180 | in every run a waiting job is due exactly 2^retries minutes after it failed if and only if it waits for at most its 57th retry |
| `JobSystem.RetriesAreOnTime` | crates/op-notifications/src/jobs.rs:167-291 | in every run a job waiting for one of its first 57 retries is not taken before 2^retries minutes after its failure, and from then on no dequeue of its queue comes back empty while it waits |
| `JobSystem.DueRetryMayBeTaken` | crates/op-notifications/src/jobs.rs:275-288 | and from then on any idle worker may take it, once no Pending job of the queue could be taken instead |
| `JobSystem.DrainTerminates` | crates/op-notifications/src/jobs.rs:386-414 | without enqueues and revivals any number of workers, interleaved in any way, take at most the sum of `max_retries - retries + 1` over the Pending and Retrying jobs of the queue |
| `JobSystem.IdleMeansDone` | crates/op-notifications/src/jobs.rs:250-291 | when nobody holds a job of the queue and a dequeue comes back empty, every job that is due is Completed or Dead |
| `JobSystem.NoJobLost` | crates/op-notifications/src/jobs.rs:237-355 | a job that was enqueued and is gone was deleted, or was cleared when it had completed |
| `JobSystem.StepChanges` | crates/op-notifications/src/jobs.rs:237-414 | what each kind of step does to each stored job, field by field, and which it removes |
| `JobSystem.StepAdds` | crates/op-notifications/src/jobs.rs:237-414 | a job comes into the store as it was enqueued, or back from the worker that holds it |
| `JobSystem.RoundIsThreeSteps` | crates/op-notifications/src/jobs.rs:386-414 | a whole round of the worker is a dequeue, the passing of time and a write-back of the interleaving system |
| `SqlLexer.LexSplit` | crates/op-db/src/query_executor.rs:138 | reading SQL text is compositional at spaces and punctuation, so each emitted piece can be read on its own |
| `SqlLexer.LexQuoted` | crates/op-db/src/query_executor.rs:439-441 | an escaped text in quotes reads back as one literal holding exactly that text |
| `SqlLexer.UnescapedIsMisread` | crates/op-db/src/query_executor.rs:322-323 | a text with a quote in it, quoted without escaping as dates are, is never the first literal read, whatever stands after it |
| `SqlLexer.UnescapedLiteralIff` | crates/op-db/src/query_executor.rs:322-323 | a text quoted without escaping reads back as itself if and only if it has no quote |
| `SqlLike.ReplacementsAreIndependent` | crates/op-db/src/query_executor.rs:444-449 | the successive replacements equal one escape per character: none escapes what another introduced |
| `SqlLike.PatternReadsBack` | crates/op-db/src/query_executor.rs:166-193 | decoded first as a literal and then as a pattern, what is emitted is the wildcards around the very search text |
| `SqlLike.SearchMeansSearch` | crates/op-db/src/query_executor.rs:166-193 | for every search text and column text the emitted pattern matches iff the column contains it, starts with it, ends with it, up to folding |
| `SqlFilters.BuildWhereClause` | crates/op-db/src/query_executor.rs:123-139 | the loop collects the conditions of the filters that produce one, in order, joined by AND |
| `SqlFilters.IntendedMeansPasses` | crates/op-db/src/query_executor.rs:141-251 | under three-valued logic the conditions intended for a filter are all true exactly for the rows that pass it |
| `SqlFilters.EqualsMeans` | crates/op-db/src/query_executor.rs:146-153 | what each kind of value means to an Equals filter: one of the values given, the current user for Me, or nothing |
| `SqlConditions.ProducesIffTakesPart` | crates/op-db/src/query_executor.rs:141-251 | a condition is produced exactly for known attributes with values that fit the operator |
| `SqlConditions.ValueDenotes` | crates/op-db/src/query_executor.rs:315-334 | a printed value reads back as the operand it stands for, numbers by value, if and only if it is not a date with a quote in it |
| `SqlDates.EveryFilterSays` | crates/op-db/src/query_executor.rs:141-251 | a printed condition parses, in any context, to the conditions intended (or, for an Equals or NotEquals filter without values, to a syntax error) if and only if no date it prints has a quote in it; otherwise no context makes it read as intended |
| `SqlColumns.FilterComparesItsColumn` | crates/op-db/src/query_executor.rs:276-313 | the clause of an Equals filter compares the column of work packages of the attribute's own name, or the column of a joined table that the attribute is composed of; an attribute that names none gives no clause |
| `SqlColumns.DistinctAttributesDistinctClauses` | crates/op-db/src/query_executor.rs:276-313 | filters on different attributes never compare the same column |
| `SqlWhere.WhereClauseMeansFilters` | crates/op-db/src/query_executor.rs:123-251 | for every list of filters, the whole rendered text is read as the conditions intended if and only if every Equals and NotEquals filter has a value and no printed date has a quote in it; then it keeps exactly the rows that pass every filter that takes part, all rows if none does; and without quotes only a filter that lacks values makes it a syntax error |
| `SqlWhere.DateReadAsTwoConditions` | crates/op-db/src/query_executor.rs:322-323 | the input that shows the promise failing for a date with quotes: one filter is read as two conditions |
| `SqlWhere.DateReadAsAlternative` | crates/op-db/src/query_executor.rs:322-323 | the input that shows it failing the other way: a filter for a due date keeps rows that have none, through an alternative that its date brings in |
| `SqlWhere.NullFailsAllButIsNull` | crates/op-db/src/query_executor.rs:141-251 | the rendered clause of one filter that has its values and dates without quotes keeps a row whose column is NULL if and only if the operator is IsNull |
| `SqlOrder.OrderClauseReadsBack` | crates/op-db/src/query_executor.rs:362-395 | the clause reads back as one key for each supported criterion in order, or as the default |
| `SqlColumns.CriterionSortsByItsColumn` | crates/op-db/src/query_executor.rs:337-359 | a criterion sorts by the column its attribute names: its own, a reference to it, or the position of a joined table |
| `SqlOrder.OrderIsTotalPreorder` | crates/op-db/src/query_executor.rs:362-395 | the ordering of rows it denotes is total and transitive, with NULL greatest on every column |
| `SqlOrder.ReversalIsConverseIff` | crates/op-queries/src/sorts.rs:36-76 | reversing all criteria denotes exactly the converse ordering if and only if some criterion is supported |
| `SqlOrder.UnsupportedCriteriaVanish` | crates/op-db/src/query_executor.rs:367-378 | criteria on unsupported attributes do not influence the clause |
| `JournalData.Compute` | crates/op-journals/src/journal_data.rs:140-168 | lists what happened to each property, once, and nothing else, in whatever order the maps are iterated |
| `JournalData.DiffTells` | crates/op-journals/src/journal_data.rs:140-168 | a diff mentions the properties whose value differs, with both values, and says rightly whether each was changed, added or removed |
| `JournalData.ApplyDiff` | crates/op-journals/src/journal_data.rs:140-168 | applying a diff to the old fields gives the new ones |
| `JournalData.InverseIsDiff` | crates/op-journals/src/journal_data.rs:198-228 | swapping the sides of every change gives a diff the other way, which undoes it |
| `JournalData.DiffIsUnique` | crates/op-journals/src/journal_data.rs:140-168 | two diffs of the same snapshots have the same changes |
| `JournalData.DiffIsMinimal` | crates/op-journals/src/journal_data.rs:140-168 | no list of changes with the same effect is shorter or mentions fewer properties |
| `JournalData.EmptyIffEqual` | crates/op-journals/src/journal_data.rs:130-168 | a diff is empty if and only if the fields are equal |
| `Journals.MemoryJournalStore.GetLatest` | crates/op-journals/src/journal_service.rs:310-321 | the latest entry of the entity's history |
| `JournalHistory.LatestIsHighest` | crates/op-journals/src/journal_service.rs:310-321 | the latest entry is the one of highest version, and of several such the last inserted |
| `Journals.MemoryJournalStore.DeleteForEntity` | crates/op-journals/src/journal_service.rs:342-352 | exactly the entries about the entity go, and their number is returned |
| `Journals.JournalService.RecordCreation` | crates/op-journals/src/journal_service.rs:108-135 | one entry of version 1 and one event without diff, with the next id |
| `Journals.JournalService.RecordUpdate` | crates/op-journals/src/journal_service.rs:138-189 | creation when there is no history; nothing when the fields are the same and there are no notes; else the next version, with an event that carries the diff |
| `Journals.JournalService.GetDiff` | crates/op-journals/src/journal_service.rs:206-238 | a diff of the snapshots of the two versions, or the error for the version or snapshot that is missing |
| `JournalHistory.VersionsAreConsecutive` | crates/op-journals/src/journal_service.rs:138-189 | in every run each history has versions 1 to n in order, ids are distinct, and the latest entry is the last recorded |
| `JournalHistory.OtherHistoriesUntouched` | crates/op-journals/src/journal_service.rs:278-352 | calls about one entity leave the history of every other as it is |
| `JournalHistory.UpdateStoresSubmittedFields` | crates/op-journals/src/journal_service.rs:138-189 | after every update the latest fields are those submitted, recorded or suppressed, and it is suppressed exactly when the fields are unchanged and there are no notes |
| `JournalHistory.VersionReadsBack` | crates/op-journals/src/journal_service.rs:108-238 | in every run, what a call recorded, with its user, notes and time, is read under its version ever after, until the entity is deleted |
| `JournalHistory.CreationKeepsVersionsIff` | crates/op-journals/src/journal_service.rs:108-124 | a creation keeps the versions consecutive if and only if the entity had no history |
| `JournalHistory.ReplayRebuildsState` | crates/op-journals/src/journal_service.rs:108-238 | in every run, applying the emitted diffs of versions a+1 to b to the fields at a gives the fields at b, and so does the answer of `get_diff` |
| `JournalHistory.DiffsWereEmitted` | crates/op-journals/src/journal_service.rs:175-186 | the diffs that replay needs were all emitted |
| `JournalHistory.DiffFailsIffMissing` | crates/op-journals/src/journal_service.rs:206-238 | `get_diff` fails exactly for versions that are not stored, naming the first |
| `Projection.SnakeToPascal` | crates/op-codegen-projection/src/lib.rs:166-176 | the loop computes the capitalised concatenation of the words |
| `Projection.PascalOfWords` | crates/op-codegen-projection/src/lib.rs:166-176 | words without underscore, joined by underscores, become their capitalised concatenation |
| `Projection.PascalIsPascalForm` | crates/op-codegen-projection/src/lib.rs:166-176 | read a character at a time: underscores vanish, the character at the start or after one is put in upper case, all others stay |
| `Projection.Project` | crates/op-codegen-projection/src/lib.rs:233-332 | the three passes compute the declarative schema of the set of facts, and decompiling gives the very triples back |
| `Projection.ProjectionMeans` | crates/op-codegen-projection/src/lib.rs:145-326 | in terms of the triples and their namespace: which tables and fields exist, which are required, that all are strictly sorted, and that a field is anything unless its name ends in `_id`, a link to the table whose name is the Pascal form of the rest if there is one, and else a number |
| `Projection.OrderAndTruthDoNotMatter` | crates/op-codegen-projection/src/lib.rs:233-326 | the tables depend only on which (s, p, o) occur |
| `Projection.RecordsPointToTables` | crates/op-codegen-projection/src/lib.rs:145-159 | every record link names a table of the same projection |
| `Projection.MoreTriplesOnlyAdd` | crates/op-codegen-projection/src/lib.rs:268-326 | adding triples removes no table and no field, makes nothing optional, and changes a kind at most from Int to Record |
| `Projection.BuildAstSchema` | crates/op-codegen-projection/src/lib.rs:389-414 | the lowering keeps tables and fields in order, optional unless required, with an index for each indexable field |
| `Projection.LoweringIsInjective` | crates/op-codegen-projection/src/lib.rs:389-428 | the schema tree determines the tables it was lowered from: names, order, kinds and requiredness are all kept apart |
| `Projection.IndexedIffIdField` | crates/op-codegen-projection/src/lib.rs:389-437 | an index, named after table and field, stands under a table exactly for its fields whose names end in `_id` |
| `AttachmentRuns.UploadIsAcceptedIff` | crates/op-attachments/src/service.rs:256-276 | an upload is turned down for its size, or else for its type, given or guessed, when that is blocked or not among those allowed |
| `Attachments.AttachmentService.Create` | crates/op-attachments/src/service.rs:249-312 | too large or not allowed, in that order, changes nothing; else one record and one blob that describe each other |
| `AttachmentRuns.UploadsAreRecordedAsRequested` | crates/op-attachments/src/service.rs:249-312 | the one new record has the name, author, description and container submitted, size, digest and type of the bytes, a key made of the UUID and the extension, and that key holds the bytes; all else stays |
| `AttachmentRuns.UploadComesBack` | crates/op-attachments/src/service.rs:249-363 | the id given to an accepted upload finds its record, with the name and description submitted and the very bytes sent |
| `Attachments.AttachmentService.Download` | crates/op-attachments/src/service.rs:346-363 | the record and its bytes, counting the download; an error changes nothing |
| `AttachmentRuns.DownloadCounts` | crates/op-attachments/src/service.rs:346-363 | a download adds one to the count of its record and sets its time, and nothing else changes |
| `Attachments.AttachmentService.AttachTo` | crates/op-attachments/src/service.rs:366-393 | only container and time of the record change |
| `AttachmentRuns.AttachingLasts` | crates/op-attachments/src/service.rs:366-393 | container and time are set in the store, where the record stands, and nothing else changes; the file then shows in that container and no other, and no later clean-up takes it away |
| `Attachments.ContainerNamesReadBack` | crates/op-attachments/src/model.rs:26-55 | the stored name of a container type is read back as that type, and no other name is |
| `Attachments.AttachmentService.Delete` | crates/op-attachments/src/service.rs:396-412 | record and blob go together |
| `AttachmentRuns.DeletingMeans` | crates/op-attachments/src/service.rs:396-412 | the record and its blob go, and no other |
| `Attachments.AttachmentService.CleanupOrphans` | crates/op-attachments/src/service.rs:416-434 | deletes the orphans one by one and returns their number |
| `Attachments.AttachmentService.CopyTo` | crates/op-attachments/src/service.rs:437-486 | a new record and a new blob with the description and bytes of the source |
| `AttachmentRuns.CopyingMeans` | crates/op-attachments/src/service.rs:437-486 | the copy has the source's name, content and description, the copier as author, the wanted container and its own count; its blob equals the source's |
| `AttachmentRuns.CallKeepsInv` | crates/op-attachments/src/service.rs:249-486 | every call of the service keeps records and blobs in agreement |
| `AttachmentRuns.RecordsMatchBlobs` | crates/op-attachments/src/service.rs:249-486 | after every run keys and records are in bijection, sizes and digests are true of the blobs, and size limit and content type hold of every record, copies included |
| `AttachmentRuns.CleanupIsExact` | crates/op-attachments/src/service.rs:416-434 | cleaning up removes exactly the unattached records older than the cutoff, and exactly their blobs |
| `AttachmentRuns.DownloadsNeverMiss` | crates/op-attachments/src/service.rs:346-363 | what is recorded can be downloaded, with the bytes its digest was taken from |
| `AttachmentRuns.CopiesAreIndependent` | crates/op-attachments/src/service.rs:437-486 | deleting either of source and copy leaves the other with its bytes |
| `Paging.ParametersAreClamped` | crates/op-core/src/pagination.rs:32-48 | page number and size are brought to the nearest value in range |
| `Paging.ResponseTells` | crates/op-core/src/pagination.rs:115-145 | a response has the total, the count, size and offset of its page, the elements from the offset on, and the address of the next page |
| `Paging.HrefReadsBack` | crates/op-core/src/pagination.rs:129-145 | a link tells offset and page size to whoever follows it |
| `Paging.WalkCoversAll` | crates/op-core/src/pagination.rs:115-145 | following the next links ends after max(1, ceil(total / size)) pages that laid end to end are the whole list |
| `Paging.PreviousUndoesNext` | crates/op-core/src/pagination.rs:129-145 | the previous link of the next page leads back |
| `Paging.NextLinkUntilLastPage` | crates/op-core/src/pagination.rs:115-145 | a response for a page has a next link exactly while the page is not the last of those counted |
| `Paging.PreviousLinkFromSecondPage` | crates/op-core/src/pagination.rs:115-145 | a response for a page has a previous link exactly if the page is not the first |
| `Paging.HasNextMatchesPagesIff` | crates/op-db/src/repository.rs:133-151 | `has_next` agrees with `page() < total_pages()` for all totals if and only if the limit is positive and the offset is a multiple of it or more than two limits below 0 |
| `Paging.PageRoundTrip` | crates/op-db/src/repository.rs:106-139 | the page asked for is the page reported, for every page number and size, except that every page of size 0 is reported as page 1 |
| `Cookies.BuildCookie` | crates/op-auth/src/session.rs:265-293 | the parts in order, joined by a semicolon and a space |
| `Cookies.FlagsReadBack` | crates/op-auth/src/session.rs:265-293 | whoever splits the cookie finds Secure and HttpOnly exactly if they are set, and the one SameSite mode |
| `Cookies.ExtractSessionId` | crates/op-auth/src/session.rs:305-315 | the loop finds the first part that gives the name a value |
| `Cookies.WhiteSpaceCharacters` | crates/op-auth/src/session.rs:305-315 | trimming takes the 25 characters with the Unicode property White_Space |
| `Cookies.ExtractFromHeader` | crates/op-auth/src/session.rs:305-315 | from a header of tidy pairs a name gets the value of its first pair, or nothing |
| `Cookies.ExtractFromBuiltIff` | crates/op-auth/src/session.rs:265-315 | the session id comes back from a built cookie, whatever attributes follow, if and only if cookie name and id have no semicolon and no white space at their ends, and the name has no equals sign |
| `Sessions.StoreMeans` | crates/op-auth/src/session.rs:69-220 | a session is found until the moment it expires; deleting a user's sessions takes away exactly those of the user, a clean-up exactly those past their moment |
| `Sessions.MemorySessionStore.CleanupExpired` | crates/op-auth/src/session.rs:204-220 | exactly the sessions past their expiry go, and their number is returned |
| `Sessions.CleanupIsInvisible` | crates/op-auth/src/session.rs:171-220 | no later lookup can tell whether or how often expired sessions were cleaned up |
| `Columns.ColumnSet.Reorder` | crates/op-queries/src/columns.rs:339-349 | the columns become the reordering of the old ones |
| `Columns.ReorderPermutes` | crates/op-queries/src/columns.rs:339-349 | reordering loses and adds no column |
| `Columns.RequestedComeFirst` | crates/op-queries/src/columns.rs:339-349 | with distinct column names the requested ones that exist come first in the order requested, then the others |
| `Columns.UnlistedKeepOrder` | crates/op-queries/src/columns.rs:347-348 | columns not asked for keep their relative order |
| `Columns.ReorderIsIdempotent` | crates/op-queries/src/columns.rs:339-349 | the same reordering again changes nothing |
| `Canonical.LessMeans` | crates/op-codegen-projection/src/lib.rs:268-326 | the order of names: the first difference decides, and a beginning comes before the whole |
| `Canonical.Canonicalize` | crates/op-codegen-residual/src/lib.rs:354-357 | the strictly sorted list of the distinct values |
| `Canonical.CanonicalIsUnique` | crates/op-codegen-residual/src/lib.rs:354-357 | it is the only strictly sorted list with these elements, and its own canonical form |
| `Canonical.OrderFreeEq` | crates/op-codegen-residual/src/lib.rs:366-372 | true if and only if the two lists have the same elements |

## Left out

- Whether a clause with a misread date may select the right rows by accident, as when another of its filters is false of every row: the exact condition is about the conditions that are read.
- SqlFilters.Number: numbers are finite decimals as printed; a NaN or an infinity would print as a word and is not modelled.
- JobSystem.Next: a worker that panics or is cancelled between dequeue and update is not modelled; its job would stay Running.
- Jobs.BackoffSeconds: the bound of 57 retries concerns the 64-bit number of seconds only. The range of the date library, which a delay of 2^37 minutes leaves already, so that the 37th retry panics, and the overflow panic of an unoptimised build are not modelled.
- Attachments.Attachment: the file token, which is always empty, is dropped, and the download counter is unbounded.
- Canonical.Canonicalize: works on a value list instead of in place; sorting is an insertion where the code calls the library's sort.
- Paging.NewResponse: the link texts for jumping and for changing the size are constant templates and are dropped; offsets are unbounded integers, so totals within a page of the 64-bit limit are outside the model. The links say `pageSize`, which the extractor of the HTTP layer reads; the parameter struct beside the links would expect `perPage`.
- Version numbers, ids and counters are unbounded integers.
- SqlGrammar.ParseSearch: reads what the printer can emit and OR. Other SQL that a date with a quote in it could bring into a clause is a syntax error here and would be read by the database: parentheses around conditions, NOT before a condition, other operators and functions, comparisons between columns, comments, statements after a semicolon, prefixed literals, and literals continued after a line break.
- The text between the WHERE and ORDER BY clauses, type errors of the database, and custom fields, which have no column yet.
- The editing methods of sort orders, filter sets and column sets beyond those in the table: plain list edits.
- The final SurrealQL text: the model stops at the schema tree.
- Local and S3 storage, the repositories that only bind SQL, HTTP handlers, hashing, tokens and the email senders: I/O or libraries.
- Concurrent journal updates and concurrent attachment calls: reading and writing are separate steps there, so those properties are stated for sequential calls.
- Enumeration tables, display formatting and the residual manifest: finite checks.
