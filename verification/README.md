# Banto: a verified model of its protocols

Banto is a base for LAN administration apps: a Rust server (SQLite or
PostgreSQL, REST and server-sent events), services for accounts, audit,
backups and attachments, and a browser client. This project models the parts
whose correctness spans several functions, processes or crashes, and proves
what their documentation promises. `dafny verify dfyconfig.toml` checks all of
it (Dafny 4.11).

| module | what it models |
|---|---|
| `ListQuery`, `AuditReads`, `DeletionEpoch` | the audit log read block by block while late commits and prunes run, the retention prune, and its epoch as text |
| `AuditSpool`, `SpoolRuns`, `SpoolService` | audit writes that time out, their spool directory, and flushers in several processes |
| `ReachLimiter`, `ReachStore`, `ReachAnswers`, `ReachRules` | the LAN reach check: failure counter, one-time token, listener generations, records, answers |
| `Calendar`, `IsoText`, `PrintedDates` | the day-number conversion, canonical dates and times, and how printed ones of any year sort |
| `UniquePath`, `BackupNames`, `Restore` | backup names and directories, and the staged restore under crashes and I/O errors |
| `AttachmentStore`, `AttachmentHistory`, `AttachmentsService` | uploads and deletes over one database and one directory |
| `LegacyImport`, `ImportAlone`, `ImportService` | concurrent imports into an attachment directory, and one alone |
| `Grants`, `GrantLives` | credential-less sessions: parked issuers against closing a condition and revoking, and how long a token lives |
| `Users` | accounts: last administrator, one-time setup, session epochs, compare-and-swap password change |
| `CspPolicy` | the Content-Security-Policy printer against the standard's parser |
| `EventStream`, `SseClient` | the event stream on the server (timed re-checks) and in the browser (reconnects) |
| `Text`, `Sets` | string order, decimal and fixed-width text, splitting and joining; sizes of sets |

How things are modelled. A database is a map whose transactions are atomic
steps; a file system is a map from names to contents whose actions are atomic
steps; time is a number. Concurrency is a step relation, and "in every run"
means over every sequence of its events, with any number of participants; a
crashed participant is one that takes no further step. Objects with fields are
classes. Where other participants may act inside one of their methods, the
method calls `Others`, which promises only that a run of the model's events
took place, none of them the method's own; what that leaves unchanged is proved
by induction over such runs, and each action of the method is shown to be one
event, so that every method call is itself a run of the model. What the
environment decides - what an I/O action, a probe or a statement answers and
whether it took effect, what a clock reads, what a random or salted value is -
is a parameter, an event field or a counter of fresh values.

## Where the code and its promises differ

The model follows the code. For each of these there is the exact condition for
all inputs, and a concrete run outside it.

- Restore: a valid reservation is lost if and only if a start-up cannot carry out its validation (a lock, an I/O error) and removes it (`Restore.CrashSafe`, `ValidReservationThrownAway`). A replaced main file is in no backup if and only if the probe before the swap answered an error (`ReplacedIsSaved`, `ReplacedWithoutCopy`). An earlier backup is written over if and only if the probe of its name answered an error (`EarlierBackupsStay`, `EarlierBackupOverwritten`).
- Attachments: "a row must never outlive its body" holds for every row whose upload got past the write and fails for the others, a file from before with that very hash aside (`AttachmentStore.RowHasItsBodyIff`, `AttachmentHistory.RowWithoutBody`). A stored upload's body is an orphan if and only if a delete removed its row but not its body since it was created (`StoredUploadLeaves`, `DeletedWhileUploading`). A row claims a missing thumbnail if and only if its `UPDATE` took effect but answered an error and the thumbnail was then removed (`ThumbnailMissingIff`, `DishonestUpdateLosesAThumbnail`).
- Legacy import: "committed by at most one import" holds as long as nobody removes the target; all commits are at most the removals plus one, which any number of removals attains (`LegacyImport.CommitsBounded`, `RemovalsAllowFurtherCommits`).
- Deletion epoch: a prune is seen as one more if and only if prune and readers take the stored text for the same number, which every text a prune writes ensures and a hand-edited one may not (`DeletionEpoch.BumpIsSeenIff`, `UnseenBump`, `BumpGoesBack`).
- Printed dates: canonical if and only if of the years 0001 to 9999 (`IsoText.PrintedDateIsIso`); around the epoch in string order for exactly the years -1 to 9999 (`PrintedDates.DaysSortIff`), and any two days as `PrintedOrderIff` says; the backup list is newest first exactly without files dated after 9999 (`BackupListIsNewestFirstIff`).
- Reach check: two adjoining windows would allow 2F - 1 failures in a sliding window; the code allows only 2F - 2, which is attained (`ReachLimiter.SlidingWindowBound`, `SlidingWindowBoundReached`).
- Event stream client: a different token seen in storage normally ends the session for `onReconnected`; the token rejected last, seen in between, does not (`SseClient.OnlyTheRejectedTokenGoesUnnoticed`, `RejectedTokenSeenInBetween`).

## Model

| member | source | states |
|---|---|---|
| ListQuery.OneSequence | crates/banto-storage/src/list_query.rs:129-152 | Whatever the requested keys, the `ORDER BY` leaves SQL exactly one sequence for a set of rows with distinct ids, because the unique key is always among its entries |
| ListQuery.SomeSequence | crates/banto-storage/src/list_query.rs:256-276 | ... and there always is such a sequence |
| ListQuery.UniqueKeyIsNamed | crates/banto-storage/src/list_query.rs:129-152 | The id column is an `ORDER BY` entry for every sort, requested or not, known fields or not |
| ListQuery.FirstDifferenceDecides | crates/banto-storage/src/list_query.rs:231-276 | Two rows are ordered by the first entry on which they differ, NULLs last in both directions |
| ListQuery.TiesComeInIdOrder | crates/banto-storage/src/list_query.rs:129-152 | Rows the known keys do not tell apart come in id order, in the direction of the last known key (ascending if there is none) |
| DeletionEpoch.BumpIsSeenIff | crates/banto-admin-services/src/audit.rs:879-880 | On either backend and for every stored text: after a bump readers see exactly one more if and only if prune and reader take the text for the same number, and the bump goes unseen if and only if they are one apart |
| DeletionEpoch.BumpIsRead | crates/banto-admin-services/src/audit.rs:147-150 | What a bump leaves is read alike by both, whatever was there before, so at most one prune can go wrong |
| DeletionEpoch.AgreedTexts | crates/banto-admin-services/src/audit.rs:141-150 | They agree on an absent epoch and on every number a bump can have printed |
| DeletionEpoch.UnseenBump | crates/banto-admin-services/src/audit.rs:877-880 | A hand-edited `-1x` reads as 0; on SQLite the prune casts it to -1 and writes 0: readers see no bump |
| DeletionEpoch.BumpGoesBack | crates/banto-admin-services/src/audit.rs:918-922 | A space in front of the number: readers trim it, the PostgreSQL prune starts again from 1, and readers see the epoch go back |
| AuditReads.RunKeepsInv | crates/banto-admin-services/src/audit.rs:643-680 | In every interleaving of id allocation, late commits, aborts and prunes, a committed id was handed out and is no longer pending, the counter is beyond every id, so none is reused, and prunes and readers take the epoch text for the same number |
| AuditReads.EpochNeedsAgreement | crates/banto-admin-services/src/audit.rs:877-880 | Without that last part a prune can delete rows and leave the epoch as readers see it |
| AuditReads.StandingEpoch | crates/banto-admin-services/src/audit.rs:843-850 | Over any run the deletion epoch never goes back, and while it stands still no row has gone or changed |
| AuditReads.SameCountAndEpochSameRows | crates/banto-admin-services/src/audit.rs:657-676 | Whatever committed in between: an answer with the first answer's count and epoch counted exactly the same filtered rows within the boundary |
| AuditReads.BlockIsASlice | crates/banto-admin-services/src/audit.rs:643-826 | Each block of a generation (same boundary, count and epoch as the first answer) is a slice of the one sequence the first answer was a slice of |
| AuditReads.BlocksConcatenate | crates/banto-admin-services/src/audit.rs:643-826 | Consecutive blocks of a generation, each read at any later time and in any order, concatenate to a prefix of that sequence: no row twice, no gap |
| AuditReads.AllBlocksReadEveryRow | crates/banto-admin-services/src/audit.rs:643-826 | Once the blocks cover the count, together they are every matching row exactly once, in the order of the sort |
| AuditReads.GenerationReadsExactly | crates/banto-admin-services/src/audit.rs:643-826 | What those rows are, told from the request: a row is in the blocks if and only if it was committed when the first answer was given, its id is within the boundary if one was named, and every filter's test holds of its own value in the field; they come in the order of the requested keys, NULLs last, then by id |
| AuditReads.OneActionNewestFirst | crates/banto-admin-services/src/audit.rs:643-826 | For instance a request for one action, newest first, reads exactly the rows of that action, by `ts` and then id descending |
| AuditReads.OrderMeans | crates/banto-storage/src/list_query.rs:129-152 | The order of the log is the requested one: the known keys decide one after another, then the id in the direction of the last of them |
| AuditReads.RefusedIff | crates/banto-storage/src/list_query.rs:205-219 | A request is refused if and only if it filters by something that is no field of the log |
| AuditReads.LifeOfARow | crates/banto-admin-services/src/audit.rs:643-680 | An id handed out is new; committed, its row holds what was committed until a prune names it; aborted or pruned, it never returns |
| AuditReads.CountAloneIsNotEnough | crates/banto-admin-services/src/audit.rs:663-670 | Why the epoch is needed: a late commit below the boundary and an equally large prune keep the count and change the rows |
| AuditReads.AuditLog.Prune | crates/banto-admin-services/src/audit.rs:852-951 | Deletes what is older than the cutoff, then keeps exactly the `retention_rows` greatest ids of the rows left - those writers committed in between (PostgreSQL) included - returns how many it removed, and advances the epoch by one exactly when that is positive; an absent or non-positive limit leaves its dimension alone; the whole is one prune step of the runs above |
| AuditReads.PrunedByTime | crates/banto-admin-services/src/audit.rs:828-842 | What an undisturbed prune leaves, told in times: a row stays if and only if it is not before the cutoff (or has no `ts`) and fewer than the cap of such rows are newer by id; either limit may be absent |
| AuditReads.AuditLog.BeyondCap | crates/banto-admin-services/src/audit.rs:874-876 | The row-cap delete takes exactly what is beyond the newest ids, its excess computed from the rows it sees |
| AuditReads.KeptIsUnique | crates/banto-admin-services/src/audit.rs:828-842 | The rows a prune may keep are determined: there is only one such set |
| AuditReads.PruneIsAStep | crates/banto-admin-services/src/audit.rs:843-850 | The deletions and the epoch move together: what a prune writes is one committed step, and the epoch counts it if and only if a row went |
| AuditSpool.OneRowPerEntry | crates/banto-admin-services/src/audit.rs:223-234 | With any number of recorders, late INSERTs and flushers in several processes, no two rows share a `pending_id`, and a row holds what was recorded under it |
| AuditSpool.RowsAreNeverChanged | crates/banto-admin-services/src/audit.rs:265-312 | A row that is there is changed by no later INSERT, flush, open or late statement; only a prune removes it, so the first row written for an entry stays |
| AuditSpool.RowsSayHowTheyWereWritten | crates/banto-admin-services/src/audit.rs:252-274 | A row is marked as spooled if and only if a flush, not the recorder's own INSERT, wrote it |
| AuditSpool.FileRemovedOnlyAfterItsRow | crates/banto-admin-services/src/audit.rs:549-574 | In every reachable state, a step removes a spool file only if its entry has had its row |
| AuditSpool.NothingIsLost | crates/banto-admin-services/src/audit.rs:483-508 | Prunes aside, once `record` has returned the entry has its row, or is whole in its file and indexed by the process that recorded it, or was counted as dropped or failed |
| AuditSpool.NothingIsLostButPruned | crates/banto-admin-services/src/audit.rs:483-508 | In any run, prunes included: once `record` has returned the entry has had its row, or waits whole in its indexed file, or never got a file because it was dropped or failed |
| AuditSpool.CountersAreExact | crates/banto-admin-services/src/audit/spool.rs:268-324 | In every run `dropped` and `failed` of a process are exactly the numbers of its calls that lost their entry that way |
| AuditSpool.RunKeepsInv | crates/banto-admin-services/src/audit/spool.rs:160-175 | Over any interleaving: index, write slots, files, recorders and flushes of all processes stay consistent (a waiting file is in its recorder's index; an index entry is being written or past writing; a file about to be removed has its row) |
| AuditSpool.RunKeepsRows | crates/banto-admin-services/src/audit.rs:527-533 | Without prunes, every entry ever written keeps its row |
| SpoolService.Service.RecordSpooled | crates/banto-admin-services/src/audit.rs:483-508 | One call, with any run of everybody else's actions between any two of its own, is itself a run: it ends in the table, in its file and the index, or lost and counted - and which of these, from how the wait, the cap at its end and the write went |
| SpoolService.Service.Write | crates/banto-admin-services/src/audit/spool.rs:265-324 | The cap is judged before the write, and the slot is given back if that fails, whatever others do in between |
| SpoolService.Service.FlushLocked | crates/banto-admin-services/src/audit.rs:549-598 | A flush is itself a run: it inserts in the order of its scan up to the first entry the database does not take; every entry before that has had its row and, if removal succeeded, neither a file nor a place in the index; the index keeps every scanned or known id that has a file, and names none that was listed, not being written, and had no file |
| SpoolRuns.IndexKeepsFiles | crates/banto-admin-services/src/audit/spool.rs:344-425 | In every run, whoever flushes: an id that was in a process's index and has a file is still in that index |
| SpoolRuns.ReopenedKnowsEveryFile | crates/banto-admin-services/src/audit/spool.rs:188-217 | A process that opens the spool knows exactly the entries whose files are there, and each of them for as long as its file is there |
| SpoolRuns.LostLeavesNoTrace | crates/banto-admin-services/src/audit/spool.rs:268-324 | In every run an entry that was dropped or failed is in no process's index, holds no slot, and has no file |
| ReachLimiter.RunKeepsInv | crates/banto-server/src/reach_check.rs:329-373 | In every run under a clock that does not go back: the table stays within its cap, and a peer is blocked if and only if its count has reached the limit |
| ReachLimiter.SlidingWindowBound | crates/banto-server/src/reach_check.rs:347-373 | A peer that is not evicted gets at most 2F - 2 checks judged as failures in any half-open span as long as the window, wherever it starts |
| ReachLimiter.SlidingWindowBoundReached | crates/banto-server/src/reach_check.rs:347-373 | 2F - 2 is attained by a run the bound is about (clocked, without eviction): the bound cannot be lowered |
| ReachLimiter.BlockedForTheWindow | crates/banto-server/src/reach_check.rs:329-344 | After the failure that reaches the limit, every check of that peer within the window is answered RateLimited with exactly the time that remains, whatever other peers do |
| ReachAnswers.RefusedOnlyAfterTen | crates/banto-server/src/reach_check.rs:329-373 | In every run: a peer is refused unjudged only after ten of its checks failed within one window, until exactly one window after the last of them, and is told how long remains; what is remembered of it was seen when it was last refused or failed |
| ReachAnswers.JudgedAfterTheBlock | crates/banto-server/src/reach_check.rs:329-344 | Once the block is over the next check is judged, and if it fails a new window begins with it |
| ReachLimiter.OthersDoNotMatter | crates/banto-server/src/reach_check.rs:329-373 | Other peers' checks change nothing about a peer unless they evict it |
| ReachLimiter.OldestSeen | crates/banto-server/src/reach_check.rs:347-362 | The eviction picks a peer seen no later than any other, and only when a new peer meets a full table |
| ReachStore.RunKeepsInv | crates/banto-server/src/reach_check.rs:317-326 | Over any run of issue, begin, status and check: a token is live if and only if the last issuance is pending, sharing its id, target and expiry and the store's generation; at most 8 records with strictly decreasing issue ids |
| ReachStore.RecordedAtMostOnce | crates/banto-server/src/reach_check.rs:553-624 | Each issuance is recorded at most once in a whole run, and never after its token is gone |
| ReachStore.RecordedIff | crates/banto-server/src/reach_check.rs:553-624 | Exactly which requests are recorded - live unexpired token, right generations, port and authority, a peer that is neither this machine nor blocked - and what is recorded |
| ReachStore.RecordedReachIsGenuine | crates/banto-server/src/reach_check.rs:459-624 | A reach recorded for an issuance, however long after it and whatever happened in between, used the issued token on the generation, port and host it was issued for, before it expired, from a peer that is neither loopback nor any of this machine's addresses |
| ReachRules.CheckAnswers | crates/banto-server/src/reach_check.rs:553-624 | Every check is answered by the first of these that applies: no peer, blocked, no such token in time on its generation, wrong port or host, this machine itself, recorded - and what each leaves of token, records and self access |
| ReachRules.IssueDoes | crates/banto-server/src/reach_check.rs:459-521 | An issuance is refused exactly when this machine has no address on the network or for another generation; otherwise it replaces token and last issuance, for five minutes, and keeps records and failures |
| ReachRules.BeginDoes | crates/banto-server/src/reach_check.rs:432-439 | A new listener generation forgets token, issuance, records and self access; numbering and failures go on |
| ReachRules.StatusIff | crates/banto-server/src/reach_check.rs:523-551 | What status shows of the last issuance: recorded if and only if a check recorded it, else expired if and only if its five minutes are over, else pending |
| ReachRules.AuthorityIff | crates/banto-server/src/reach_check.rs:656-676 | An authority is accepted for a host and port if and only if it is that host in any ASCII case, followed by nothing for port 80 or by a colon and the port's digits |
| ReachRules.LoopbackIff | crates/banto-server/src/reach_check.rs:639-650 | This machine as a peer is 127.x.y.z, that address mapped into IPv6, or ::1 |
| ReachRules.CanonicalIff | crates/banto-server/src/reach_check.rs:639-650 | A mapped address stands for its IPv4 address, every other one for itself |
| ReachStore.CheckIsAttempt | crates/banto-server/src/reach_check.rs:553-601 | For the failure counter a check is one attempt that fails exactly for `Unusable` and `HostMismatch` |
| ReachStore.RefusalsBounded | crates/banto-server/src/reach_check.rs:553-601 | So a peer that is not evicted gets at most 2F - 2 refusals in any window, whatever else happens in the store |
| ReachStore.AuthorityOfUrlHost | crates/banto-server/src/reach_check.rs:656-676 | For a host as it stands in a URL, the authority check accepts exactly that host in any case with that port, which port 80 may leave out |
| ReachStore.PrintedPort | crates/banto-server/src/reach_check.rs:656-676 | A port printed in a URL is the port read back |
| ReachStore.ConstantTimeEq | crates/banto-server/src/reach_check.rs:630-637 | Folding all byte differences decides equality |
| ReachStore.ReachCheckState.CheckRequest | crates/banto-server/src/reach_check.rs:553-624 | `check` on the shared store does what the run step says, evicts properly and keeps the invariant |
| ReachStore.ReachCheckState.IssueWithLocalAddrs | crates/banto-server/src/reach_check.rs:459-521 | `issue` on the shared store does what the run step says and keeps the invariant |
| ReachStore.ReachCheckState.BeginNewGeneration | crates/banto-server/src/reach_check.rs:432-439 | A new listener generation drops token, issuance and records and keeps the failure counter |
| ReachStore.ExpiryIsLazy | crates/banto-server/src/reach_check.rs:317-326 | When expiry is carried out cannot be told: one more expiry at any time changes no answer of any later check, and leaves the same store once that expires too |
| Calendar.EpochDay | crates/banto-admin-services/src/backup.rs:228-240 | Day number 0 is 1970-01-01 |
| Calendar.DaysGiveLegalDates | crates/banto-attachments/src/lib.rs:405-417 | Every integer day number, negative ones included, gives a date the leap-year and month-length rules allow |
| Calendar.NextDay | crates/banto-admin-services/src/backup.rs:228-240 | The next day number is the calendar's next day, so with the epoch the conversion is the Gregorian calendar |
| Calendar.DaysOrder | crates/banto-admin-services/src/backup.rs:228-240 | Day numbers and dates are in the same order; no two days share a date |
| Calendar.YearUnique | crates/banto-admin-services/src/backup.rs:228-240 | The closed year formula picks the only year of the era that contains the day |
| IsoText.DateTextIsIso | crates/banto-core/src/datetime.rs:48-62 | Every date of the years 0001 to 9999 is accepted as its canonical text and read back |
| IsoText.IsoIsDateText | crates/banto-core/src/datetime.rs:39-62 | Nothing else is accepted: an accepted text is the printed form of the legal date it names |
| IsoText.TimeTextIsIso | crates/banto-core/src/datetime.rs:65-74 | Every minute of the day is accepted as its canonical text and read back |
| IsoText.IsoIsTimeText | crates/banto-core/src/datetime.rs:65-74 | Nothing else is accepted as a time |
| IsoText.DateOrder | crates/banto-core/src/datetime.rs:39-62 | For canonical dates string order is calendar order |
| IsoText.TimeOrder | crates/banto-core/src/datetime.rs:65-74 | For canonical times string order is time order |
| IsoText.DatetimeOrder | crates/banto-core/src/datetime.rs:77-88 | For canonical date-times string order is time order |
| IsoText.ValidateDateAccepts | crates/banto-core/src/datetime.rs:105-116 | With canonical bounds exactly the calendar days between them are accepted |
| IsoText.ValidateTimeAccepts | crates/banto-core/src/datetime.rs:125-148 | With canonical bounds exactly the minutes between them that lie on the step are accepted |
| IsoText.ValidateDatetimeAccepts | crates/banto-core/src/datetime.rs:150-175 | With canonical bounds exactly the moments between them whose minute lies on the step are accepted |
| IsoText.PrintedDateIsIso | crates/banto-admin-services/src/backup.rs:228-240 | The date text printed from a day number is a canonical date if and only if the day lies in the years 0001 to 9999, and then names that day |
| PrintedDates.PrintedOrderIff | crates/banto-admin-services/src/backup.rs:228-240 | For any two days at all: their texts differ, and sort by year text - a sign before a digit, a shorter year against the leading digits of a longer one - or within a year as the days do |
| PrintedDates.DaysSortIff | crates/banto-admin-services/src/backup.rs:228-240 | All texts from one day to another, the epoch among them, sort as the days if and only if none is before year -1 and none after year 9999 |
| PrintedDates.DatetimeOrderIff | crates/banto-admin-services/src/backup.rs:251-263 | For any two moments, before the epoch and after year 9999 included: how their texts sort, and that they differ if the moments (read as the epoch if before it) do |
| PrintedDates.BackupListIsNewestFirstIff | crates/banto-admin-services/src/backup.rs:567-572 | Whatever files there are, the list sorted by text is newest first, ties by file name descending, if and only if no file is dated after year 9999 |
| PrintedDates.BackupListOrder | crates/banto-admin-services/src/backup.rs:567-572 | For any two modification times: listed newest first unless they are of different years whose texts sort the other way |
| UniquePath.UniquePath | crates/banto-admin-services/src/backup.rs:292-304 | In every finite directory the loop ends and returns the first free candidate, whose suffix is at most the number of files there |
| UniquePath.CandidateInjective | crates/banto-admin-services/src/backup.rs:296-304 | No candidate is tried twice: decimal suffixes are injective |
| UniquePath.FirstFreeUnique | crates/banto-admin-services/src/backup.rs:296-304 | There is only one first free candidate |
| BackupNames.StampOrder | crates/banto-admin-services/src/backup.rs:265-276 | The compact stamps of two moments sort as the moments do and differ if they do |
| BackupNames.GivenNamesAreSafe | crates/banto-admin-services/src/backup.rs:432-451 | Every name a backup or a pre-restore copy is given, at any moment and with any suffix, passes the check for names a request may ask for |
| BackupNames.ScopesAreDisjoint | crates/banto-admin-services/src/backup.rs:65-107 | No file a request may name and no staged restore of one database is another's in the same folder |
| BackupNames.SafeNameIff | crates/banto-admin-services/src/backup.rs:432-451 | A request may ask for exactly the names of ASCII letters, digits, dots, underscores and hyphens that end in `.sqlite3`, but for the staged restore's |
| BackupNames.StampOfMoment | crates/banto-admin-services/src/backup.rs:265-276 | The stamp of every moment up to the end of year 9999: year, month and day in fixed widths, a hyphen, hours, minutes and seconds |
| BackupNames.SafeNamesStayInside | crates/banto-admin-services/src/backup.rs:432-451 | A name that passes has no separator and is no way up |
| BackupNames.VacuumNamesThePath | crates/banto-admin-services/src/backup.rs:278-290 | Whatever the path, the statement's string literal denotes that path and nothing follows it |
| Restore.CrashSafe | crates/banto-admin-services/src/backup.rs:756-841 | However often start-up crashes or errs and wherever: the reservation still holds the new content, or the database path holds it, or the reservation is lost - and that if and only if some start-up could not carry out its validation and removed it |
| Restore.ThrowingAwayTouchesNothingElse | crates/banto-admin-services/src/backup.rs:776-782 | Losing it touches nothing else, and no later start-up changes any file |
| Restore.ReplacedIsSaved | crates/banto-admin-services/src/backup.rs:802-829 | After a swap the main file it replaced is in a copy that start-up made, except if and only if the probe before it answered an error, so that the copy was skipped with the database there |
| Restore.EarlierBackupsStay | crates/banto-admin-services/src/backup.rs:292-304 | No backup from before is changed and the copies have new names, in every run in which no copy went over a backup because the probe of its name answered an error |
| Restore.RestartCompletes | crates/banto-admin-services/src/backup.rs:756-841 | From every point crashes and errors can leave, one undisturbed start-up reaches the applied state if and only if the reservation was not lost, with the replaced file saved under a new name |
| Restore.CorruptPendingIsHarmless | crates/banto-admin-services/src/backup.rs:756-790 | A corrupt reservation is never applied: database, sidecars and backups stay as they are in every run |
| Restore.NothingPendingNothingHappens | crates/banto-admin-services/src/backup.rs:756-770 | Without a reservation a start-up changes no file |
| Restore.StartUpApplies | crates/banto-admin-services/src/backup.rs:756-841 | What an undisturbed start-up leaves: new main file, no sidecars, the replaced file under the fresh name |
| Restore.ValidReservationThrownAway | crates/banto-admin-services/src/backup.rs:776-782 | One start-up whose validation meets a lock or an I/O error is enough to lose a valid reservation |
| Restore.ReplacedWithoutCopy | crates/banto-admin-services/src/backup.rs:802-829 | One failing probe is enough to replace a main file that is in no backup |
| Restore.EarlierBackupOverwritten | crates/banto-admin-services/src/backup.rs:292-304 | A failing probe of a name lets the copy go over an earlier backup |
| Restore.Files.ApplyPendingRestoreAtStartup | crates/banto-admin-services/src/backup.rs:756-841 | The start-up code takes exactly such a sequence of actions; it applies if and only if the reservation is seen, valid and validated, the copy succeeds if the database is seen, and the rename does; nothing applied means at most the reservation is gone, and exactly when it was seen, did not validate and could be removed; an error leaves it |
| Restore.Files.StageRestoreFromBytes | crates/banto-admin-services/src/backup.rs:626-660 | At every point a crash can hit, the reservation is the earlier one or the whole new valid content; it is staged if and only if write, validation and rename succeed |
| Restore.Files.StageRestoreFromFile | crates/banto-admin-services/src/backup.rs:599-620 | The copy is not atomic: a crash can leave a torn reservation besides the earlier one and the whole backup; a refused source changes nothing; not found, invalid and staged exactly when |
| Restore.Files.CancelPendingRestore | crates/banto-admin-services/src/backup.rs:685-698 | After a successful cancel no run of start-ups applies or changes anything; an error leaves the reservation as it was |
| AttachmentStore.RowHasOneUpload | crates/banto-attachments/src/lib.rs:610-660 | In every interleaving of uploads and deletes with failing, lying and crashing actions, each row there is was inserted by exactly one upload |
| AttachmentStore.RowHasItsBodyIff | crates/banto-attachments/src/lib.rs:577-596 | For every row there is, in every run: its body is whole with the row's hash if and only if its upload got past the write (or stopped at a file that was there before and happens to have that hash) |
| AttachmentHistory.RowWithoutBody | crates/banto-attachments/src/lib.rs:585-588 | So a row can outlive its body: the file cannot be created and the clean-up cannot remove the row |
| AttachmentHistory.AbandonedUploadLeaves | crates/banto-attachments/src/lib.rs:661-691 | After an upload that returned an error its row is there if and only if neither its clean-up nor a delete removed it |
| AttachmentHistory.StoredUploadLeaves | crates/banto-attachments/src/lib.rs:854-911 | After an upload that returned the attachment, its row is there if and only if no delete removed it, and its whole body if and only if no delete removed that since it was created; so the body is an orphan exactly if only the row went |
| AttachmentHistory.DeletedWhileUploading | crates/banto-attachments/src/lib.rs:854-911 | A delete between the INSERT and the body write does leave an orphan body, and the upload still reports success |
| AttachmentHistory.ThumbnailMissingIff | crates/banto-attachments/src/lib.rs:693-747 | A row that is there claims a thumbnail if and only if its `has_thumbnail` update took effect; one that was made is there unless dropped; and the row claims a missing one if and only if the update answered an error although it took effect and the thumbnail was then removed |
| AttachmentHistory.ActionsTakeEffect | crates/banto-attachments/src/lib.rs:610-758 | What each action of an upload changes, whatever it answers: one that errs takes effect or not, but for creating and filling the body |
| AttachmentHistory.UndisturbedUpload | crates/banto-attachments/src/lib.rs:610-758 | With every action answered well an upload leaves exactly its row, its body and, if it has one, its thumbnail and the claim |
| AttachmentHistory.UndisturbedDelete | crates/banto-attachments/src/lib.rs:854-911 | With every action answered well a delete removes exactly the row, the body and the thumbnail the row claimed |
| AttachmentHistory.DishonestUpdateLosesAThumbnail | crates/banto-attachments/src/lib.rs:711-738 | Such a run |
| AttachmentStore.RemovedOnce | crates/banto-attachments/src/lib.rs:880-889 | At most one delete of an id finds its row, removes it and reports it |
| AttachmentStore.BodiesAreNeverOverwritten | crates/banto-attachments/src/lib.rs:760-797 | No step changes a finished body file wherever it came from; it disappears only once no row claims it |
| AttachmentStore.RunKeepsInv | crates/banto-attachments/src/lib.rs:577-596 | An id belongs to one upload, files are removed only of rows gone for good, and how far an upload got says what its body file is, over any run |
| AttachmentsService.AttachmentsService.Upload | crates/banto-attachments/src/lib.rs:610-758 | One upload, with any run of other calls' actions between any two of its own, is itself a run; the id it returns is fresh and its body whole while the row is there; with INSERT, create and write answered well it fails only at a file that was there before |
| AttachmentsService.AttachmentsService.WriteBody | crates/banto-attachments/src/lib.rs:760-797 | A body is written only to a free name; a taken one is left as it is |
| AttachmentsService.AttachmentsService.Delete | crates/banto-attachments/src/lib.rs:854-911 | The row goes first; after success or not-found no row of that id is left for good, and after success no body, unless its upload had yet to create it; a file error is no error |
| AttachmentsService.AttachmentsService.DeleteForRecord | crates/banto-attachments/src/lib.rs:1104-1156 | One delete for each listed id up to the first error; without one all the rows are gone for good; the number returned is exactly that of the deletes that removed their row |
| LegacyImport.ImportNeverReplaces | crates/banto-attachments/src/lib.rs:1069-1102 | With any number of imports and another writer, an import's step never changes a file that is there, temporary ones included, and removes none but its own temporary file that it has linked |
| ImportAlone.ImportedAlone | crates/banto-attachments/src/lib.rs:913-999 | An undisturbed import comes to its end and leaves the directory with exactly the missing right bodies, and the missing thumbnails of rows whose right body is in place, added - and no temporary file |
| LegacyImport.CommitIsTheRowsFile | crates/banto-attachments/src/lib.rs:1001-1066 | What an import commits is the whole legacy file of one of its rows, and a body has the row's hash |
| LegacyImport.CommitsBounded | crates/banto-attachments/src/lib.rs:933-942 | All imports together commit a target at most once more than the other writer removes it: at most once if it removes nothing, never if the target was there and stays |
| LegacyImport.RemovalsAllowFurtherCommits | crates/banto-attachments/src/lib.rs:933-942 | That bound is attained for every number of removals, by imports that begin and finish one after another |
| LegacyImport.FinishedReportAddsUp | crates/banto-attachments/src/lib.rs:162-182 | The six body counters of every finished report add up to the number of rows, and at most one thumbnail is judged per body in place |
| LegacyImport.ReportIsTrue | crates/banto-attachments/src/lib.rs:162-182 | In every run each of an import's eight counters is the number of its actions that settled a row or its thumbnail that way: copied, found right, found wrong, no legacy file, another's legacy file, failed, and thumbnail copied or failed |
| LegacyImport.CommitsIffCopied | crates/banto-attachments/src/lib.rs:1001-1066 | An action of an import makes a body or a thumbnail appear if and only if it settles its row's as copied |
| LegacyImport.RunKeepsInv | crates/banto-attachments/src/lib.rs:948-950 | Over any run the legacy directory is exactly as it was, and bytes about to be committed are whole in the import's own temporary file |
| ImportService.AttachmentsDir.ImportLegacyFiles | crates/banto-attachments/src/lib.rs:953-999 | Nothing happens without a separate legacy directory or when the rows cannot be listed; otherwise the loop, with any run of others' actions between any two of its own, is a run of one import over all the rows, and returns its report |
| ImportService.AttachmentsDir.ImportBody | crates/banto-attachments/src/lib.rs:1001-1044 | One body: it counts as in place only if it was copied - from a legacy file with the row's hash - or is already there with the hash |
| ImportService.AttachmentsDir.ImportThumbnail | crates/banto-attachments/src/lib.rs:1046-1066 | One thumbnail touches only the thumbnail counters |
| ImportService.AttachmentsDir.PlaceImported | crates/banto-attachments/src/lib.rs:1069-1102 | The commit happens only if the target was free at the link, and then with exactly these bytes |
| Grants.ClosedThenRevokedStaysEmpty | crates/banto-server/src/grant.rs:35-48 | Persist the closed condition, then revoke: until it is persisted open again no token of the kind is live, whatever any number of parked issuers had observed or been granted |
| Grants.RevokedThenClosedLeavesAToken | crates/banto-server/src/grant.rs:46-48 | In the reverse order a request judged between the two leaves a live token behind a closed condition |
| Grants.LiveWithinCap | crates/banto-server/src/auth/state.rs:403-440 | In every run a kind's live tokens never exceed its cap |
| Grants.IssueEvictsTheOldest | crates/banto-server/src/auth/state.rs:403-440 | An issuance at the current generation yields a live token, and every token it evicts is older than every one of the kind it keeps |
| Grants.IssueTouchesOnlyItsKind | crates/banto-server/src/auth/state.rs:403-405 | Account sessions and other kinds are never evicted by an issuance |
| GrantLives.MintedIff | crates/banto-server/src/grant.rs:363-431 | In every run: a request is let through if and only if it was judged with its kind's condition open and not failing, from a loopback peer or for a kind that does not ask for one; its insertion mints a token of that kind if and only if also the kind was not revoked since the request began; nothing else but a login hands out a token |
| GrantLives.LiveIff | crates/banto-server/src/auth/state.rs:382-464 | In every run: a session is live if and only if its token was handed out and not logged out or expired since, and - a grant's - its kind was not revoked since and fewer of that kind than its cap were minted after it |
| Grants.RunKeepsInv | crates/banto-server/src/auth/state.rs:382-464 | Over any run every grant token is in its kind's queue, queues stay within their caps, and no issuer observed a generation from the future |
| Grants.RunKeepsSorted | crates/banto-server/src/auth/state.rs:409-440 | Over any run every queue is in the order of issue |
| Grants.AuthState.IssueGrantToken | crates/banto-server/src/auth/state.rs:409-440 | The eviction loop leaves exactly the state the run step says |
| Grants.AuthState.RevokeGrantTokens | crates/banto-server/src/auth/state.rs:451-464 | The revocation loop leaves exactly the state the run step says and returns how many tokens it removed |
| Grants.GrantRegistry.Availability | crates/banto-server/src/grant.rs:330-341 | Status reports a kind available if and only if the peer is a loopback one or need not be, its condition did not fail, and it is open - which is when an issuance judged now would be allowed |
| Grants.FirstRegistrationStands | crates/banto-server/src/grant.rs:285-308 | Whatever is registered in whatever order: a kind is in the registry if and only if some call for it was neither reserved nor without sessions, with what the first such call said |
| Users.AdminForever | crates/banto-admin-services/src/users.rs:249-266 | Over any interleaving of account operations from any number of handles, once an administrator exists one always exists |
| Users.SetupAtMostOnce | crates/banto-admin-services/src/users.rs:308-404 | First-user setup succeeds at most once in a whole run |
| Users.RefusedChangesNothing | crates/banto-admin-services/src/users.rs:746-804 | A refused operation leaves every row, epoch included, as it was |
| Users.RunKeepsInv | crates/banto-admin-services/src/users.rs:653-735 | Over any run usernames stay unique, and the id and hash counters stay beyond every row, so neither is reused |
| Users.StampMatchesIff | crates/banto-admin-services/src/users.rs:183-201 | A session stamp matches the stored row after a run if and only if the account was not deleted and no role change, password change or reset succeeded since |
| Users.StampNeverReturns | crates/banto-admin-services/src/users.rs:609-645 | A stamp that has stopped matching never matches again |
| Users.CommitIffHashKept | crates/banto-admin-services/src/users.rs:484-567 | A password change commits if and only if the hash it verified is still the account's; otherwise it changes nothing |
| Users.HashAfterRun | crates/banto-admin-services/src/users.rs:814-851 | A hash is the account's after a run if and only if nothing in it replaced the password or removed the account |
| Users.UsersService.SetupFirstUser | crates/banto-admin-services/src/users.rs:308-404 | Setup judges the empty table in its writing transaction, whatever other handles did after the first check |
| Users.UpdateDoes | crates/banto-admin-services/src/users.rs:746-804 | An update is done if and only if the account is there and is not the only administrator losing the role; then it has exactly the role and the trimmed display name asked for, name and hash as before, the next epoch if and only if the role is another one, and no other account has changed |
| Users.SetupDoes | crates/banto-admin-services/src/users.rs:308-404 | First-user setup creates an administrator if and only if there is no account and name and password are acceptable |
| Users.CreateDoes | crates/banto-admin-services/src/users.rs:653-735 | An account is created if and only if name and password are acceptable and the trimmed name is free: under a new id, with the role asked for, a hash nobody has, and epoch 0 |
| Users.DeleteDoes | crates/banto-admin-services/src/users.rs:868-910 | An account is deleted if and only if it is there, not the caller's own and not the only administrator; nothing else changes |
| Users.ResetDoes | crates/banto-admin-services/src/users.rs:814-851 | A reset replaces the password, and advances the epoch, if and only if it is long enough and the account is there |
| Users.ValidateNewIff | crates/banto-admin-services/src/users.rs:117-142 | Acceptable is a trimmed name of 1 to 32 characters and a password of at least 8 |
| Text.TrimSpec | crates/banto-admin-services/src/users.rs:129-130 | Trimming takes whitespace off both ends and all of it |
| Users.UsersService.CreateUser | crates/banto-admin-services/src/users.rs:653-735 | The name is looked for in one statement and the row inserted in the next: what other handles insert in between is met by the unique index |
| Users.UsersService.ResetPassword | crates/banto-admin-services/src/users.rs:814-851 | The reset does what the run step says, and replaces the password if and only if it can |
| Users.UsersService.UpdateUser | crates/banto-admin-services/src/users.rs:746-804 | The update is the run step, done if and only if the guard allows it, and sets exactly role and display name |
| Users.UsersService.DeleteUser | crates/banto-admin-services/src/users.rs:868-910 | The delete is the run step, done if and only if the guards allow it, and removes exactly that account |
| Users.UsersService.ChangePassword | crates/banto-admin-services/src/users.rs:484-567 | Read, verify, compare and swap with other handles in between: done if and only if the right password was given and its hash kept, and then only hash and epoch change |
| CspPolicy.WideningChangesOnlyConnectSrc | crates/banto-server/src/security_headers.rs:302-351 | For every sequence of accepted calls, a parser sees the strict policy with only `connect-src` different: `'self'`, then every accepted source once in first-occurrence order; one call with all the sources gives the same |
| CspPolicy.EveryResponse | crates/banto-server/src/security_headers.rs:477-498 | The policy of every response parses as the strict directives or as the strict directives with the configured sources, no other |
| CspPolicy.StrictDirectives | crates/banto-server/src/security_headers.rs:175-182 | What a parser sees of the strict policy, word for word |
| CspPolicy.ParsePrint | crates/banto-server/src/security_headers.rs:175-182 | The parser of Content Security Policy Level 3, section 2.2.1 reads back any printed list of directives |
| CspPolicy.PolicyIsPrinted | crates/banto-server/src/security_headers.rs:342-351 | Widening by text replacement gives exactly the print of the directives with the sources added |
| CspPolicy.DirectiveIsFound | crates/banto-server/src/security_headers.rs:350-350 | The replacement finds the `connect-src` directive itself, nothing before it |
| CspPolicy.PolicyIsAHeaderValue | crates/banto-server/src/security_headers.rs:478-484 | The text is always visible ASCII and spaces, so the header value is legal |
| CspPolicy.OneTextIffNoComma | crates/banto-server/src/security_headers.rs:215-222 | Split at commas, as the standard splits the header, the text is one policy text if and only if no source has a comma: what refusing commas is for |
| CspPolicy.HeaderIsOnePolicy | crates/banto-server/src/security_headers.rs:477-498 | With accepted sources the header of every response lists exactly one policy, that of its directives |
| CspPolicy.VerdictAccepts | crates/banto-server/src/security_headers.rs:215-244 | Accepted sources are exactly the non-empty runs of visible ASCII without `;` and `,` |
| CspPolicy.ReasonOfTheFirst | crates/banto-server/src/security_headers.rs:223-244 | The reason reported is that of the first refused character, by its code |
| CspPolicy.AddedOrder | crates/banto-server/src/security_headers.rs:296-319 | Sources are kept once, in first-occurrence order, without `'self'` |
| CspPolicy.BatchesConcatenate | crates/banto-server/src/security_headers.rs:296-319 | Several calls are one call with all their sources |
| CspPolicy.SecurityHeaders.ExtraConnectSrc | crates/banto-server/src/security_headers.rs:302-319 | All the sources are added, or - at the first invalid one, which is reported with its reason - none |
| CspPolicy.SecurityHeaders.ValidateSource | crates/banto-server/src/security_headers.rs:223-244 | The scan reports the reason of the first refused character |
| EventStream.ChecksKeepTheirDistance | crates/banto-server/src/events.rs:77-118 | However long checks take and however slowly the stream is polled, a whole period lies between the end of a check and the start of the next |
| EventStream.EndedIff | crates/banto-server/src/events.rs:207-231 | Over any run a stream has ended if and only if one of its turns is a closed channel, a shutdown or an answer in time that the session is invalid, and then at the first of them: a store error or a timeout never ends a stream |
| EventStream.ClockAndChecks | crates/banto-server/src/events.rs:77-118 | Over any run the clock, the deadline and the checks made are those of its turns: one check for each re-check turn, cut at the timeout, and the deadline a period after the last of them was over |
| EventStream.RevokedStreamEnds | crates/banto-server/src/events.rs:11-38 | A session revoked at r, promptly polled, with lookups that answer in time from then on: its stream ends by r + period + 2 * timeout |
| EventStream.RevokedBoundReached | crates/banto-server/src/events.rs:11-38 | That bound is attained |
| EventStream.DeliversInOrder | crates/banto-server/src/events.rs:222-231 | Every event taken is delivered once and in order until the stream ends |
| EventStream.Serve | crates/banto-server/src/events.rs:179-235 | The loop delivers, stops and re-arms its deadline as the runs above say |
| SseClient.OneAttemptOrTimer | packages/admin-core/src/events.ts:174-233 | In every run: never both an attempt and a timer, one of them until the unsubscribe; the last rejected token is never sent; no token is reported cleared whose last attempt ended in 401 |
| SseClient.ReactsExactly | packages/admin-core/src/events.ts:206-237 | In every run, at once and exactly when called for: a token seen in storage is sent unless it is the one rejected last; while subscribed, storage seen empty after a token was in use is reported (`onTokenCleared`), and so is a 401 (`onUnauthorized`) |
| SseClient.DelayIff | packages/admin-core/src/events.ts:201-237 | The next try is three seconds away after a failed attempt or an ended stream, and half a second in every other case |
| SseClient.EveryChunkIsHandedOver | packages/admin-core/src/events.ts:250-261 | In every run the events handed over so far, and those still at hand, are the events of all the chunks read, in order |
| SseClient.QuietAfterUnsubscribe | packages/admin-core/src/events.ts:250-273 | After the unsubscribe nothing is read from storage or sent and no hook is called; only answers still arrive, and only the events of one chunk are handed over, in order and none twice: the rest of the chunk it came in, or the one whose read was under way |
| SseClient.ReconnectedExactly | packages/admin-core/src/events.ts:240-248 | `onReconnected` is called at a success if and only if the client is subscribed, the token is still the stored one, and a stream of it was established before with no 401, no empty storage seen and no attempt with another token in between |
| SseClient.OnlyTheRejectedTokenGoesUnnoticed | packages/admin-core/src/events.ts:206-218 | Another token seen in between goes unnoticed if and only if it is the one rejected last |
| SseClient.RejectedTokenSeenInBetween | packages/admin-core/src/events.ts:213-248 | It does happen: a rejected token shows up in storage between two streams of another one, and the success of the second is still reported as a reconnect |
| SseClient.RejectedThenNewLogin | packages/admin-core/src/events.ts:226-234 | The state it starts from is reached by a 401 and a new login |
| SseClient.RunKeepsInv | packages/admin-core/src/events.ts:176-189 | What `rejectedToken`, `usedToken` and `hasConnected` mean, as facts about everything seen, sent and answered so far |
| SseClient.Subscription.ConnectOnce | packages/admin-core/src/events.ts:206-224 | `connectOnce` up to its fetch, on the fields it updates |
| SseClient.Subscription.OnResponse | packages/admin-core/src/events.ts:226-248 | `connectOnce` from its response on |
| SseClient.Subscription.OnChunk | packages/admin-core/src/events.ts:253-259 | The dispatch loop hands over every event of a chunk, in order, also when the handler of one of them unsubscribes |

## Left out

- AuditReads.AuditLog.Prune: the age cutoff is a parameter and `ts` is compared as text, as on SQLite; PostgreSQL's cast to `timestamptz` is not modelled, nor is another prune between the two deletes of this one.
- DeletionEpoch.BumpIsSeenIff: the 64-bit range of the epoch and the 18 digits PostgreSQL's pattern allows are not modelled; a prune writes such a number only after 10^18 others.
- AuditReads.SameCountAndEpochSameRows: assumes, as the code documents, that rows are deleted by prunes only and never updated, and starts from an epoch text on which prunes and readers agree (`Agreed`).
- ListQuery.OneSequence: the filter operators are any test of one column's value, and text is compared by code point; SQL collations, `LIKE` escaping and the SQL text are left out.
- AuditSpool.NothingIsLost: prunes are excluded there, since a flushed row older than the retention may be deleted at once; quarantined and unreadable files, stale `.tmp` files, `last_error`, `oldest_ts` and the log lines are left out.
- SpoolService.Service.FlushLocked: the order oldest first is the scan's and is a parameter; the JSON of a flushed `detail` is only its spooled mark.
- ReachLimiter.SlidingWindowBound: assumes a clock that does not go back between checks; the code reads the clock before it takes the store's lock, so two racing checks may see their times in the other order.
- ReachStore.ReachCheckState.CheckRequest: routing, the header reading of the authority, the interface listing, token randomness and the timing of the comparison are left out.
- UniquePath.UniquePath: the suffix is unbounded; the code's 32-bit counter would overflow only in a directory of at least 2^32 - 1 files, as the contract's bound shows.
- Restore.CrashSafe: contents of the write-ahead log are left out (a checkpoint yields some main file), and the database checks are one bit of a file's content; staging runs while no start-up does.
- BackupNames.ScopesAreDisjoint: paths are text joined with `/`; case-insensitive file systems are not modelled.
- Calendar.NextDay: integers are unbounded; day numbers near the limits of 64 bits are not modelled.
- AttachmentStore.RowHasItsBodyIff: validation of names and sizes, MIME detection, image decoding and the read paths are left out, as are writers outside the service.
- AttachmentsService.AttachmentsService.DeleteForRecord: the rows the record's SELECT lists are a parameter, and an error of that SELECT is left out.
- LegacyImport.CommitIsTheRowsFile: SHA-256 is a number attached to a content; distinct contents may share it. A temporary file that could neither be written nor removed is left out: its name is never used again.
- Grants.LiveWithinCap: which tokens have expired is a parameter of each step; the grammar of kind names and the idle windows are left out.
- Users.CommitIffHashKept: argon2 is a verification function and a counter of fresh hashes; the read-only operations, login, audit bounding of names and storage errors other than a username taken meanwhile are left out.
- CspPolicy.EveryResponse: the selector is its answer; the loopback and authority selectors and the other headers are left out.
- EventStream.RevokedStreamEnds: prompt polling is an assumption; keepalive comments, the manual schedule used in tests, JSON and SSE framing are left out.
- SseClient.ReconnectedExactly: hooks that call back into the subscription, SSE framing and JSON (a payload is an application event or malformed), and the bridge to notifications are left out.
- Settings getters and setters, RBAC, CSRF, static files, list views, system metrics and all UI are left out: they would add easy members only.
