# Verified model of the collector's state protocols

Dafny models of the parts of the QuantPro collector where several calls, crashes or replays meet one
store, with proofs about every run of them.

| Part | Files |
|---|---|
| Research job leases | `WorkflowTables` (the atomic batches), `WorkflowInvariants`, `LeaseHistory`, `LeaseFencing`, `WorkflowDatabase` (the statements of each batch), `WorkflowCalls` (claim, submit, defer, read by read) |
| Receipts and payload hashes | `Receipts`, `Decimals`, `CanonicalJson`, `ProposalPayload` |
| PUBLIC replica | `PublicReplica`, `SemanticIndex`, `Chunker`, `Retention`, `ReplicaBudget` (the machine), `ReplicaOverdraw`, `ReplicaIngest` (the call) |
| Portfolio deltas | `PortfolioDelta` |
| Market checkpoint chain | `MarketLedger`, `MarketAppend`, `MarketBook`, `HoldingDay` |
| Write-once protocols | `StateReceipts`, `StateReceiptCalls`, `IssueBookkeeping`, `IssueSubmission` |
| Shared lemmas | `Options`, `Sorting`, `Lexicographic`, `Filters`, `Totals`, `Text` |

## How concurrency is modelled

A `db.batch` is one atomic step, and so is every single statement outside a batch.  A protocol is a value
(the tables) with a step function, and its theorems are about `Run` over any sequence of steps.  Beside it
stands a class whose methods execute the statements of one call in the order of the source; before every
access an arbitrary `env(n)` of other calls' steps commits, so everything a call has read, its `now`
included, may be stale.  Each class keeps its whole history as a run of the value machine, so the run
theorems hold of the store whenever a method returns.  A crash is a call that is never continued.

Assumptions: job leases, terminal rows and deferrals are keyed by job id, `idempotency_key` is UNIQUE, at
most one formal RECEIVED proposal per job (partial index), and a violated constraint rolls back its whole
batch.  Random tokens and proposal ids are fresh; a step that would reuse one does nothing.  Times are
integers in milliseconds.  SHA-256, base64 with `JSON.stringify` of a cursor, and number tokens are
parameters with the laws each theorem names.  Library sorts are stable; the model uses insertion sort.
Job calls are those of formal owners, the only callers the tools admit.

## What the proofs found

- A job's leases do not overlap, except through a defer whose `now` is older than the lease it releases: its
  recheck time may lie inside an earlier lease.  `LeaseHistory.DeferIsSafeIffNoOverlap` is the exact
  condition, `LeaseHistory.StaleDeferOverlaps` a history, and `LeaseHistory.CausalDeferIsSafe` shows that a
  `now` read after the claim is always safe.
- `claim_count` restarts after a defer, so an old fence can open the new lease row
  (`LeaseFencing.FenceReopensAfterDefer`); within one row's lifetime it never does.
- The read plane shows a deferred job as queued (`LeaseFencing.QueuedIsClaimableUnlessDeferred`).
- Unsafe and oversized proposals are hashed as `{}`, so two different ones under one idempotency key are a
  replay, not a conflict (`ProposalPayload.DifferentOversizedPayloadsReplay`, for two proposals that differ in
  one long member; `ConflictIffDifferent` says exactly when).
- Index and document read put the same version first exactly when some servable version has a finite number,
  there is no servable version, or the first one in the table has the least version id
  (`SemanticIndex.EveryHitConfirmedIffSettled`, for all index states and objects;
  `SemanticIndex.NotFiniteDisagrees` is a document outside).  Ingest does not check the type of a version number.
- A hit is validated against the expiry mark only in its first read.  Whatever changes between the reads, a hit
  agrees with the document read if and only if the document is not marked EXPIRED when its versions are read
  (`SemanticIndex.HitAgreesIffNotExpiredMeanwhile`); `SemanticIndex.ExpiredMeanwhileIsStillAHit` is a document
  marked in between that the search still shows.
- The chunker prefers sentence boundaries only up to the first stretch of more than 1050 characters without one:
  behind it the whole rest of the text is cut into pieces of 1050 characters, wherever its boundaries are
  (`Chunker.CutAtBoundaries`, `Chunker.SegmentText`).
- The reference guard of the purge counts per 50 keys.  Beyond 50 versions it keeps every linked object
  (`Retention.ManyVersionsLeak`).
- `migrations/0013_research_retention.sql` promises a re-ingested document a fresh retention lifecycle.  The
  insert is `ON CONFLICT DO NOTHING` on the document id, so a PURGED row stops every later mark
  (`Retention.Stores.MarkExpired`; `Retention.Stores.ReturnAfterPurge` is such a document); the model follows the
  code.
- A call of another month switches the usage row away, and the next call switches it back with the write
  count at zero.  After any run such a switch is safe, for every continuation in that month, if and only if the
  puts made and owed for it, together with the writes that the row and the room in the store still admit, fit the
  limit (`ReplicaOverdraw.SwitchIsSafeIffItFits`, for any least journal size).  While there is room for 990000
  writes that means: nothing put and nothing owed.  `ReplicaOverdraw.OverdrawnRun` is a run from empty tables,
  with journals and objects of 9000 bytes, that makes more than 990000 puts in one month.
- The first checkpoint of a day is stored whatever its records are
  (`MarketAppend.FirstCheckpointIsUnchecked`).  If an ACTIVE record in it has no key or two, no later slot of
  that day is ever stored (`MarketBook.IllKeyedCheckpointBlocksTheDay`); a later slot is open exactly when the
  checkpoint before it is well keyed (`MarketAppend.SlotOpenIffWellKeyed`).
- A full day satisfies the checker's chain clauses exactly when its slots were appended in slot order
  (`HoldingDay.ChainIffInOrder`), and a day that passes never changed its active instruments
  (`HoldingDay.PassedDayIsConstant`).
- Two bookkeeping calls for one key can both reach GitHub if and only if they carry the same `now`
  (`IssueBookkeeping.BothSendIffSameNow`).

## Model

| member | source | states |
|---|---|---|
| `WorkflowInvariants.StepInv` | src/research-workflow.ts:472-502 | every batch keeps the invariant: lease shape, terminal consistency, unique proposal ids and deferral keys, receipts conserved |
| `WorkflowInvariants.LeaseStep` | src/research-workflow.ts:1072-1095 | a job's lease row changes only by a takeover after its expiry, by the submit that completes the job, or by the defer that gates it |
| `WorkflowInvariants.TerminalIsFinal` | src/research-workflow.ts:1072-1095 | in every reachable state and every continuation a terminal job has no lease, one formal proposal (the one the terminal names), one COMPLETED and one SUBMIT_RECEIVED, unchanged for good, and no further CLAIMED |
| `WorkflowInvariants.RunExtends` | src/research-workflow.ts:671-708 | terminals, deferrals and proposals never change once written, and receipts are only appended, so a key's verdict is for good |
| `WorkflowInvariants.ClaimsAreConserved` | src/research-workflow.ts:490-502 | CLAIMED = LEASE_EXPIRED + terminal + deferred + leased, for every run and job |
| `WorkflowInvariants.NoClaimAfterTerminal` | src/research-workflow.ts:479-481 | after completion no run adds a CLAIMED receipt |
| `LeaseHistory.MutualExclusion` | src/research-workflow.ts:472-502 | over every interleaving with stale clocks whose defers are safe, all lease intervals of a job are pairwise disjoint |
| `LeaseHistory.DeferIsSafeIffNoOverlap` | src/research-workflow.ts:1198-1219 | a defer lets no later claim overlap an earlier lease if and only if its recheck time is behind all of them |
| `LeaseHistory.CausalDeferIsSafe` | src/research-workflow.ts:1175-1219 | a defer whose `now` is not before the recorded claim is safe |
| `LeaseHistory.StaleDeferOverlaps` | src/research-workflow.ts:1198-1219 | a concrete history with a stale defer has two overlapping leases |
| `LeaseFencing.GenerationsGrow` | src/research-workflow.ts:479 | within a row's lifetime the row is unchanged or its generation is larger and its claim no earlier than the old expiry |
| `LeaseFencing.FencedWrites` | src/research-workflow.ts:1072-1095 | a submit or defer with an old (owner, generation) that commits finds the very row it was given, unless a defer ended that row |
| `LeaseFencing.SupersededCommitsNothing` | src/research-workflow.ts:1066-1073 | within a lifetime a superseded generation commits nothing, whatever `now` it carries |
| `LeaseFencing.FenceDecides` | src/research-workflow.ts:1072-1095 | in every reachable state a submit or defer commits all its rows together with the release exactly when the fence holds, else nothing |
| `LeaseFencing.FenceReopensAfterDefer` | src/research-workflow.ts:1210-1219 | after a defer the restarted counter lets an old fence submit against the new row |
| `LeaseFencing.QueuedIsClaimableUnlessDeferred` | src/research-remote-adapter.ts:508-539 | a job shown as queued can be claimed exactly when it is not deferred, and a deferred job without lease is shown as queued; a claimed one shows as claimed |
| `WorkflowDatabase.Database.ClaimBatch` | src/research-workflow.ts:476-502 | the three statements of a claim are the one atomic transition |
| `WorkflowDatabase.Database.AcceptBatch` | src/research-workflow.ts:1074-1095 | the five guarded statements of a submit are one transition; it rolls back exactly when a UNIQUE key rejects it |
| `WorkflowDatabase.Database.RejectBatch` | src/research-workflow.ts:895-925 | an audited refusal adds its row and receipt, or rolls back when the key is taken |
| `WorkflowDatabase.Database.DeferBatch` | src/research-workflow.ts:1210-1219 | the recheck gate and the fenced release commit together |
| `WorkflowDatabase.Database.Transact` | src/research-workflow.ts:737-755 | every executed transaction extends the log of the run |
| `WorkflowCalls.ClaimJob` | src/research-workflow.ts:431-554 | under any interference each answer is true of the tables on return; alone, answer and tables are those of one atomic claim |
| `WorkflowCalls.LoneClaimMeaning` | src/research-workflow.ts:431-554 | a claim alone: terminal, deferred, held by the caller or another, or granted for one hour with the next generation and its receipts |
| `WorkflowCalls.ClassifyClaim` | src/research-workflow.ts:519-551 | the reads after a lost claim answer truthfully or ask for the retry |
| `WorkflowCalls.SubmitProposal` | src/research-workflow.ts:809-1127 | ACCEPTED exactly when the caller's own proposal is the job's terminal result; every other answer left this call's refused row with that reason and its receipt, or nothing of its own and then the stored row, the terminal or its absence explain it; a stored key adds no row but one conflict receipt, and answers CONFLICT for another payload, the stored id and time of a received row, the stored reason of a rejected one |
| `WorkflowCalls.SubmitNewKey` | src/research-workflow.ts:857-1127 | the checks in source order for a key not seen; each refusal is explained by the row it left or by the tables on return; exact when alone |
| `WorkflowCalls.RefuseWithRow` | src/research-workflow.ts:877-935 | a refusal leaves its own REJECTED row and receipt, or the row that took the key meanwhile answers |
| `WorkflowCalls.AcceptFormal` | src/research-workflow.ts:1065-1127 | the fenced batch and the re-reads that classify it: ACCEPTED if and only if this call's proposal is the terminal one |
| `WorkflowCalls.ResolveRace` | src/research-workflow.ts:757-782 | a key taken meanwhile answers with its stored row: CONFLICT and one SUBMIT_CONFLICT for another payload, else the row's id and time, or its reason |
| `WorkflowCalls.StoredRowAnswers` | src/research-workflow.ts:688-708 | in every reachable state a stored rejected row has a reason and answers with it |
| `WorkflowCalls.RefusalIsReplayed` | src/research-workflow.ts:688-708 | after any run a refusal is replayed with the reason it was first answered with, and another payload conflicts |
| `WorkflowCalls.LeaseProblemMeaning` | src/research-workflow.ts:940-945 | which of the four lease refusals a lease row gives, in the order of the checks |
| `WorkflowCalls.LoneSubmitMeaning` | src/research-workflow.ts:857-1127 | a new key alone: each answer with its cause and every row and receipt it leaves, field by field |
| `WorkflowCalls.DeferJob` | src/research-workflow.ts:1150-1239 | each answer of a defer is true of the tables on return: LEASE_INVALID names the lease problem found there, an unavailable store means another deferral of the job; alone it defers exactly under the fence |
| `WorkflowCalls.LoneDeferMeaning` | src/research-workflow.ts:1150-1239 | a new key alone: each answer with its cause, and the gate and the release it leaves |
| `WorkflowCalls.LoneReplayMeaning` | src/research-workflow.ts:1184-1197 | a stored key alone changes nothing: its recheck time and the current status, or CONFLICT for another payload |
| `WorkflowCalls.CurrentStatusMeaning` | src/research-workflow.ts:413-424 | the status shown by a replay, from the terminal, the lease and the deferral |
| `WorkflowCalls.ReadStatus` | src/research-workflow.ts:413-424 | the status a deferral replay reports was read in order terminal, lease, deferral |
| `WorkflowCalls.ReplayDefer` | src/research-workflow.ts:1184-1197 | a reused defer key replays its stored recheck time, or is a conflict for another payload |
| `CanonicalJson.PrintUnique` | src/research-workflow.ts:295-305 | two printed values followed by text that cannot continue them have equal text only if the values are equal |
| `CanonicalJson.CanonicalIffSame` | src/research-workflow.ts:295-305 | canonical texts are equal exactly when the values are, with objects read as maps (RFC 8259, sections 4 to 7) |
| `CanonicalJson.EscapeMeaning` | src/research-workflow.ts:295-305 | which characters are escaped and how (RFC 8259, section 7) |
| `CanonicalJson.LeafTexts` | src/research-workflow.ts:295-305 | the texts of the leaves and of empty arrays and objects |
| `CanonicalJson.ArrayText` | src/research-workflow.ts:295-305 | elements in their order |
| `CanonicalJson.ObjectText` | src/research-workflow.ts:295-305 | members in key order, whatever order they were given in |
| `ProposalPayload.ConflictIffDifferent` | src/research-workflow.ts:688-708 | a reused key is CONFLICT exactly when the payloads are different values and not both stored as the placeholder |
| `ProposalPayload.AcceptedPayloadIsNoPlaceholder` | src/research-workflow.ts:784-800 | an accepted payload is hashed as itself |
| `ProposalPayload.DifferentOversizedPayloadsReplay` | src/research-workflow.ts:792-798 | two different objects that agree except in one oversized text member have one hash, and the second replays the first's refusal |
| `ProposalPayload.PreparedMeaning` | src/research-workflow.ts:784-800 | what may be accepted, and what is hashed: the canonical text up to 65536 bytes when it is safe, else `{}` |
| `ProposalPayload.Utf8Meaning` | src/research-workflow.ts:793-793 | the bytes of a text are those of its characters, one to four each |
| `Receipts.CursorRoundTrip` | src/research-workflow.ts:206-243 | decoding an encoded cursor gives back every canonical sequence up to 2^63-1 |
| `Receipts.OneTextPerPosition` | src/research-workflow.ts:206-243 | the sequence in an accepted cursor is the decimal of its value, which the server's own cursor for that position carries |
| `Receipts.LegacyCursorsRestart` | src/research-workflow.ts:245-279 | a cursor of an earlier format is refused or restarts at zero |
| `Receipts.CursorMeaning` | src/research-workflow.ts:220-279 | which tagged cursors name a position, restart at zero or are refused |
| `Receipts.PlainCursorMeaning` | src/research-workflow.ts:220-279 | no cursor asks for everything, a timestamp restarts at zero, anything else is refused |
| `Receipts.ReceiptStore.Append` | migrations/0007_research_receipt_order_v3.sql:46-58 | the trigger gives each event the next sequence; nothing before it changes |
| `Receipts.ReceiptStore.List` | src/research-workflow.ts:1248-1341 | one page is the answer the log gives at the moment of the query, with one item per row showing its event, request and reason |
| `Receipts.RefusedPages` | src/research-workflow.ts:1248-1275 | refused exactly for a limit outside 1 to 500 or a bad cursor, unavailable exactly when events and order rows do not pair |
| `Receipts.ItemMeaning` | src/research-workflow.ts:1311-1331 | an item shows job, kind, time, actor, proposal, origin and request of its event |
| `Receipts.ItemsAreStable` | src/research-workflow.ts:1311-1331 | one event gives the same item in every later log and different events different receipt ids, so a restarted consumer can drop what it has |
| `Receipts.PagesAreAPrefix` | src/research-workflow.ts:1272-1340 | following `next_since` over a log that grows between calls, at any limits, yields exactly a prefix in sequence order |
| `Receipts.FixedLogDrains` | src/research-workflow.ts:1272-1340 | a log that no longer grows is delivered completely |
| `Decimals.DecimalRoundTrip` | src/research-workflow.ts:206-218 | the decimal text of a sequence has no leading zero and its value is the sequence |
| `Decimals.DecimalOrder` | src/research-workflow.ts:206-218 | digits stand most significant first |
| `Chunker.CutAtBoundaries` | src/research-semantic-index.ts:192-202 | cuts at each boundary within the bound of the previous cut, up to the first that is too far, and nowhere behind that; nothing is lost |
| `Chunker.CutSegment` | src/research-semantic-index.ts:204-211 | only the last piece of a long segment is shorter than the bound, a segment within it stays whole, and nothing is lost |
| `Chunker.SegmentText` | src/research-semantic-index.ts:192-213 | for any boundary positions the pieces concatenate to the text, have 1 to `maxSegment` characters, and are the cuts at the near boundaries followed by full pieces |
| `Chunker.Assemble` | src/research-semantic-index.ts:237-249 | every chunk is the overlap of the one before it and as many whole segments as fit in 1200 characters |
| `Chunker.AssembledCovers` | src/research-semantic-index.ts:237-249 | so each chunk begins with the previous one's overlap, and without the overlaps the chunks rebuild the text |
| `Chunker.TailMeaning` | src/research-semantic-index.ts:215-223 | the overlap is the last 150 characters, or what follows the first line break among the first 76 of them |
| `Chunker.ChunkDocument` | src/research-semantic-index.ts:231-260 | at most 32 chunks with ordinals 0, 1, ...; untruncated they are the assembled segments and rebuild the text, truncated the first and last sixteen of those; a text of more than 38400 characters is always reported as truncated |
| `Chunker.RebuildBound` | src/research-semantic-index.ts:47-49 | chunks within the bounds cannot carry more than 1200 characters each |
| `PublicReplica.GetDocument` | src/research-remote-adapter.ts:353-404 | the sorting loop with its flag and one object read per candidate; on a steady bucket the plain read |
| `PublicReplica.ServedIffBestAvailable` | src/research-remote-adapter.ts:374-403 | exactly the best version whose object is present is served, and only with the bytes its hash names |
| `PublicReplica.ServedIsStored` | src/research-remote-adapter.ts:382-401 | what is served is a stored version of that document, unexpired, with matching bytes |
| `PublicReplica.ServableBodyMeaning` | src/research-remote-adapter.ts:165-189 | a withdrawal has no body; any other version has its own when media type and hash are good, else that of its first fetched, readable, well formed text extraction |
| `PublicReplica.ReadableMeaning` | src/research-remote-adapter.ts:122-132 | text, JSON, XML and XHTML are readable, whatever follows the first semicolon |
| `PublicReplica.ServedBodyMeaning` | src/research-remote-adapter.ts:382-401 | whatever the bucket does meanwhile, the row served is stored, unexpired and no withdrawal, and its body is the one its fields name, with the bytes of its hash |
| `PublicReplica.ServedIsHighest` | src/research-remote-adapter.ts:374-380 | no version whose object is present has a higher number, or the same number and a lesser key |
| `PublicReplica.ReadFailureMeaning` | src/research-remote-adapter.ts:364-403 | what each failure says about the versions stored |
| `PublicReplica.BrokenRowFails` | src/research-remote-adapter.ts:365-371 | a row without a version record fails the read of its document |
| `Lexicographic.LexLeqMeaning` | src/research-remote-adapter.ts:377-378 | keys compare at the first place where they differ |
| `SemanticIndex.HitAgreesIffNotExpiredMeanwhile` | src/research-semantic-index.ts:727-791 | whatever the index state and whatever changes between the three reads, a hit agrees with every `getDocument` on the same versions whose first object read is at the same moment - it serves a body hit's version and hash, fails on a corrupt object, cannot serve a title hit - if and only if the document is not marked expired when the versions are read |
| `SemanticIndex.HitAgreesWithRead` | src/research-semantic-index.ts:727-791 | so a hit agrees with the read when no expiry mark is set between the index read and the version read |
| `SemanticIndex.ExpiredMeanwhileIsStillAHit` | src/research-semantic-index.ts:731-748 | a document marked expired between the two reads is a body hit that the read does not find |
| `SemanticIndex.SameFirstIffSettled` | src/research-semantic-index.ts:525-534 | the two orders put the same servable version first exactly on settled versions |
| `SemanticIndex.EveryHitConfirmedIffSettled` | src/research-semantic-index.ts:525-586 | for all index states and objects every hit agrees with the read, if and only if the servable versions are settled |
| `SemanticIndex.ReadyRowHitsIffServed` | src/research-semantic-index.ts:727-791 | a ready row of the first servable version hits exactly when the read serves it and its text is not empty |
| `SemanticIndex.BodyHitMeaning` | src/research-semantic-index.ts:727-791 | exactly when a hit shows a body: its index row is ready for that hash, its version is the first servable one, no withdrawal, whose own fields name that hash, and the object has those bytes and a text |
| `SemanticIndex.CorruptHitMeaning` | src/research-semantic-index.ts:727-791 | exactly when a hit fails: the same with an object of other bytes |
| `SemanticIndex.TitleHitMeaning` | src/research-semantic-index.ts:727-791 | exactly when a hit shows a title: no version is servable, and it is the highest one and has a title |
| `SemanticIndex.FirstIndexedIsHighest` | src/research-semantic-index.ts:525-534 | the servable version the index takes has the highest number, a finite one before any other, and of equals the least id |
| `SemanticIndex.NotFiniteDisagrees` | src/research-semantic-index.ts:525-534 | two versions with numbers that are not finite, the greater id first in the table, are such a document |
| `SemanticIndex.FiniteNumbersSettle` | src/research-semantic-index.ts:525-534 | finite version numbers settle every document |
| `SemanticIndex.RegisterSupersedes` | src/research-semantic-index.ts:422-458 | ingesting a servable version disables its siblings, keeps its own row only for the same bytes, and touches no other document |
| `SemanticIndex.RegisterMeaning` | src/research-semantic-index.ts:422-458 | every index row an ingest leaves, field by field |
| `SemanticIndex.Search` | src/research-semantic-index.ts:845-863 | with stores that change between candidates and reads: each result is its document's first hit, in candidate order, unexpired when its index row was read, and agrees with the read exactly unless it was marked expired before its versions were read; no document twice, none missed below the limit; it fails exactly at a corrupt object of a document not found before |
| `Retention.ForeignReferences` | src/research-retention.ts:402-417 | the chunked count is zero exactly when no chunk leaves a link outside |
| `Retention.GuardMeaning` | src/research-retention.ts:402-421 | the guard never releases shared content; up to 50 versions it decides exactly sharing, beyond 50 exactly being linked |
| `Retention.ManyVersionsLeak` | src/research-retention.ts:264-281 | beyond 50 versions an object linked by the document itself is kept |
| `Retention.NeverShared` | src/research-retention.ts:396-421 | content a later run deletes was not shared when the first run began |
| `Retention.LeftForLast` | src/research-retention.ts:402-421 | up to 50 versions, unshared content stays reclaimable through any number of interrupted runs |
| `Retention.Stores.Capture` | src/research-retention.ts:284-308 | the three queries, with ingests between them, capture everything of the document that was there at the start and nothing that is not there at the end |
| `Retention.Stores.MarkExpired` | src/research-retention.ts:317-346 | stores that capture and retires the document's index rows and no others; a document that has a row, PURGED or not, is not marked again |
| `Retention.Stores.DeleteObjects` | src/research-retention.ts:402-421 | deletes exactly the reclaimable hashes, or fewer when it dies |
| `Retention.Stores.DeleteLinks` | src/research-retention.ts:431-464 | removes exactly the own links chunk by chunk, or fewer when it dies |
| `Retention.Stores.Purge` | src/research-retention.ts:369-499 | dying anywhere leaves the row EXPIRED and removes from every store only own rows, journals, vectors and reclaimable content; a complete run flips it |
| `Retention.Stores.PurgeUntilDone` | src/research-retention.ts:369-499 | any number of dead runs and one that lives: PURGED, everything captured gone, nothing shared and nothing of other documents ever deleted in any store, nothing unshared left up to 50 versions |
| `Retention.Stores.ReturnAfterPurge` | src/research-retention.ts:317-346 | a document marked, purged and ingested again is not marked again, and its new version stays |
| `ReplicaBudget.ByteAdvance` | src/research-replica.ts:227-243 | each statement takes what it stores from its call's reservation or adds it to the row |
| `ReplicaBudget.PaidAdvance` | src/research-replica.ts:227-243 | a put uses up one owed write of its month, and only an admitted reservation adds to what a month has made or owes |
| `ReplicaBudget.MessageAdvance` | src/research-replica.ts:245-316 | a message becomes stored exactly when one call inserts it, and the acceptance count lags only by calls not yet counted |
| `ReplicaBudget.BytesWithinBudget` | src/research-replica.ts:42-114 | over every interleaving, crash and replay the bytes in R2 are at most `stored_bytes`, at most 9.8e9 |
| `ReplicaBudget.WritesWithinBudget` | src/research-replica.ts:81-114 | when no switch goes to a month already written in or owed, a month's puts are at most 990000, and in the row's month at most its count |
| `ReplicaBudget.ForwardWritesWithinBudget` | src/research-replica.ts:86-99 | so it is when the executed switches only go forward |
| `ReplicaOverdraw.StaysCovered` | src/research-replica.ts:100-114 | while the row stays in its month it covers the month's puts |
| `ReplicaOverdraw.SwitchIsSafeIffItFits` | src/research-replica.ts:93-114 | after any run with journals of at least a given size, every continuation of a switch that stays in the month keeps its puts within 990000, if and only if the puts made and owed for it and the writes the row and the room still admit fit together |
| `ReplicaOverdraw.SwitchIsSafeIffUnused` | src/research-replica.ts:93-114 | with no least size that is: no put was made and none is owed for the month |
| `ReplicaOverdraw.OverdrawnRun` | src/research-replica.ts:86-114 | a run from empty tables puts more than 990000 times in one month |
| `ReplicaBudget.AppliedOnce` | src/research-replica.ts:309-318 | two calls never both report APPLIED for one message |
| `ReplicaBudget.StoredMessagesAreJournalled` | src/research-replica.ts:233-316 | the journal of every stored message is in R2, or was there until retention deleted it; counted acceptances never exceed stored messages |
| `ReplicaIngest.Replica.ReserveR2Quota` | src/research-replica.ts:81-114 | the three statements under interference; alone it charges the named month or refuses |
| `ReplicaIngest.Replica.Ingest` | src/research-replica.ts:173-337 | a call, any access of which may fail, is a path of the machine and its answer the path's end; STORE_UNAVAILABLE only when one fails; undisturbed it applies, replays or refuses and changes exactly what that means |
| `ReplicaIngest.LoneCallMeaning` | src/research-replica.ts:81-114 | a call alone in numbers: a known message changes nothing, another is applied exactly when bytes and writes fit 9.8e9 and 990000, another month's writes not counting, and the row is booked |
| `ReplicaIngest.FilledMeaning` | src/research-replica.ts:233-243 | an applied call leaves its journal and its object in R2 and every other key as it was |
| `ReplicaIngest.Replica.WithinBudget` | src/research-replica.ts:42-114 | after every executed statement the store is within bytes and writes |
| `PortfolioDelta.ReduceIsValid` | src/portfolio-delta.ts:214-276 | on valid input the reducer never throws, both outputs pass the validators, and old minus removed plus added is new |
| `PortfolioDelta.HashFormat` | src/portfolio-delta.ts:66-66 | a hash is the tag and 64 hexadecimal digits |
| `PortfolioDelta.CodeFormat` | src/portfolio-delta.ts:67-67 | a code is the market and five or six digits |
| `PortfolioDelta.BaselineReflects` | src/portfolio-delta.ts:278-349 | over any observation sequence the baseline is that of the last observation that counted |
| `PortfolioDelta.DeltaIffConsecutiveComplete` | src/portfolio-delta.ts:278-349 | a delta is emitted exactly between consecutive counted complete observations at increasing times with different hashes, and is their exact difference |
| `PortfolioDelta.OlderIsIgnored` | src/portfolio-delta.ts:290-295 | an older observation changes nothing |
| `PortfolioDelta.RecordOnceMore` | src/portfolio-delta.ts:407-423 | a redelivery after any partial write reaches the full result, and a further one changes nothing |
| `PortfolioDelta.CrashesDoNotShow` | src/portfolio-delta.ts:407-423 | any number of deliveries that die anywhere, then a complete one: the keys of an undisturbed run, for good |
| `PortfolioDelta.DeltaStore.Record` | src/portfolio-delta.ts:407-423 | reads, validates, puts the delta, then the baseline, stopping where the process dies |
| `PortfolioDelta.RecordedMeaning` | src/portfolio-delta.ts:407-423 | each way a delivery ends leaves the delta key, both keys or neither, with what the reduction gives |
| `PortfolioDelta.DeliveredMeaning` | src/portfolio-delta.ts:407-423 | over any trace delivered from empty keys the stored baseline reflects the last observation that counted, and the stored delta is the last one emitted |
| `PortfolioDelta.CrashedTraceIsDelivered` | src/portfolio-delta.ts:407-423 | so it is when any of the deliveries died any number of times before it completed |
| `MarketLedger.KeysDiffer` | src/market-ledger.ts:342-349 | different days or slots have different keys |
| `MarketLedger.RelatedMeaning` | src/market-ledger.ts:342-393 | key, schema, observation and references that each of the seven slots demands |
| `MarketLedger.CheckpointMeaning` | src/market-ledger.ts:249-267 | a comment without id, time or address is no checkpoint |
| `MarketLedger.BeforeIsOrder` | src/market-ledger.ts:273-281 | the checkpoint order is total and transitive |
| `MarketLedger.GroupByKey` | src/market-ledger.ts:294-299 | the map holds for every key exactly its checkpoints in sorted order |
| `MarketLedger.BuildState` | src/market-ledger.ts:283-340 | conflict exactly when two checkpoints share a slot; previous, preopen, current and previous close are the last or first of their kind |
| `MarketLedger.PreviousCloseMeaning` | src/market-ledger.ts:316-326 | the previous close is the closing checkpoint of the latest earlier day that has one |
| `MarketLedger.CurrentIsOldest` | src/market-ledger.ts:273-315 | among several checkpoints of a slot the oldest comment is shown |
| `MarketAppend.ActiveInstrumentKeys` | src/market-ledger.ts:416-447 | the loop collects the keys of ACTIVE records or fails |
| `MarketAppend.ActiveKeysMeaning` | src/market-ledger.ts:416-447 | those keys are each once, sorted, and exactly the ones ACTIVE records carry |
| `MarketAppend.KeyMeaning` | src/market-ledger.ts:420-445 | a record goes by the one key it names under either name or both, trimmed; two are a conflict, none is missing |
| `Text.TrimMeaning` | src/market-ledger.ts:422-429 | trimming removes blanks at both ends and nothing else |
| `MarketAppend.WithUniverseTransition` | src/market-ledger.ts:449-503 | the transition, or the two refusals |
| `MarketAppend.TransitionMeaning` | src/market-ledger.ts:468-503 | old keys minus removed plus added are the new keys, disjointly; status, both hashes and both flags say what changed |
| `MarketAppend.TransitionIsSorted` | src/market-ledger.ts:471-476 | both lists are sorted, each key once |
| `MarketAppend.BaselineMeaning` | src/market-ledger.ts:453-466 | the preopen checkpoint and the first of a day get a baseline, and no other |
| `MarketAppend.RefusedTransitions` | src/market-ledger.ts:468-483 | a transition is refused exactly for an ill-keyed record or for changed members under an unchanged hash |
| `MarketAppend.BuiltBatchFitsTheLedger` | src/state-commands.ts:376-398 | a batch built on a ledger and appended to it never fails the relation or chain checks |
| `MarketAppend.BatchMeaning` | src/state-commands.ts:376-398 | every field of the batch: those of the observation, the shape of its slot, and the references |
| `MarketAppend.ReferencesPointBack` | src/state-commands.ts:390-393 | references name existing checkpoints of the same day and an earlier slot |
| `MarketAppend.ResubmissionReplays` | src/market-ledger.ts:571-590 | a stored checkpoint submitted again right away is a replay of its comment |
| `MarketAppend.StoredIff` | src/market-ledger.ts:556-611 | a submission is stored exactly when it is well formed, the ledger has no duplicate and no checkpoint of its slot, its transition is defined, and its references name the latest earlier and the preopen checkpoint of the day; it is stored as submitted with the transition from that checkpoint |
| `MarketAppend.ReplayedIff` | src/market-ledger.ts:577-595 | it is a replay exactly of the comment of its slot that holds it already, as submitted or with the ledger's transition |
| `MarketAppend.RefusedIff` | src/market-ledger.ts:556-611 | exactly when a submission fails validation, conflicts or mismatches the chain, in the order of the checks |
| `MarketAppend.FirstCheckpointIsUnchecked` | src/market-ledger.ts:453-466 | the first checkpoint of a day is stored whatever its records are |
| `MarketAppend.SlotOpenIffWellKeyed` | src/market-ledger.ts:468-469 | an empty later slot can be filled if and only if the checkpoint before it has well-keyed ACTIVE records |
| `MarketBook.GrowInv` | src/market-ledger.ts:597-621 | appending a stored checkpoint keeps slots unique, ids distinct and every checkpoint explained by the comments before it |
| `MarketBook.IllKeyedCheckpointBlocksTheDay` | src/market-ledger.ts:416-469 | in every ledger, behind an ill-keyed checkpoint that no later slot of its day precedes, no later slot of that day is stored |
| `MarketBook.Ledger.Remark` | src/market-ledger.ts:249-252 | a comment without a checkpoint keeps every property of the ledger |
| `MarketBook.Ledger.Append` | src/market-ledger.ts:535-621 | the ledger grows by exactly the checkpoint the decision on a fresh read stores, or not at all |
| `MarketBook.Ledger.Observe` | src/state-commands.ts:351-400 | building and appending one observation never fails the chain and stores only a slot that is new, with the fields of the observation |
| `HoldingDay.GateMap` | automation/validate_holding_day.py:66-88 | succeeds exactly when all gates are well formed and no gate has two conditions, and then is the map of all gates |
| `HoldingDay.MergeVersions` | automation/validate_holding_day.py:141-151 | fails exactly when an instrument has two mapping versions |
| `HoldingDay.FileBySlot` | automation/validate_holding_day.py:92-107 | files the day's comments under their slots, failing on a bad identity, key or second comment |
| `HoldingDay.ValidateDay` | automation/validate_holding_day.py:91-167 | passes exactly the days that meet every clause |
| `HoldingDay.DayMeaning` | automation/validate_holding_day.py:108-160 | the clauses: plan, links, run and universe, gate conditions, one mapping version for each instrument, closing observation |
| `HoldingDay.LinkIffOrder` | automation/validate_holding_day.py:129-130 | on a grown ledger a slot names the one before it exactly when that one was written before it |
| `HoldingDay.ChainIffInOrder` | automation/validate_holding_day.py:126-132 | a full day meets the chain clauses if and only if its slots were appended in order |
| `HoldingDay.TransitionsFold` | src/market-ledger.ts:485-503 | along such a day the stored transitions fold the first active set into each later one |
| `HoldingDay.PassedDayIsConstant` | automation/validate_holding_day.py:122-136 | in a passed day on a grown ledger the active set never changed |
| `StateReceipts.PayloadIsFixed` | src/state-receipts.ts:160-174 | channel, payload and creation time of a key never change, attempts only grow |
| `StateReceipts.InsertMeaning` | src/state-receipts.ts:160-174 | a first use leaves a PENDING row without holder, any other nothing |
| `StateReceipts.AcquireMeaning` | src/state-receipts.ts:182-209 | the lease is granted exactly for the row's payload and channel, while it is not final and is free, expired or the caller's own; the row it leaves |
| `StateReceipts.FinalizeMeaning` | src/state-receipts.ts:226-259 | the holder's finalize records exactly status, report and time and lets go, anybody else's nothing |
| `StateReceipts.PersistedForGood` | src/state-receipts.ts:172-261 | a write its holder finalized as PERSISTED stays so with its report over every run |
| `StateReceipts.FinalIsConstant` | src/state-receipts.ts:172-196 | PERSISTED, IDEMPOTENT_REPLAY and CONFLICT rows are constant and without holder over every run |
| `StateReceipts.LeaseProtects` | src/state-receipts.ts:182-209 | until a lease expires no other request changes anything in the row |
| `StateReceipts.TakeoverIff` | src/state-receipts.ts:182-209 | another request takes over exactly after expiry and with the same payload and channel |
| `StateReceipts.SupersededCommitsNothing` | src/state-receipts.ts:226-259 | the finalize of a request that lost its lease changes nothing until it acquires again |
| `StateReceipts.OneHolderAtATime` | src/state-receipts.ts:177-209 | with a clock that does not go back no two holdings of a key overlap, and attempts count the grants |
| `StateReceiptCalls.LeaseUntil` | src/state-receipts.ts:178-181 | a lease lasts the seconds asked for, not under 30 or over 600, and 120 when none are given |
| `StateReceiptCalls.ReceiptTable.Reserve` | src/state-receipts.ts:150-209 | a different payload is always CONFLICT, a final row is answered as it is and not acquired, acquired means this request holds the row on return; alone the exact answer and row |
| `StateReceiptCalls.LoneReserveMeaning` | src/state-receipts.ts:150-209 | a reservation alone: each answer with its cause and the row it leaves, field by field |
| `StateReceiptCalls.ReceiptTable.Finalize` | src/state-receipts.ts:211-261 | answers the stored row; a final row stays as it is; alone the holder leaves exactly its status, report and time without owner, and anybody else nothing |
| `StateReceiptCalls.ReceiptTable.PersistThenReserve` | src/state-receipts.ts:150-261 | after a PERSISTED finalize and any run, a reserve of that payload answers PERSISTED with the stored report and acquires nothing |
| `IssueBookkeeping.SendersShareTheRowTime` | src/issue-bookkeeping.ts:230-265 | whoever sends has the timestamp of the row's insert |
| `IssueBookkeeping.AtMostOneRequest` | src/issue-bookkeeping.ts:221-314 | with distinct times per key at most one request is issued, over every interleaving and crash |
| `IssueBookkeeping.RowBeforeRequest` | src/issue-bookkeeping.ts:230-245 | the row is stored as OUTCOME_UNKNOWN before the request and afterwards shows what the sender reported |
| `IssueBookkeeping.OthersReplay` | src/issue-bookkeeping.ts:221-265 | every other answered call replays that row, as reserved or as it ended |
| `IssueBookkeeping.BothSendIffSameNow` | src/issue-bookkeeping.ts:246-265 | two calls for one key can both send if and only if they carry the same `now` |
| `IssueBookkeeping.ReportsFitReplies` | src/issue-bookkeeping.ts:267-358 | over every run a reported outcome fits the reply: PERSISTED with its id for an accepted one, OUTCOME_UNKNOWN for a failed transport, 429 or 5xx, DELIVERY_BLOCKED for any other status or without a token, which sends nothing |
| `IssueBookkeeping.ReservedMeaning` | src/issue-bookkeeping.ts:230-245 | the row reserved before the request: OUTCOME_UNKNOWN with the fields of the command |
| `IssueSubmission.Bookkeeper.Submit` | src/issue-bookkeeping.ts:178-358 | refusals touch nothing; a reported outcome is the one stored and fits the reply, field by field; alone a known key replays and a new one is recorded |
| `IssueSubmission.RefusalMeaning` | src/issue-bookkeeping.ts:190-220 | which commands are turned away, and how |
| `IssueSubmission.Bookkeeper.Contend` | src/issue-bookkeeping.ts:230-265 | the loser of the insert race replays the winner's row |
| `IssueSubmission.Bookkeeper.Deliver` | src/issue-bookkeeping.ts:267-358 | the outcome fits the reply - its status, comment id, address and detail - and is what the row then says |

## Left out

- The SYNTHETIC and REPLAY accept path of a submit: the tools never reach it, and its lease delete is unfenced.
- The structural validation of a proposal: a table of one-branch field checks; it enters as a parameter.
- HTTP, GitHub paging and comment parsing, MCP wiring, OAuth, table bootstrap, clocks and random draws.
- SHA-256, base64, `JSON.stringify` of numbers, Unicode normalisation and the regular expression that finds chunk boundaries: parameters, with arbitrary ascending boundary positions.
- Characters outside the 16-bit plane and `localeCompare`: strings compare character by character, which is the order of both on the dates, timestamps and ids that are compared.
- Media types arrive in lower case, and trimming removes blanks only.
- `Receipts.ReceiptStore.List`: takes the parse of a detail text as a parameter.
- Embedding, vector scores and ids, `ingestPrecomputedVectors` and `markRow`: the hit theorems hold for every index state they could write.
- The retention scan and its cursor, dry runs and audit rows, batch limits per run, and concurrent ingest during a purge (during a mark it is modelled).
- The semantic and full-text statements of the ingest batch in `ReplicaIngest`; `SemanticIndex.RegisterSupersedes` has the semantic ones.
- `ReplicaBudget.WritesWithinBudget`: counts a put in the month its write was reserved in, because nothing between reservation and put looks at the clock again.
- Last-error and last-attempt columns of the health row.
- Overwriting one research record by a later message with the same key: the record's content is not part of the budget.
- The 60-day fetch window of the market ledger and its fallback to all comments: the model reads all comments.
- Length limits of the checkpoint schema, the parse of `as_of` and of calendar dates, and the readback after a post.
- Concurrent market appends: the post is unconditional, so `market-ledger.ts` alone does not decide them.
- Payload fields of other types than expected in the day checker; slots outside the seven and comments of older contracts.
- `StateReceipts.OneHolderAtATime`: assumes a clock that does not go back, because the source compares the caller's own times; `LeaseProtects` needs no clock.
- Investment event batches, quota catalogs, reconcile scripts, metering, circuit gate, scope parsing, read retries, prompt compiler and promotion: they hold no state that the protocols above share.
