# Verified model of the LFX V2 indexer service

The indexer consumes NATS indexing messages and writes OpenSearch documents. This project models the
parts of it where several workers, pods, timers or redeliveries act on shared state, together with the
validators and transformations that those parts rely on, and proves what they guarantee over every run.

OpenSearch is a map with create-only, scripted-update, bulk and versioned-update requests. Each request
carries a reply that says whether it was never sent, was executed but the answer was lost, or was
answered. NATS is a source of messages delivered in any order and any number of times. Clocks,
randomness and the order of goroutines are parameters of the runs, which are quantified over.

| module | subject |
|---|---|
| `Projection`, `Convergence`, `Refusals`, `CurrentIndex` | the guarded write of the current document: the script, its reading, delivery orders, and what is refused |
| `Repositories`, `Workflow` | receipts, history and erasure fences; `Process` as written, and recovery after cuts |
| `Slots` | which slot belongs to which event, what erasure shuts out, and when an attempt succeeds |
| `Interleavings`, `AuditedRuns` | the audited protocol as a transition system over workers, failures, redeliveries and erasures |
| `BatchIndexer`, `BatchRuns` | the coalescing indexer under its lock, and all interleavings of callers, timers and bulk requests |
| `Janitor`, `JanitorRuns` | one conflict-resolution pass, and concurrent passes on stale searches |
| `Grammar`, `Fencing` | token grammars and references; routing of legacy, V1 and audited messages |
| `Schema`, `JsonShape` | closed snapshot schemas; the strict shape check on the token stream |
| `OrderTime`, `Canonical`, `Fingerprint` | calendar and formatted times; JSON text and canonical form; immutable content |
| `Templates`, `TemplateMeaning` | expansion of legacy configuration templates; what a template means and when the replace loop computes it |
| `Workers`, `Timing` | JetStream worker slots and drain; acknowledgement, drain and redelivery bounds |
| `Composition` | fingerprints and formatted times put into the protocol: agreement of whole deployments by instant |
| `Text`, `Json` | string order, optional values, JSON trees and values |

Results worth knowing before reading on, because the code does not give them unconditionally:

- Delivery orders are free of refusals exactly when there is at most one mutation per revision
  (`Convergence.AcceptedExactlyWhenOneMutationPerRevision`).
- Under concurrent janitors on stale searches, a document keeps its flag in every interleaving with a
  given series of writes exactly when no version of another document that was ever searchable outranks
  it, or ties with it without being sorted after it (`JanitorRuns.FlagIsSafeExactly`). Ties
  (`JanitorRuns.TiesCanLoseEveryone`) and writes that lower a priority
  (`JanitorRuns.FallingWriteIsExact`) are the two ways to break it.
- Cutting the search result at 100 keeps the outcome exactly when the deciding hit is inside the cut;
  only documents that carry a revision without being canonical can push it out
  (`Janitor.TruncationIsExact`, `Janitor.StrayRevisionsCanHideTheTombstone`).
- The year check on `occurred_at` in its own zone admits UTC year 10000; such a time sorts wrongly, and
  only the JSON encoding of the UTC time keeps it out (`OrderTime.OrdersWellExactlyWhenEncodable`).
- The template loop is one simultaneous substitution exactly when no value brings in the text of a
  variable that comes later in the template (`TemplateMeaning.LoopIsExact`); closing braces alone do no
  harm there. A template with one leading variable whose text ends in two closing braces is mistaken for
  a single variable with an odd path; its text is lost unless the lookup of that path happens to agree
  (`TemplateMeaning.StrayCloseIsExact`).
- With a connection, a nil result of `DrainWithTimeout` means that the workers have finished exactly on
  the path that calls `conn.Drain`; if the connection is closed or already draining, nil comes back
  although the wait for the workers timed out, whatever the drain timeout (`Workers.DrainIsExact`).
- Duration sums wrap at 64 bits: a timeout near 2^62 ns passes validation with too small a wait
  (`Timing.WrappedBudgetIsTooSmall`).
- The comment above `AuditSchemaVersion` says the consumer does not admit version 2 yet; the code does
  once the workflow is installed, and the model follows the code.

## Model

| member | source | states |
|---|---|---|
| `Projection.ScriptContext.Execute` | internal/infrastructure/storage/audit_projection.go:27-80 | the script, statement by statement on `ctx._source` and `ctx.op`, performs the verdict and the rewrite of an independent case analysis (refuse, ignore, record the mutation, replace) |
| `Projection.AfterIsGuarded` | internal/infrastructure/storage/audit_projection.go:31-80 | whatever a replacement leaves behind carries revision, event identity and consistent order and mutation fields |
| `Projection.BodyReplacementRaisesRank` | internal/infrastructure/storage/audit_projection.go:31-80 | a body is replaced if and only if the event has strictly greater rank (revision, is-projection, time, identity) and is not the stored event of that revision; the document then has the event's rank, and otherwise keeps its own |
| `Convergence.EveryOrderIsAccepted` | internal/infrastructure/storage/audit_projection.go:27-80 | from an absent document, every sequence over conflict-free events, duplicates included, raises no error, and the document is the summary of the delivered set |
| `Convergence.DeliveriesConverge` | internal/infrastructure/storage/audit_projection.go:27-80 | two sequences with the same set of events end in the same document: highest revision, body of the greatest projection there or else its mutation, mutation identity kept |
| `Convergence.AcceptedExactlyWhenOneMutationPerRevision` | internal/infrastructure/storage/audit_projection.go:34-60 | for events whose identity fixes their content, no order is ever refused if and only if no revision has two mutations |
| `Convergence.LegacyDocumentWaitsForBackfill` | internal/infrastructure/storage/audit_projection.go:28-30 | an unguarded document refuses everything before the first backfill, after which the run equals one that began with no document |
| `Convergence.RankNeverFalls` | internal/infrastructure/storage/audit_projection.go:31-80 | along any run, conflicting events included, the stored rank never falls |
| `Convergence.NeverReplacesTwice` | internal/infrastructure/storage/audit_projection.go:31-80 | an event that replaced a body never replaces one again, whatever is delivered in between |
| `Convergence.RedeliveryIsIdempotent` | internal/infrastructure/storage/audit_projection.go:31-80 | a second delivery changes nothing on any document and is not refused if the first was not |
| `Refusals.RefusedExactly` | internal/infrastructure/storage/audit_projection.go:34-60 | after any deliveries whose identities fix their content, the next is refused if and only if it is a mutation of the highest revision so far and the first mutation of that revision delivered was another one, refreshed since or not |
| `Refusals.FirstMutationIsStored` | internal/infrastructure/storage/audit_projection.go:41-75 | the stored document always has the highest revision delivered and names the first mutation of it |
| `Refusals.MutationStaysWithItsRevision` | internal/infrastructure/storage/audit_projection.go:61-75 | a mutation identity, once stored, stays until the revision rises, whatever is delivered |
| `Refusals.ReuseIsRefused` | internal/infrastructure/storage/audit_projection.go:35-47 | reuse of the stored event's identity with other content, and any mutation other than the recorded one, is refused and changes nothing |
| `CurrentIndex.ReadingIsExact` | internal/infrastructure/storage/audit_projection.go:170-191 | "applied" is reported exactly for a replaced body; the unexpected-identity error exactly for a recorded mutation under its own identity |
| `CurrentIndex.AuditProjectionRepository.ApplyIfNewer` | internal/infrastructure/storage/audit_projection.go:104-192 | one scripted upsert of the event's own reference, and its result read as above; a lost answer is an error although the write happened |
| `Repositories.ReceiptRepository.CreateOrVerify` | internal/infrastructure/storage/audit_delivery_receipt_repository.go:39-103 | an existing receipt is never replaced; success exactly when the slot `publisher:event_id` holds, unerased, this publisher, event ID, origin and fingerprint |
| `Repositories.HistoryRepository.CreateOrVerify` | internal/infrastructure/storage/history_repository.go:52-129 | create-only append of mutations; success exactly when the slot `publisher:event_id` holds this identity, fingerprint, resource, revision and action, never on a fence |
| `Repositories.HistoryRepository.Erase` | internal/infrastructure/storage/history_repository.go:135-165 | the slot becomes a fence whether or not it existed, for every envelope of that publisher and event ID; other slots stay |
| `Interleavings.StepExtends` | internal/application/audit_workflow.go:45-99 | no step of any worker, crash or erasure withdraws a receipt, a record's content or a fence |
| `Interleavings.StepKeepsWorkers` | internal/application/audit_workflow.go:54-78 | a worker past a stage holds that stage's receipt and history slot |
| `Interleavings.StepKeepsDocuments` | internal/application/audit_workflow.go:54-78 | every identity stamped on a current document is backed by its receipt, and a mutation's by its history slot or fence |
| `Interleavings.OnlyProjectingWrites` | internal/application/audit_workflow.go:75-78 | a current document changes only through the projecting step of a worker whose reference it is |
| `AuditedRuns.RunKeepsInv` | internal/application/audit_workflow.go:45-99 | all protocol invariants hold after every interleaving of workers, failures, redeliveries and erasures |
| `AuditedRuns.HistoryFirst` | internal/application/audit_workflow.go:65-78 | in every reachable state a mutation identity on a current document has a history slot of the same fingerprint, or a fence |
| `AuditedRuns.FenceIsPermanent` | internal/infrastructure/storage/history_repository.go:131-165 | no run removes a fence |
| `AuditedRuns.FencedMutationNeverWrites` | internal/application/audit_workflow.go:65-78 | a mutation whose history request follows the fence never reaches the current write, in any continuation |
| `AuditedRuns.NotifiedAtMostOnce` | internal/application/audit_workflow.go:80-97 | over every run, no two notifications carry the same event identity |
| `AuditedRuns.ReadingIsReliable` | internal/infrastructure/storage/audit_projection.go:170-191 | in every reachable state, given receipts, "applied" is exactly "body replaced" and the unexpected-identity error cannot happen |
| `AuditedRuns.AtMostFiveRequests` | internal/application/audit_workflow.go:58-75 | from any stored state, in any run, a delivery issues at most five storage requests |
| `AuditedRuns.CurrentReplaysWrites` | internal/infrastructure/storage/audit_projection.go:104-192 | the current document is the sequential delivery of the logged writes, whatever the interleaving |
| `AuditedRuns.RunsConverge` | internal/application/audit_workflow.go:45-99 | two deployments that complete every event at least once, under any schedules, hold the same current document, the summary of the resource's events |
| `Workflow.AuditWorkflow.Process` | internal/application/audit_workflow.go:45-99 | the effects on receipts, history, current, cleanup and notifier of one attempt, for every way its requests can fail |
| `Workflow.ProcessIsARun` | internal/application/audit_workflow.go:45-99 | an uncontended `Process` is exactly a run of one worker of the transition system, with the same stores, cleanups and notices |
| `Workflow.ResumeAfterOneCut` | internal/application/audit_workflow.go:45-99 | resuming after an attempt cut anywhere reaches the store of an uninterrupted attempt, made at the cut attempt's time if that attempt sent the create request for the history slot |
| `Workflow.Recovery` | internal/application/audit_workflow.go:45-99 | any number of cut attempts followed by one that runs through give the store of an uninterrupted attempt, whose ingestion time is that of the first attempt that got to creating the history slot; its success carries over, and the two outcomes are equal unless the script's answer would be misread, which receipts rule out in reachable states |
| `Slots.KeysAreExact` | internal/infrastructure/storage/audit_delivery_receipt_repository.go:45-52 | envelopes with well-formed tokens have equal keys if and only if publisher and event ID are both equal |
| `Slots.EventsNeverShareSlots` | internal/infrastructure/storage/audit_delivery_receipt_repository.go:39-103 | in every run, whatever is filed under an envelope's key was filed by its own publisher and event ID |
| `Slots.NewEventsFindFreeSlots` | internal/infrastructure/storage/audit_delivery_receipt_repository.go:39-70 | in every run, an event not delivered or erased before finds both its slots free, whoever else uses its event ID |
| `Slots.ErasedMutationFails` | internal/infrastructure/storage/history_repository.go:93-129 | after its erasure no attempt at a mutation succeeds or touches a current document |
| `Slots.ErasedReceiptIsRefused` | internal/infrastructure/storage/audit_delivery_receipt_repository.go:74-103 | an erased receipt shuts out its event before history and current |
| `Slots.NoWritesAfterErasure` | internal/infrastructure/storage/history_repository.go:131-165 | from its erasure on, in any continuation with any redeliveries, an event's mutation reaches the current index only through workers that had passed history before |
| `Slots.SucceedsExactly` | internal/application/audit_workflow.go:45-99 | an undisturbed attempt succeeds if and only if both slots are free or hold this very event and the script accepts it and is read well; it leaves its receipt, a mutation's record and a document of at least its revision, and nothing else |
| `Slots.NotifiesExactlyWhenReplaced` | internal/application/audit_workflow.go:80-97 | an attempt notifies, once, exactly when it completed, sent the notification and replaced the body |
| `Slots.DeletesBecomeTombstones` | internal/domain/contracts/audit_projection.go:17-73 | deletes are projected with a deletion time and no update time, everything else the other way round, latest, under `type:id`, with the event's identity, revision and order time |
| `Grammar.KeysNeverCollide` | pkg/types/audit.go:136-143 | `publisher:event_id` is injective on the two token grammars, so distinct events never share a slot |
| `Grammar.ReferencesNeverMeet` | pkg/types/audit.go:315-330 | an audited reference equals `type:id` of a legacy write, colons in the identifier allowed, only for the same type and identifier |
| `Grammar.AuditRefIsJoin` | pkg/types/audit.go:327-330 | the reference check accepts exactly the joins of an object token and an audited identifier |
| `BatchIndexer.Indexer.Enqueue` | internal/infrastructure/storage/batch_indexer.go:163-192 | a first request arms a timer of a fresh generation; a full batch is claimed whole and in order; the queue invariant is kept |
| `BatchIndexer.Indexer.DrainLocked` | internal/infrastructure/storage/batch_indexer.go:223-233 | the claim is the whole queue with its refresh flag, and the queue is left empty without a timer |
| `BatchIndexer.Indexer.RemoveIfPending` | internal/infrastructure/storage/batch_indexer.go:201-218 | removes exactly this request if it is still queued, keeps the order of the rest and recomputes the refresh flag |
| `BatchIndexer.Indexer.Flush` | internal/infrastructure/storage/batch_indexer.go:244-253 | a callback of the current generation claims the batch; any other leaves the queue as it is |
| `BatchIndexer.BulkIndex` | internal/infrastructure/storage/storage_repository.go:281-410 | result `i` is that of item `i`, for responses shorter or longer than the request too; a missing item never reads as success |
| `BatchIndexer.FlushBatch` | internal/infrastructure/storage/batch_indexer.go:257-311 | each claimed request gets the result at its own position |
| `BatchRuns.BatchingRefinesDirectIndexing` | internal/infrastructure/storage/batch_indexer.go:91-142 | in every run, with the items of all bulk requests interleaving freely, the index is what one-at-a-time indexing of a log without repetition gives; success means one's own item was written between call and return; a context error means it was never dispatched |
| `BatchRuns.CallersGetTheirOwnResult` | internal/infrastructure/storage/batch_indexer.go:257-311 | a returned result is the one at the only position the request has in the only batch that claimed it |
| `BatchRuns.ResultsTellTheTruth` | internal/infrastructure/storage/storage_repository.go:360-403 | a caller is told success exactly when its own item was answered with a status below 400, which is when it was written; a failure the answer covers means no entry in the log; no answer or one too short is never success |
| `BatchRuns.ResultsArrive` | internal/infrastructure/storage/batch_indexer.go:257-311 | once a batch is answered, each handing over gives the next request its own result, and its waiting caller returns just that |
| `BatchRuns.CancellationIsExact` | internal/infrastructure/storage/batch_indexer.go:91-142 | a cancellation returns the context error and takes the request out exactly while it is queued; once claimed the caller goes on waiting |
| `BatchRuns.CallsFillBatches` | internal/infrastructure/storage/batch_indexer.go:163-192 | a call joins the waiting batch at its end or completes one of exactly the maximal size, which is claimed whole; a first request arms a timer of a generation no earlier timer has |
| `BatchRuns.BatchesKeepArrivalOrder` | internal/infrastructure/storage/batch_indexer.go:163-233 | the queue and every claimed batch hold their requests in the order of the calls, cancellations in between or not |
| `BatchRuns.RequestsAreConserved` | internal/infrastructure/storage/batch_indexer.go:163-253 | each request is in exactly one of queue, claims and cancelled; batches are bounded; refresh exactly when asked; a waiting batch has a live timer of its generation |
| `BatchRuns.TimerClaimsItsOwnBatch` | internal/infrastructure/storage/batch_indexer.go:163-253 | after any run, a callback that fires claims nothing, or one batch all of whose requests were queued by calls that left the generation at the callback's own; a stale callback changes neither queue nor claims |
| `Janitor.ChooseWinner` | internal/infrastructure/cleanup/cleanup_repository.go:395-460 | on sorted hits the two loops find the first hit that no other outranks (canonical, tombstone, live by `updated_at`), and none exactly when nothing is ranked |
| `Janitor.ChoiceInWords` | internal/infrastructure/cleanup/cleanup_repository.go:395-460 | the choice is the audited canonical document if found, else the first tombstone, else the first of the live documents updated last |
| `Janitor.TruncationIsExact` | internal/infrastructure/cleanup/cleanup_repository.go:267-334 | with a canonical document or tombstone among the hits, the cut keeps the outcome if and only if the deciding hit is inside it; only stray revisions sort ahead of it |
| `Janitor.TruncationKeepsTheWinner` | internal/infrastructure/cleanup/cleanup_repository.go:267-334 | while only the canonical document carries a revision, the first hit wins and no cut can change that |
| `Janitor.StrayRevisionsCanHideTheTombstone` | internal/infrastructure/cleanup/cleanup_repository.go:267-334 | a hundred stray revisions hide a tombstone from the pass |
| `Janitor.CleanupRepository.UpdateLatestFlag` | internal/infrastructure/cleanup/cleanup_repository.go:533-579 | the flag falls only on the version the search saw; another version is a conflict and changes nothing |
| `Janitor.CleanupRepository.DemoteLosers` | internal/infrastructure/cleanup/cleanup_repository.go:479-522 | a conflict is reported if and only if some loser whose update was answered is stored under another version; every loser up to the first such one, if its update was sent on a matching version, has lost its flag, and everything else is as it was |
| `Janitor.CleanupRepository.ProcessItem` | internal/infrastructure/cleanup/cleanup_repository.go:253-530 | a pass resolves exactly when something ranked is found among several visible hits; it then demotes as above, requeues exactly after a conflict, and with every stored hit on the version seen leaves nothing scheduled and only the winner latest; it fails exactly when visibility retries are spent |
| `Janitor.WaitsExactlyForTheCanonical` | internal/infrastructure/cleanup/cleanup_repository.go:335-345 | a pass waits for visibility exactly if its request asks for the audited canonical document and none of the first hundred hits is it |
| `Janitor.CleanupRepository.ProcessUntilSettled` | internal/infrastructure/cleanup/cleanup_repository.go:335-357 | passes on the request each previous pass scheduled follow the chain of pending requests, and the last one fails exactly when its request gives up |
| `Janitor.VisibilityRetriesAreBounded` | internal/infrastructure/cleanup/cleanup_repository.go:335-357 | along any chain of passes, conflicts anywhere, the count rises with every visibility retry and nothing else, so there are at most twelve less those already spent |
| `Janitor.NeverVisibleFails` | internal/infrastructure/cleanup/cleanup_repository.go:335-357 | a canonical document that never becomes visible is retried until the twelve are spent, and the next pass fails for good |
| `JanitorRuns.LoserIsNotTop` | internal/infrastructure/cleanup/cleanup_repository.go:556-562 | a document demoted under the version check is outranked at that moment |
| `JanitorRuns.TopNeverLosesItsFlag` | internal/infrastructure/cleanup/cleanup_repository.go:395-522 | over every interleaving of passes on arbitrarily stale searches, with writes that never lower a priority, the top document keeps its flag |
| `JanitorRuns.FixedDuplicatesKeepTheirTop` | internal/infrastructure/cleanup/cleanup_repository.go:395-522 | with unchanging duplicates, one fixed top document stays latest through every run |
| `JanitorRuns.FlagIsSafeExactly` | internal/infrastructure/cleanup/cleanup_repository.go:395-522 | for any duplicates and any writes, rising or falling: a document those writes leave latest is latest in every interleaving with janitors on stale searches if and only if no version of another document that was ever searchable beats its face |
| `JanitorRuns.FixedDuplicatesAreExact` | internal/infrastructure/cleanup/cleanup_repository.go:395-522 | without writes: a duplicate keeps its flag in every run if and only if every other latest duplicate has no priority, is outranked, or ties and is sorted after it |
| `JanitorRuns.SomeoneStaysExactly` | internal/infrastructure/cleanup/cleanup_repository.go:395-522 | someone is latest in every interleaving if and only if the writes leave a latest document that no searchable version beats |
| `JanitorRuns.TiesCanLoseEveryone` | internal/infrastructure/cleanup/cleanup_repository.go:395-522 | any two duplicates with one ranked face: some run of passes leaves nobody latest |
| `JanitorRuns.FallingWriteIsExact` | internal/infrastructure/cleanup/cleanup_repository.go:395-522 | of two duplicates, when one is rewritten, the other keeps its flag in every interleaving if and only if neither the old nor the new face beats it |
| `Fencing.MessageProcessor.SetAuditWorkflow` | internal/application/message_processor.go:48-63 | installs exactly the listed types, or changes nothing if one name is invalid |
| `Fencing.MessageProcessor.ValidateAuditFencedType` | internal/application/message_processor.go:171-185 | mutation, reindex and sync echo need a fenced type; backfill does not |
| `Fencing.MessageProcessor.ProcessIndexingMessage` | internal/application/message_processor.go:105-134 | an admitted message past the fence check leaves its resource's document with at least its revision, and with its body if it is newer; a refused one changes nothing; an unversioned one of an unfenced type leaves its body under `type:id` and every other document as it was |
| `Fencing.MessageProcessor.ProcessV1IndexingMessage` | internal/application/message_processor.go:188-193 | V1 messages of fenced types change nothing; others leave their body under `type:id` and every other document as it was |
| `Fencing.MessagesComeToTheirOutcome` | internal/application/message_processor.go:105-193 | the same three outcomes for every message, fence configuration and index, on both subjects |
| `Fencing.LegacyMisses` | internal/domain/services/indexer_service.go:396-425 | a legacy write of another type never touches an audited document |
| `Fencing.FenceHolds` | internal/application/message_processor.go:105-193 | once a fenced canonical document has a revision, no mix of V1, unversioned, audited and janitor steps removes or lowers it |
| `Fencing.FenceIsExact` | internal/application/message_processor.go:105-193 | the revision survives every run if and only if the workflow is installed and the type is listed |
| `Schema.AcceptedSchemaIsClosed` | internal/domain/services/audit_policy_schema.go:124-248 | under every accepted rule set the validator accepts exactly the described snapshots, never meets its depth limit or a nil item rule, and admits no prohibited key at any depth |
| `Schema.RulesAcceptedExactly` | internal/domain/services/audit_policy_schema.go:124-160 | startup accepts exactly the non-empty rule sets whose names are well formed and harmless, whose parts fit their types, and which nest within the depth budget |
| `Schema.ProhibitedAnywhere` | internal/domain/services/audit_policy_schema.go:162-170 | a key is prohibited exactly if one of the words stands anywhere in it, in any mix of cases |
| `Schema.IntegersAreWhole` | internal/domain/services/audit_policy_schema.go:233-245 | a JSON number counts as an integer exactly if it has neither fraction nor exponent |
| `JsonShape.Decoder.AuditJsonValue` | pkg/types/audit_json.go:40-94 | on the tokens of any tree, consumes exactly that value and accepts it exactly when it is well shaped at this path and depth |
| `JsonShape.AuditJsonShape` | pkg/types/audit_json.go:31-38 | a message is accepted exactly when names are unique everywhere, nesting is at most 64, fixed paths use their vocabulary and actor profiles are complete |
| `JsonShape.OpaqueIsNeverVocabularyChecked` | pkg/types/audit_json.go:96-110 | below an opaque path no vocabulary or profile rule applies at any depth |
| `JsonShape.VocabularyNests` | pkg/types/audit_json.go:96-110 | plain member names lead from each fixed object to the fixed objects listed inside it, and anywhere else to the opaque path |
| `JsonShape.ContactNamesAreFixed` | pkg/types/audit_json.go:17-27 | in an accepted message the names of every contact are from the contact list |
| `JsonShape.ProfilesAreComplete` | pkg/types/audit_json.go:65-75 | in an accepted message both actor profiles have all profile names and no other |
| `OrderTime.CivilOrderIsInstantOrder` | internal/infrastructure/storage/audit_projection.go:129 | comparing calendar fields is comparing instants, leap years included, and each determines the other |
| `OrderTime.OrderTimeAgrees` | internal/infrastructure/storage/audit_projection.go:129 | for events that reach the projection, string order and equality of the formatted times are those of the instants |
| `OrderTime.OwnYearBoundsUtcYear` | pkg/types/audit.go:212-214 | the own-zone check leaves the UTC year between 0 and 10000 |
| `OrderTime.OwnYearDoesNotBoundUtcYear` | pkg/types/audit.go:212-214 | a stamp that passes the own-zone check with UTC year 10000 |
| `OrderTime.OrdersWellExactlyWhenEncodable` | internal/domain/contracts/history.go:84-97 | a stamp that passes the own-zone check sorts correctly against every event that reaches the projection if and only if its UTC time can be encoded |
| `OrderTime.JsonTextIsExact` | internal/domain/contracts/history.go:84-85 | encoded UTC times, fractions trimmed, are equal exactly when the instants are |
| `Canonical.PrintIsUnambiguous` | internal/domain/contracts/history.go:94-107 | a JSON text, with all string escapes, has one reading: the value printed and what follows it are determined |
| `Canonical.EscapeReadsBack` | internal/domain/contracts/history.go:94-107 | every string escape the encoder writes reads back as its character (section 7 of RFC 8259) |
| `Canonical.DecodedIsExact` | internal/domain/contracts/history.go:98-104 | decoding into maps identifies two documents exactly when they are equal up to member order |
| `Canonical.OrderedRoundTrip` | internal/domain/contracts/history.go:109-112 | writing a value in key order and decoding it gives the value back; keys are sorted and unique at every level |
| `Canonical.CanonicalTextIsExact` | internal/domain/contracts/history.go:94-112 | canonical texts are equal exactly when the documents are equal with unordered objects, ordered arrays and numbers by spelling |
| `Canonical.CanonicalTextIsStable` | internal/domain/contracts/history.go:94-112 | canonicalizing whatever a canonical text reads as gives that text again |
| `Fingerprint.FingerprintIsExact` | internal/domain/contracts/history.go:79-115 | the hashed texts of two deliveries are equal exactly when their immutable contents are, times as instants; headers, zone and member order never matter; an unencodable time has no fingerprint |
| `Templates.SplitIsInverseOfDotted` | internal/domain/services/indexer_service.go:1444-1446 | a dotted path is its parts joined by dots, and no part has a dot |
| `Templates.GetNestedField` | internal/domain/services/indexer_service.go:1444-1463 | the loop is the recursive lookup, with its two kinds of failure |
| `Templates.FollowIsExact` | internal/domain/services/indexer_service.go:1444-1463 | a lookup is broken exactly if some part leads to something other than an object with more to follow, and missing exactly if some part is no member of its object |
| `Templates.SubstituteIsExact` | internal/domain/services/indexer_service.go:1394-1422 | a missing field is blank, strings and booleans stand as they are, and only a broken path is an error |
| `Templates.EscapesAreLiteral` | internal/domain/services/indexer_service.go:1360-1363 | one escape makes the whole string literal: every escaped opening comes out as two braces, whatever the data |
| `Templates.ExpandTemplateString` | internal/domain/services/indexer_service.go:1358-1426 | escaped, whole-value and embedded templates, the last by sequential replacement |
| `Templates.ExpandKeepsShape` | internal/domain/services/indexer_service.go:1322-1354 | expansion succeeds with a result exactly when that result keeps array lengths, keys and other leaves and has each string's expansion in its place |
| `TemplateMeaning.LoopIsExact` | internal/domain/services/indexer_service.go:1388-1423 | for templates of text and variables whose values are text and variables too: the replace loop is one simultaneous substitution if and only if it fails or no value brings in a variable that comes later |
| `TemplateMeaning.SequentialIsSimultaneous` | internal/domain/services/indexer_service.go:1388-1423 | in particular always, when no value holds an opening brace; closing braces are free in text and values |
| `TemplateMeaning.WholeExactly` | internal/domain/services/indexer_service.go:1365-1370 | a template is taken for a single variable exactly when it is one, or has one leading variable and text that ends in two closing braces |
| `TemplateMeaning.ExpandStringIsExact` | internal/domain/services/indexer_service.go:1358-1426 | otherwise an unescaped template expands to its meaning (a lone variable to its value with its type, anything else to the substituted text) if and only if it fails or no value brings in a later variable |
| `TemplateMeaning.ExpandStringIsMeaning` | internal/domain/services/indexer_service.go:1358-1426 | in particular always, when no value holds an opening brace |
| `TemplateMeaning.StrayCloseIsExact` | internal/domain/services/indexer_service.go:1365-1385 | for text that ends in two closing braces after one leading variable, the result is the meaning if and only if the odd path between the outer braces holds the very text meant, or is broken while the template's own variable fails too; if that path is missing the result is blank |
| `TemplateMeaning.ValuesAreExpandedAgain` | internal/domain/services/indexer_service.go:1394-1423 | whenever the value of a first variable is the text of a second with a plain value, the loop differs from the simultaneous substitution |
| `Workers.RunKeepsInv` | internal/infrastructure/messaging/messaging_repository.go:857-1087 | after every interleaving the semaphore counts the slot holders, the wait group the living workers, and the drain's progress is matched by closed consumers or spent time |
| `Workers.HandlersNeverExceedSlots` | internal/infrastructure/messaging/messaging_repository.go:857-909 | running handlers never exceed the worker count |
| `Workers.OnlyHeldSlotsAreReleased` | internal/infrastructure/messaging/messaging_repository.go:857-1034 | a slot is released only by a worker that holds one, once |
| `Workers.SettledExactlyOnce` | internal/infrastructure/messaging/messaging_repository.go:1002-1068 | a worker that is gone made exactly one settling call: Ack after success, NakWithDelay after failure, Nak if its handler never ran |
| `Workers.QueuedWorkersMoveOn` | internal/infrastructure/messaging/messaging_repository.go:857-909 | a queued worker takes a free slot and runs, unless canceled; then it returns its message at once and any slot it has won |
| `Workers.DrainStopsConsumers` | internal/infrastructure/messaging/messaging_repository.go:462-486 | a drain with time left stops each consumer, moves on when it has closed, and waits for the workers only after the last; a consumer that registers too late is stopped |
| `Workers.CleanDrainMeansWorkersFinished` | internal/infrastructure/messaging/messaging_repository.go:435-577 | when a drain that called `conn.Drain` returns nil, every worker of every registered consumer is gone and those consumers are closed |
| `Workers.DrainIsExact` | internal/infrastructure/messaging/messaging_repository.go:480-577 | for every positive drain timeout and worker count: nil on a return path means that every worker of every registered consumer has finished, over all interleavings, if and only if it is the path that calls `conn.Drain`, the path for a missing connection, or there is no connection at all and so never a worker |
| `Timing.DerivedAckWaitPasses` | internal/infrastructure/config/app_config.go:226-232 | a derived acknowledgement wait passes its bound, wrap-around included |
| `Timing.ConfiguredAckWaitIsKept` | internal/infrastructure/config/app_config.go:226-232 | a positive configured wait is kept, a negative one refused |
| `Timing.AuditedBudgetIsExact` | internal/infrastructure/config/app_config.go:388-427 | a validated audited configuration covers five timeouts plus margin if and only if that sum fits 64 bits, for the acknowledgement and the drain bound |
| `Timing.BatchBudgetIsExact` | internal/infrastructure/config/app_config.go:388-427 | likewise for one batched write |
| `Timing.WrappedBudgetIsTooSmall` | internal/infrastructure/config/app_config.go:417-427 | a validated configuration whose wait is below five timeouts |
| `Timing.RequestsFitTheBudget` | internal/infrastructure/config/app_config.go:388-427 | in every run the requests of one delivery stay within the acknowledgement wait and the drain timeout, each less its margin |
| `Timing.NakLimitDoubles` | internal/infrastructure/messaging/messaging_repository.go:1141-1155 | the delay limit is one second doubled per attempt up to the ninth, then five minutes; a count of zero wraps to the cap |
| `Timing.NakDelayIsBounded` | internal/infrastructure/messaging/messaging_repository.go:1141-1155 | for every 64-bit delivery count the delay is drawn from all of [0, limit], at most five minutes, and never panics |
| `Composition.FingerprintsAreCollisionFree` | internal/domain/contracts/history.go:79-115 | with an injective hash, the envelopes of any deliveries that reach the projection have equal fingerprints only when they are equal, which is what the protocol assumes |
| `Composition.LeaderIsLatestInstant` | internal/infrastructure/storage/audit_projection.go:53-58 | the event a document must carry is the greatest by revision, then by instant, then by identity |
| `Composition.DeploymentsAgreeByInstant` | internal/application/audit_workflow.go:45-99 | two deployments that complete every delivery at least once, under any schedules, failures and redeliveries, hold the same document, with the body of the event greatest by revision and instant |

## Left out

- Admission: JWT validation, JWKS, publisher policies and principal parsing are one admitted envelope; nothing is proved about who is admitted.
- SHA-256: taken to be injective; `Fingerprint.FingerprintIsExact` is about the text before hashing, and `Composition.FingerprintsAreCollisionFree` derives the protocol's assumption from it.
- HTTP, OpenSearch and NATS client calls, response draining and index mappings appear only as the three replies of a request; the eight internal retries of the scripted update are one atomic update.
- Interleavings and Workers are transition systems on values, because their steps belong to different goroutines; the sequential code of each repository is a class with the same effects, except the messaging repository, whose slot and drain code has no class of its own.
- Field encoding of `IndexingConfig`, attribution and scope: `Fingerprint` takes the JSON documents the encoder emits for them, and the first encode and decode of the pipeline as reading those documents.
- Invalid UTF-8 and the byte level of JSON texts: strings are sequences of Unicode characters, in whose order keys are sorted.
- `AuditProjectionBody` and tag deduplication: the body of a projection is its reference, flag, two times and an opaque payload.
- Formatting of numbers inside templates (`%v`): a function given to the expansion.
- Agreement of the janitor's `updated_at` strings with real time: the string order is the specification.
- The janitor's queue, worker health and shutdown: a pass takes its request, and retries are recorded.
- Generation counters are unbounded, where the code has 64 bits.
- TemplateMeaning.LoopIsExact: leaves out values with an opening brace outside any variable, and values that bring in a variable whose own value holds variables; there a changed text can change back by coincidence.
- A second concurrent call of `DrainWithTimeout`, core NATS subscriptions, and completion of core NATS handlers at drain.
- Panics inside handlers, process exits on terminal consumer errors, logging, tracing, metrics, health checks, CLI and deployment files.
