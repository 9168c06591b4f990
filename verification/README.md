# Verified model of the event-driven bookinfo services

This project models the logic of the bookinfo services that has to be right under concurrency,
retries and failures, and of the generator that derives their API documents, and proves what they
rely on. It is written in Dafny 4.11; `dafny verify dfyconfig.toml` checks all of it.

**Dead-letter queue.** `DlqDomain` is the event with its status machine, `DlqRepository` the store that
copies events in and out, `DlqService` the service over both. Every method is proved against a function on
records (`ReplayOf`, `ReIngestOf`, `ReplayResult`, ...), and says in record fields what it does.
`DlqLifecycle` takes one service call as one step, proves the invariants of every run and shows that the
identifier-keyed store is an automaton keyed by (sensor, trigger, payload hash). `DlqInterleaved` splits
each call into its read and its write and says when overlapping calls are still atomic, and what they keep
and lose otherwise. `DlqPoisoning` says when a record was poisoned by failed replays, `DlqBatch` is about
the batch loops.

**Write path.** `Idempotency` is the key encoding and the key store. `WritePath` is one rating submission,
and any number of them interleaving between check-and-record, save and publish. `EndToEnd` composes that
with the dead-letter queue and a transport that may lose, duplicate and reorder messages; `ReplayDelivery`
joins its replay step to what the service posts. The digest is a parameter, injective only where a result
says so.

**Pending reviews.** `PendingStore` is the reconciliation loop that removes list entries by value;
`PendingInterleaved` lets other clients in between any two of its commands.

**Reviews.** `ReviewStore`, `Pagination` and `ReviewService` are the listing, the page arithmetic
with 64-bit wrap-around, and the service over them.

**Spec generator.** `YamlTree` and `JsonSchema` are the trees and schemas; `TypeGraph` says exactly when the
schema walk ends and when it yields a schema; `OperationId` the operation identifiers; `Descriptors`,
`ValuesSpec` and `AsyncApi` the documents built from event descriptors, compared in `CrossDocument`;
`OpenApi` and `OpenApiTheorems` the document built from endpoints; `AsyncContent` and `OpenApiContent` read
off both documents, key by key, what they say of each descriptor and endpoint; `UniqueKeys` says when a
document repeats a key. Iterating a Go map is a loop that takes the keys in arbitrary order, and a library
sort is used only through what it promises, so an equation between a method's result and a function says
that no iteration order and no order of ties shows in the document.

`Ordering`, `Arithmetic`, `Strings`, `SpecParts` and `Wrappers` hold what several components share.

## Where the code and its documentation differ

The model follows the code. Each difference is stated as a lemma.

- README.md line 570 says an event is poisoned after `max_retries` failed replays. The code counts
  arrivals with the same natural key: `DlqLifecycle.PoisonedWithoutAnyReplay`. The rule holds exactly
  for records whose arrivals answered replays: `DlqPoisoning.PoisonedByReplaysIff`.
- services/ratings/internal/core/service/rating_service.go line 42 promises retry safety, and README.md
  line 572 says replays are safe because all write services are idempotent. The key is recorded before the
  row is saved, so a retry after a failed save publishes an event, reports "already processed" and saves
  nothing: `WritePath.RetryAfterFailedSave`. A key is then without its row for good, whatever is retried or
  replayed: `WritePath.FailedSaveIsForGood`, `EndToEnd.ReplaysNeverRestoreTheRow`. A recorded key has its
  row exactly when its own save did not fail: `WritePath.RowMissingIffSaveFailed`.
- README.md line 570 says arrivals are deduplicated by natural key. The lookup and the write are under
  separate locks, so two first arrivals that overlap both create a record, and a replay that overlaps a
  resolution undoes it: `DlqInterleaved.OverlappingArrivalsRepeatKey`,
  `DlqInterleaved.OverlappingReplayUndoesResolution`. Neither can happen where calls on one key do not
  overlap: `DlqInterleaved.ExclusiveCallsAreAtomic`, `DlqInterleaved.ExclusiveRunKeepsInv`,
  `DlqInterleaved.ExclusiveResolvedForever`.
- pkg/idempotency/key.go lines 9-12 say the separator prevents collisions at field boundaries. It
  does so exactly for fields that do not hold it: `Idempotency.EncodingIsUniqueIff`,
  `WritePath.SeparatorMergesRequests`.
- tools/specgen/internal/openapi/openapi.go lines 346-348 say operation identifiers are unique
  because paths are. Two routes share one exactly when method and canonical words agree, as
  `GET /v1/{id}` and `GET /v1/id` do: `OperationId.RoutesShareIdentifierIff`.
- A pending review is matched by reviewer and text joined by a NUL, which is unambiguous exactly when
  neither holds one: `PendingStore.MatchKeyIsUniqueIff`.
- The page number is not capped, so its offset can wrap: `Pagination.PageIsRightIff`. The offset of the
  dead-letter listing may be negative, and panics: `DlqRepository.ListPanicsIffNegativeOffset`.
- References are written without the escaping RFC 3986 and RFC 6901 ask for: `SpecParts.RefLeadsToNameIff`.
- Two endpoints with one event name leave the order of their entries to the sort:
  `ValuesSpec.CqrsTreeFixedIff`. Equal names make a document repeat a key:
  `UniqueKeys.AsyncApiUniqueIff`, `UniqueKeys.CqrsUniqueIff`.
- The schema walk keeps no visited set. It ends exactly when it does not come back to a type it is in, which
  an earlier refused field can prevent: `TypeGraph.EndsIff`, `TypeGraph.LinkedNeverEnds`,
  `TypeGraph.FieldOrderDecides`.

## Model

| member | source | states |
|---|---|---|
| DlqDomain.DLQEvent.constructor | services/dlqueue/internal/core/domain/dlq_event.go:77-103 | A new event holds the given context, starts pending with a zero counter, replaces a non-positive retry bound by the default, and keeps the caller's payload and header references. |
| DlqDomain.DLQEvent.Replay | services/dlqueue/internal/core/domain/dlq_event.go:113-122 | Only a pending event becomes replayed; any other state is refused and nothing changes. |
| DlqDomain.DLQEvent.Resolve | services/dlqueue/internal/core/domain/dlq_event.go:126-139 | A pending or replayed event becomes resolved with resolver and time; a resolved and a poisoned one are refused unchanged, each with its own error. |
| DlqDomain.DLQEvent.ReIngest | services/dlqueue/internal/core/domain/dlq_event.go:144-156 | An arrival counts on any unresolved event and poisons it exactly at the bound; a resolved event refuses it unchanged. |
| DlqDomain.DLQEvent.ResetPoison | services/dlqueue/internal/core/domain/dlq_event.go:160-168 | Only a poisoned event returns to pending with a zero counter. |
| DlqDomain.ValueLosesNothing | services/dlqueue/internal/core/domain/dlq_event.go:31-56 | An event's value holds every field, payload byte, header list and timestamp of it. |
| DlqDomain.Untouched | services/dlqueue/internal/adapter/outbound/memory/dlq_repository.go:116-139 | Writes to objects an event does not own leave its whole value alone: the fact that makes copies isolated. |
| DlqRepository.CloneEvent | services/dlqueue/internal/adapter/outbound/memory/dlq_repository.go:116-139 | A deep copy: the same value, and every object of it freshly allocated. |
| DlqRepository.CloneHeaders | services/dlqueue/internal/adapter/outbound/memory/dlq_repository.go:122-129 | The header map and each of its lists are copied to fresh objects with the same contents. |
| DlqRepository.DLQRepository.Save | services/dlqueue/internal/adapter/outbound/memory/dlq_repository.go:25-30 | Stores a copy under the identifier, overwriting; the caller's event shares nothing with the store. |
| DlqRepository.DLQRepository.FindByID | services/dlqueue/internal/adapter/outbound/memory/dlq_repository.go:33-41 | Found exactly when stored, as a fresh isolated copy of the stored record. |
| DlqRepository.DLQRepository.FindByNaturalKey | services/dlqueue/internal/adapter/outbound/memory/dlq_repository.go:44-53 | Some record with the key as a fresh copy, or not found exactly when no record has it, whatever order the map is visited in. |
| DlqRepository.DLQRepository.CollectMatching | services/dlqueue/internal/adapter/outbound/memory/dlq_repository.go:60-66 | Exactly one isolated copy of every matching record. |
| DlqRepository.DLQRepository.List | services/dlqueue/internal/adapter/outbound/memory/dlq_repository.go:56-81 | Within a newest-first listing of exactly the matching records, the slice of the bounds the source computes, as isolated copies, and the total; the run-time panic exactly when those bounds are out of range. |
| DlqRepository.ListedIff | services/dlqueue/internal/adapter/outbound/memory/dlq_repository.go:94-114 | A record is listed if and only if each filter field that is set selects it: status by name, source, sensor and trigger by equality, times with inclusive bounds. |
| DlqRepository.ListedNewestFirst | services/dlqueue/internal/adapter/outbound/memory/dlq_repository.go:67-70 | A listing repeats nothing, and no entry is older than a later one. |
| DlqRepository.ListPanicsIffNegativeOffset | services/dlqueue/internal/adapter/inbound/http/handler.go:100-115 | With the limits the endpoint lets through, listing panics if and only if the offset is negative. |
| DlqRepository.BoundsArePage | services/dlqueue/internal/adapter/outbound/memory/dlq_repository.go:71-80 | Where nothing overflows the computed bounds are those of the page. |
| DlqRepository.SortedIdsAreListing | services/dlqueue/internal/adapter/outbound/memory/dlq_repository.go:67-70 | Sorting the matches by creation time, with ties in any order, yields a listing of exactly the matching records. |
| DlqRepository.DLQRepository.Update | services/dlqueue/internal/adapter/outbound/memory/dlq_repository.go:84-92 | Overwrites the stored record by a copy, or fails and changes nothing when the identifier is unknown. |
| DlqService.DLQService.HashPayload | services/dlqueue/internal/core/domain/dlq_event.go:107-110 | The digest is taken over the payload bytes; a missing payload hashes like an empty one. |
| DlqService.DLQService.IngestEvent | services/dlqueue/internal/core/service/dlq_service.go:34-105 | In record fields: a new (sensor, trigger, digest) creates one pending record with a zero counter and the defaulted bound; a known one counts on some record of that key and poisons it at the bound, and a resolved record absorbs the arrival; every other record is untouched. |
| DlqService.DLQService.GetEvent | services/dlqueue/internal/core/service/dlq_service.go:108-110 | The stored record as an isolated copy, or not found. |
| DlqService.DLQService.ReplayEvent | services/dlqueue/internal/core/service/dlq_service.go:119-145 | Posts exactly once if and only if the event is stored and pending, to the stored source URL with the stored payload and headers; only if the transport takes the post is that record marked replayed, and otherwise the whole store is as it was although the fetched event was already changed; each refusal has its own error. |
| DlqService.DLQService.ResolveEvent | services/dlqueue/internal/core/service/dlq_service.go:148-169 | Resolves exactly the named record, pending or replayed, with resolver and time, or changes nothing, with the error that applies. |
| DlqService.DLQService.ResetPoisoned | services/dlqueue/internal/core/service/dlq_service.go:173-185 | Returns exactly the named poisoned record to pending with a zero counter, otherwise changes nothing, with the error that applies. |
| DlqService.DLQService.BatchReplay | services/dlqueue/internal/core/service/dlq_service.go:189-202 | A count n means the first n listed records were replayed and all others are untouched; the i-th post carries the source URL, payload and headers of the i-th listed record, plus one failed post when the transport refused the next; an error says why record n+1 was not. |
| DlqService.PostNext | services/dlqueue/internal/core/service/dlq_service.go:119-145 | One more replay posts the next record of the page, unless it was refused without a post. |
| ReplayDelivery.ReplayEventIsStep | services/dlqueue/internal/core/service/dlq_service.go:119-145 | What `ReplayEvent` promises is the replay step of `EndToEnd`, and the messages that step puts on their way are the payloads of the posts the transport took. |
| ReplayDelivery.BatchReplayIsRun | services/dlqueue/internal/core/service/dlq_service.go:189-202 | What `BatchReplay` promises is a run of such steps, one per replayed record of the page, that puts the posted payloads on their way. |
| DlqService.DLQService.BatchResolve | services/dlqueue/internal/core/service/dlq_service.go:205-214 | A count n means exactly the first n identifiers were resolved; the error is the refusal of the next one. |
| DlqService.DeliveredBatchIsFull | services/dlqueue/internal/core/service/dlq_service.go:189-202 | What the batch replay promises, for a filter on pending records whose bounds do not overflow: it stops at nothing but a failed post, and without one it is the full batch that `DlqBatch.BatchesDrain` counts. |
| DlqBatch.ReplayNext | services/dlqueue/internal/core/service/dlq_service.go:194-201 | One more call of the loop extends the prefix, or fails for the reason its original status gives. |
| DlqBatch.ResolveNext | services/dlqueue/internal/core/service/dlq_service.go:206-213 | One more resolution extends the prefix, or leaves the store as it was; a repeated identifier cannot extend it. |
| DlqBatch.FullBatchShrinks | services/dlqueue/internal/core/service/dlq_service.go:189-202 | A pending batch that meets no failure takes min(limit, m) of the m matching records out of the match set and touches nothing else. |
| DlqBatch.BatchesDrain | services/dlqueue/internal/core/service/dlq_service.go:189-202 | With a transport that accepts every post, no matching record is left if and only if at least ceil(m / limit) batches were made. |
| DlqBatch.CompletedBatchIsFull | services/dlqueue/internal/core/service/dlq_service.go:189-202 | A batch that returned no error is such a full batch. |
| DlqLifecycle.IngestIsStep | services/dlqueue/internal/core/service/dlq_service.go:34-105 | What the ingest method does to the store is a step of the run. |
| DlqLifecycle.StepKeepsInv | services/dlqueue/internal/core/service/dlq_service.go:34-185 | Every service call keeps: one record per natural key, the status rules, and the agreement of counters with the history of calls. |
| DlqLifecycle.RunKeepsInv | services/dlqueue/internal/core/service/dlq_service.go:34-185 | So every state of every run satisfies that invariant. |
| DlqLifecycle.ReachableRecords | services/dlqueue/internal/core/domain/dlq_event.go:77-168 | In every reachable state: the retry bound is at least 1; poisoned iff the counter reached it; resolution time set iff resolved; the counter is the arrivals since creation or reset; replays since then are at most the bound. |
| DlqLifecycle.LookupIsDeterministic | services/dlqueue/internal/adapter/outbound/memory/dlq_repository.go:44-53 | In every reachable state two records with one natural key are the same record, so map order cannot change a lookup. |
| DlqLifecycle.ResolvedForever | services/dlqueue/internal/core/service/dlq_service.go:40-51 | Once resolved, a record is never changed again by any call of any run. |
| DlqLifecycle.RecordsPersist | services/dlqueue/internal/adapter/outbound/memory/dlq_repository.go:84-92 | No record disappears, and its key, payload, headers, context and creation time never change. |
| DlqLifecycle.PoisonedWithoutAnyReplay | services/dlqueue/internal/core/domain/dlq_event.go:144-156 | A run that poisons a record nobody replayed: the documentation (README.md line 570) says poisoned after failed replays, the code counts arrivals. |
| DlqPoisoning.PoisonedByReplaysIff | services/dlqueue/internal/core/domain/dlq_event.go:144-156 | In every reachable state a poisoned record had exactly its bound of replays if and only if its unprompted arrivals are the ones beyond the bound; replays and unprompted arrivals add up to the counter. |
| DlqPoisoning.UnpromptedIffNotReplayed | services/dlqueue/internal/core/domain/dlq_event.go:141-156 | An arrival is unprompted if and only if it does not find the record in state replayed, which a caller can check beforehand. |
| DlqPoisoning.PoisonedAfterFailedReplays | services/dlqueue/internal/core/domain/dlq_event.go:144-156 | The documented rule holds for every run in which each arrival answers a replay. |
| DlqPoisoning.StepKeepsBalance | services/dlqueue/internal/core/service/dlq_service.go:34-185 | Every call keeps: arrivals plus the outstanding replay equal replays plus unprompted arrivals. |
| DlqInterleaved.ExclusiveCallsAreAtomic | services/dlqueue/internal/core/service/dlq_service.go:34-185 | With calls split into read and write, as the separate locks allow: while no two calls in flight are about one natural key, each call is one atomic step of `DlqLifecycle`, a refused one at its read and any other at its write. |
| DlqInterleaved.ExclusiveRunKeepsInv | services/dlqueue/internal/core/service/dlq_service.go:34-185 | So every state of such a run keeps one record per natural key, the status rules and the counters. |
| DlqInterleaved.ExclusiveResolvedForever | services/dlqueue/internal/core/service/dlq_service.go:34-185 | And in such a run a resolved record is never changed again. |
| DlqInterleaved.AnyRunIsSound | services/dlqueue/internal/core/service/dlq_service.go:34-185 | However calls overlap, no record disappears or changes its key, context or creation time, and each keeps the poison threshold and the meaning of its resolution time. |
| DlqInterleaved.OverlappingArrivalsRepeatKey | services/dlqueue/internal/core/service/dlq_service.go:38-85 | Two overlapping first arrivals of one failure leave two records of one natural key. |
| DlqInterleaved.OverlappingReplayUndoesResolution | services/dlqueue/internal/core/service/dlq_service.go:119-169 | A replay that read a record before it was resolved and writes afterwards takes a resolved record back to replayed. |
| DlqLifecycle.StoreRefinesAutomaton | services/dlqueue/internal/core/service/dlq_service.go:34-185 | Each call on the identifier-keyed store is exactly one move, at one key, of the automaton keyed by (sensor, trigger, payload hash); every other key is framed. |
| DlqLifecycle.RefusedIsNoMove | services/dlqueue/internal/core/service/dlq_service.go:34-185 | A call the store refuses or absorbs is a move the automaton refuses as well. |
| Idempotency.NaturalKey | pkg/idempotency/key.go:16-23 | The hasher sees each field followed by the separator, in order. |
| Idempotency.EncodeTriple | pkg/idempotency/key.go:16-23 | What the digest sees of three fields: each followed by the separator, in order. |
| Idempotency.Resolve | pkg/idempotency/key.go:28-33 | A non-empty explicit key is the key itself; otherwise the key is the digest of the encoded fields. |
| Idempotency.DecodeEncode | pkg/idempotency/key.go:16-23 | A parser recovers separator-free fields from the stream fed to the digest. |
| Idempotency.EncodingIsUniqueIff | pkg/idempotency/key.go:9-12 | For two or more fields the encoding is unique if and only if no field holds the separator byte: the comment's claim with its exact condition. |
| Idempotency.BoundaryMoves | pkg/idempotency/key.go:9-12 | A separator inside a field lets the boundary to its neighbour move without changing the stream. |
| Idempotency.MemoryStore.CheckAndRecord | pkg/idempotency/memory.go:21-30 | Reports whether the key was recorded before, and records it. |
| Strings.AtoiItoa | services/ratings/internal/core/service/rating_service.go:44 | Decimal rendering of the star count is injective and holds only digits and a sign, hence no separator. |
| Strings.ItoaSays | tools/specgen/internal/openapi/openapi.go:97-103 | A decimal rendering is one digit per decimal place, the most significant first, after a minus for a negative number. |
| WritePath.RatingService.SubmitRating | services/ratings/internal/core/service/rating_service.go:43-79 | Empty product or reviewer or stars outside 1 to 5 have no effect. Otherwise the caller's key, or without one the digest of product, reviewer and stars, is recorded, the row is saved if and only if that very key was not recorded before, the event carries it and is published either way, and the outcome says which; that is what `SubmitAlone` says. |
| WritePath.KeysStep | pkg/idempotency/memory.go:21-30 | Under any interleaving each recorded key keeps exactly one caller that saw it unrecorded. |
| WritePath.RowsStep | services/ratings/internal/core/service/rating_service.go:56-62 | Saved rows and callers past a successful save stay in bijection at every step. |
| WritePath.EventsStep | services/ratings/internal/core/service/rating_service.go:64-73 | Published events and successful callers stay in bijection at every step. |
| WritePath.ExactlyOneWinnerPerKey | services/ratings/internal/core/service/rating_service.go:43-79 | In every interleaving of any number of calls: one caller per recorded key saw "not processed", and no two saved rows share a key. |
| WritePath.KeysAndRowsInBijection | services/ratings/internal/core/service/rating_service.go:43-79 | With no call in progress, saved rows are in bijection with the recorded keys whose own save did not fail; with all recorded keys if and only if no save failed. |
| WritePath.RowMissingIffSaveFailed | services/ratings/internal/core/service/rating_service.go:56-62 | With no call in progress, a recorded key has its row if and only if the save of the call that recorded it did not fail. |
| WritePath.FailedSaveIsForGood | services/ratings/internal/core/service/rating_service.go:41-62 | Once the save of a key failed, no later state has a row of that key, and every later success on it is reported as already processed: the retry safety of the comment does not cover this case. |
| WritePath.RetryAfterFailedSave | services/ratings/internal/core/service/rating_service.go:41-79 | For every valid request, the run of a failed save and a retry ends with one event published and no row. |
| WritePath.PublishedOnceIffSucceeded | services/ratings/internal/core/service/rating_service.go:63-79 | A call published exactly one event if it returned success or "already processed", and none otherwise. |
| WritePath.EventIdMatchesRowIffSameCall | services/ratings/internal/core/service/rating_service.go:64-73 | An event carries the identifier of a stored row if and only if the same call saved it; a deduplicated call's event never does. |
| WritePath.EventsAgreeWithRows | services/ratings/internal/core/service/rating_service.go:44-73 | With natural keys and an injective digest, every event, also of a deduplicated call, agrees in product, reviewer and stars with the row saved under its key. |
| WritePath.SameKeySameFields | services/ratings/internal/core/service/rating_service.go:44 | Two naturally keyed requests with one key are the same request when the fields of one hold no separator. |
| WritePath.SeparatorMergesRequests | pkg/idempotency/key.go:9-12 | Two valid requests for different products that share a key, because a field holds the separator. |
| WritePath.UninterruptedCallIsSubmitRating | services/ratings/internal/core/service/rating_service.go:43-79 | A caller of the interleaved model that runs undisturbed does what the code of one call does. |
| EndToEnd.EffectivelyOnce | services/dlqueue/internal/core/service/dlq_service.go:34-145 | Over every run of submissions, failed, duplicated, reordered or dropped deliveries, dead-letter ingests and replays: at most one row per key, and every replayed record's payload is in flight, applied, or had its last copy dropped since it was last submitted or replayed. |
| EndToEnd.RunKeepsLost | services/dlqueue/internal/core/service/dlq_service.go:119-145 | A payload that counts as lost has no copy left on its way. |
| EndToEnd.AppliedMeansSavedAndPublished | services/ratings/internal/core/service/rating_service.go:43-79 | An applied payload has a published event and a recorded key, and its row if and only if the save of the call that recorded its key is neither pending nor failed. |
| EndToEnd.NothingVanishes | services/dlqueue/internal/core/service/dlq_service.go:34-105 | Every submitted payload is at all times in flight, applied, filed as a dead letter, or had its last copy dropped since it was last sent. |
| EndToEnd.LandedPayloadDelivered | services/dlqueue/internal/core/service/dlq_service.go:119-145 | Whatever happens to other payloads: one that was submitted and not filed, or whose dead letter is in state replayed, and that is not lost, has its event once no copy of it is on its way, and its row if and only if the save of its own key is neither pending nor failed. |
| EndToEnd.DrainedPipelineDelivered | services/dlqueue/internal/core/service/dlq_service.go:119-145 | Once everything is delivered, every such payload has its event, and its row if and only if the save of its own key did not fail. |
| EndToEnd.ReplaysNeverRestoreTheRow | services/dlqueue/internal/core/service/dlq_service.go:119-145 | After the failed save of a key no submission, redelivery or replay brings its row back (README.md line 572 calls replays safe). |
| EndToEnd.AccountedPersists | services/dlqueue/internal/core/service/dlq_service.go:119-145 | No step but its own ingestion makes an accounted payload unaccounted. |
| EndToEnd.RunKeepsInv | services/dlqueue/internal/core/service/dlq_service.go:34-145 | The composed invariant holds in every state of every run. |
| PendingStore.RedisStore.StorePending | services/productpage/internal/pending/redis.go:53-59 | Appends the encoded review to the product's list and touches nothing else. |
| PendingStore.RedisStore.StoreDeleting | services/productpage/internal/pending/redis.go:62-64 | Adds the identifier to the product's set and touches nothing else. |
| PendingStore.RedisStore.ReconcilePending | services/productpage/internal/pending/redis.go:81-115 | For pairs without a NUL an entry leaves the stored list if and only if it decodes to the reviewer and text of some confirmed review and no earlier entry decodes to that pair; the others keep their order, undecodable ones included; the result is the stored entries that decode, decoded and in order. Where a pair holds a NUL the match key decides. |
| PendingStore.SurvivorsReconciled | services/productpage/internal/pending/redis.go:81-115 | The specification function the loop is proved against removes exactly those entries, said in terms of the decoded fields alone. |
| PendingStore.RemovalHitsVisited | services/productpage/internal/pending/redis.go:105-108 | Removing by value always deletes the snapshot position being visited. |
| PendingStore.Visit | services/productpage/internal/pending/redis.go:99-112 | One visit either removes that position and uses its key up, or keeps it and returns it if it decodes. |
| PendingStore.SurvivorsCount | services/productpage/internal/pending/redis.go:81-115 | One call takes one entry of each confirmed key that has any, and none of any other key. |
| PendingStore.CallsRemove | services/productpage/internal/pending/redis.go:81-115 | n calls in a row remove min(n, multiplicity) entries of a confirmed key. |
| PendingStore.MatchKeyIsUniqueIff | services/productpage/internal/pending/redis.go:93-105 | A match key stands for one (reviewer, text) pair if and only if neither holds a NUL. |
| PendingStore.RedisStore.ReconcileDeleting | services/productpage/internal/pending/redis.go:117-146 | Keeps and returns exactly the identifiers the read side still lists. |
| PendingInterleaved.UnconfirmedEntriesKept | services/productpage/internal/pending/redis.go:53-115 | With pushes and other reconciliations interleaved between any two commands, the entries no call was told are confirmed are exactly those ever pushed, in push order. |
| PendingInterleaved.OneRemovalPerCallAndKey | services/productpage/internal/pending/redis.go:81-115 | Everything pushed is stored or was removed once; a call removes at most one entry per key, and only of keys it was told are confirmed. |
| PendingInterleaved.UninterruptedCallIsReconcile | services/productpage/internal/pending/redis.go:81-115 | Run without interruption the steps leave what the reconciliation method leaves. |
| ReviewService.ReviewRepository.FindByProductID | services/reviews/internal/adapter/outbound/memory/review_repository.go:26-62 | Filter, sort and slice return the requested slice of the product's listing, newest first and by identifier at equal times, and its length; the run-time panic exactly at a negative offset. |
| ReviewService.ReviewRepository.DeleteByID | services/reviews/internal/adapter/outbound/memory/review_repository.go:74-86 | In the backing array, every later review moves one place down and the store is left without that review; it fails exactly when there was none. |
| ReviewStore.WithoutSays | services/reviews/internal/adapter/outbound/memory/review_repository.go:74-86 | What deletion leaves: everything but the first review with the identifier, and everything without one. |
| ReviewService.ReviewRepository.ShiftDown | services/reviews/internal/adapter/outbound/memory/review_repository.go:79 | The in-place shift leaves the old contents without position i, in the same array. |
| ReviewService.ReviewRepository.Save | services/reviews/internal/adapter/outbound/memory/review_repository.go:65-71 | Appends in place, or to a larger array, and keeps what was stored. |
| ReviewService.ReviewService.GetProductReviews | services/reviews/internal/core/service/review_service.go:39-66 | A page p that exists holds the entries from (p - 1) * pageSize on, newest first, each with the reviewer's own stars, the average and the count when the lookup succeeded and without a rating otherwise, and the total; elsewhere the page the overflowing offset selects. |
| ReviewService.ReviewService.SubmitReview | services/reviews/internal/core/service/review_service.go:70-107 | The caller's key, or without one the digest of product, reviewer and text, is recorded; the review is saved if and only if that key was new; the event carries it and is published either way; an invalid review has no effect. |
| ReviewService.ReviewService.DeleteReview | services/reviews/internal/core/service/review_service.go:112-125 | Deletes if present, publishes either way, and is no error for a missing review. |
| ReviewStore.ListingSorted | services/reviews/internal/adapter/outbound/memory/review_repository.go:43-48 | For i < j entry i of the listing is not older than entry j, and at equal times its identifier comes first, by prefix or first difference; it holds the product's reviews, each as often as stored, and nothing else. |
| Ordering.LexLessIff | services/reviews/internal/adapter/outbound/memory/review_repository.go:47 | String order: a proper prefix comes first, and otherwise the first difference decides. |
| ReviewStore.ListingIsOrderBy | services/reviews/internal/adapter/outbound/postgres/review_repository.go:34-39 | With unique identifiers any list of the product's reviews by creation time descending and then identifier, the order of the SQL clause, is the in-memory listing. |
| ReviewStore.ListingDependsOnSet | services/reviews/internal/adapter/outbound/memory/review_repository.go:43-62 | The listing depends only on the set of stored reviews, not on insertion order. |
| ReviewStore.DeleteRemovesFromListing | services/reviews/internal/adapter/outbound/memory/review_repository.go:74-86 | Deleting from the store removes exactly that review from every product's listing, order kept. |
| ReviewStore.DeleteUndoesSave | services/reviews/internal/adapter/outbound/memory/review_repository.go:65-86 | Saving and then deleting a review restores every listing. |
| Pagination.ParsePagination | services/reviews/internal/adapter/inbound/http/handler.go:145-164 | Accepts exactly the missing or in-range parameters, with the defaults, and reports a bad page before a bad page size. |
| Pagination.PagesPartitionListing | services/reviews/internal/adapter/inbound/http/handler.go:77-80 | Pages 1 to totalPages in order are the whole listing, and a page has content if and only if it is at most totalPages. |
| Pagination.OnExactlyOnePage | services/reviews/internal/adapter/outbound/memory/review_repository.go:50-61 | Each entry of a duplicate-free listing is on exactly one page. |
| Pagination.TotalPagesBound | services/reviews/internal/adapter/inbound/http/handler.go:77-80 | The rounded-up division is exactly the least number of pages that reaches the end. |
| Pagination.PageIsRightIff | services/reviews/internal/core/service/review_service.go:40-42 | A page of a listing is served right if and only if its offset fits in an int64, or wraps to an offset past the end of the listing as well. |
| Pagination.ExistingPagesServed | services/reviews/internal/core/service/review_service.go:40-42 | Every page up to totalPages is served right. |
| Pagination.OverflowServesFirstPage | services/reviews/internal/core/service/review_service.go:40-42 | A page number far past the end whose offset wraps to zero and is answered with the first page. |
| OperationId.LowerCamelCase | tools/specgen/internal/openapi/openapi.go:349-367 | The loop yields the lowered method followed by the titled words of the path. |
| OperationId.SegmentAppended | tools/specgen/internal/openapi/openapi.go:352-365 | One more path segment, in braces or not, appends its name with the first letter raised; an empty one appends nothing. |
| OperationId.MethodAlone | tools/specgen/internal/openapi/openapi.go:351 | The identifier of the empty path is the method with its letters lowered. |
| OperationId.DocumentedExamples | tools/specgen/internal/openapi/openapi.go:343-344 | The two examples of the comment hold. |
| OperationId.DecodeIdentifier | tools/specgen/internal/openapi/openapi.go:342-367 | A decoder recovers method and words of every clean route from its identifier. |
| OperationId.IdentifierDecode | tools/specgen/internal/openapi/openapi.go:342-367 | Every string is the identifier of some clean route. |
| OperationId.RoutesShareIdentifierIff | tools/specgen/internal/openapi/openapi.go:346-348 | Two routes with methods in upper-case letters share an identifier if and only if their methods are equal and their words agree in canonical form: cut before upper-case letters, lowered, and glued where no letter starts a word. |
| OperationId.IdentifiersAgreeIff | tools/specgen/internal/openapi/openapi.go:346-348 | The same for methods of letters in any case, which count as equal up to case. |
| OperationId.CanonDecodes | tools/specgen/internal/openapi/openapi.go:349-367 | The canonical words are what the tail of the identifier decodes to. |
| OpenApiTheorems.DerivedIdsDistinctIff | tools/specgen/internal/openapi/openapi.go:54-57 | The derived identifiers of a document are pairwise distinct if and only if no two endpoints agree in method and canonical words. |
| OpenApiTheorems.CleanIdsDistinctIff | tools/specgen/internal/openapi/openapi.go:54-57 | On clean endpoints: if and only if no two agree in method and in path up to braces and empty segments. |
| OperationId.OperationIdsUnique | tools/specgen/internal/openapi/openapi.go:342-367 | Clean routes with one identifier have one method and paths equal up to braces and empty segments (section 4.8.10 of the OpenAPI Specification 3.1.0). |
| OperationId.ParameterCollidesWithLiteral | tools/specgen/internal/openapi/openapi.go:346-348 | A parameter and a literal of the same name share an identifier. |
| OperationId.CamelCaseCollidesWithTwoSegments | tools/specgen/internal/openapi/openapi.go:346-348 | A camel-case segment shares its identifier with two segments. |
| OperationId.ExtractPathParams | tools/specgen/internal/openapi/openapi.go:371-384 | The loop with its seen-map yields the specified parameter list. |
| OperationId.ParamsListedOnce | tools/specgen/internal/openapi/openapi.go:371-384 | Each braced segment of the path is listed once, and nothing else is. |
| YamlTree.KeyList | tools/specgen/internal/yamlutil/yamlutil.go:54-58 | Collecting keys in any visiting order and sorting yields one list. |
| YamlTree.SortedKeysUnique | tools/specgen/internal/yamlutil/yamlutil.go:58 | Any strictly sorted list of exactly these keys is that list. |
| YamlTree.ConvertAny | tools/specgen/internal/yamlutil/yamlutil.go:45-95 | The conversion equals a function of the value, so no map order shows in the tree. |
| YamlTree.RefsPreserved | tools/specgen/internal/yamlutil/yamlutil.go:45-95 | The tree holds exactly the references the value holds. |
| JsonSchema.JsonTagName | tools/specgen/internal/jsonschema/jsonschema.go:136-153 | The name is the part of the tag before the first comma, or the field name if that is empty; omitempty if and only if some later part is that word. |
| JsonSchema.BuildSchema | tools/specgen/internal/jsonschema/jsonschema.go:36-73 | Whenever the recursive walk ends it yields the specified schema, which `SchemaSays` and `StructDescribed` put in terms of the type, or nothing for the first unsupported construct it meets, also on cyclic types. |
| JsonSchema.BuildStruct | tools/specgen/internal/jsonschema/jsonschema.go:93-117 | The field loop yields an object with one property per name of an exported field that is not tagged out, described by the walk of the last field of that name, and requires, in order, those fields without omitempty; the first unsupported field fails the whole, and later fields are not walked. |
| JsonSchema.StructDescribed | tools/specgen/internal/jsonschema/jsonschema.go:93-117 | The schema of a struct is exactly such an object. |
| JsonSchema.RequiredIff | tools/specgen/internal/jsonschema/jsonschema.go:93-117 | A name is required if and only if some exported, not tagged-out field has it and no later part of its tag is omitempty. |
| JsonSchema.PropertiesIff | tools/specgen/internal/jsonschema/jsonschema.go:93-117 | The properties are exactly the names of such fields, and a name that only one field has is described by the schema the walk of that field gives. |
| JsonSchema.SchemaSays | tools/specgen/internal/jsonschema/jsonschema.go:36-91 | Every other kind of type: kind and format of each basic type, array of the element's schema, date-time for time.Time alone, object for maps and interfaces, and named types, aliases and pointers described as what they stand for. |
| JsonSchema.SchemaFromType | tools/specgen/internal/jsonschema/jsonschema.go:29-34 | Where the walk over the underlying type of a named type ends, its result is the schema of the name. |
| TypeGraph.EndsIff | tools/specgen/internal/jsonschema/jsonschema.go:36-117 | The walk ends, with a schema or an error, if and only if the names it really comes to are declared and none is met again on the way down; it then nests at most as many named types as are declared. |
| TypeGraph.BuildsIff | tools/specgen/internal/jsonschema/jsonschema.go:36-117 | It yields a schema if and only if no chain of named references is undeclared or comes back to a name and no visited construct is unsupported. |
| TypeGraph.SupportedEndsIff | tools/specgen/internal/jsonschema/jsonschema.go:36-117 | Where nothing visited is unsupported, it ends if and only if the type graph is acyclic. |
| TypeGraph.LinkedNeverEnds | tools/specgen/internal/jsonschema/jsonschema.go:46-67 | A struct with a pointer to itself is never walked to the end. |
| TypeGraph.FieldOrderDecides | tools/specgen/internal/jsonschema/jsonschema.go:93-111 | With an unsupported field before the same pointer the walk ends with an error although the type is cyclic; with that field after it, it does not end. |
| JsonSchema.SchemaForRequired | tools/specgen/internal/jsonschema/jsonschema.go:36-117 | At every level of every generated schema, what is required is declared as a property. |
| TypeGraph.ResultIsUnique | tools/specgen/internal/jsonschema/jsonschema.go:36-117 | The walk has one result, however deep it is allowed to go. |
| JsonSchema.EmitSchema | tools/specgen/internal/yamlutil/yamlutil.go:99-147 | Emitting with map iteration in any order yields one tree. |
| SpecParts.SchemaTreeSays | tools/specgen/internal/yamlutil/yamlutil.go:99-147 | Read off the tree by key: type, format, description, items, the required names and each property; what is empty is left out. |
| JsonSchema.PropertiesSorted | tools/specgen/internal/yamlutil/yamlutil.go:114-128 | Property keys come out strictly sorted and complete. |
| JsonSchema.SchemaToNodeInjective | tools/specgen/internal/yamlutil/yamlutil.go:99-147 | Different schemas never print alike (absent and empty maps and lists being the same). |
| JsonSchema.SchemaHasNoRef | tools/specgen/internal/yamlutil/yamlutil.go:99-147 | A schema's tree holds no reference. |
| Descriptors.DtoOf | tools/specgen/internal/asyncapi/asyncapi.go:68-72 | A payload taken from a declared type carries its name and the schema generated for it. |
| Descriptors.GroupInOrder | tools/specgen/internal/values/values.go:84-95 | A group is exactly the descriptors of its exposure key, or of its name for those without one, in input order. |
| Descriptors.SortedByNameUnique | tools/specgen/internal/values/values.go:116-118 | With distinct names any sorted arrangement of the descriptors is the same list, whatever the sort does with ties. |
| ValuesSpec.BuildExposedNode | tools/specgen/internal/values/values.go:81-154 | Fails exactly when some group disagrees on its topic, naming such a group; otherwise, with distinct names, yields one tree whatever the map order; no descriptors give no node. |
| AsyncContent.ExposedSays | tools/specgen/internal/values/values.go:81-154 | Read off the tree by key: the topic of a group if it has one, the content type of its first descriptor by name, and its event types in order. |
| ValuesSpec.ResolveGroups | tools/specgen/internal/values/values.go:105-129 | Visiting the groups in any order resolves each to the topic and content type of its first descriptor by name and all its event types. |
| ValuesSpec.ExposedTreeIgnoresOrder | tools/specgen/internal/values/values.go:81-154 | Permuting the descriptors changes neither the verdict nor the tree. |
| ValuesSpec.BuildCqrsNode | tools/specgen/internal/values/values.go:47-76 | One entry per endpoint with an event name, in some order sorted by event name, and in one order when only equal routes share an event; none gives no node. |
| ValuesSpec.CqrsSays | tools/specgen/internal/values/values.go:47-76 | The entries are the endpoints with an event, each with its method and path and as often as given, in order of event name. |
| ValuesSpec.CqrsTreeFixedIff | tools/specgen/internal/values/values.go:62-64 | The tree is the same for every result the sort may give if and only if only equal routes carry the same event. |
| ValuesSpec.RouteFound | tools/specgen/internal/values/values.go:66-72 | When only equal routes share an event, every endpoint that carries one is found under it with its method and path. |
| ValuesSpec.CqrsTreeIgnoresOrder | tools/specgen/internal/values/values.go:47-76 | Under that condition permuting the endpoints does not change the tree. |
| AsyncApi.BuildMessage | tools/specgen/internal/asyncapi/asyncapi.go:50-115 | The message node and the collected schemas, or an error exactly for a payload without schema. |
| AsyncApi.BuildComponents | tools/specgen/internal/asyncapi/asyncapi.go:119-150 | All messages in the given order and all schemas sorted, or the error of the first unsupported payload. |
| AsyncApi.FindAddress | tools/specgen/internal/asyncapi/asyncapi.go:180-187 | The first topic that is set in input order, or the key. |
| AsyncApi.AddressOfAgreeing | tools/specgen/internal/asyncapi/asyncapi.go:176-187 | When the group agrees on a topic the address is that topic, or the key when it is empty. |
| AsyncApi.BuildChannel | tools/specgen/internal/asyncapi/asyncapi.go:190-213 | One channel: its address, and a reference per message sorted by name, also when names repeat. |
| AsyncApi.SameMessageRefs | tools/specgen/internal/asyncapi/asyncapi.go:196-208 | Any two sorted arrangements of a group give the same references. |
| AsyncApi.BuildOperations | tools/specgen/internal/asyncapi/asyncapi.go:216-230 | One send operation per key, with the tags of the group's first descriptor in input order or the service name. |
| AsyncApi.FlatIsPermutation | tools/specgen/internal/asyncapi/asyncapi.go:348-355 | Collecting the groups neither loses nor repeats a descriptor. |
| AsyncApi.Build | tools/specgen/internal/asyncapi/asyncapi.go:262-361 | One tree of channels and operations whatever the map order, with messages in some order sorted by name, and one order for distinct names; an error exactly when a payload has no schema. |
| AsyncContent.MessageSays | tools/specgen/internal/asyncapi/asyncapi.go:50-61 | Read off the document by key: name, title, content type and tags of each message, and its description twice if it has one. |
| AsyncContent.PayloadSays | tools/specgen/internal/asyncapi/asyncapi.go:63-73 | The payload refers to the schema of its type, and there is none without a type. |
| AsyncContent.HeadersSay | tools/specgen/internal/asyncapi/asyncapi.go:75-97 | The headers are string constants: source, spec version and type of the event. |
| AsyncContent.SchemasSay | tools/specgen/internal/asyncapi/asyncapi.go:68-72 | A payload type is described by the schema of the last descriptor, by name, that carries it. |
| AsyncContent.ChannelAddressSays | tools/specgen/internal/asyncapi/asyncapi.go:176-187 | The address is the first topic set in input order, or the key when none is. |
| AsyncContent.ChannelHolds | tools/specgen/internal/asyncapi/asyncapi.go:204-208 | Every descriptor is among the messages of the channel of its exposure key, or of its own name without one. |
| AsyncContent.OperationSays | tools/specgen/internal/asyncapi/asyncapi.go:154-174 | The operation of a channel sends, names the service, points at the channel, and has the tags of the first descriptor or the service name. |
| CrossDocument.DocumentsAgree | tools/specgen/internal/values/values.go:81-154 | Whenever the values generator accepts descriptors with distinct names: exposed keys equal channel keys; each address is the topic, or the key when there is none; each eventTypes list is the sorted permutation of the ce-type constants reached through the channel's message references. |
| CrossDocument.AllRefsResolve | tools/specgen/internal/asyncapi/asyncapi.go:119-230 | With plain names, every reference anywhere in the document leads to the channel, message or schema it names. |
| UniqueKeys.AsyncApiUniqueIff | tools/specgen/internal/asyncapi/asyncapi.go:119-230 | Whichever order the sort leaves equal names in, no mapping of the document repeats a key if and only if the descriptor names are distinct. |
| UniqueKeys.CqrsUniqueIff | tools/specgen/internal/values/values.go:47-76 | No mapping of the routes tree repeats a key if and only if no two routes with an event share its name; equal routes do repeat it. |
| UniqueKeys.ExposedUnique | tools/specgen/internal/values/values.go:81-154 | No mapping of the exposed events repeats a key, whatever the names. |
| CrossDocument.EmittedSchemasDeclareRequired | tools/specgen/internal/asyncapi/asyncapi.go:130-144 | When payload schemas come from declared types, every emitted schema is found under its name and declares what it requires. |
| CrossDocument.ChannelsAndComponentsIgnoreOrder | tools/specgen/internal/asyncapi/asyncapi.go:262-361 | Permuting the descriptors changes neither channels nor components when topics agree. |
| SpecParts.RefLeadsToNameIff | tools/specgen/internal/asyncapi/asyncapi.go:170 | A reference written by appending a name leads, as a URI fragment holding a JSON pointer, to that name if and only if every character of the name may stand in a fragment and none is `/` or `~` (section 3.5 of RFC 3986, sections 3 and 6 of RFC 6901). |
| SpecParts.PercentEncodingLeadsElsewhere | tools/specgen/internal/asyncapi/asyncapi.go:170 | A name whose reference leads to another name, because the fragment is percent-decoded. |
| SpecParts.RefIsUnambiguous | tools/specgen/internal/asyncapi/asyncapi.go:170 | A reference leads along one key path only. |
| SpecParts.SchemaEmitted | tools/specgen/internal/openapi/openapi.go:225-241 | Every collected schema is emitted under its own name, and nothing else is. |
| OpenApi.BuildOperation | tools/specgen/internal/openapi/openapi.go:52-152 | The operation object and collected schemas, or the error of the first type without schema in the order request, response, errors. |
| OpenApi.BuildPathItem | tools/specgen/internal/openapi/openapi.go:156-193 | Parameters if there are any, then the operations sorted by method. |
| OpenApi.CollectPaths | tools/specgen/internal/openapi/openapi.go:248-261 | Operations filed by path and lowered method, each path listed once, and all schemas; or the error of the first endpoint with an unsupported type. |
| OpenApi.BuildTags | tools/specgen/internal/openapi/openapi.go:198-222 | All tags in use, sorted, each once; nothing when there are none. |
| OpenApi.Build | tools/specgen/internal/openapi/openapi.go:244-340 | Whatever order the maps are visited in, one tree of tags, paths and components; or the error of the first endpoint that has one. |
| OpenApiTheorems.DocumentDependsOnSet | tools/specgen/internal/openapi/openapi.go:244-340 | With one endpoint per path and method and one schema per type name, the tree depends only on the set of endpoints. |
| OpenApiTheorems.SchemasRepresent | tools/specgen/internal/openapi/openapi.go:248-261 | The collected schemas are exactly those of the mentioned types, one of them for each name. |
| OpenApiTheorems.PathsJustified | tools/specgen/internal/openapi/openapi.go:251-261 | Every filed operation is the operation of an endpoint with that path and method. |
| OpenApiTheorems.RefsNameEmittedSchemas | tools/specgen/internal/openapi/openapi.go:52-340 | Every reference in the document is to a schema the document emits. |
| OpenApiTheorems.AllRefsResolve | tools/specgen/internal/openapi/openapi.go:52-340 | With plain type names every reference leads to the schema it names. |
| OpenApiTheorems.EmittedSchemasDeclareRequired | tools/specgen/internal/openapi/openapi.go:225-241 | When the mentioned schemas come from declared types, every emitted schema is found under its name and declares what it requires. |
| OpenApiTheorems.EndpointDocumented | tools/specgen/internal/openapi/openapi.go:251-261 | With one endpoint per path and method, following path and lowered method from the document root reaches the operation of that endpoint. |
| OpenApiContent.OperationSays | tools/specgen/internal/openapi/openapi.go:52-76 | Read off the document by key: identifier, summary, description, tags and event name of every endpoint's operation, given or defaulted. |
| OpenApiContent.RequestSays | tools/specgen/internal/openapi/openapi.go:78-94 | The request body is required and refers to the schema of its type; there is none without a type. |
| OpenApiContent.SuccessSays | tools/specgen/internal/openapi/openapi.go:96-130 | The success response is found under the given status, or 201 for POST and 200 otherwise, unless an error takes it; it refers to the schema of the response type, as an array for a slice. |
| OpenApiContent.ErrorSays | tools/specgen/internal/openapi/openapi.go:132-150 | The last error with a body of each status: its text and a reference to the schema of its type. |
| OpenApiContent.SchemasSay | tools/specgen/internal/openapi/openapi.go:83-148 | A type name is described by the schema of its last mention: endpoints in order, and request, response and errors within one. |
| OpenApiContent.TagsSay | tools/specgen/internal/openapi/openapi.go:198-222 | The document declares exactly the tags in use, in order and each once; an endpoint without tags uses the service name. |
| OpenApiContent.ParametersSay | tools/specgen/internal/openapi/openapi.go:159-176 | The parameters of a path item are required path parameters of type string, one per braced segment. |
| OpenApiTheorems.ErrorDocumented | tools/specgen/internal/openapi/openapi.go:132-150 | The last error with a body of each status is documented with its text and a reference to its type. |
| OpenApiTheorems.SuccessDocumented | tools/specgen/internal/openapi/openapi.go:95-129 | The success response is documented unless an error with a body has its status, and nothing else is documented but errors with a body. |
| OpenApiTheorems.OperationTagsDeclared | tools/specgen/internal/openapi/openapi.go:195-222 | Every tag of every emitted operation is declared at the top level, in a strictly sorted list. |
| UniqueKeys.OpenApiUniqueIff | tools/specgen/internal/openapi/openapi.go:156-340 | No mapping of the OpenAPI document repeats a key if and only if no method called "parameters" in any case is filed on a path with parameters. |
| OpenApiTheorems.ParametersListedOnce | tools/specgen/internal/openapi/openapi.go:156-176 | The parameters of a path item are the braced segments of its path, each once. |

## Left out

- DlqLifecycle.RunKeepsInv: one service call is one atomic step; the store locks its reads and writes separately, and what then holds of overlapping calls is `DlqInterleaved`.
- DlqInterleaved.ExclusiveCallsAreAtomic: a call is its first read and its write; the batch calls are sequences of such calls, and listings are not in the interleaved model.
- DlqLifecycle.IngestIsStep: record identifiers are assumed fresh in runs only; the store itself overwrites on an equal identifier, as the source does.
- DlqRepository.CloneHeaders: a nil list inside a header map becomes an empty list, and the two are not told apart.
- ReviewService.ReviewRepository.FindByProductID: the limit is taken as non-negative and the sum of offset and limit as not overflowing, as the endpoint guarantees; a returned page is a sequence, so its sharing of a freshly filled slice is not captured; the stable library sort is its specification function.
- ReviewStore.ListingIsOrderBy: the SQL query is used as an ordering only; collation is byte order.
- Descriptors.SortSliceByName: ties of equal names are left open, so the content type of a group and the order of message components are fixed only for distinct names.
- OperationId.LowerCamelCase: case conversion is ASCII, and characters stand for bytes.
- OperationId.IdentifiersAgreeIff: methods hold letters only, as HTTP methods do; with other characters the end of the method cannot be told from the path.
- SpecParts.RefLeadsToNameIff: characters stand for bytes, so names are compared byte by byte after decoding.
- JsonSchema.BuildSchema: called only where the walk ends (TypeGraph.EndsIff), because a method of the model cannot run for ever; a reference to an undeclared name, which the Go type checker excludes, counts as not ending.
- AsyncApi.Build: `info`, `servers` and their tag list are not modelled; operation tags follow the input order and are outside the order-independence results; the order of messages of one name is left to the sort.
- OpenApi.Build: `info` and `servers` are not modelled; the status text of an error response is an input.
- OpenApiTheorems.EndpointDocumented: a method spelled `parameters` is excluded, because its entry would share a key with the parameter list.
- EndToEnd.EffectivelyOnce: the sensor is an environment that may drop, duplicate, retry, reorder or dead-letter a message; Argo Events itself is not modelled.
- HTTP handlers, routing, JSON decoding, templates and clients: input and output only.
- PostgreSQL adapters, Kafka and NATS publishers, Redis errors and time-outs, metrics, logging, tracing, configuration.
- SHA-256, uuid, the clock and JSON encoding of reviews: parameters of the model.
- The poisoned counter metric counts arrivals that end poisoned, not transitions; metrics are not modelled.
- The details and notification services, ingestion, rating averages, the AST walker, API registration and the document linters: easy members or external tools.
- Sharing of YAML node pointers: trees are values.
