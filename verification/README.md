# LONG Hub: verified model

LONG Hub is an image catalogue in PostgreSQL. A search index, webhook subscribers and downloaded replicas follow
it, and must keep agreeing with it while edits, moderation, retries, timeouts and stale queued jobs interleave.
This project models those protocols and proves what they keep.

`dafny verify dfyconfig.toml` checks everything.

| file | component |
|---|---|
| Catalog.dfy | image, version and deletion-request rows; uploads, edits, deletion requests and moderation as transactions |
| IndexProtocol.dfy, IndexGuarantees.dfy, Reconcile.dfy | the search-index protocol as interleaved steps, what it guarantees over whole runs, and the periodic repair |
| Database.dfy | the handlers and jobs as methods on a mutable database, proved to take exactly those transactions and steps |
| Views.dfy, Notices.dfy | what the server answers about an image; the notices each event gives rise to |
| Replica.dfy, Drain.dfy | the documented replication protocol: journal, export, refresh, with dispatch and delivery in between; and why the follower catches up |
| Replication.dfy, Tags.dfy | the same protocol with the copy read back from the bytes of an accepted export; the tag tables behind it |
| CatalogExport.dfy, Ndjson.dfy | the export stream and the downloader that verifies it, byte by byte |
| Dispatch.dfy, Fanout.dfy, Subscription.dfy, Delivery.dfy, Breaker.dfy, Changes.dfy | webhook paging, enqueueing with retries, what that does for one subscriber among many, delivery, the circuit breaker, and the differences an update event carries |
| Headers.dfy, Search.dfy, Pagination.dfy | custom webhook headers in three languages, search patterns, page lists |
| Keyset.dfy, Text.dfy, Options.dfy | keyset pages, trimming and numerals, option and result types |

## Assumptions about the environment

- Transactions that touch one image row are serialised by its row lock (`LockImageForDeletion`), so each one is a
  function on the committed rows. The index job, which holds that lock across network calls, is split into steps.
- The search index applies its tasks in submission order, and a write reaches its queue before the submitting call
  returns or never. Any task may fail. A job may stop at any step and leave its write in flight.
- An index job whose database session breaks has lost its row lock; it submits nothing after that. The model reads the
  row and submits the write in one step.
- Column defaults and constraints are those of `backend/sql/schema.sql`: `failure_count` starts at 0, `processed_at`
  and `processed_by` at NULL, generated ids are positive, and the partial unique index on active requests exists.
  The first version number is a parameter.
- Replica convergence assumes that the follower's webhook stays active and subscribed to all three events, that
  enqueueing succeeds, that each task is eventually handled, and that the receiver answers every delivery with 2xx
  after journaling it (any other answer ends the task and loses the notice); the documentation calls delivery
  best-effort for the same reasons. The index results need none of this, because the repair job makes up for lost tasks.
- JSON text and SHA-256 are abstract. The codec is assumed to encode each record of an export on one line that
  decodes to that record. A digest may collide: no result needs it to be injective.
- A failing write to an export has delivered at most a proper prefix of its line; a flush may fail after a whole line.
- The ids of deletion invocations stay retained for the run in the fan-out results (24 hours in the code); the
  replication model lets them be forgotten at any time.
- User names do not change.

## Results that needed a condition

- An edit of a webhook that does not mention `active` writes back the flag it read. It undoes an automatic pause, and
  resets the failure count, if and only if the webhook was active when it was read and paused when it is written
  (`Breaker.SilentEdit`); `Breaker.StaleEditRevives` is a concrete run.
- Reopening a deletion request checks nothing about other requests of the same user. It keeps one active request per
  user and image if and only if there is no other, which is what the partial unique index enforces
  (`IndexGuarantees.ReopenNeedsUniqueIndex`).

## Model

| member | source | states |
|---|---|---|
| IndexGuarantees.IndexAgreement | backend/internal/queue/ms-index.go:89-150 | In every reachable state, with failed, retried and timed-out jobs and writes still in flight, an image the repair query does not select is in the index with the text, tags and rating number of its last version, its uploader and its creation time, or not at all if it is deleted; every pending write for it repeats that. |
| IndexGuarantees.DesiredDocument | backend/internal/queue/ms-index.go:99-116 | The document a row calls for, read off the version list: none for a deleted or versionless image, else the last version's text and tags, 3, 2 or 1 for violent, moderate or none, the uploader and the creation time. |
| IndexGuarantees.NoResurrection | backend/internal/queue/ms-index.go:87-104 | From approval on every submitted write for the image is a removal, from jobs queued earlier too, and after the first acknowledged removal the image is absent in all later states, even if its job died before it could store the marker. |
| IndexGuarantees.TombstoneMarkerMeansAbsent | backend/internal/sqlc/deletion.sql.go:123-126 | A stored tombstone marker is never taken back and keeps meaning that the image is absent. |
| IndexGuarantees.ZeroJobsFindTombstones | backend/internal/queue/deletion.go:14-30 | A job that carries version 0 always finds a deleted image. |
| IndexGuarantees.WritesFollowTheRow | backend/internal/queue/ms-index.go:99-119 | A job submits at most the write that the row calls for at that moment, whatever version the job was queued with. |
| IndexGuarantees.QuerySelectsDisagreement | backend/internal/sqlc/search.sql.go:80-89 | The repair query selects exactly the deleted images whose marker is not 0 and the other versioned images whose marker is not the id of their last version. |
| IndexGuarantees.UnselectedAgrees | backend/internal/sqlc/search.sql.go:80-89 | In any state that keeps the protocol invariant, what the query leaves out is in agreement with the index. |
| IndexGuarantees.RunSubmitsRemovals | backend/internal/queue/ms-index.go:99-104 | Over any run that starts with the image deleted, only removals are appended for it. |
| IndexGuarantees.DeletionFreezes | backend/internal/handlers/image.go:458-480 | Once deleted, an image keeps its versions, current version, tombstone and snapshot over every run; edits that read it before the approval commit nothing. |
| IndexGuarantees.ApprovalIsFinal | backend/internal/admin/deletion.go:91-111 | An approved request never changes again. |
| IndexGuarantees.DeletionRecord | backend/internal/admin/deletion.go:109-134 | In every reachable state: deleted iff an approval is recorded iff an approved request exists for the image, that request is the only one, and exactly one deletion event was built, whose snapshot is the image as it stands now. |
| IndexGuarantees.RequestRecord | backend/internal/sqlc/deletion.sql.go:387-391 | In every reachable state the processing time and moderator are set iff the request is not active, and a user has at most one active request per image. |
| IndexGuarantees.ReopenNeedsUniqueIndex | backend/internal/admin/deletion.go:101-114 | Without the unique index reopening keeps the moderation invariant iff the user has no other active request for the image. |
| IndexGuarantees.VersionHistory | backend/internal/sqlc/version.sql.go:26-48 | In every reachable state version numbers run from the first number without gap or duplicate and the last is the current one, although edits read before they lock. |
| IndexGuarantees.RunGrows | backend/internal/queue/ms-index.go:89-128 | Every run only appends versions and events, keeps approved requests, and keeps deleted rows up to their index marker. |
| IndexProtocol.StepKeepsInv | backend/internal/queue/ms-index.go:89-150 | Every step of every actor keeps the joint invariant of rows, jobs, locks, pending writes and markers. |
| IndexProtocol.RunKeepsInv | backend/internal/queue/ms-index.go:89-150 | So does every interleaving. |
| IndexProtocol.CommitStoresMarker | backend/internal/sqlc/search.sql.go:14-19 | The guards of both marker updates hold whenever they run: what is stored is the marker the row calls for. |
| IndexProtocol.CommitKeepsInv | backend/internal/queue/ms-index.go:120-126 | Committing a confirmed write makes the marker truthful. |
| IndexProtocol.EnqueueKeepsInv | backend/internal/queue/ms-index.go:130-141 | A new write leaves every truthful marker truthful, even if its job dies at once. |
| Reconcile.RoundShrinks | backend/internal/queue/ms-index.go:152-165 | Without edits one round takes at least min(100, n) of the n disagreeing images out of the set. |
| Reconcile.ReconcileConverges | backend/internal/queue/ms-index.go:152-165 | After ceil(n/100) rounds nothing disagrees and the index is the projection of the catalogue, including every write in flight. |
| Reconcile.RoundExists | backend/internal/queue/ms-index.go:152-165 | A round is possible from every state in which no job runs. |
| Reconcile.FinishSynchronises | backend/internal/queue/ms-index.go:105-126 | A job that returns without error leaves its image in agreement, also when it decides there is nothing to write. |
| Reconcile.IndexRunKeepsSync | backend/internal/queue/ms-index.go:89-128 | Index work never takes an image out of agreement. |
| Reconcile.FinishedStaysInSync | backend/internal/queue/ms-index.go:105-126 | What a job has finished stays in agreement for the rest of the run. |
| Database.Database.AcknowledgeSession | backend/internal/handlers/image.go:627-680 | Uploading is the protocol's upload step: a new row with the given metadata as its only and current version under the first number, and its index job. |
| Database.Database.ReadEdit | backend/internal/handlers/image.go:423-455 | The patch is merged with the row as read before the lock; a missing, deleted or versionless image is refused. |
| Database.Database.CommitEdit | backend/internal/handlers/image.go:457-493 | The edit transaction is the protocol's commit step: it appends the next version or, for a missing or deleted image, changes nothing. |
| Database.Database.CreateImageDeletionRequest | backend/internal/handlers/deletion.go:112-129 | The request transaction is the protocol's request step: a request is created only for a live image without an active request by the same user, and every refusal leaves the rows alone. |
| Database.Database.Moderate | backend/internal/admin/deletion.go:64-151 | The moderation transaction is the protocol's decision step, and succeeds iff the moderator is signed in, request and image exist, the status is the expected one, and: accepting, it is active or rejected, the image has neither tombstone nor approval and the moderator is known; rejecting, it is active; reopening, it is rejected and the user has no active request. Success sets the new status and who decided when (nobody after reopening) and an approval's event names request, image and moderator; errors roll back. |
| Database.Database.WriteImageIndex | backend/internal/queue/ms-index.go:130-150 | A write counts as acknowledged iff it was submitted, processed in time and succeeded; otherwise it may stay queued. |
| Database.Database.SyncImageIndex | backend/internal/queue/ms-index.go:89-128 | The straight-line job takes exactly the steps of the interleaved protocol; it submits nothing or the write the row it read calls for; when it reports success the image agrees. |
| Database.Database.HandleIndexReconcileTask | backend/internal/queue/ms-index.go:152-165 | The repair task is the run of the batch's scheduling steps: a job for every selected image with version 0 for deleted ones, and on a failed enqueue those of a prefix. |
| Catalog.DecisionSucceeds | backend/internal/admin/deletion.go:64-103 | Which decisions succeed, on the request, the image and the moderator alone. |
| Catalog.DecisionRefused | backend/internal/admin/deletion.go:136-145 | Which error a refused decision ends with. |
| Catalog.DecidedRequest | backend/internal/sqlc/deletion.sql.go:387-391 | The status an action leads to, and that the moderator and the time are recorded unless the request is reopened. |
| Catalog.DecidedRows | backend/internal/admin/deletion.go:108-132 | Only an approval touches other rows: it sets the tombstone to now and this request, takes the index marker back and appends one event with the image's last version, in the moderator's name. |
| Catalog.RequestOutcome | backend/internal/handlers/deletion.go:112-129 | A request is refused iff the image is unknown or deleted or the user has an active request for it; otherwise exactly one active row is added. |
| Catalog.DraftOutcome | backend/internal/handlers/image.go:423-455 | An edit is drafted iff the image is not deleted and has a version; each patched field is the patch's and each other the last version's. |
| Catalog.EditOutcome | backend/internal/handlers/image.go:457-480 | An edit commits iff the image is then not deleted and has a version, and appends one version with the drafted content, its author and the next number, which becomes current. |
| Catalog.SnapshotIsLast | backend/internal/sqlc/deletion.sql.go:244-253 | A snapshot shows the last version, or number 0 and empty metadata without one. |
| Catalog.UploadKeepsInv | backend/internal/sqlc/version.sql.go:130-146 | Uploads keep the catalogue invariant. |
| Catalog.CommitUpdateKeepsInv | backend/internal/sqlc/version.sql.go:26-48 | So do edits, with whatever content they read. |
| Catalog.CreateRequestKeepsInv | backend/internal/handlers/deletion.go:112-129 | So do deletion requests. |
| Catalog.ModerateKeepsInv | backend/internal/admin/deletion.go:75-136 | So does every decision: tombstone, recorded approval, request status, stamps and events stay tied together. |
| Catalog.ModerateGrows | backend/internal/admin/deletion.go:91-119 | A decision never removes a version, event or approved request and never clears a tombstone. |
| Catalog.MarkerKeepsInv | backend/internal/sqlc/deletion.sql.go:123-126 | Storing a marker keeps the catalogue invariant. |
| Replica.ReplicaConverges | docs/catalog-sync.md:63-97 | Whatever was interleaved with the journal, the export and the refreshes, however long enqueueing lags behind a commit, a dispatch behind its read or a request behind its staleness check, and however late and often requests arrive, once tasks and journal have drained the replica is exactly the live images at their current versions. |
| Views.LiveViewShows | backend/internal/sqlc/sync.sql.go:28-43 | What the replica converges to: exactly the images that are not deleted and have a version, with their last version's id, number and metadata. |
| Replica.SendingIsCurrent | backend/internal/queue/webhook.go:330-341 | A create or update request goes out only for the last version of an image that is not deleted, however late its task runs. |
| Replication.ReplicaFromBytes | docs/catalog-sync.md:63-97 | The same for a follower whose copy is read back from the bytes of an export it accepted, after any number of broken downloads and with the tag tables evolving alongside. |
| Replication.AcceptedExportIsTheCatalogue | docs/examples/fetch_catalog.py:20-54 | Of whatever arrives from an export, an accepted copy reads back as exactly the live images of the snapshot at their current versions, tags included. |
| Replication.RecordReadsBack | backend/internal/handlers/sync.go:78-93 | An exported record carries id, version, number, text, rating, tags and address of its image. |
| Replication.PerformKeepsInv | docs/catalog-sync.md:63-97 | Every act keeps the replication invariant and the exactness of the tag links. |
| Replica.AdvanceKeepsInv | docs/catalog-sync.md:63-97 | Every move of catalogue, queue, delivery, export and follower keeps each image correct, journaled, being fetched, or announced by a task still on its way. |
| Notices.EventIsAnnounced | backend/internal/handlers/image.go:491-497 | What a handler enqueues after its transaction, event by event, is exactly what changed for subscribers: one notice for the image with a new current version or tombstone, and none when no image has either. |
| Replica.CatalogueCovers | backend/internal/handlers/image.go:491-497 | After a catalogue event every image is still known to be right or open, or its last word is on its way. |
| Notices.DeliveredIsCurrent | backend/internal/queue/webhook.go:330-341 | Only the last version of an image that is not deleted gets past the delivery check. |
| Notices.LastWordIsDelivered | backend/internal/queue/webhook.go:74-76 | The last event of an image (its deletion, else its final version) is neither dropped at dispatch nor at delivery. |
| Notices.NoticeReadsItsVersion | backend/internal/sqlc/webhook.sql.go:43-63 | A version notice is answered with the number of its own version, however many edits have followed, and that invocation is delivered iff it is still the last version. |
| Notices.NoticeReadsNothing | backend/internal/queue/webhook.go:250-253 | A notice about a deleted image or an unknown version is answered with nothing; a deletion is always answered and delivered. |
| Replica.ChangeIsNews | backend/internal/queue/webhook.go:246-290 | A change of an image makes every earlier notice and task about it obsolete. |
| Drain.EveryRunCatchesUp | docs/catalog-sync.md:77-92 | With the catalogue at rest any successful steps, in any order, are at most as many as the weight of the work left, and when none is left to take the replica is the catalogue. |
| Drain.SuccessLightens | docs/catalog-sync.md:77-92 | Every successful enqueue, read, dispatch, check, arrival, answer, claim, fetch and update strictly lowers that weight. |
| Drain.DrainPossible | docs/catalog-sync.md:77-92 | As long as work is left some step is possible, so such a run to the end exists. |
| Ndjson.CopyExport | docs/examples/fetch_catalog.py:20-54 | The downloader accepts exactly the complete, verified exports. On success the first record is a version 1 manifest with an id, the last is an end record with that id, the returned count and the digest of the returned bytes, and the output is the lines between them. |
| Ndjson.CheckRecord | docs/examples/fetch_catalog.py:29-51 | The checks on one line: each outcome iff its condition, each refusal the fitting one; an end record closes the export iff its identifier, its count and its digest all match what was read. |
| Ndjson.AcceptedRecords | docs/examples/fetch_catalog.py:26-54 | What acceptance says about the decoded records, field by field: manifest, images, end, and every line complete. |
| Ndjson.AlteredBodyRejected | docs/examples/fetch_catalog.py:44-48 | An export whose image lines were exchanged for any other whole lines is rejected unless their digest is the same. |
| Ndjson.CompletedExportAccepted | docs/examples/fetch_catalog.py:26-54 | A completed export is accepted with the right count and output. |
| Ndjson.TruncationRejected | docs/examples/fetch_catalog.py:27-28 | Every proper byte prefix of an export is rejected. |
| Ndjson.ExtraDataRejected | docs/examples/fetch_catalog.py:27-28 | A completed export followed by anything is rejected. |
| Ndjson.LinesOfPrefix | docs/examples/fetch_catalog.py:26-28 | Splitting a proper prefix of an export into lines gives its first complete lines and at most one torn line, which no newline ends. |
| CatalogExport.StreamCatalog | backend/internal/handlers/sync.go:70-100 | For a snapshot of any size every live versioned image is emitted once in ascending id order, in floor(n/1000)+1 pages. |
| CatalogExport.FullSync | backend/internal/handlers/sync.go:141-198 | Every outcome, with any write or query failing, is the whole export or a proper prefix of it. |
| CatalogExport.AcceptedMeansWhole | backend/internal/handlers/sync.go:141-198 | Of everything that can arrive from a response the downloader accepts exactly the whole export. |
| CatalogExport.TagsAligned | backend/internal/sqlc/sync.sql.go:29-43 | The two tag arrays come from two queries of equal order: they have equal length, and pair each tag linked to the current version with its own name, once, ids ascending. |
| CatalogExport.TagsComplete | backend/internal/sqlc/sync.sql.go:29-43 | The exported tag names are exactly the tags of the current version. |
| CatalogExport.RecordShows | backend/internal/handlers/sync.go:82-90 | The exported record field by field: the image's own id, address, key, time and uploader, and its last version's id, number, text and rating. |
| CatalogExport.RecordTags | backend/internal/handlers/sync.go:78-81 | Its tag list holds one object per paired tag, in that order. |
| Tags.OneOrder | backend/internal/sqlc/sync.sql.go:33-36 | Two columns selected from the same joined rows in id order line up index by index. |
| Tags.TagStepKeepsInv | backend/internal/sqlc/version.sql.go:41-46 | Every event keeps tag names unique and every version linked to exactly its tags. |
| Tags.CreateTagsKeep | backend/internal/sqlc/tag.sql.go:24-29 | Creating tags leaves each name with one row, keeps the rows there are, and ends with a row for every name asked for. |
| Tags.NoTagsYet | backend/internal/sqlc/version.sql.go:130-146 | The links are exact before the first upload. |
| CatalogExport.ExportRow | backend/internal/handlers/sync.go:78-93 | One row becomes one record with its tags. |
| CatalogExport.ExportPage | backend/internal/handlers/sync.go:78-94 | A page appends its records in order, or leaves a prefix of them when a write or a flush fails. |
| CatalogExport.StreamPage | backend/internal/handlers/sync.go:74-97 | One page read goes on where the last one ended; a short one completes the list. |
| CatalogExport.Exporter.Start | backend/internal/handlers/sync.go:147-161 | The manifest is written once, before anything else. |
| CatalogExport.Exporter.Emit | backend/internal/handlers/sync.go:162-187 | A record enters the output, the digest and the count together; a failure leaves at most its complete line, also when the flush after it fails. |
| CatalogExport.Exporter.End | backend/internal/handlers/sync.go:191-193 | The end record closes the export with the count and digest of its image lines. |
| Dispatch.ChainReaches | backend/internal/queue/webhook.go:232-317 | A webhook eligible at every page query is reached by a chain that ends, while others change. |
| Dispatch.ChainAscends | backend/internal/queue/webhook.go:293-301 | Nobody is reached twice, and ids ascend across pages. |
| Dispatch.ChainFinds | backend/internal/sqlc/webhook.sql.go:210-218 | Everyone reached was eligible for the query that reached them. |
| Dispatch.ChainEnds | backend/internal/queue/webhook.go:300-302 | The cursor grows by at least 100 with each continuation, so every chain ends. |
| Dispatch.StaticChain | backend/internal/queue/webhook.go:232-317 | While eligibility stands still k tasks reach the first 100k matching webhooks in id order, and the chain ends with task floor(n/100)+1. |
| Dispatch.PageIsEligible | backend/internal/sqlc/webhook.sql.go:210-218 | A page holds active webhooks with fewer than three failures and the event's bit set, ascending above the cursor, and leaves one out only when it is full of 100 smaller ids. |
| Fanout.Client.Enqueue | backend/internal/queue/webhook.go:185-200 | A deletion invocation conflicts on its retained id, any other task on its uniqueness lock. |
| Fanout.Client.FanOut | backend/internal/queue/webhook.go:293-315 | The invocations of a page and its continuation are enqueued in order up to the first failure. |
| Fanout.Client.HandleDispatchTask | backend/internal/queue/webhook.go:226-318 | The whole handler: it fails for a deletion iff its snapshot is missing or of another image, for an update iff its row has no predecessor, and for want of the queue iff a call fails; otherwise all of its plan is enqueued, and before a failed call exactly what came first. |
| Fanout.PlanIs | backend/internal/queue/webhook.go:240-302 | The plan entry by entry: nothing for a bad snapshot, a vanished version or a missing predecessor; otherwise for each webhook of the page an invocation of this image and event with the snapshot's or the row's number, and behind a full page its continuation. |
| Fanout.OfferIs | backend/internal/queue/webhook.go:185-200 | What the queue refuses: a deletion invocation whose id it retains, any other task whose lock is held. What it takes enters with its id or its lock. |
| Fanout.InvokedOnce | backend/internal/queue/webhook.go:185-197 | Over any sequence of failed and repeated attempts an invocation id is accepted exactly once if some attempt got to it, and never otherwise. |
| Fanout.TaskIdsIdentify | backend/internal/queue/webhook.go:186-189 | Two deletion invocations share an id iff they are for the same request and the same webhook. |
| Fanout.IdNamesOnePair | backend/internal/queue/webhook.go:186-189 | An id is carried only by invocations of that request for that webhook. |
| Fanout.EveryWebhookInvoked | backend/internal/queue/webhook.go:293-315 | If every accepted dispatch task is eventually handled, the invocation of each webhook that stays eligible is offered, and for creates and updates it is in the queue, despite retries, duplicates and partial failures. |
| Fanout.DeletionReachesEachOnce | backend/internal/queue/webhook.go:178-201 | For a deletion that is exactly one invocation per webhook. |
| Subscription.ChainActs | backend/internal/queue/webhook.go:226-318 | With any number of webhooks, if each dispatch task of a notice succeeds some time, some successful attempt acts for a given subscriber on exactly what the notice called for in the catalogue it read. |
| Subscription.ActedIsQueued | backend/internal/queue/webhook.go:178-201 | What it acted on is in the queue, a deletion once under its id. |
| Subscription.ReadingIsInvocation | backend/internal/queue/webhook.go:246-291 | What the handler works out from the rows is the invocation the notice calls for, or nothing for a version that is gone. |
| Subscription.RowOfVersion | backend/internal/sqlc/webhook.sql.go:43-63 | The row read for a version carries that version's own number, and has a predecessor iff it is not the first. |
| Subscription.VersionIsNumbered | backend/internal/queue/webhook.go:278-290 | In a reachable catalogue a create or a later update never fails for want of a predecessor: it is sent under its own version's number. |
| Subscription.ActingIsTheMove | backend/internal/queue/webhook.go:293-298 | That is the read and the dispatch with which the replication model serves a notice. |
| Breaker.CountIsExact | backend/internal/sqlc/webhook.sql.go:352-399 | With late results and stale edits in any order the count is the number of failures since the last success while active or reactivation. |
| Breaker.CountStartMeans | backend/internal/sqlc/webhook.sql.go:372-378 | Where a count begins: after the last step that reset it. |
| Breaker.ActiveBelowLimit | backend/internal/sqlc/webhook.sql.go:352-359 | An active webhook has fewer than three failures. |
| Breaker.PausedAtTheThird | backend/internal/sqlc/webhook.sql.go:352-359 | A delivery result pauses an active webhook iff it is the third failure since the last reset. |
| Breaker.OnlyEditsReactivate | backend/internal/sqlc/webhook.sql.go:390-400 | Only an edit turns a paused webhook on, and it starts a fresh count. |
| Breaker.SilentEdit | backend/internal/handlers/user/webhook.go:177-249 | When an edit that does not mention the active flag keeps it, and when it revives a webhook paused meanwhile: both exactly. |
| Breaker.StaleEditRevives | backend/internal/handlers/user/webhook.go:193-202 | A run in which an edit of the endpoint undoes the automatic pause. |
| Breaker.Webhook.RecordWebhookFailure | backend/internal/sqlc/webhook.sql.go:352-359 | Over the history of the row: the count is the failures since the last reset, one more than before, and an active webhook stays active iff they are fewer than three. |
| Breaker.Webhook.RecordWebhookSuccess | backend/internal/sqlc/webhook.sql.go:372-378 | Over the history of the row: a success begins a new count while active, and a late one leaves count and pause of a paused webhook alone. |
| Breaker.Webhook.UpdateWebhook | backend/internal/sqlc/webhook.sql.go:390-400 | Over the history of the row: the draft replaces settings and flag, and a new count begins iff a paused webhook turns active. |
| Breaker.Webhook.ReadForEdit | backend/internal/handlers/user/webhook.go:193-248 | The read is a step of the row's history that leaves other edits alone and drafts each field the edit mentions from it and each other field from the row; an empty edit written at once changes nothing. |
| Delivery.Prepare | backend/internal/queue/webhook.go:320-381 | A request is made iff the event name fits, a create or update is still current, the webhook is active and its templates render; the worker accepts its headers and reads them back. Only templates that do not render count as a failure. |
| Delivery.TimelyMeans | backend/internal/queue/webhook.go:320-341 | Which tasks are timely: the event name, if there is one, fits the event, and a create or update names no older version than the last of an image that is not deleted. |
| Delivery.RequestIsCurrent | backend/internal/queue/webhook.go:330-341 | A queued create or update that is requested carries the current version number of an image that is not deleted. |
| Breaker.Webhook.Finish | backend/internal/queue/webhook.go:402-435 | An answer is one step of the row's history; it pauses an active webhook iff it is not 2xx and the third failure since the last reset. |
| Changes.Compare | backend/internal/webhook/payload.go:62-76 | The map holds exactly the fields that differ, each with both values. |
| Changes.DifferencesSay | backend/internal/webhook/payload.go:62-76 | The map field by field: text, rating and tags are in it iff they differ, tags up to order, each with the old and the new value and tags sorted. |
| Changes.ApplyRestores | backend/internal/webhook/payload.go:62-76 | Applying the new values to any copy of the old state gives the new state, up to the order of tags. |
| Changes.ReverseRestores | backend/internal/webhook/payload.go:62-76 | Applying the old values leads back. |
| Changes.EmptyMeansSame | backend/internal/webhook/payload.go:62-76 | The map is empty iff text, rating and tags are the same. |
| Changes.SortTagsForgetsOrder | backend/internal/webhook/payload.go:78-82 | Sorted tags are equal iff the tags are the same up to order. |
| Changes.SortedIsUnique | backend/internal/webhook/payload.go:78-82 | Any sorting algorithm gives the same list. |
| Changes.PreviousIsPredecessor | backend/internal/sqlc/webhook.sql.go:104-115 | The highest lower version number is the version before. |
| Changes.HistoryIsRebuilt | backend/internal/queue/webhook.go:278-289 | In every reachable catalogue the changes along an image's history lead from its first version to its current one. |
| Headers.NamesAgree | frontend/src/features/settings/lib/webhook-headers.ts:6-15 | The settings page, the backend and the worker accept the same header names, the tokens of visible ASCII without delimiters that are not reserved, and canonical names stay acceptable. |
| Headers.CanonicalIdentifies | backend/internal/webhook/headers.go:29-35 | Names are duplicates for the backend iff they are for the worker. |
| Headers.ReservedAgrees | backend/internal/webhook/headers.go:76-82 | The canonical and the lower-case reserved lists are the same list. |
| Headers.RenderHeaders | backend/internal/webhook/headers.go:16-61 | Success is decided by conditions that do not mention the order in which the map is visited: a known event, at most 32 entries, acceptable names that differ beyond case, templates that render, and source and rendered sizes within 64 KiB; the result holds each value trimmed under its canonical name. |
| Headers.RenderHeader | backend/internal/webhook/headers.go:26-57 | The checks made for one entry, with the sizes so far. |
| Headers.RenderValue | backend/internal/webhook/headers.go:40-53 | A template renders iff it executes, its joined output fits in 8 KiB and all of it is printable ASCII or tabs; the value is that output. |
| Headers.RenderingIsUnique | backend/internal/webhook/headers.go:25-59 | Any two orders give the same headers. |
| Headers.TemplateBuffer.Write | backend/internal/webhook/payload.go:106-111 | A write that would overflow fails and changes nothing. |
| Headers.TemplateBuffer.Execute | backend/internal/webhook/headers.go:44-48 | A template succeeds iff its whole output fits. |
| Headers.ParseHeaders | worker/src/index.ts:23-43 | The worker accepts iff count, names, case-distinctness, values and total size are right, and returns what it was given. |
| Headers.RenderedIsParsed | worker/src/index.ts:23-43 | Every map RenderHeaders returns is accepted by the worker and read back unchanged, in any entry order. |
| Search.PatternMeansContains | backend/internal/admin/handler.go:98-107 | The generated pattern is well formed and matches exactly the texts that contain the search text, up to case folding; the search text is the value without the blanks around it. |
| Search.EscapedIsLiteral | backend/internal/admin/handler.go:104-105 | Inside any pattern an escaped text matches itself and nothing else. |
| Search.IdIsFound | backend/internal/admin/handler.go:99-103 | A positive row id typed with blanks around it is recognised. |
| Search.IdIsTyped | backend/internal/admin/handler.go:98-103 | Nothing else is taken for an id: a positive result was typed as its own numeral, up to a plus sign and leading zeros, and is in the 64-bit range. |
| Pagination.PageList | frontend/src/shared/components/ui/pagination.tsx:58-125 | For any count, page and non-negative boundary and sibling counts the list accounts for every page up to max(1, count) in order, contains the given page forced into that range and its neighbours, has min(total, 2*boundary + 2*sibling + 3) entries, and stands between exactly the buttons asked for. |
| Pagination.PagesCover | frontend/src/shared/components/ui/pagination.tsx:100-118 | Page numbers increase from 1 to the total, only ellipses hide pages, and each hides at least two. |
| Pagination.PagesCount | frontend/src/shared/components/ui/pagination.tsx:100-118 | The number of entries does not depend on the current page. |
| Pagination.NearIsListed | frontend/src/shared/components/ui/pagination.tsx:80-98 | Boundary pages and neighbours of the current page are never hidden. |
| Pagination.EllipsisSides | frontend/src/shared/components/ui/pagination.tsx:104-114 | The start ellipsis stands before the current page's block and the end ellipsis after it. |
| Pagination.CoveredInOrder | frontend/src/shared/components/ui/pagination.tsx:100-118 | Covering means: numbers strictly increase within 1..total and neighbours are consecutive. |
| Keyset.PageSplit | backend/internal/sqlc/sync.sql.go:40-42 | A full page followed by everything above its last id is the whole remainder. |

## Left out

- HTTP, authentication, permissions, rate limits, S3, WebAuthn and the GraphQL layer: no state property of their own.
- Validation of reasons, ratings and templates before a handler reaches its transaction: a refused request changes nothing.
- gzip, flushing, deadlines and concurrency slots of the export: they decide only whether and when an export is cut off.
- `GetSyncVersion`: a hint by transaction start time, for which the documentation promises no order.
- Isolation of concurrent partial edits: the code merges a patch with a stale read, and the model does the same.
- Search filters sent to the index: the parser is not part of this model.
- Username changes and the uploader name in index documents and events.
- Create-only and update-only subscribers of the replication protocol, which the documentation does not promise to serve.
- Image hashing, favourites, upload sessions, app keys and template rendering beyond its output: easy members.
- Fanout.InvokedOnce: does not model ids expiring after 24 hours, after which a handler retry may enqueue again.
- Fanout.EveryWebhookInvoked: a version that vanishes or a webhook that becomes ineligible during the chain is outside its condition.
- Breaker.CountIsExact: does not model the 32-bit overflow of failure_count, nor last_response_status and last_activated_at.
- Changes.Compare: Go sorts a copy of the tags in place; the model sorts by a function, and SortedIsUnique shows the algorithm does not matter.
- Headers.RenderHeaders: which of several errors is reported depends on the visiting order and is not modelled; template parsing and execution are one abstract function.
- Delivery.Prepare: rendering the body, default or template, is one abstract function; signing and the HTTP call are left out.
- Ndjson.CheckRecord: the wording of the JSON decoder's own error is not modelled.
- Ndjson.CopyExport: NaN, which JSON text in Python may contain, is not a value of the model.
- CatalogExport.StreamCatalog: requires that no image has id 0, which generated ids guarantee.
- Replica.ReplicaConverges: serves a notice for the follower's webhook as one read and one dispatch; Subscription shows that the paged chain of dispatch tasks does the same among any number of webhooks.
- CatalogExport.ExportPage: storage keys, the way timestamps are written and the uploader's profile are parameters of a snapshot.
