# Private communication: models and proofs

This project models, in Dafny 4.11, the four stateful cores of a private messenger and proves what each of them
keeps over all of its runs. `dafny verify dfyconfig.toml` checks everything.

**Resumable encrypted attachment transfer.** The backend keeps upload sessions, manifests, index keys and cleanup
leases in Redis and chunk files on disk; the client keeps a durable queue with one IV per chunk. `Chunking` holds the
chunk arithmetic, `AttachmentStore` the handlers as functions on the store with their invariant, `AttachmentRuns` the
runs of requests, lost processes, expired keys and sweeps, `AttachmentOutcomes` what each request answers and stores,
case by case, `AttachmentServices` the same handlers in place.
`TransferProtocol` puts clients, network and server into one state machine: requests may be delayed, repeated or lost,
any loop may crash anywhere, and one worker drives an upload at a time. `TransferClients` has the client's loops in
place. Main results: a published upload is, chunk by chunk, the encryption of the sender's file under the recorded IVs,
and the recipient's loop gives back exactly that file (`TransferProtocol`); and no state is a dead end: from wherever a
run of crashes, losses and delays has led, a queued file whose session lives can still arrive (`TransferProgress`).

**Signalling server state.** `Signalling` is one machine of sessions, call pairs, pending calls and disconnect grace
timers, `SignallingEffects` says exactly what each event does to each of them and what it answers,
`SignallingServices` has the classes. `ReceiptQueues` is the receipt hash beside its sorted index, `RateLimiter`
the fixed-window limits of one connection.

**PCBK backup format.** `CborOrder` gives values, canonical order and their meaning as nested maps; `CborCodec` an
encoder and a decoder after section 3 of RFC 8949, so round trips are proved rather than assumed. `Prelude`,
`ClearHeader`, `RecordHeader` and `Manifest` follow the files of the same names; `BackupFile` composes them into a
whole file, `ManifestCodec` reads and writes the manifest as a value, `BackupContents` puts the records of a file
together to items and chunked objects, and `BackupExport` is the exporter over its data. Main result: whatever export
goes through, the restore returns the exported data, or refuses exactly under stated conditions; and whatever file it
accepts is whole. `Constants` has the format's constants.

**Client message data.** `LinkScan`, `TextNormal` and `MessageLinks` find and cut links in message texts,
`MessageLibrary` and `LibraryServices` delete selections of them, `LinkMeaning` says character by character which texts
are links and what a deletion answers; `MessagePaging` and `MessageStores` are the paged
history in memory; `Restore` and `RestoreServices` are the restore over two databases with its rollback.

Code that changes state is a class whose methods are proved equal to a function on values and keep the class
invariant; the properties over all runs are lemmas about that function. `Common`, `Sorting`, `TextOrder` and `Endian` hold what several modules share.

Cryptography enters as records of functions with stated laws (`Lawful`), shown to be satisfiable: AES-GCM is
deterministic in key, IV, associated data and text, adds 16 bytes and is undone by decryption. Clocks, random values,
network fate and the verdicts of signature, hash and policy checks are parameters. A text stands for its UTF-8 bytes
where it is encoded, and for its characters where it is searched.

Where the code does less than one might expect:

- The `answer` signal pairs two users without a busy check; it keeps calls mutual exactly when both are free for each
  other (`Signalling.StepSymmetricIffAnswerFree`).
- A ring that was never answered ends whatever call its caller is in when it runs out: a hangup toward somebody else
  and an answer to a crossed offer both leave one pending (`Signalling.RingOutEndsOtherCallIff`,
  `Signalling.StaleRingOutEndsOtherCall`, `Signalling.CrossedOffersRingOutAnsweredCall`).
- A hangup of any third user aimed at an absent one stops the disconnect timer and leaves the call
  (`Signalling.ForeignHangupStopsTimer`).
- A socket may authenticate under a second id; exactly then the session maps stop being inverse
  (`Signalling.AddSessionBijectiveIff`).
- A window restarts at the first message after it ran out, so twice the limit can pass within one window length, and
  twice less one of a single event (`RateLimiter.TwiceTheLimitIsReached`, `RateLimiter.EventBoundIsReachedIff`).
- Paging compares timestamps with a strict `<`; a tie at a page boundary hides messages
  (`MessagePaging.LoadMoreExtendsIff`), and a receipt can put an old message into the list
  (`MessagePaging.ReceiptKeepsSuffixIff`).
- A manifest builder that refused an object has already counted it and never yields an acceptable manifest again
  (`Manifest.RefusedObjectPoisonsBuilder`).
- The manifest comparison depends on the record order when `localeCompare` ties two different ids
  (`Manifest.OrderIrrelevantIffNoTies`).
- An export checks neither that object ids are distinct within a family nor what the payload validators ask; such a
  file is written and refused on restore (`BackupExport.RestoreReturnsExport` with `BackupExport.Restorable`).
- The record header builder accepts headers that decoding refuses (`RecordHeader.BuildableNotDecodable`).
- A restore that fails rewrites the key database from the snapshot even when it was never touched; a user whose
  identity capsule does not open loses both key pairs and is told that the restore was rolled back
  (`Restore.RollbackKeepsKeysIff`).

## Model

| member | source | states |
|---|---|---|
| TransferProtocol.PublishedUploadIsTheFile | frontend/src/services/attachment-upload-service.ts:628-676 | In every run of starts, IV writes, sends, delayed, repeated or lost chunk requests, crashes, resumptions, completions, expiries and sweeps: once a manifest is readable, every chunk file k is the encryption of the k-th slice under the recorded chunkIvs[k], and decrypting in order and joining gives exactly the sender's file |
| TransferProtocol.AcknowledgedOnlyWhenSaved | frontend/src/services/attachment-upload-service.ts:1119-1132 | In every such run, whenever the recipient acknowledges, what it has saved is exactly the sender's file |
| TransferProtocol.DeletedOnlyAfterSaved | frontend/src/services/attachment-upload-service.ts:1120-1132 | In every such run, when nobody else acknowledges for the recipient, an unexpired published upload keeps manifest and files in every step but this client's acknowledgement of that upload, and then the sender's file is already saved |
| TransferProtocol.TransferStepKeeps | frontend/src/services/attachment-upload-service.ts:756-829 | Each step of client, network or server keeps the agreement between the durable queue, the workers, the requests on the way, the chunk files and the downloads |
| TransferProtocol.RecordsOnlyGainIvs | frontend/src/services/attachment-upload-service.ts:650-658 | File, key and chunking of a queued upload never change, and an IV once recorded is never replaced |
| TransferProtocol.RecordPublishedRebuilds | frontend/src/services/attachment-upload-service.ts:1077-1100 | For a published upload whose record agrees with the server, the recipient's loop over the chunk files yields the file |
| TransferProtocol.RebuildSealed | frontend/src/services/attachment-upload-service.ts:1079-1100 | Decrypting the first n sealed chunk files and joining them gives the first n slices |
| TransferProtocol.LawfulCipherExists | frontend/src/services/attachment-upload-service.ts:646-652 | The laws asked of AES-GCM (plus 16 bytes, decryption undoes encryption) are satisfiable |
| TransferProgress.QueuedCanArrive | frontend/src/services/attachment-upload-service.ts:756-829 | From every state of every run in which a file is queued and its session has not expired, whatever crashed or got lost before, some steps lead to a published upload that the recipient was told of and has saved as exactly the sender's file |
| TransferProgress.AnyFileCanArrive | frontend/src/services/attachment-upload-service.ts:854-1007 | From the start, every non-empty file whose chunk size the server admits can be sent to any recipient, and arrives |
| TransferProgress.AnnouncedCanBeSaved | frontend/src/services/attachment-upload-service.ts:1036-1118 | Whoever was told of a published upload can fetch every chunk and save the file |
| TransferProgress.SavedCanBeAcknowledged | frontend/src/services/attachment-upload-service.ts:1119-1132 | The recipient's signed acknowledgement then removes manifest and files from the server |
| TransferProgress.MemoryIsVolatile | frontend/src/services/attachment-upload-service.ts:798-815 | A crash forgets the upload loop and an abort the download, of that upload alone; the queue, what was sent and what was saved stay |
| TransferClients.TransferClient.UploadChunkWithQueueState | frontend/src/services/attachment-upload-service.ts:628-676 | Whatever the network does to the request, queue and server stay consistent; the IV is the stored one or the new one, and the queue holds it before the request leaves; success means the server has recorded the chunk |
| TransferClients.TransferClient.SendMissingChunks | frontend/src/services/attachment-upload-service.ts:798-815 | The loop skips chunks the server reported and sends the others; when it gets through, every chunk is recorded as long as the session is readable |
| TransferClients.TransferClient.ResumeQueuedTransfer | frontend/src/services/attachment-upload-service.ts:756-829 | An attempt ends completed with a descriptor that opens to the queued file, or gone, or stalled with the record kept; it is never told that the upload is incomplete; other queue records are untouched |
| TransferClients.TransferClient.CompleteQueuedUpload | frontend/src/services/attachment-upload-service.ts:678-754 | Completion removes the record, stores the file locally and yields a descriptor that delivers the file; any failure leaves the queue as it was |
| TransferClients.TransferClient.DownloadAttachment | frontend/src/services/attachment-upload-service.ts:1036-1137 | A saved file is the in-order decryption of all chunk files and matches the plaintext hash; when nothing was saved, local files and the published attachment on the server are untouched |
| TransferClients.TransferClient.FetchChunk | frontend/src/services/attachment-upload-service.ts:1080-1097 | A fetched piece is the decryption of the stored chunk file under the IV of its index |
| TransferClients.AcceptedChunkIsRecorded | backend/src/routes/attachments.ts:486-502 | A chunk request answered with success is in the session's received list afterwards, and nothing leaves that list |
| TransferClients.FullUploadIsNotIncomplete | backend/src/routes/attachments.ts:544-548 | A sender all of whose chunks are recorded does not get UPLOAD_INCOMPLETE |
| Chunking.PlainSizesSumToTotal | backend/src/routes/attachments.ts:194-200 | The expected plaintext chunk sizes add up to totalSize |
| Chunking.ChunkIsNonEmptyIffCounted | backend/src/routes/attachments.ts:194-200 | A chunk index has a positive expected size exactly when it is below the expected chunk count |
| Chunking.SliceHasExpectedSize | frontend/src/services/attachment-upload-service.ts:638-640 | The client's k-th slice has the size the server expects for index k |
| Chunking.SlicesRebuildFile | frontend/src/services/attachment-upload-service.ts:885-886 | Joining the expected number of slices gives the file back |
| AttachmentStore.DeadlineReachesExpiry | backend/src/services/attachments.ts:36-39 | Every key lives at least to expiresAt, and less than a second longer exactly when the data has not expired yet |
| AttachmentStore.FullAscendingListHoldsAll | backend/src/services/attachments.ts:350-353 | A strictly ascending list below n has length n exactly when it holds every index below n |
| AttachmentStore.GateOpensIffEveryChunkStored | backend/src/routes/attachments.ts:544-548 | The length test of completion passes exactly when every chunk index is recorded, and then every chunk file is on disk with its expected size |
| AttachmentStore.InitUploadKeeps | backend/src/routes/attachments.ts:355-440 | Starting an upload keeps the store invariant |
| AttachmentStore.PutChunkKeeps | backend/src/routes/attachments.ts:442-518 | A chunk request, whether it finishes or the process stops between the file write and the record, keeps the store invariant: received lists ascending and in range, every listed chunk on disk at its size |
| AttachmentStore.CompleteKeeps | backend/src/routes/attachments.ts:520-597 | Completion keeps the store invariant: the manifest it publishes has all its chunk files |
| AttachmentStore.AckKeeps | backend/src/routes/attachments.ts:599-642 | Acknowledgement keeps the store invariant |
| AttachmentStore.SweepKeeps | backend/src/services/attachments.ts:155-182 | A sweep keeps the store invariant |
| AttachmentRuns.StepKeeps | backend/src/services/attachments.ts:290-468 | Every request, elapse of time, expired-key event and sweep keeps the store invariant |
| AttachmentRuns.RunKeeps | backend/src/services/attachments.ts:290-468 | Hence every run does |
| AttachmentRuns.LiveDataIsLeased | backend/src/services/attachments.ts:290-301 | While a session or manifest is readable its cleanup lease is live |
| AttachmentRuns.SweepSparesLive | backend/src/services/attachments.ts:155-182 | A sweep over any directories changes nothing of an upload or manifest that is readable |
| AttachmentRuns.SweepRemovesExactlyUnleased | backend/src/services/attachments.ts:145-182 | A sweep removes exactly the visited directories without a live lease, and no lease of the others |
| AttachmentRuns.CleanupSparesUpload | backend/src/services/attachments.ts:407-443 | An upload in progress holds a live lease, and no operation but an accepted chunk or a successful completion of that very upload changes its session or files: no lazy read, sweep, expired-key event, acknowledgement or refused request, whoever sends it |
| AttachmentRuns.PublishedUntilAcknowledged | backend/src/services/attachments.ts:389-405 | A published attachment stays untouched by every operation but an accepted acknowledgement, which removes it from Redis and disk |
| AttachmentRuns.UploadSurvivesRun | backend/src/services/attachments.ts:303-335 | In every run that stays short of expiresAt and in which no completion of it succeeds, an upload keeps its session and every chunk recorded so far, refused completions and strangers' requests included |
| AttachmentRuns.PublishedIsServed | backend/src/routes/attachments.ts:671-710 | What is published is complete: sender and recipient read every chunk below chunkCount at its expected size, and nothing changes by it |
| AttachmentOutcomes.PutAcceptedIff | backend/src/routes/attachments.ts:442-518 | A chunk of an upload in progress is accepted exactly when it comes from the sender, its index is below chunkCount, its length is the bytes of the file that fall to it plus 16, and its hash matches; each other case has its status and code and changes nothing |
| AttachmentOutcomes.AcceptedChunkIsStored | backend/src/routes/attachments.ts:486-518 | An accepted chunk is on disk byte for byte and in the ascending list of received indices; the rest of its session, all other sessions, manifests and files are as before |
| AttachmentOutcomes.UploadedChunksComplete | backend/src/routes/attachments.ts:442-597 | In every run short of its expiry: once each chunk has been put as it should, in any order and with anything in between, the sender's signed completion without a conflicting hash succeeds and publishes the attachment |
| AttachmentOutcomes.CompleteAcceptedIff | backend/src/routes/attachments.ts:520-597 | A completion is accepted exactly when it comes from the sender, every chunk index is recorded, its hash does not conflict with the announced one and its signature is good; each other case has its status and code and changes nothing |
| AttachmentOutcomes.CompletedUploadIsPublished | backend/src/routes/attachments.ts:556-597 | The manifest has the sender, recipient, sizes, times and meta data of the session under their own names, the given hash before the announced one, and the signature; the session ends and no file changes |
| AttachmentOutcomes.InitAcceptedIff | backend/src/routes/attachments.ts:355-440 | An upload is let in exactly when attachments are enabled, the policy holds, 0 < chunkSize <= both the limit and totalSize, and chunkCount chunks just cover totalSize; each other case has its status and code and changes nothing |
| AttachmentOutcomes.NewUploadIsStored | backend/src/routes/attachments.ts:355-440 | The new session has the request's values under their own names, no chunk, and the configured life; nothing else is touched |
| AttachmentOutcomes.StatusAnswers | backend/src/routes/attachments.ts:323-353 | The session goes to its sender, 403 to anybody else, 404 when it is not in progress |
| AttachmentOutcomes.AckAcceptedIff | backend/src/routes/attachments.ts:599-642 | An acknowledgement of a published attachment is accepted exactly from its recipient with a good signature; a refused one changes nothing |
| AttachmentOutcomes.ManifestAnswers | backend/src/routes/attachments.ts:644-669 | A published manifest goes to its sender and recipient and to nobody else, and reading it changes nothing |
| AttachmentOutcomes.ChunkAnswers | backend/src/routes/attachments.ts:671-710 | Sender and recipient get the bytes on disk for every index below chunkCount; everybody else is refused |
| AttachmentOutcomes.SessionKeysExactly | backend/src/services/attachments.ts:290-301 | A session is written under its upload id, with the index both ways and the lease, all with one deadline at most a second after its expiry; no other key changes |
| AttachmentOutcomes.ManifestKeysExactly | backend/src/services/attachments.ts:358-372 | A manifest likewise, under its attachment id |
| AttachmentOutcomes.RemovalExactly | backend/src/services/attachments.ts:120-143 | Removing an attachment takes its manifest, lease, index key, files and the upload keys its live index names, and leaves every other key and file |
| AttachmentOutcomes.LeaseCheckExactly | backend/src/services/attachments.ts:145-153 | The lease check removes an attachment exactly when its lease is gone or has run out |
| AttachmentOutcomes.ExpiredSessionGoes | backend/src/services/attachments.ts:303-335 | Reading a session past its expiry takes it and everything of its attachment along |
| AttachmentOutcomes.UnreadableManifestGoes | backend/src/services/attachments.ts:407-443 | Reading a manifest past its expiry does so too; a missing one is cleaned up exactly when no live lease holds it |
| AttachmentOutcomes.UnpublishedAckRefused | backend/src/routes/attachments.ts:599-642 | An acknowledgement of an upload that is not published gets 404, and its index key goes |
| AttachmentOutcomes.DamageIsReported | backend/src/routes/attachments.ts:671-710 | In any store, a missing chunk file is answered 404 CHUNK_NOT_FOUND, and a manifest stored under another id is dropped |
| AttachmentServices.AttachmentServer.SetUploadSession | backend/src/services/attachments.ts:290-301 | At every moment from now to the session's expiry it is read back as written, and the lease check removes nothing of its attachment |
| AttachmentServices.AttachmentServer.SetAttachmentManifest | backend/src/services/attachments.ts:358-372 | At every moment from now to the manifest's expiry it is found from its attachment id and from its upload id, and the lease check removes nothing of it |
| AttachmentServices.AttachmentServer.RemoveAttachmentArtifacts | backend/src/services/attachments.ts:120-143 | Manifest, lease, index key and chunk files of the attachment are gone, with the upload keys its index names; nothing else is |
| AttachmentServices.AttachmentServer.RemoveArtifactsIfLeaseMissing | backend/src/services/attachments.ts:145-153 | The invariant is kept and no readable session, manifest or file of one changes; an attachment without a live lease is removed |
| AttachmentServices.AttachmentServer.SweepOrphans | backend/src/services/attachments.ts:155-182 | The loop over one batch keeps the invariant, changes nothing readable, and leaves exactly the directories outside the batch or with a live lease |
| AttachmentServices.AttachmentServer.GetUploadSession | backend/src/services/attachments.ts:303-335 | A session comes back exactly when its upload is in progress, and then unchanged; an expired one takes its artifacts along |
| AttachmentServices.AttachmentServer.GetAttachmentManifest | backend/src/services/attachments.ts:407-443 | A manifest comes back exactly when the attachment is published, and then nothing changes |
| AttachmentServices.AttachmentServer.MarkUploadChunkReceived | backend/src/services/attachments.ts:345-356 | The received list afterwards holds the old indices and the new one, in order, and a known index is not listed twice |
| AttachmentServices.AttachmentServer.HandleInitUpload | backend/src/routes/attachments.ts:355-440 | The invariant is kept; accepted exactly under the conditions on flag, policy and sizes, spelled out in numbers; a new session can be read until it expires; a refused request changes nothing |
| AttachmentServices.AttachmentServer.HandlePutChunk | backend/src/routes/attachments.ts:442-518 | The invariant is kept; in an upload in progress the chunk is accepted exactly when sender, index, length and hash are right; the chunk file is then the payload and its index is recorded in a readable session; a refusal changes nothing of an upload in progress |
| AttachmentServices.AttachmentServer.HandleStatus | backend/src/routes/attachments.ts:323-353 | The invariant is kept; the reply goes to the sender only, and every index it reports has its file on disk |
| AttachmentServices.AttachmentServer.HandleComplete | backend/src/routes/attachments.ts:520-597 | The invariant is kept; in an upload in progress accepted exactly from the sender with every index recorded, no conflicting hash and a good signature; success publishes the manifest with all its chunk files and ends the session; a refusal changes nothing of an upload in progress |
| AttachmentServices.AttachmentServer.HandleAck | backend/src/routes/attachments.ts:599-642 | The invariant is kept; success means a published attachment of this recipient is gone from Redis and disk |
| AttachmentServices.AttachmentServer.HandleReadChunk | backend/src/routes/attachments.ts:671-710 | The invariant is kept; the payload is the stored chunk file of a published attachment, served to its sender or recipient only |
| Signalling.SetCallPairSymmetricIffFree | backend/src/websocket/connection-handler.ts:67-70 | Pairing two users keeps calls mutual exactly when neither has a partner outside the two |
| Signalling.StepSymmetricIffAnswerFree | backend/src/websocket/connection-handler.ts:794-897 | Of all events only a forwarded answer between users of other calls breaks mutuality, and it always does |
| Signalling.RunKeepsCallsMutualIff | backend/src/websocket/connection-handler.ts:63-79 | In every run, calls are mutual at every moment exactly when every forwarded answer comes from a user free for its target |
| Signalling.RunKeepsCallsMutual | backend/src/websocket/connection-handler.ts:63-79 | In every run whose answers come from users paired with their target, the call map is a symmetric partial involution: no two users share a partner |
| Signalling.AnswerWithoutPairingBreaksMutuality | backend/src/websocket/connection-handler.ts:889-893 | A run from the start, all three users authenticated: c answers a, who is in a call with b, and the call map is no longer mutual |
| Signalling.OfferRefusedIffBusy | backend/src/websocket/connection-handler.ts:807-826 | An offer is refused exactly when one side is in a call with somebody else; a refused offer changes nothing, an accepted one pairs the two |
| Signalling.CallEndsExactlyBy | backend/src/websocket/connection-handler.ts:113-197 | While answers come from free users, a call ends exactly by a hangup of one of the two, a ring-out of a call one of them placed, or the grace timeout of one of them who is absent; no offer and no hangup of a third party ends it |
| Signalling.RingOutEndsOtherCallIff | backend/src/websocket/connection-handler.ts:137-143 | A ring-out ends a call other than the ringing one exactly when its caller is in a call with somebody else |
| Signalling.StaleRingOutEndsOtherCall | backend/src/websocket/connection-handler.ts:113-143 | A run from the start: a rings b, hangs up toward c, calls c, and the old ring-out ends the call of a and c |
| Signalling.CrossedOffersRingOutAnsweredCall | backend/src/websocket/connection-handler.ts:889-893 | A run from the start: a and b ring each other, and the ring that the answer leaves pending ends the answered call |
| Signalling.RingsNobodyUntilOffer | backend/src/websocket/connection-handler.ts:137-143 | While neither of two users has a pending ring, no ring-out of theirs can happen, and one appears exactly by their own new offer |
| Signalling.RunKeepsSessions | backend/src/services/session-manager.ts:27-61 | In every run a known socket is its user's current one; when no socket changes identity the two maps are inverse |
| Signalling.AddSessionBijectiveIff | backend/src/services/session-manager.ts:27-47 | The maps stay inverse exactly when no socket authenticates as a second user |
| Signalling.ReplacedSocketStaysUnknown | backend/src/services/session-manager.ts:27-47 | A replaced socket is known for nobody until it authenticates again |
| Signalling.LateCloseIsHarmless | backend/src/websocket/connection-handler.ts:606-623 | The late close of a replaced socket removes no session, marks nobody offline, starts no timer and touches no call |
| Signalling.CallSurvivesUntil | backend/src/websocket/connection-handler.ts:164-197 | From a moment when neither rings anybody, and as long as neither hangs up nor starts to ring and answers come from free users, no event ends the call before the grace horizon: disconnections in particular do not |
| Signalling.ReauthenticationSavesCall | backend/src/websocket/connection-handler.ts:680-687 | A user who rings nobody, closes the socket and authenticates again within the grace period, nobody of the two hanging up or starting to ring meanwhile, is still in the call, on the new socket, with no timer left |
| Signalling.DisconnectedUserLosesCall | backend/src/websocket/connection-handler.ts:164-197 | Over every run after a user in a call closes the socket: while none of the listed events touches the timer, it stays set for one grace period, can fire from then on and not before, and ends the call for both |
| Signalling.ForeignHangupStopsTimer | backend/src/websocket/connection-handler.ts:113-123 | A hangup of a third user aimed at the absent one stops the timer and leaves the call |
| SignallingEffects.RingsExactly | backend/src/websocket/connection-handler.ts:113-143 | A ring is pending after an event exactly when the event is an initial session offer between two who are free for each other, or it was pending and the event neither hangs up between the two, rings out, answers it, nor times one of them out of the call |
| SignallingEffects.HangupEndsRings | backend/src/websocket/connection-handler.ts:113-123 | After a hangup or a ring-out between two users no ring between them is pending, either way, and every other ring is as before |
| SignallingEffects.NoRingOutAfterHangup | backend/src/websocket/connection-handler.ts:137-143 | In every run, after a hangup or a ring-out between two users the old ring cannot run out until the caller rings anew |
| SignallingEffects.CallsExactly | backend/src/websocket/connection-handler.ts:794-897 | While answers come from free users, two are in a call after an event exactly when it is an offer between two who are free or an answer that reaches its target, or they were and the event does not end it |
| SignallingEffects.TimersExactly | backend/src/websocket/connection-handler.ts:164-197 | A disconnect timer starts exactly with the close of the known socket of a user in a call, for 30 seconds; every other event leaves it alone or stops it, as listed |
| SignallingEffects.PresenceExactly | backend/src/websocket/connection-handler.ts:606-687 | Users come online by authenticating and go offline by the close of their known socket, and in no other way |
| SignallingEffects.OpenSocketsExactly | backend/src/services/session-manager.ts:27-61 | Sockets open by connecting and are closed by their close or by a newer session of their user |
| SignallingEffects.RepliesExactly | backend/src/websocket/connection-handler.ts:794-897 | Each reply exactly when: caller busy, target busy, payload missing, in this order; otherwise forwarded exactly when the target is connected, and a failure is retryable exactly for an initial offer |
| SignallingServices.SessionManager.AddSession | backend/src/services/session-manager.ts:27-47 | A known socket is its user's current one afterwards too; the old socket of the user is closed and known for nobody |
| SignallingServices.SessionManager.RemoveSession | backend/src/services/session-manager.ts:52-61 | Returns the user whose current socket it was exactly when the socket was known; an unknown socket changes nothing |
| SignallingServices.SignallingServer.SetPair | backend/src/websocket/connection-handler.ts:67-70 | Mutual calls stay mutual exactly when neither user has a partner outside the two |
| SignallingServices.SignallingServer.ClearCall | backend/src/websocket/connection-handler.ts:72-79 | Calls stay mutual; the user and the partner leave the call map, and nobody else |
| SignallingServices.SignallingServer.OnGraceTimeout | backend/src/websocket/connection-handler.ts:171-194 | Calls stay mutual, and exactly the call of a user who is still absent ends |
| SignallingServices.SignallingServer.OnPendingCallExpired | backend/src/websocket/connection-handler.ts:137-143 | Calls stay mutual, exactly the call the caller is in ends, whoever it is with, and exactly the rings between the two are gone |
| SignallingServices.SignallingServer.OnClose | backend/src/websocket/connection-handler.ts:606-623 | No call changes, and a known socket still is its user's current one |
| SignallingServices.SignallingServer.HandleSignal | backend/src/websocket/connection-handler.ts:794-897 | Mutual calls stay mutual exactly when a forwarded answer comes from a free user; calls then end, and rings start and end, exactly as listed; the reply is the one characterised by RepliesExactly |
| ReceiptQueues.RunKeeps | backend/src/services/redis.ts:525-558 | In every run the hash and its index hold the same ids, in order, and no more than the limit |
| ReceiptQueues.ReceiptLifecycle | backend/src/services/redis.ts:525-618 | A stored status only moves from delivered to read, and an entry leaves exactly by an acknowledgement at least as strong, by being the oldest of a full queue, or with the expiry of the queue |
| ReceiptQueues.EvictedIsOldest | backend/src/services/redis.ts:547-555 | What is evicted is the least entry, the new one included |
| ReceiptQueues.ReadReceiptWaits | backend/src/services/redis.ts:612-614 | In every run a read receipt stays until its own acknowledgement or its eviction, however many late delivered acknowledgements come |
| ReceiptQueues.EnqueueStores | backend/src/services/redis.ts:525-558 | After an enqueue the id is in the queue unless it is new, the queue full and every entry later; its status is read exactly when it was or the new one is; its index entry has the time of the enqueue exactly when the status was new or strengthened |
| ReceiptQueues.EnqueueLeavesOthers | backend/src/services/redis.ts:542-555 | Every other receipt keeps status and time; the one evicted from a full queue has the least time of all |
| ReceiptQueues.QueuedIsListed | backend/src/services/redis.ts:563-592 | What is queued is listed with its status, once, in the order of the times |
| ReceiptQueues.NothingInvented | backend/src/services/redis.ts:525-618 | In every run each queued receipt stems from one enqueue of its id, which gave both its status and its time |
| TextOrder.AtMostIff | backend/src/services/redis.ts:547-555 | Equal times are ordered as Redis does: a prefix first, otherwise by the first difference |
| ReceiptQueues.ReceiptQueue.QueueReceipt | backend/src/services/redis.ts:525-558 | The commands amount to the enqueue step; on a queue in step the id is then stored with the strongest status and its time as EnqueueStores says, unless it is too old for a full queue |
| ReceiptQueues.ReceiptQueue.RemoveQueuedReceipt | backend/src/services/redis.ts:599-618 | The commands amount to the acknowledge step: a delivered acknowledgement of a read receipt changes nothing |
| ReceiptQueues.ReceiptQueue.GetQueuedReceipts | backend/src/services/redis.ts:563-592 | From any hash and index: the indexed ids that have a status, oldest first and with it; every stored receipt once while the two are in step |
| RateLimiter.AtMostTwiceTheLimit | backend/src/websocket/connection-handler.ts:446-492 | With a clock that never runs back, any interval no longer than the window admits at most twice the limit, for all messages, each event and authentications, over every message sequence |
| RateLimiter.ConnectionBound | backend/src/websocket/connection-handler.ts:446-492 | Over every message sequence of one connection, any interval no longer than the window admits at most twice the limit of all messages and of authentications, and at most twice less one of a single event, whose window is opened by a message it counts |
| RateLimiter.TwiceTheLimitIsReached | backend/src/websocket/connection-handler.ts:446-492 | Both bounds are met: twice the limit of all messages always, twice the limit of authentications whenever the other limiters leave room for it |
| RateLimiter.EventBoundIsReachedIff | backend/src/websocket/connection-handler.ts:459-492 | The bound of a single event is met by some messages exactly when its limit does not exceed the limit of all messages |
| RateLimiter.OneStep | backend/src/websocket/connection-handler.ts:446-482 | A limiter's window only fills up, or starts afresh at the arrival after it ran out |
| RateLimiter.VerdictsExactly | backend/src/websocket/connection-handler.ts:440-492 | Each verdict exactly when: size first, then the limit of all messages, then form, then the limit of the event, last that of authentications, the message itself counted each time |
| RateLimiter.WindowsExactly | backend/src/websocket/connection-handler.ts:446-482 | Every window after a message: one up for those that count it, refused messages included, or started afresh by it when it had run out |
| RateLimiter.RateState.OnMessage | backend/src/websocket/connection-handler.ts:440-492 | The in-place counters and the verdict are those of the limiter the bounds are proved about, refused messages included |
| CborOrder.KeyOrderIsTotal | packages/pcbk-core/src/cbor.ts:25-40 | The key comparison vanishes on equal keys only, is antisymmetric and transitive |
| CborOrder.CompareKeys | packages/pcbk-core/src/cbor.ts:25-40 | The loop over two iterators computes that comparison |
| CborOrder.FilterSortMap | packages/pcbk-core/src/cbor.ts:77-83 | Filtering, sorting and then canonicalizing the entries is the same as canonicalizing and then sorting |
| CborOrder.CanonKeepsMeaning | packages/pcbk-core/src/cbor.ts:58-83 | The canonical tree has no repeated keys and the same meaning as a nested map |
| CborOrder.CanonIdempotent | packages/pcbk-core/src/cbor.ts:58-83 | Canonicalizing twice is canonicalizing once |
| CborOrder.CanonDecidesMeaning | packages/pcbk-core/src/cbor.ts:58-83 | Two values have the same canonical tree exactly when they are equal as nested maps, ignoring insertion order and undefined fields |
| CborCodec.KeyOrderIsLengthFirst | packages/pcbk-core/src/cbor.ts:25-40 | The comparison orders encoded keys as section 4.2.3 of RFC 8949 does: shorter encoding first, equal lengths bytewise |
| CborCodec.RoundTrip | packages/pcbk-core/src/cbor.ts:85-92 | Decoding an encoded value followed by anything gives back the value and the rest |
| CborCodec.CanonicalRoundTrip | packages/pcbk-core/src/cbor.ts:85-92 | Decoding canonical bytes gives the canonical tree, with the meaning of what was encoded |
| CborCodec.CanonicalBytesDecideMeaning | packages/pcbk-core/src/cbor.ts:85-88 | Canonical bytes of two values are equal exactly when the values are equal as nested maps |
| CborCodec.DecodedIsProper | packages/pcbk-core/src/cbor.ts:90-92 | Whatever bytes are accepted, decoded objects never hold a key twice |
| CborCodec.HeadIsShortest | packages/pcbk-core/src/cbor.ts:85-88 | Heads are as short as the format allows: whatever bytes read as the same head are no fewer |
| CborCodec.AppendixANumbers | packages/pcbk-core/src/cbor.ts:85-88 | Examples of appendix A of RFC 8949: integers of each width encode to the bytes given there |
| CborCodec.AppendixAOthers | packages/pcbk-core/src/cbor.ts:85-88 | The same for byte strings, simple values and empty containers |
| Prelude.ParseInvertsFraming | packages/pcbk-core/src/prelude.ts:27-74 | For every non-empty header under 2^32 bytes and every 32-byte tag, whatever follows, parsing recovers both and where the records start |
| Prelude.AcceptedIffFramed | packages/pcbk-core/src/prelude.ts:27-74 | A file is accepted exactly when it is such a framing; the bytes authenticated for the parsed fields are then exactly the file's bytes before the tag |
| Prelude.BuildHeaderAuthenticationBytes | packages/pcbk-core/src/header.ts:153-165 | Filling the buffer at offsets yields magic, version, flags, length and header in a row; it fails exactly for headers of 2^32 bytes or more |
| Prelude.AuthenticationBytesDetermineHeader | packages/pcbk-core/src/header.ts:153-165 | Equal authenticated bytes mean equal headers |
| Prelude.Uint32RoundTrip | packages/pcbk-core/src/header.ts:90-97 | A uint32 written anywhere is read back |
| Prelude.PreludeBytes | packages/pcbk-core/src/prelude.ts:27-74 | A written file starts with 50 43 42 4b, version 1, flags 0 and the header length, lowest byte first, followed by header and tag |
| ClearHeader.AadConstructionsAgree | packages/pcbk-core/src/header.ts:359-414 | For every input that builds a header: it decodes again exactly when mode, dates, KDF numbers and key length are in range, to a header that has each value of the input under its own name, and the associated data rebuilt from it equals the one built from the input |
| ClearHeader.HeaderRoundTrip | packages/pcbk-core/src/header.ts:180-268 | An encoded header decodes to itself when it is acceptable and is refused otherwise |
| ClearHeader.BuiltHeaderReads | packages/pcbk-core/src/header.ts:359-414 | A header builds exactly for buffers of 16, 16, 12 and 4 bytes and a positive date; read back, every value of the input stands under its own field name beside the constants of the format, and the associated data has the same fields with an empty wrapped key |
| ClearHeader.AadDeterminesInput | packages/pcbk-core/src/header.ts:318-323 | Two inputs share their associated data exactly when they are the same: every field is bound |
| CborObject.GetCanon | packages/pcbk-core/src/cbor.ts:77-83 | Reading a field of the canonical object gives the canonical form of that field |
| RecordHeader.BuildThenDecode | packages/pcbk-core/src/record-header.ts:116-179 | Whatever the builder accepts: decoding its bytes succeeds exactly when the header, without an empty object id, is valid, and returns that header |
| RecordHeader.DecodeInvertsBuild | packages/pcbk-core/src/record-header.ts:64-179 | Every valid header, optional fields or not, survives building and decoding |
| RecordHeader.ValidatedIsValid | packages/pcbk-core/src/record-header.ts:64-114 | The validator returns valid headers only |
| RecordHeader.BuildableNotDecodable | packages/pcbk-core/src/record-header.ts:136-158 | The builder alone is weaker: it builds a chunk header without object id, which decoding refuses |
| RecordHeader.NoncesCollideIff | packages/pcbk-core/src/record-encryption.ts:32-43 | Two records of a backup share a nonce exactly when their indices agree modulo 2^64 |
| RecordHeader.SafeNoncesDistinct | packages/pcbk-core/src/record-encryption.ts:32-43 | Safe-integer indices never share one |
| RecordHeader.NonceLayout | packages/pcbk-core/src/record-encryption.ts:32-43 | Twelve bytes: the prefix, then the index modulo 2^64 with its most significant byte first |
| RecordHeader.BuildRecordNonce | packages/pcbk-core/src/record-encryption.ts:32-43 | The filled buffer is prefix and big-endian index; a wrong prefix length or negative index is refused |
| BackupExport.RestoreReturnsExport | frontend/src/services/backup/restore/pipeline.ts:172-535 | Whenever an export goes through, restoring the file with the same passphrase succeeds exactly when header input, payloads, object ids and totals meet stated conditions; it then returns the identity, every batch item in order, every object with all chunks of its blob, and the exporter's manifest, which passes both manifest checks |
| BackupFile.AcceptedBackupIsWhole | frontend/src/services/backup/restore/pipeline.ts:172-535 | Whatever the bytes: a backup read without error has payloads that passed their validators, distinct object ids per family, every chunk its meta records declared, and a manifest that lists exactly these objects and counts exactly these items |
| BackupExport.BlobRestored | frontend/src/services/backup/exporter.ts:357-466 | The chunks of a restored object joined are the exported blob, empty blobs included, and their sizes add up to its size |
| BackupExport.PartsRead | frontend/src/services/backup/restore/pipeline.ts:250-489 | Batches, meta records and chunk records of any parts are taken in exactly when each passes its validators and no object id repeats in its family |
| BackupExport.ManifestValidIff | frontend/src/services/backup/exporter.ts:560-731 | What the exporter tracks yields a manifest that validates exactly when its numbers are safe integers |
| BackupExport.PartsAgree | frontend/src/services/backup/exporter.ts:300-466 | Counters and entries tracked while exporting are those observed while restoring |
| BackupContents.AcceptedIsWhole | frontend/src/services/backup/restore/pipeline.ts:109-155 | For every sequence of records, in whatever order, that assembles and finishes: the contents are whole |
| BackupContents.AbsorbKeepsSound | frontend/src/services/backup/restore/pipeline.ts:300-473 | Each record taken in keeps ids distinct, byte totals equal to the chunks present, and the observed counts equal to items, objects and chunks |
| BackupFile.RestoreReadsExport | frontend/src/services/backup/restore/pipeline.ts:250-300 | Whenever an export goes through, reading the file finds its header and every record in order with its payload; what these assemble to decides the result |
| ManifestCodec.ManifestRoundTrip | packages/pcbk-core/src/manifest.ts:101-228 | Encoding a manifest and decoding it gives the manifest back, through the shape checks of the validator |
| BackupFile.RecordRoundTrip | frontend/src/services/backup/exporter.ts:249-298 | Reading a written record returns it exactly when it is valid, encoded as expected, allowed in the mode and, if a manifest, the last |
| BackupFile.RecordsRoundTrip | frontend/src/services/backup/exporter.ts:249-298 | The same for every sequence of records |
| BackupFile.KeySurvivesWrapping | packages/pcbk-core/src/header.ts:359-414 | The content key wrapped on export is unwrapped from the decoded header |
| BackupFile.ReadRecordLoop | frontend/src/services/backup/restore/pipeline.ts:250-489 | The loop over offsets, taking in each record as it is read, ends in the state the specification gives, or refuses exactly when that does |
| BackupFile.LawfulCryptoExists | packages/pcbk-core/src/record-encryption.ts:45-97 | The laws asked of the cryptography are satisfiable |
| Manifest.BuiltManifestAcceptedIff | packages/pcbk-core/src/manifest.ts:184-228 | For every call sequence, refused calls included: the built manifest is accepted exactly when the record count is the counted calls plus one and every family has as many chunk records as declared and no object refused after counting |
| Manifest.AcceptedCallsManifest | packages/pcbk-core/src/manifest.ts:271-336 | When every call was accepted, only the chunk records per family decide |
| Manifest.RefusedObjectPoisonsBuilder | packages/pcbk-core/src/manifest.ts:300-319 | A refused object call leaves its count behind: no later calls make the manifest acceptable |
| Manifest.FamilyTracked | packages/pcbk-core/src/manifest.ts:279-322 | After any calls the counters and lists of a family hold exactly the counted calls and the accepted objects |
| Manifest.SameObjectsAreEqual | packages/pcbk-core/src/manifest.ts:115-145 | Object lists are accepted only when equal as multisets, whatever localeCompare answers |
| Manifest.OrderIrrelevantIffNoTies | packages/pcbk-core/src/manifest.ts:115-145 | Every pair equal as multisets is accepted exactly when the id comparison ties no two different ids |
| Manifest.MatchIsEqualityUpToOrder | packages/pcbk-core/src/manifest.ts:160-182 | The whole comparison is equality up to the order of the object lists |
| Manifest.CompareManifestObjectEntries | packages/pcbk-core/src/manifest.ts:115-145 | Sorting copies and stepping an iterator decides that the sorted lists are equal |
| Manifest.CompareBytes | packages/pcbk-core/src/manifest.ts:101-113 | The loop decides equality of byte strings |
| Manifest.ManifestBuilder.TrackRecord | packages/pcbk-core/src/manifest.ts:279-322 | Counters and lists remain what the calls so far amount to, a call that throws half way included; the verdict tells whether it threw |
| Manifest.ManifestBuilder.BuildPayload | packages/pcbk-core/src/manifest.ts:323-333 | The payload counts exactly the calls made, and the validator accepts it for that many records exactly when every family is in balance |
| LinkScan.MatchesSplit | frontend/src/services/message-service.ts:302 | Across white space the matches of a text are those of its two sides |
| LinkScan.UrlsOfWords | frontend/src/services/message-service.ts:302 | The words of a text alone decide its links |
| LinkScan.CutWords | frontend/src/services/message-service.ts:672-674 | Cutting the i-th link out takes exactly that link out of the words: no other word changes, no link appears |
| TextNormal.NormalizeKeepsWords | frontend/src/services/message-service.ts:304-309 | Normalization keeps every word in order, and leaves the empty text exactly when there is none |
| TextNormal.NormalizeJoins | frontend/src/services/message-service.ts:304-309 | Between two words the white space is replaced on its own, and the texts on both sides on theirs |
| TextNormal.GapsBecome | frontend/src/services/message-service.ts:304-309 | White space with a line break becomes one line break, two or more blanks one space, a single character stays |
| TextNormal.NormalizeTrims | frontend/src/services/message-service.ts:304-309 | White space around the text goes |
| TextNormal.WordsStay | frontend/src/services/message-service.ts:304-309 | A word stays as it is |
| MessageLinks.LinkPatternIsRegular | frontend/src/services/message-service.ts:302 | The link pattern looks at one word only and survives lengthening it; which texts it finds is said by LinkMeaning.WordIsLinkedFrom and LinkMeaning.LinkIsRestOfWord |
| MessageLinks.LinksWithout | frontend/src/services/message-service.ts:657-690 | Words without some links hold exactly the other links, in order |
| MessageLinks.KeepTwice | frontend/src/services/library-service.ts:192-197 | Taking a link out in front of those already gone is taking them out together |
| MessageLibrary.CutOneLink | frontend/src/services/message-service.ts:657-690 | Deleting one link leaves every other word; the message goes exactly when no word, attachment or reply is left |
| MessageLibrary.DescendingDeletion | frontend/src/services/library-service.ts:192-197 | Deleting any links of a message from the last to the first, with normalization in between, deletes exactly these |
| MessageLibrary.SelectionDeletesExactly | frontend/src/services/library-service.ts:154-200 | For every table and every selection from the library, repeated items and any order included: each message keeps exactly its unselected links and words in order, and goes only when nothing is left; other messages are untouched |
| LinkMeaning.SpaceIsWhiteSpace | frontend/src/services/message-service.ts:302 | White space is the 25 code points of the language |
| LinkMeaning.WordIsLinkedFrom | frontend/src/services/message-service.ts:302 | In every text, a word between white space is linked from its first http:// or https://, in any mixture of case, that at least one more character follows, to its end |
| LinkMeaning.SchemeStartsLink | frontend/src/services/message-service.ts:302 | So a scheme with a word behind it, at the start of a word, is a link to the end of that word, https included |
| LinkMeaning.LinkIsRestOfWord | frontend/src/services/message-service.ts:302 | And every link is such a rest of a word: no other text is found |
| LinkMeaning.DeletesIffPresent | frontend/src/services/message-service.ts:121-135 | A deletion succeeds exactly when the message is stored and its link of that number, or without a number any link, has that url; a refused one changes nothing, and other messages never change |
| LinkMeaning.DeletionCutsTaken | frontend/src/services/message-service.ts:657-690 | What is taken is the numbered link, or the first with the url; the message keeps every other word and field, is of kind text, image or file by its attachments, and goes exactly when no word, attachment or reply is left |
| LinkMeaning.SelectionLeavesUnchosen | frontend/src/services/library-service.ts:154-200 | The same as SelectionDeletesExactly in the fields of the items alone: whatever links are chosen, each message keeps exactly its other links and words |
| LinkMeaning.UniqueKeepsFirst | frontend/src/services/library-service.ts:155-157 | Of every id the first item stays, and only that |
| LibraryServices.LibraryService.DeleteMessageLinkOccurrence | frontend/src/services/message-service.ts:121-135 | Table and verdict afterwards are the specified ones: it succeeds exactly when the message is stored and has the numbered link, or some link, with that url, and changes nothing otherwise |
| LibraryServices.LibraryService.DeleteLibraryItems | frontend/src/services/library-service.ts:154-200 | Deduplicating, grouping and deleting in place yields the specified table; exactly the media and attachments named by an item of their source go |
| LibraryServices.GroupByMessage | frontend/src/services/library-service.ts:164-182 | The map holds each message's links in order of selection, its keys in order of first appearance |
| LibraryServices.SelectedAre | frontend/src/services/library-service.ts:159-176 | The media and attachments selected are exactly those that an item of that source names |
| LibraryServices.Deduplicate | frontend/src/services/library-service.ts:155-157 | The first item of every id |
| MessagePaging.RunKeepsTidy | frontend/src/store/messages-store.ts:39-62 | In every run of all store events each peer's list is sorted by timestamp and id-distinct |
| MessagePaging.StepKeepsTidy | frontend/src/store/messages-store.ts:84-160 | Every store event keeps that |
| MessagePaging.MergeTidy | frontend/src/store/messages-store.ts:47-62 | Merging any two lists yields a sorted, id-distinct one |
| MessagePaging.LoadMoreExtendsIff | frontend/src/store/messages-store.ts:218-234 | From position n, loadMore fetches exactly the previous min(50, n) messages, and the list becomes that longer suffix, if and only if no timestamp tie straddles position n |
| MessagePaging.LoadExtends | frontend/src/store/messages-store.ts:197-215 | Opening a conversation extends the loaded suffix to at least the newest page |
| MessagePaging.HistoryIsSlice | frontend/src/services/message-service.ts:627-638 | A page is the slice of the sorted conversation before the given position |
| MessagePaging.RunKeepsSuffixes | frontend/src/store/messages-store.ts:84-262 | In every run with new, newest-last messages of distinct timestamps each list is a suffix of the stored conversation |
| MessagePaging.LoadMoreInRun | frontend/src/store/messages-store.ts:218-234 | Anywhere in such a run loadMore adds min(50, what is left) messages, none exactly when nothing is left |
| MessagePaging.ReceiptKeepsSuffixIff | frontend/src/store/messages-store.ts:114-158 | A delivery receipt, relabelling included, keeps every list a suffix exactly when it upserts nothing or no newer stored message of the conversation is missing from the list |
| MessagePaging.ReceiptEffect | frontend/src/store/messages-store.ts:114-158 | A receipt labels every copy of its message delivered or read, and pending for any other status; without an id or a stored message nothing else happens |
| MessagePaging.ReceiptUpserts | frontend/src/store/messages-store.ts:114-158 | A delivered or read message that is stored also goes into the list of its other party, replacing its old version; no other list changes |
| MessagePaging.TieHidesMessage | frontend/src/services/message-service.ts:635 | A concrete tie: loadMore returns nothing although a message is left |
| MessageStores.MessagesStore.OnIncomingMessage | frontend/src/store/messages-store.ts:84-96 | Lists stay sorted and id-distinct; table and the sender's list gain exactly this message or replace its old version, other lists do not change; a new, newest message keeps every list a suffix |
| MessageStores.MessagesStore.SendMessage | frontend/src/store/messages-store.ts:237-246 | The same for the recipient's list |
| MessageStores.MessagesStore.LoadMessages | frontend/src/store/messages-store.ts:197-215 | Lists stay tidy and the table unchanged; suffixes stay suffixes, and the peer's one then holds at least the newest page |
| MessageStores.MessagesStore.LoadOlder | frontend/src/store/messages-store.ts:218-234 | Lists stay tidy; a loaded suffix grows by the number returned, min(50, what is left) |
| MessageStores.MessagesStore.MarkAs | frontend/src/store/messages-store.ts:249-262 | Lists stay tidy and suffixes stay suffixes; every copy of the message has the new status and no other message changes |
| MessageStores.MessagesStore.OnDeliveryReceipt | frontend/src/store/messages-store.ts:114-158 | Lists stay tidy; the stored message is labelled delivered, read, or pending for any other status; suffixes survive exactly under the stated condition |
| MessageStores.MessagesStore.MergeLists | frontend/src/store/messages-store.ts:47-62 | The two loops over a map and the sort compute the merge |
| Restore.RestoreMeetsOutcome | frontend/src/services/identity-backup-service.ts:245-298 | Whatever fails: not applied changes neither database; after success each of the six tables and the peer keys holds exactly the rows prepared under its name, the last of a key winning, with a working identity; apply-failed leaves messages and peer keys as they were and the identity the snapshot recovered, or none; rollback-failed leaves the key database as it was |
| Restore.RestoreMeetsTables | frontend/src/services/identity-backup-service.ts:245-298 | The tables after each outcome, whatever the cryptography |
| Restore.FilledHolds | frontend/src/services/identity-backup-service.ts:102-130 | Each of the six tables holds a key exactly when the array meant for it has a row with it, and then the value of the last such row; no other database does |
| Restore.RestoredKeyRows | frontend/src/services/identity-provision-service.ts:65-109 | After a successful restore the key database has the encryption and the signing pair under their own names and the capsule with its dates |
| Restore.RunHoldsLastRestored | frontend/src/services/identity-backup-service.ts:245-298 | In every run of restores, failed, canceled or successful, in which no rollback fails, each table, the peer keys and the unlockable identity are those of the last restored backup, or of the start |
| Restore.RollbackKeepsKeysIff | frontend/src/services/identity-backup-service.ts:165-184 | After apply-failed the key pairs are the old ones exactly when the snapshot could recover them from the capsule, or there were none |
| Restore.RollbackLosesUnrecoverableIdentity | frontend/src/services/identity-backup-service.ts:145-150 | With key pairs but a capsule that does not open, a failure before anything was written is reported as rolled back and the key pairs are gone |
| Restore.UnrecoverableIdentityExists | frontend/src/services/identity-backup-service.ts:145-150 | Such a state exists |
| Restore.StagedIdentityWorks | frontend/src/services/backup/restore/prepared-state.ts:89-107 | A staged identity written to the key database is recovered from it again |
| RestoreServices.RestoreService.ReplaceMessageDatabaseState | frontend/src/services/identity-backup-service.ts:102-130 | Each of the six tables holds exactly the rows given for it, the last of a key winning, or nothing changed |
| RestoreServices.RestoreService.CollectCurrentRestoreSnapshot | frontend/src/services/identity-backup-service.ts:133-163 | The snapshot lists exactly what both databases hold, and the identity the capsule gives |
| RestoreServices.RestoreService.RollbackRestore | frontend/src/services/identity-backup-service.ts:165-184 | Databases and outcome afterwards are the specified ones |
| RestoreServices.RestoreService.ApplyPreparedRestore | frontend/src/services/identity-backup-service.ts:186-196 | Databases and outcome afterwards are the specified ones |
| RestoreServices.RestoreService.RunRestore | frontend/src/services/identity-backup-service.ts:245-298 | Databases and outcome are the specified ones; after success every table holds the rows prepared under its name, and after a restore not applied or rolled back the messages and peer keys are the old ones |
| RestoreServices.RestoreService.ReplaceKeyDatabaseState | frontend/src/services/identity-provision-service.ts:65-109 | Key pairs, capsule and peer keys are exactly the given ones, or nothing changed |

## Left out

- Overlapping handlers: each HTTP handler, WebSocket event, store action and Redis function is one atomic step; races between read and write of one Redis value, and a resume that runs beside the first upload loop of the same file, are not modelled.
- Torn chunk writes: a chunk file is written whole or not at all.
- File name, MIME type, size-per-kind and hash-format rules of `init-upload`, the UUID checks and JSON parsing of stored values: one verdict parameter, or assumed well formed.
- Signature and hash checks of the attachment routes: their verdicts are parameters; the ciphertext hash of a download is not compared, since this client sends none.
- Unencrypted attachments and uploads that are not kept locally.
- Retry delays, stalled marks, progress displays and offline events of uploads.
- The message queue, pushes, presence clean-up and the active-call keys in Redis: they do not feed back into call pairs or sessions.
- Liveness of the outbox and of direct sends.
- The two expiry times of a receipt queue: hash and index expire in one step.
- Byte equality with the cbor-x library: integers beyond 64 bits, floats, maps with non-text keys and its encoding of integers above 2^32 are outside the codec; numbers of headers are integers.
- JavaScript texts that are not well formed: lone surrogates; reordering of integer-like object keys; prototypes of objects.
- The fields the payload validators ask of an identity, item or meta record, and the copies they make of them: the verdict on one decoded value is a parameter, except the chunk size and count of a meta record. Comparing the size of an attachment's meta record with its chunks, and rebuilding database rows from them, comes after the pipeline.
- How the exporter groups ids into batches of 100, loads them and orders its stages: any sequence of batches and objects after the identity is covered. Progress, cancellation and the file writer.
- The messages that tell refusals of a malformed backup apart: they are one failure.
- Argon2id, HKDF, HMAC, ECDH and ECDSA themselves: functions of their inputs.
- Manifest.ManifestBuilder.TrackRecord: item counts that are not integers are outside the model, and sums are exact, while the code rounds beyond 2^53.
- MessagePaging.HistoryIsSlice: rows with equal timestamps come in table order; the database leaves that order open.
- The text of item ids in the library: unique ids for different links are part of `FromLibrary`.
- URL normalization before a cached medium is deleted.
- A page that closes between the two transactions of a restore; the web socket and push subscription around it.
- Components, calls' media, service worker, dashboard, logging.
