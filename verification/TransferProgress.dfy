/** No state of a transfer is a dead end: a queued file whose session lives can still arrive. */
module TransferProgress {
  import opened Common
  import opened Chunking
  import opened AttachmentStore
  import opened AttachmentRuns
  import opened AttachmentOutcomes
  import opened TransferProtocol

  // ---- Continuations ---------------------------------------------------------------------------------------

  ghost predicate Path(cfg: Config, c: Cipher, worlds: seq<World>, steps: seq<Step>, w: World, end: World) {
    IsTransferRun(cfg, c, worlds, steps) && worlds[0] == w && worlds[|steps|] == end
  }

  /** Some steps lead from w to `end`. */
  ghost predicate Leads(cfg: Config, c: Cipher, w: World, end: World) {
    exists worlds: seq<World>, steps: seq<Step> :: Path(cfg, c, worlds, steps, w, end)
  }

  lemma StayingLeads(cfg: Config, c: Cipher, w: World)
    ensures Leads(cfg, c, w, w)
  {
    assert Path(cfg, c, [w], [], w, w);
  }

  lemma StepLeads(cfg: Config, c: Cipher, w: World, step: Step)
    requires CanStep(w, step)
    ensures Leads(cfg, c, w, Next(cfg, c, w, step))
  {
    assert Path(cfg, c, [w, Next(cfg, c, w, step)], [step], w, Next(cfg, c, w, step));
  }

  lemma Take(cfg: Config, c: Cipher, w: World, step: Step) returns (end: World)
    requires cfg.ttlSeconds > 0 && Lawful(c) && WorldInv(c, w) && CanStep(w, step)
    ensures end == Next(cfg, c, w, step) && Leads(cfg, c, w, end) && WorldInv(c, end)
  {
    StepLeads(cfg, c, w, step);
    TransferStepKeeps(cfg, c, w, step);
    end := Next(cfg, c, w, step);
  }

  lemma LeadsOn(cfg: Config, c: Cipher, w: World, middle: World, end: World)
    requires Leads(cfg, c, w, middle) && Leads(cfg, c, middle, end)
    ensures Leads(cfg, c, w, end)
  {
    var worlds, steps :| Path(cfg, c, worlds, steps, w, middle);
    var more, further :| Path(cfg, c, more, further, middle, end);
    PathsJoin(cfg, c, worlds, steps, more, further);
    assert Path(cfg, c, worlds + more[1..], steps + further, w, end);
  }

  lemma PathsJoin(
    cfg: Config, c: Cipher, worlds: seq<World>, steps: seq<Step>, more: seq<World>, further: seq<Step>
  )
    requires IsTransferRun(cfg, c, worlds, steps) && IsTransferRun(cfg, c, more, further)
    requires worlds[|steps|] == more[0]
    ensures IsTransferRun(cfg, c, worlds + more[1..], steps + further)
    ensures (worlds + more[1..])[0] == worlds[0]
    ensures (worlds + more[1..])[|steps + further|] == more[|further|]
  {
    var all, every, n := worlds + more[1..], steps + further, |steps|;
    forall i | 0 <= i < |every|
      ensures CanStep(all[i], every[i]) && all[i + 1] == Next(cfg, c, all[i], every[i])
    {
      if i >= n {
        assert all[i] == more[i - n] && all[i + 1] == more[i - n + 1] && every[i] == further[i - n];
      }
    }
  }

  // ---- Uploading -----------------------------------------------------------------------------------------

  /** File, key and chunking are kept, and no time passes. */
  ghost predicate SameUpload(w: World, next: World, u: Id) {
    && u in w.client.records && u in next.client.records
    && next.client.records[u] == w.client.records[u].(chunkIvs := next.client.records[u].chunkIvs)
    && next.server.now == w.server.now
  }

  /** The worker of u stands before chunk k, and the chunks before it are recorded at the server. */
  ghost predicate Uploading(c: Cipher, w: World, u: Id, k: nat) {
    var cl, st := w.client, w.server.store;
    && WorldInv(c, w) && u in cl.queued && u in cl.records && u in cl.workers && InProgress(st, u, w.server.now)
    && cl.workers[u].next == k <= cl.records[u].chunkCount
    && (forall j :: j in cl.workers[u].received ==> j in st.sessions[u].value.receivedChunks)
    && (forall j :: 0 <= j < k ==> j in st.sessions[u].value.receivedChunks)
  }

  lemma SkipChunk(cfg: Config, c: Cipher, w: World, u: Id, k: nat) returns (end: World)
    requires cfg.ttlSeconds > 0 && Lawful(c) && Uploading(c, w, u, k) && k < w.client.records[u].chunkCount
    requires k in w.client.workers[u].received
    ensures Leads(cfg, c, w, end) && Uploading(c, end, u, k + 1) && SameUpload(w, end, u)
  {
    end := Take(cfg, c, w, Skip(u));
  }

  /** An IV for the chunk is there, or is drawn and recorded. */
  lemma DrawIv(cfg: Config, c: Cipher, w: World, u: Id, k: nat) returns (end: World)
    requires cfg.ttlSeconds > 0 && Lawful(c) && Uploading(c, w, u, k) && k < w.client.records[u].chunkCount
    requires k !in w.client.workers[u].received
    ensures Leads(cfg, c, w, end) && Uploading(c, end, u, k) && SameUpload(w, end, u)
    ensures CanStep(end, TransferProtocol.Send(u))
  {
    assert RecordShape(w.client.records[u]);
    if w.client.workers[u].chunkIvs[k] != "" {
      StayingLeads(cfg, c, w);
      end := w;
    } else {
      end := Take(cfg, c, w, PersistIv(u, "iv"));
    }
  }

  lemma SealedChunkAccepted(c: Cipher, w: World, u: Id, k: nat, payload: Bytes)
    requires Lawful(c) && Uploading(c, w, u, k) && k < w.client.records[u].chunkCount
    requires RequestOk(c, w.client.records, PutRequest(u, k, payload))
    ensures PutChunk(w.server.store, w.client.records[u].senderId, u, k, payload, true, w.server.now).1.Ok?
  {
    var r := w.client.records[u];
    assert RecordOk(c, w.server.store, r, u) && RecordShape(r);
    SliceHasExpectedSize(r.file, r.chunkSize, k);
    ChunkIsNonEmptyIffCounted(r.totalSize, r.chunkSize, k);
    PutAcceptedIff(w.server.store, r.senderId, u, k, payload, true, w.server.now);
  }

  /** The worker's request for chunk k is on its way. */
  ghost predicate Requested(c: Cipher, w: World, u: Id, k: nat, put: PutRequest) {
    && Uploading(c, w, u, k) && k < w.client.records[u].chunkCount
    && put in w.client.inFlight && put.u == u && put.k == k
  }

  lemma RequestChunk(
    cfg: Config, c: Cipher, w: World, u: Id, k: nat
  ) returns (end: World, put: PutRequest)
    requires cfg.ttlSeconds > 0 && Lawful(c) && Uploading(c, w, u, k) && CanStep(w, TransferProtocol.Send(u))
    ensures Leads(cfg, c, w, end) && Requested(c, end, u, k, put) && SameUpload(w, end, u)
  {
    var r := w.client.records[u];
    put := PutRequest(u, k, c.enc(r.fileKey, w.client.workers[u].chunkIvs[k], Slice(r.file, r.chunkSize, k)));
    end := Take(cfg, c, w, TransferProtocol.Send(u));
  }

  lemma DeliverChunk(cfg: Config, c: Cipher, w: World, u: Id, k: nat, put: PutRequest) returns (end: World)
    requires cfg.ttlSeconds > 0 && Lawful(c) && Requested(c, w, u, k, put)
    ensures Leads(cfg, c, w, end) && Uploading(c, end, u, k + 1) && SameUpload(w, end, u)
  {
    var sender := w.client.records[u].senderId;
    assert RequestOk(c, w.client.records, put) && put == PutRequest(u, k, put.payload);
    SealedChunkAccepted(c, w, u, k, put.payload);
    AcceptedChunkIsStored(w.server.store, sender, u, k, put.payload, true, w.server.now);
    end := Take(cfg, c, w, Deliver(put, false, true));
  }

  /** The chunk is sent, stored and answered. */
  lemma SendChunk(cfg: Config, c: Cipher, w: World, u: Id, k: nat) returns (end: World)
    requires cfg.ttlSeconds > 0 && Lawful(c) && Uploading(c, w, u, k) && CanStep(w, TransferProtocol.Send(u))
    ensures Leads(cfg, c, w, end) && Uploading(c, end, u, k + 1) && SameUpload(w, end, u)
  {
    var requested, put := RequestChunk(cfg, c, w, u, k);
    end := DeliverChunk(cfg, c, requested, u, k, put);
    LeadsOn(cfg, c, w, requested, end);
  }

  lemma NextChunk(cfg: Config, c: Cipher, w: World, u: Id, k: nat) returns (end: World)
    requires cfg.ttlSeconds > 0 && Lawful(c) && Uploading(c, w, u, k) && k < w.client.records[u].chunkCount
    ensures Leads(cfg, c, w, end) && Uploading(c, end, u, k + 1) && SameUpload(w, end, u)
  {
    if k in w.client.workers[u].received {
      end := SkipChunk(cfg, c, w, u, k);
    } else {
      var ready := DrawIv(cfg, c, w, u, k);
      end := SendChunk(cfg, c, ready, u, k);
      LeadsOn(cfg, c, w, ready, end);
    }
  }

  lemma {:induction false} RemainingChunks(cfg: Config, c: Cipher, w: World, u: Id, k: nat) returns (end: World)
    requires cfg.ttlSeconds > 0 && Lawful(c) && Uploading(c, w, u, k)
    ensures Leads(cfg, c, w, end) && SameUpload(w, end, u) && Uploading(c, end, u, w.client.records[u].chunkCount)
    decreases w.client.records[u].chunkCount - k
  {
    if k == w.client.records[u].chunkCount {
      StayingLeads(cfg, c, w);
      end := w;
    } else {
      var next := NextChunk(cfg, c, w, u, k);
      end := RemainingChunks(cfg, c, next, u, k + 1);
      LeadsOn(cfg, c, w, next, end);
    }
  }

  lemma ResumeIt(cfg: Config, c: Cipher, w: World, u: Id) returns (end: World)
    requires cfg.ttlSeconds > 0 && Lawful(c) && WorldInv(c, w) && u !in w.client.workers
    requires u in w.client.queued && InProgress(w.server.store, u, w.server.now)
    ensures Leads(cfg, c, w, end) && Uploading(c, end, u, 0) && SameUpload(w, end, u)
  {
    assert RecordOk(c, w.server.store, w.client.records[u], u);
    StatusAnswers(w.server.store, w.client.records[u].senderId, u, w.server.now);
    end := Take(cfg, c, w, Resume(u));
  }

  /** A worker starts over from what the server reports. */
  lemma StartOver(cfg: Config, c: Cipher, w: World, u: Id) returns (end: World)
    requires cfg.ttlSeconds > 0 && Lawful(c) && WorldInv(c, w)
    requires u in w.client.queued && InProgress(w.server.store, u, w.server.now)
    ensures Leads(cfg, c, w, end) && Uploading(c, end, u, 0) && SameUpload(w, end, u)
  {
    var stopped := Take(cfg, c, w, Crash(u));
    end := ResumeIt(cfg, c, stopped, u);
    LeadsOn(cfg, c, w, stopped, end);
  }

  // ---- Completing and downloading --------------------------------------------------------------------------

  /** The manifest is readable and the recipient has its message. */
  ghost predicate Announced(c: Cipher, w: World, u: Id) {
    && WorldInv(c, w) && u in w.client.records && u in w.client.sent
    && Published(w.server.store, w.client.records[u].attachmentId, w.server.now)
  }

  lemma FinishIt(cfg: Config, c: Cipher, w: World, u: Id) returns (end: World)
    requires cfg.ttlSeconds > 0 && Lawful(c) && u in w.client.records
    requires Uploading(c, w, u, w.client.records[u].chunkCount)
    ensures Leads(cfg, c, w, end) && Announced(c, end, u) && SameUpload(w, end, u)
  {
    var step := Finish(u, None, "signature", true, true);
    var r := w.client.records[u];
    assert RecordOk(c, w.server.store, r, u);
    CompleteAcceptedIff(w.server.store, r.senderId, u, None, "signature", true, w.server.now);
    CompletedUploadIsPublished(w.server.store, r.senderId, u, None, "signature", true, w.server.now);
    end := Take(cfg, c, w, step);
  }

  /** The recipient has fetched the first k chunks. */
  ghost predicate FetchedTo(c: Cipher, w: World, u: Id, k: nat) {
    Announced(c, w, u) && u in w.client.downloads && w.client.downloads[u].next == k <= w.client.records[u].chunkCount
  }

  lemma FetchSucceeds(c: Cipher, w: World, u: Id, k: nat)
    requires Lawful(c) && FetchedTo(c, w, u, k) && k < w.client.records[u].chunkCount
    ensures CanFetch(w.client, u)
    ensures FetchNext(c, w, u)
         == World(w.server, Fetching(w.client, u, OneMore(w.client.records[u], w.client.downloads[u])))
  {
    var r, st := w.client.records[u], w.server.store;
    assert RecordOk(c, st, r, u);
    ChunkAnswers(st, r.recipientId, r.attachmentId, k, w.server.now);
    OpensToSlice(c, st, r, u, k);
  }

  lemma FetchOne(cfg: Config, c: Cipher, w: World, u: Id, k: nat) returns (end: World)
    requires cfg.ttlSeconds > 0 && Lawful(c) && FetchedTo(c, w, u, k) && k < w.client.records[u].chunkCount
    ensures Leads(cfg, c, w, end) && FetchedTo(c, end, u, k + 1) && SameUpload(w, end, u)
  {
    FetchSucceeds(c, w, u, k);
    end := Take(cfg, c, w, FetchChunk(u));
  }

  lemma {:induction false} FetchRest(cfg: Config, c: Cipher, w: World, u: Id, k: nat) returns (end: World)
    requires cfg.ttlSeconds > 0 && Lawful(c) && FetchedTo(c, w, u, k)
    ensures Leads(cfg, c, w, end) && SameUpload(w, end, u) && FetchedTo(c, end, u, w.client.records[u].chunkCount)
    decreases w.client.records[u].chunkCount - k
  {
    if k == w.client.records[u].chunkCount {
      StayingLeads(cfg, c, w);
      end := w;
    } else {
      var next := FetchOne(cfg, c, w, u, k);
      end := FetchRest(cfg, c, next, u, k + 1);
      LeadsOn(cfg, c, w, next, end);
    }
  }

  lemma BeginIt(cfg: Config, c: Cipher, w: World, u: Id) returns (end: World)
    requires cfg.ttlSeconds > 0 && Lawful(c) && Announced(c, w, u)
    ensures Leads(cfg, c, w, end) && FetchedTo(c, end, u, 0) && SameUpload(w, end, u)
  {
    end := Take(cfg, c, w, BeginDownload(u));
  }

  lemma SaveIt(cfg: Config, c: Cipher, w: World, u: Id) returns (end: World)
    requires cfg.ttlSeconds > 0 && Lawful(c) && u in w.client.records
    requires FetchedTo(c, w, u, w.client.records[u].chunkCount)
    ensures Leads(cfg, c, w, end) && SameUpload(w, end, u) && Announced(c, end, u) && u in end.client.saved
    ensures end.client.saved[u] == w.client.records[u].file
  {
    end := Take(cfg, c, w, Save(u));
  }

  /** Whoever was told of a published upload can save it. */
  lemma AnnouncedCanBeSaved(cfg: Config, c: Cipher, w: World, u: Id) returns (end: World)
    requires cfg.ttlSeconds > 0 && Lawful(c) && Announced(c, w, u)
    ensures Leads(cfg, c, w, end) && SameUpload(w, end, u) && Announced(c, end, u)
    ensures u in end.client.saved && end.client.saved[u] == w.client.records[u].file
  {
    var begun := BeginIt(cfg, c, w, u);
    var fetched := FetchRest(cfg, c, begun, u, 0);
    end := SaveIt(cfg, c, fetched, u);
    LeadsOn(cfg, c, w, begun, fetched);
    LeadsOn(cfg, c, w, fetched, end);
  }

  // ---- No dead ends ------------------------------------------------------------------------------------------

  /**
   * From every state of every run in which a file is queued and its session has not expired, whatever crashed or
   * got lost before: some steps lead to a published upload, told to the recipient and saved as the sender's file.
   */
  lemma QueuedCanArrive(
    cfg: Config, c: Cipher, worlds: seq<World>, steps: seq<Step>, n: nat, u: Id
  ) returns (end: World)
    requires cfg.ttlSeconds > 0 && Lawful(c) && IsTransferRun(cfg, c, worlds, steps) && n < |worlds|
    requires worlds[0] == InitialWorld(worlds[0].server.now)
    requires u in worlds[n].client.queued && InProgress(worlds[n].server.store, u, worlds[n].server.now)
    ensures u in worlds[n].client.records && Leads(cfg, c, worlds[n], end)
    ensures u in end.client.saved && end.client.saved[u] == worlds[n].client.records[u].file
    ensures Published(end.server.store, worlds[n].client.records[u].attachmentId, end.server.now)
    ensures Announced(c, end, u)
  {
    TransferRunKeeps(cfg, c, worlds, steps, n);
    end := QueuedCanBeSaved(cfg, c, worlds[n], u);
  }

  lemma QueuedCanBeSaved(cfg: Config, c: Cipher, w: World, u: Id) returns (end: World)
    requires cfg.ttlSeconds > 0 && Lawful(c) && WorldInv(c, w)
    requires u in w.client.queued && InProgress(w.server.store, u, w.server.now)
    ensures u in w.client.records && Leads(cfg, c, w, end)
    ensures u in end.client.saved && end.client.saved[u] == w.client.records[u].file
    ensures Published(end.server.store, w.client.records[u].attachmentId, end.server.now) && Announced(c, end, u)
  {
    var started := StartOver(cfg, c, w, u);
    var uploaded := RemainingChunks(cfg, c, started, u, 0);
    var told := FinishIt(cfg, c, uploaded, u);
    end := AnnouncedCanBeSaved(cfg, c, told, u);
    LeadsOn(cfg, c, w, started, uploaded);
    LeadsOn(cfg, c, w, uploaded, told);
    LeadsOn(cfg, c, w, told, end);
  }

  /** Once saved, the recipient's signed acknowledgement clears the attachment from the server. */
  lemma SavedCanBeAcknowledged(cfg: Config, c: Cipher, w: World, u: Id) returns (end: World)
    requires cfg.ttlSeconds > 0 && Lawful(c) && Announced(c, w, u) && u in w.client.saved
    ensures Leads(cfg, c, w, end) && end.client == w.client
    ensures var a := w.client.records[u].attachmentId;
            a !in end.server.store.manifests && a !in end.server.store.disk
  {
    var r, st := w.client.records[u], w.server.store;
    assert RecordOk(c, st, r, u);
    PublishedUntilAcknowledged(cfg, w.server, OpAck(r.recipientId, u, true), r.attachmentId);
    end := Take(cfg, c, w, AckSaved(u, true));
  }

  /** A crash forgets the worker, an abort the download; queue, messages and saved files are durable. */
  lemma MemoryIsVolatile(cfg: Config, c: Cipher, w: World, u: Id)
    ensures var next := Next(cfg, c, w, Crash(u));
            && next.server == w.server && next.client == w.client.(workers := next.client.workers)
            && u !in next.client.workers
            && forall v :: v != u ==> Same(v, w.client.workers, next.client.workers)
    ensures var next := Next(cfg, c, w, AbortDownload(u));
            && next.server == w.server && next.client == w.client.(downloads := next.client.downloads)
            && u !in next.client.downloads
            && forall v :: v != u ==> Same(v, w.client.downloads, next.client.downloads)
  {
  }

  /** And every file the limits let in can be sent from the start, and arrives. */
  lemma AnyFileCanArrive(
    cfg: Config, c: Cipher, now: int, u: Id, a: Id, sender: Id, recipient: Id, meta: string, file: Bytes, key: Key
  ) returns (end: World)
    requires cfg.enabled && cfg.ttlSeconds > 0 && Lawful(c)
    requires file != [] && Min(262144, |file|) <= cfg.maxChunkBytes
    ensures Leads(cfg, c, InitialWorld(now), end)
    ensures u in end.client.saved && end.client.saved[u] == file
    ensures Published(end.server.store, a, end.server.now)
  {
    var started := StartIt(cfg, c, now, Start(u, a, sender, recipient, meta, file, key, true));
    end := QueuedCanBeSaved(cfg, c, started, u);
    LeadsOn(cfg, c, InitialWorld(now), started, end);
  }

  lemma StartIt(cfg: Config, c: Cipher, now: int, step: Step) returns (end: World)
    requires cfg.enabled && cfg.ttlSeconds > 0 && Lawful(c) && step.Start? && step.policyOk
    requires step.file != [] && Min(262144, |step.file|) <= cfg.maxChunkBytes
    ensures Leads(cfg, c, InitialWorld(now), end) && WorldInv(c, end)
    ensures step.u in end.client.queued && InProgress(end.server.store, step.u, end.server.now)
    ensures step.u in end.client.records && end.client.records[step.u].file == step.file
    ensures end.client.records[step.u].attachmentId == step.a
    ensures step.u in end.client.workers && end.client.workers[step.u].next == 0
    ensures end.client.workers[step.u].received == {}
  {
    var w, size := InitialWorld(now), RequestedChunkSize(|step.file|);
    CountCovers(|step.file|, size);
    var req := InitRequest(step.recipient, step.meta, |step.file|, size, ExpectedChunkCount(|step.file|, size), None);
    InitAcceptedIff(w.server.store, cfg, step.sender, req, true, step.u, step.a, now);
    NewUploadIsStored(w.server.store, cfg, step.sender, req, true, step.u, step.a, now);
    end := Take(cfg, c, w, step);
  }
}
