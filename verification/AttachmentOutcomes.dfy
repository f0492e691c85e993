/** What each attachment request answers and what it stores, for every state of the server. */
module AttachmentOutcomes {
  import opened Common
  import opened Chunking
  import opened AttachmentStore
  import opened AttachmentRuns

  // ---- Chunks ------------------------------------------------------------------------------------------

  /** The expected size of a sealed chunk, in plain numbers: the bytes of the file that fall to it, and a tag. */
  lemma SealedSize(s: Session, k: nat, size: nat)
    requires GoodShape(s.totalSize, s.chunkSize, s.chunkCount)
    ensures k < s.chunkCount && size == Min(s.chunkSize, s.totalSize - k * s.chunkSize) + 16
       <==> k < s.chunkCount && size != 0 && size == ExpectedCipherSize(s.totalSize, s.chunkSize, k)
  {
    ChunkIsNonEmptyIffCounted(s.totalSize, s.chunkSize, k);
  }

  /** Which chunk requests are accepted, and how each other one is refused. */
  lemma PutAcceptedIff(st: Store, sender: Id, u: Id, k: nat, payload: Bytes, hashOk: bool, now: int)
    requires StoreInv(st, now)
    ensures var (next, reply) := PutChunk(st, sender, u, k, payload, hashOk, now);
            && (!InProgress(st, u, now) ==> reply == Fail(404, UploadNotFound))
            && (InProgress(st, u, now) ==>
                  var s := st.sessions[u].value;
                  var sized := k < s.chunkCount && |payload| == Min(s.chunkSize, s.totalSize - k * s.chunkSize) + 16;
                  && (reply.Ok? <==> sender == s.senderId && sized && hashOk)
                  && (sender != s.senderId ==> reply == Fail(403, RecipientNotAllowed))
                  && (sender == s.senderId && !sized ==> reply == Fail(400, InvalidFileMetadata))
                  && (sender == s.senderId && sized && !hashOk ==> reply == Fail(409, ChunkHashMismatch))
                  && (reply.Fail? ==> next == st))
  {
    if InProgress(st, u, now) {
      assert SessionOk(st, u);
      SealedSize(st.sessions[u].value, k, |payload|);
    }
  }

  ghost predicate OtherFilesSame(st: Store, next: Store, a: Id, k: nat) {
    && (forall b :: b != a ==> SameFiles(st, next, b))
    && (a in st.disk ==> forall j :: j != k && j in st.disk[a] ==>
          a in next.disk && j in next.disk[a] && next.disk[a][j] == st.disk[a][j])
    && (a in next.disk ==> forall j :: j != k && j in next.disk[a] ==> a in st.disk && j in st.disk[a])
  }

  /**
   * An accepted chunk is on disk byte for byte and in the ascending list of received indices, once; the rest of
   * the session, every other session, every manifest and every other file are as before.
   */
  lemma AcceptedChunkIsStored(st: Store, sender: Id, u: Id, k: nat, payload: Bytes, hashOk: bool, now: int)
    requires StoreInv(st, now) && InProgress(st, u, now)
    requires PutChunk(st, sender, u, k, payload, hashOk, now).1.Ok?
    ensures var s, (next, reply) := st.sessions[u].value, PutChunk(st, sender, u, k, payload, hashOk, now);
            && reply.value == s.(receivedChunks := reply.value.receivedChunks)
            && Ascending(reply.value.receivedChunks, s.chunkCount)
            && (forall j :: j in reply.value.receivedChunks <==> j == k || j in s.receivedChunks)
            && u in next.sessions && next.sessions[u].value == reply.value && InProgress(next, u, now)
            && s.attachmentId in next.disk && k in next.disk[s.attachmentId]
            && next.disk[s.attachmentId][k] == payload
            && OtherFilesSame(st, next, s.attachmentId, k)
            && next.sessions - {u} == st.sessions - {u} && next.manifests == st.manifests
  {
    var s := st.sessions[u].value;
    assert SessionOk(st, u);
    DeadlineReachesExpiry(s.expiresAt, now);
    if k !in s.receivedChunks {
      AscendingInsert(s.receivedChunks, k, s.chunkCount);
    }
  }

  // ---- The whole upload ------------------------------------------------------------------------------------

  /** The operation uploads chunk k of the session as its sender should, and is not interrupted. */
  predicate UploadsChunk(op: Op, s: Session, k: nat) {
    && op.OpPut? && op.u == s.uploadId && op.sender == s.senderId && op.k == k && op.hashOk && !op.interrupted
    && |op.payload| == Min(s.chunkSize, s.totalSize - k * s.chunkSize) + 16
  }

  ghost predicate Uploaded(ops: seq<Op>, s: Session, k: nat) {
    exists i :: 0 <= i < |ops| && UploadsChunk(ops[i], s, k)
  }

  ghost predicate NoneCompletes(cfg: Config, srv: Server, ops: seq<Op>, u: Id) {
    forall i :: 0 <= i < |ops| ==> !Completes(After(cfg, srv, ops[..i]), ops[i], u)
  }

  lemma FrontOfRun(cfg: Config, srv: Server, ops: seq<Op>, u: Id)
    requires cfg.ttlSeconds > 0 && StoreInv(srv.store, srv.now) && IsRun(cfg, srv, ops) && ops != []
    requires InProgress(srv.store, u, srv.now) && NoneCompletes(cfg, srv, ops, u)
    requires After(cfg, srv, ops).now < srv.store.sessions[u].value.expiresAt
    ensures var front, op := ops[..|ops| - 1], ops[|ops| - 1];
            var mid := After(cfg, srv, front);
            && IsRun(cfg, srv, front) && NoneCompletes(cfg, srv, front, u)
            && StoreInv(mid.store, mid.now) && Enabled(mid, op) && !Completes(mid, op, u)
            && mid.now < srv.store.sessions[u].value.expiresAt
            && UploadGrows(srv.store, mid.store, u) && InProgress(mid.store, u, mid.now)
            && After(cfg, srv, ops) == Apply(cfg, mid, op)
  {
    var front, op := ops[..|ops| - 1], ops[|ops| - 1];
    var mid := After(cfg, srv, front);
    RunKeeps(cfg, srv, front);
    StepKeeps(cfg, mid, op);
    forall i | 0 <= i < |front|
      ensures !Completes(After(cfg, srv, front[..i]), front[i], u)
    {
      assert front[..i] == ops[..i] && front[i] == ops[i];
    }
    UploadSurvivesRun(cfg, srv, front, u);
    assert ops[..|ops| - 1] == front && !Completes(After(cfg, srv, ops[..|ops| - 1]), ops[|ops| - 1], u);
  }

  lemma UploadStep(cfg: Config, srv: Server, op: Op, u: Id, s: Session, k: nat)
    requires cfg.ttlSeconds > 0 && StoreInv(srv.store, srv.now) && InProgress(srv.store, u, srv.now)
    requires srv.store.sessions[u].value == s.(receivedChunks := srv.store.sessions[u].value.receivedChunks)
    requires UploadsChunk(op, s, k) && k < s.chunkCount
    ensures var next := Apply(cfg, srv, op).store; u in next.sessions && k in next.sessions[u].value.receivedChunks
  {
    assert SessionOk(srv.store, u);
    PutAcceptedIff(srv.store, op.sender, u, k, op.payload, op.hashOk, srv.now);
    AcceptedChunkIsStored(srv.store, op.sender, u, k, op.payload, op.hashOk, srv.now);
  }

  lemma {:induction false} UploadedChunkIsRecorded(cfg: Config, srv: Server, ops: seq<Op>, u: Id, k: nat)
    requires cfg.ttlSeconds > 0 && StoreInv(srv.store, srv.now) && IsRun(cfg, srv, ops)
    requires InProgress(srv.store, u, srv.now) && NoneCompletes(cfg, srv, ops, u)
    requires After(cfg, srv, ops).now < srv.store.sessions[u].value.expiresAt
    requires k < srv.store.sessions[u].value.chunkCount && Uploaded(ops, srv.store.sessions[u].value, k)
    ensures var end := After(cfg, srv, ops).store;
            u in end.sessions && k in end.sessions[u].value.receivedChunks
    decreases |ops|
  {
    var s, front, op := srv.store.sessions[u].value, ops[..|ops| - 1], ops[|ops| - 1];
    FrontOfRun(cfg, srv, ops, u);
    if UploadsChunk(op, s, k) {
      UploadStep(cfg, After(cfg, srv, front), op, u, s, k);
    } else {
      var i :| 0 <= i < |ops| && UploadsChunk(ops[i], s, k);
      assert front[i] == ops[i];
      UploadedChunkIsRecorded(cfg, srv, front, u, k);
      OneMoreOperation(cfg, After(cfg, srv, front), op, u);
    }
  }

  /** Which completions are accepted, and how each other one is refused. */
  lemma CompleteAcceptedIff(
    st: Store, sender: Id, u: Id, hash: Option<string>, signature: string, signatureOk: bool, now: int
  )
    requires StoreInv(st, now)
    ensures var (next, reply) := Complete(st, sender, u, hash, signature, signatureOk, now);
            && (!InProgress(st, u, now) ==> reply == Fail(404, UploadNotFound))
            && (InProgress(st, u, now) ==>
                  var s := st.sessions[u].value;
                  var whole := forall k :: 0 <= k < s.chunkCount ==> k in s.receivedChunks;
                  var conflict := hash.Some? && s.hashSha256.Some? && hash.value != s.hashSha256.value;
                  && (reply.Ok? <==> sender == s.senderId && whole && !conflict && signatureOk)
                  && (sender != s.senderId ==> reply == Fail(403, RecipientNotAllowed))
                  && (sender == s.senderId && !whole ==> reply == Fail(409, UploadIncomplete))
                  && (sender == s.senderId && whole && conflict ==> reply == Fail(400, InvalidFileMetadata))
                  && (sender == s.senderId && whole && !conflict && !signatureOk ==> reply == Fail(401, Unauthorized))
                  && (reply.Fail? ==> next == st))
  {
    if InProgress(st, u, now) {
      GateOpensIffEveryChunkStored(st, u, now);
    }
  }

  /**
   * A completed upload is published under its attachment id with the sender, recipient, sizes and times of its
   * session, and with the completion's hash where one is given; the session is over, and no file changes.
   */
  lemma CompletedUploadIsPublished(
    st: Store, sender: Id, u: Id, hash: Option<string>, signature: string, signatureOk: bool, now: int
  )
    requires StoreInv(st, now) && InProgress(st, u, now)
    requires Complete(st, sender, u, hash, signature, signatureOk, now).1.Ok?
    ensures var s, (next, reply) := st.sessions[u].value, Complete(st, sender, u, hash, signature, signatureOk, now);
            var m := reply.value;
            && m.attachmentId == s.attachmentId && m.uploadId == u
            && m.senderId == s.senderId && m.recipientId == s.recipientId && m.meta == s.meta
            && m.totalSize == s.totalSize && m.chunkSize == s.chunkSize && m.chunkCount == s.chunkCount
            && m.hashSha256 == (match hash case Some(h) => Some(h) case None => s.hashSha256)
            && m.createdAt == s.createdAt && m.expiresAt == s.expiresAt && m.signature == signature
            && Published(next, s.attachmentId, now) && next.manifests[s.attachmentId].value == m
            && next.manifests - {s.attachmentId} == st.manifests - {s.attachmentId}
            && next.sessions == st.sessions - {u} && next.disk == st.disk
  {
    var s := st.sessions[u].value;
    assert SessionOk(st, u);
    DeadlineReachesExpiry(s.expiresAt, now);
  }

  /**
   * In every run short of its expiry: once each chunk not recorded at the start has been put as it should, in any
   * order and with whatever else in between, the sender's signed completion succeeds.
   */
  lemma UploadedChunksComplete(
    cfg: Config, srv: Server, ops: seq<Op>, u: Id, hash: Option<string>, signature: string
  )
    requires cfg.ttlSeconds > 0 && StoreInv(srv.store, srv.now) && IsRun(cfg, srv, ops)
    requires InProgress(srv.store, u, srv.now) && NoneCompletes(cfg, srv, ops, u)
    requires After(cfg, srv, ops).now < srv.store.sessions[u].value.expiresAt
    requires var s := srv.store.sessions[u].value;
             && (hash.None? || s.hashSha256.None? || hash.value == s.hashSha256.value)
             && forall k :: 0 <= k < s.chunkCount ==> k in s.receivedChunks || Uploaded(ops, s, k)
    ensures var s, end := srv.store.sessions[u].value, After(cfg, srv, ops);
            var (next, reply) := Complete(end.store, s.senderId, u, hash, signature, true, end.now);
            reply.Ok? && Published(next, s.attachmentId, end.now)
  {
    var s, end := srv.store.sessions[u].value, After(cfg, srv, ops);
    RunKeeps(cfg, srv, ops);
    UploadSurvivesRun(cfg, srv, ops, u);
    forall k | 0 <= k < s.chunkCount
      ensures k in end.store.sessions[u].value.receivedChunks
    {
      if k !in s.receivedChunks {
        UploadedChunkIsRecorded(cfg, srv, ops, u, k);
      }
    }
    CompleteAcceptedIff(end.store, s.senderId, u, hash, signature, true, end.now);
    CompletedUploadIsPublished(end.store, s.senderId, u, hash, signature, true, end.now);
  }

  // ---- The other requests -----------------------------------------------------------------------------------

  /** Which uploads are let in, and with what session. */
  lemma InitAcceptedIff(st: Store, cfg: Config, sender: Id, req: InitRequest, policyOk: bool, u: Id, a: Id, now: int)
    ensures var (next, reply) := InitUpload(st, cfg, sender, req, policyOk, u, a, now);
            && (!cfg.enabled ==> reply == Fail(503, AttachmentsDisabled))
            && (reply.Ok? <==>
                  && cfg.enabled && policyOk && 0 < req.chunkSize <= Min(cfg.maxChunkBytes, req.totalSize)
                  && (req.chunkCount - 1) * req.chunkSize < req.totalSize <= req.chunkCount * req.chunkSize)
            && (cfg.enabled && reply.Fail? ==> reply == Fail(400, InvalidFileMetadata))
            && (reply.Fail? ==> next == st)
  {
    if req.chunkSize > 0 && req.totalSize > 0 {
      ExactCount(req.totalSize, req.chunkSize, req.chunkCount);
    }
  }

  lemma ExactCount(totalSize: int, chunkSize: int, count: int)
    requires totalSize > 0 && chunkSize > 0
    ensures count == ExpectedChunkCount(totalSize, chunkSize)
            <==> (count - 1) * chunkSize < totalSize <= count * chunkSize
  {
    var n := ExpectedChunkCount(totalSize, chunkSize);
    CountCovers(totalSize, chunkSize);
    if count < n {
      ScaleMonotone(count, n - 1, chunkSize);
    } else if n < count {
      ScaleMonotone(n, count - 1, chunkSize);
    }
  }

  /** The session of a new upload, and that no other data is touched. */
  lemma NewUploadIsStored(st: Store, cfg: Config, sender: Id, req: InitRequest, policyOk: bool, u: Id, a: Id, now: int)
    requires InitUpload(st, cfg, sender, req, policyOk, u, a, now).1.Ok? && cfg.ttlSeconds > 0
    ensures var (next, reply) := InitUpload(st, cfg, sender, req, policyOk, u, a, now);
            var s := reply.value;
            && s.uploadId == u && s.attachmentId == a && s.senderId == sender && s.recipientId == req.recipientId
            && s.meta == req.meta && s.hashSha256 == req.hashSha256
            && s.totalSize == req.totalSize && s.chunkSize == req.chunkSize && s.chunkCount == req.chunkCount
            && s.receivedChunks == [] && s.createdAt == now && s.expiresAt == now + 1000 * cfg.ttlSeconds
            && InProgress(next, u, now) && next.sessions[u].value == s && HasLease(next, a, now)
            && next.sessions - {u} == st.sessions - {u} && next.manifests == st.manifests && next.disk == st.disk
  {
    DeadlineReachesExpiry(now + cfg.ttlSeconds * 1000, now);
  }

  /** The status of an upload in progress is its session, for its sender alone. */
  lemma StatusAnswers(st: Store, sender: Id, u: Id, now: int)
    ensures var (next, reply) := Status(st, sender, u, now);
            if !InProgress(st, u, now) then reply == Fail(404, UploadNotFound)
            else
              && next == st
              && reply == if st.sessions[u].value.senderId == sender then Ok(st.sessions[u].value)
                          else Fail(403, RecipientNotAllowed)
  {
  }

  /**
   * An acknowledgement of a published attachment is accepted from its recipient with a good signature, and then
   * names the attachment; a refused one changes nothing.
   */
  lemma AckAcceptedIff(st: Store, user: Id, a: Id, signatureOk: bool, now: int)
    requires StoreInv(st, now) && Published(st, a, now)
    ensures var m := st.manifests[a].value;
            var (next, reply) := Ack(st, user, m.uploadId, signatureOk, now);
            && (reply.Ok? <==> user == m.recipientId && signatureOk)
            && (reply.Ok? ==> reply.value == a)
            && (user != m.recipientId ==> reply == Fail(403, RecipientNotAllowed))
            && (user == m.recipientId && !signatureOk ==> reply == Fail(401, Unauthorized))
            && (reply.Fail? ==> next == st)
  {
    assert ManifestOk(st, a);
  }

  /** A manifest is read by the sender and the recipient of a published attachment, and by nobody else. */
  lemma ManifestAnswers(st: Store, user: Id, a: Id, now: int)
    requires StoreInv(st, now)
    ensures var (next, reply) := ReadManifest(st, user, a, now);
            if !Published(st, a, now) then reply == Fail(404, AttachmentNotFound)
            else
              var m := st.manifests[a].value;
              && next == st
              && reply == if user == m.senderId || user == m.recipientId then Ok(m)
                          else Fail(403, RecipientNotAllowed)
  {
    if Published(st, a, now) {
      assert ManifestOk(st, a);
    }
  }

  /** Nobody else is served a chunk, and the bytes are those on disk. */
  lemma ChunkAnswers(st: Store, user: Id, a: Id, k: nat, now: int)
    requires StoreInv(st, now)
    ensures var (next, reply) := ReadChunk(st, user, a, k, now);
            if !Published(st, a, now) then reply == Fail(404, AttachmentNotFound)
            else
              var m := st.manifests[a].value;
              && next == st
              && (user != m.senderId && user != m.recipientId ==> reply == Fail(403, RecipientNotAllowed))
              && (user == m.senderId || user == m.recipientId ==>
                    if k < m.chunkCount then
                      a in st.disk && k in st.disk[a] && reply == Ok(st.disk[a][k])
                    else reply == Fail(400, InvalidFileMetadata))
  {
    ManifestAnswers(st, user, a, now);
    if Published(st, a, now) {
      assert ManifestOk(st, a);
      var m := st.manifests[a].value;
      assert k < m.chunkCount ==> ChunkOnDisk(st, a, k, ExpectedCipherSize(m.totalSize, m.chunkSize, k));
    }
  }

  // ---- Keys, one by one -------------------------------------------------------------------------------------

  /** The deadline of what is written at `now`: at the expiry or less than a second after it, or within a second. */
  predicate DueFor(d: int, expiresAt: int, now: int) {
    if now < expiresAt then expiresAt <= d < expiresAt + 1000 else now < d <= now + 1000
  }

  /** A session is written under its upload id with the index both ways and the lease, all with one deadline. */
  lemma SessionKeysExactly(st: Store, s: Session, now: int, k: Id)
    ensures var next := SetSession(st, s, now);
            && s.uploadId in next.sessions && next.sessions[s.uploadId].value == s
            && var d := next.sessions[s.uploadId].deadline;
               && DueFor(d, s.expiresAt, now)
               && s.uploadId in next.uploadAttachment && next.uploadAttachment[s.uploadId] == Keyed(s.attachmentId, d)
               && s.attachmentId in next.attachmentUpload
               && next.attachmentUpload[s.attachmentId] == Keyed(s.uploadId, d)
               && s.attachmentId in next.leases && next.leases[s.attachmentId] == d
    ensures var next := SetSession(st, s, now);
            && next.manifests == st.manifests && next.disk == st.disk
            && (k != s.uploadId ==> Same(k, st.sessions, next.sessions))
            && (k != s.uploadId ==> Same(k, st.uploadAttachment, next.uploadAttachment))
            && (k != s.attachmentId ==> Same(k, st.attachmentUpload, next.attachmentUpload))
            && (k != s.attachmentId ==> Same(k, st.leases, next.leases))
  {
    DeadlineReachesExpiry(s.expiresAt, now);
  }

  /** A manifest likewise, under its attachment id. */
  lemma ManifestKeysExactly(st: Store, m: Manifest, now: int, k: Id)
    ensures var next := SetManifest(st, m, now);
            && m.attachmentId in next.manifests && next.manifests[m.attachmentId].value == m
            && var d := next.manifests[m.attachmentId].deadline;
               && DueFor(d, m.expiresAt, now)
               && m.uploadId in next.uploadAttachment && next.uploadAttachment[m.uploadId] == Keyed(m.attachmentId, d)
               && m.attachmentId in next.attachmentUpload
               && next.attachmentUpload[m.attachmentId] == Keyed(m.uploadId, d)
               && m.attachmentId in next.leases && next.leases[m.attachmentId] == d
    ensures var next := SetManifest(st, m, now);
            && next.sessions == st.sessions && next.disk == st.disk
            && (k != m.attachmentId ==> Same(k, st.manifests, next.manifests))
            && (k != m.uploadId ==> Same(k, st.uploadAttachment, next.uploadAttachment))
            && (k != m.attachmentId ==> Same(k, st.attachmentUpload, next.attachmentUpload))
            && (k != m.attachmentId ==> Same(k, st.leases, next.leases))
  {
    DeadlineReachesExpiry(m.expiresAt, now);
  }

  predicate Same<V(==)>(k: Id, m: map<Id, V>, next: map<Id, V>) {
    if k in m then k in next && next[k] == m[k] else k !in next
  }

  /** Redis answers that attachment a belongs to upload u. */
  predicate BelongsTo(st: Store, a: Id, u: Id, now: int) {
    a in st.attachmentUpload && now < st.attachmentUpload[a].deadline && st.attachmentUpload[a].value == u
  }

  /** Nothing of attachment a is left: manifest, lease, index and files, and the upload keys its index names. */
  ghost predicate Removed(st: Store, next: Store, a: Id, now: int) {
    && a !in next.manifests && a !in next.leases && a !in next.attachmentUpload && a !in next.disk
    && forall u :: BelongsTo(st, a, u, now) ==> u !in next.sessions && u !in next.uploadAttachment
  }

  /** And everything else is as before. */
  ghost predicate RestSame(st: Store, next: Store, a: Id, now: int) {
    && (forall k :: k != a ==> Same(k, st.manifests, next.manifests) && Same(k, st.leases, next.leases))
    && (forall k :: k != a ==> Same(k, st.attachmentUpload, next.attachmentUpload) && Same(k, st.disk, next.disk))
    && (forall u :: !BelongsTo(st, a, u, now) ==>
          Same(u, st.sessions, next.sessions) && Same(u, st.uploadAttachment, next.uploadAttachment))
  }

  lemma RemovalExactly(st: Store, a: Id, now: int)
    ensures Removed(st, RemoveArtifacts(st, a, now), a, now) && RestSame(st, RemoveArtifacts(st, a, now), a, now)
  {
  }

  /** The lease check removes an attachment exactly when its lease has run out or gone. */
  lemma LeaseCheckExactly(st: Store, a: Id, now: int)
    ensures var next := RemoveIfLeaseMissing(st, a, now);
            if a in st.leases && now < st.leases[a] then next == st
            else Removed(st, next, a, now) && RestSame(st, next, a, now)
  {
    RemovalExactly(st, a, now);
  }

  /** A session that Redis still answers for but that has expired goes with its attachment, when it is read. */
  lemma ExpiredSessionGoes(st: Store, u: Id, now: int)
    requires u in st.sessions && now < st.sessions[u].deadline && st.sessions[u].value.expiresAt <= now
    ensures var a, (next, found) := st.sessions[u].value.attachmentId, GetSession(st, u, now);
            found == None && u !in next.sessions && Removed(st, next, a, now)
  {
    RemovalExactly(st.(sessions := st.sessions - {u}), st.sessions[u].value.attachmentId, now);
  }

  /** So does an expired manifest, and what is left of an attachment without manifest and lease. */
  lemma UnreadableManifestGoes(st: Store, a: Id, now: int)
    requires StoreInv(st, now) && !Published(st, a, now)
    ensures var (next, found) := GetManifest(st, a, now);
            && found == None
            && if a in st.manifests && now < st.manifests[a].deadline then Removed(st, next, a, now)
               else if a in st.leases && now < st.leases[a] then next == st
               else Removed(st, next, a, now)
  {
    RemovalExactly(st, a, now);
    RemovalExactly(st.(manifests := st.manifests - {a}), a, now);
    if Live(st.manifests, a, now) {
      assert ManifestOk(st, a);
    }
  }

  /** An upload id behind which no published attachment stands is forgotten, and its acknowledgement refused. */
  lemma UnpublishedAckRefused(st: Store, user: Id, u: Id, signatureOk: bool, now: int)
    requires StoreInv(st, now)
    requires u in st.uploadAttachment && now < st.uploadAttachment[u].deadline ==>
               !Published(st, st.uploadAttachment[u].value, now)
    ensures var (next, reply) := Ack(st, user, u, signatureOk, now);
            && reply == Fail(404, UploadNotFound)
            && (u in st.uploadAttachment && now < st.uploadAttachment[u].deadline ==> u !in next.uploadAttachment)
  {
    if Live(st.uploadAttachment, u, now) {
      UnreadableManifestGoes(st, st.uploadAttachment[u].value, now);
    }
  }

  /** In any store, even a damaged one: a missing chunk file is reported, and a mislabelled manifest is dropped. */
  lemma DamageIsReported(st: Store, user: Id, a: Id, k: nat, now: int)
    requires Published(st, a, now)
    ensures var m := st.manifests[a].value;
            m.attachmentId == a && user in {m.senderId, m.recipientId} && k < m.chunkCount
            && !(a in st.disk && k in st.disk[a]) ==>
              ReadChunk(st, user, a, k, now) == (st, Fail(404, ChunkNotFound))
    ensures st.manifests[a].value.attachmentId != a ==>
              var (next, found) := GetManifest(st, a, now);
              && found == None && a !in next.manifests
              && (!(a in st.leases && now < st.leases[a]) ==> Removed(st, next, a, now))
  {
    RemovalExactly(st.(manifests := st.manifests - {a}), a, now);
  }
}
