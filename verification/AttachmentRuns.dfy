/** Runs of the attachment server: requests, lost processes, expired keys and sweeps, in any order. */
module AttachmentRuns {
  import opened Common
  import opened Chunking
  import opened Sorting
  import opened AttachmentStore

  datatype Server = Server(store: Store, now: int)

  datatype Op =
    | Tick(ms: nat)
    | OpInit(sender: Id, req: InitRequest, policyOk: bool, u: Id, a: Id)
    | OpPut(sender: Id, u: Id, k: nat, payload: Bytes, hashOk: bool, interrupted: bool)
    | OpStatus(sender: Id, u: Id)
    | OpComplete(sender: Id, u: Id, hash: Option<string>, signature: string, signatureOk: bool)
    | OpAck(user: Id, u: Id, signatureOk: bool)
    | OpReadManifest(user: Id, a: Id)
    | OpReadChunk(user: Id, a: Id, k: nat)
    | OpSweep(ids: seq<Id>)
    | OpKeyExpired(a: Id)

  /** New identifiers are fresh, and Redis announces only keys that have run out. */
  ghost predicate Enabled(srv: Server, op: Op) {
    match op
    case OpInit(_, _, _, u, a) => FreshIds(srv.store, u, a)
    case OpKeyExpired(a) =>
      || (a in srv.store.manifests && srv.store.manifests[a].deadline <= srv.now)
      || (a in srv.store.leases && srv.store.leases[a] <= srv.now)
    case _ => true
  }

  function Apply(cfg: Config, srv: Server, op: Op): Server {
    var st, now := srv.store, srv.now;
    match op
    case Tick(ms) => Server(st, now + ms)
    case OpInit(sender, req, policyOk, u, a) => Server(InitUpload(st, cfg, sender, req, policyOk, u, a, now).0, now)
    case OpPut(sender, u, k, payload, hashOk, interrupted) =>
      Server(if interrupted then PutChunkInterrupted(st, sender, u, k, payload, hashOk, now)
             else PutChunk(st, sender, u, k, payload, hashOk, now).0, now)
    case OpStatus(sender, u) => Server(Status(st, sender, u, now).0, now)
    case OpComplete(sender, u, hash, signature, signatureOk) =>
      Server(Complete(st, sender, u, hash, signature, signatureOk, now).0, now)
    case OpAck(user, u, signatureOk) => Server(Ack(st, user, u, signatureOk, now).0, now)
    case OpReadManifest(user, a) => Server(ReadManifest(st, user, a, now).0, now)
    case OpReadChunk(user, a, k) => Server(ReadChunk(st, user, a, k, now).0, now)
    case OpSweep(ids) => Server(Sweep(st, ids, now), now)
    case OpKeyExpired(a) => Server(RemoveArtifacts(st, a, now), now)
  }

  /** The state after each operation of a run; every operation must be enabled when its turn comes. */
  ghost predicate IsRun(cfg: Config, srv: Server, ops: seq<Op>)
    decreases |ops|
  {
    ops == [] || (IsRun(cfg, srv, ops[..|ops| - 1]) && Enabled(After(cfg, srv, ops[..|ops| - 1]), ops[|ops| - 1]))
  }

  function After(cfg: Config, srv: Server, ops: seq<Op>): Server
    decreases |ops|
  {
    if ops == [] then srv else Apply(cfg, After(cfg, srv, ops[..|ops| - 1]), ops[|ops| - 1])
  }

  lemma StepKeeps(cfg: Config, srv: Server, op: Op)
    requires cfg.ttlSeconds > 0 && StoreInv(srv.store, srv.now) && Enabled(srv, op)
    ensures var next := Apply(cfg, srv, op); StoreInv(next.store, next.now) && srv.now <= next.now
  {
    var st, now := srv.store, srv.now;
    match op
    case Tick(ms) => TimePasses(st, now, now + ms);
    case OpInit(sender, req, policyOk, u, a) => InitUploadKeeps(st, cfg, sender, req, policyOk, u, a, now);
    case OpPut(sender, u, k, payload, hashOk, _) => PutChunkKeeps(st, sender, u, k, payload, hashOk, now);
    case OpStatus(_, u) => GetSessionKeeps(st, u, now);
    case OpComplete(sender, u, hash, signature, signatureOk) =>
      CompleteKeeps(st, sender, u, hash, signature, signatureOk, now);
    case OpAck(user, u, signatureOk) => AckKeeps(st, user, u, signatureOk, now);
    case OpReadManifest(_, a) => GetManifestKeeps(st, a, now);
    case OpReadChunk(_, a, _) => GetManifestKeeps(st, a, now);
    case OpSweep(ids) => SweepKeeps(st, ids, now);
    case OpKeyExpired(a) => RemoveArtifactsKeeps(st, a, now);
  }

  lemma TimePasses(st: Store, now: int, later: int)
    requires StoreInv(st, now) && now <= later
    ensures StoreInv(st, later)
  {
    forall v | Live(st.sessions, v, later)
      ensures SessionOk(st, v)
    {
      assert Live(st.sessions, v, now);
    }
    forall b | Live(st.manifests, b, later)
      ensures ManifestOk(st, b)
    {
      assert Live(st.manifests, b, now);
    }
    forall b | Live(st.attachmentUpload, b, later)
      ensures IndexOk(st, b, later)
    {
      assert Live(st.attachmentUpload, b, now) && IndexOk(st, b, now);
    }
    forall v | Live(st.uploadAttachment, v, later)
      ensures ReverseIndexOk(st, v, later)
    {
      assert Live(st.uploadAttachment, v, now) && ReverseIndexOk(st, v, now);
    }
  }

  /** Received lists stay ascending, in range and on disk, and leases stay aligned, over every run. */
  lemma {:induction false} RunKeeps(cfg: Config, srv: Server, ops: seq<Op>)
    requires cfg.ttlSeconds > 0 && StoreInv(srv.store, srv.now) && IsRun(cfg, srv, ops)
    ensures var end := After(cfg, srv, ops); StoreInv(end.store, end.now) && srv.now <= end.now
    decreases |ops|
  {
    if ops == [] {
    } else {
      RunKeeps(cfg, srv, ops[..|ops| - 1]);
      StepKeeps(cfg, After(cfg, srv, ops[..|ops| - 1]), ops[|ops| - 1]);
    }
  }

  // ---- Cleanup never touches live data --------------------------------------------------------------

  ghost predicate SameFiles(st: Store, next: Store, a: Id) {
    && (a in st.disk <==> a in next.disk)
    && (a in st.disk ==> next.disk[a] == st.disk[a])
  }

  /** Upload u is in progress: Redis answers for its session, which has not reached its expiry. */
  ghost predicate InProgress(st: Store, u: Id, now: int) {
    Live(st.sessions, u, now) && now < st.sessions[u].value.expiresAt
  }

  ghost predicate Published(st: Store, a: Id, now: int) {
    Live(st.manifests, a, now) && now < st.manifests[a].value.expiresAt
  }

  ghost predicate UploadUntouched(st: Store, next: Store, u: Id)
    requires u in st.sessions
  {
    && u in next.sessions && next.sessions[u] == st.sessions[u]
    && SameFiles(st, next, st.sessions[u].value.attachmentId)
  }

  ghost predicate ManifestUntouched(st: Store, next: Store, a: Id)
    requires a in st.manifests
  {
    && a in next.manifests && next.manifests[a] == st.manifests[a]
    && SameFiles(st, next, a)
  }

  /** Nothing that Redis still answers for is changed. */
  ghost predicate LiveSpared(st: Store, next: Store, now: int) {
    && (forall u :: Live(st.sessions, u, now) ==> UploadUntouched(st, next, u))
    && (forall a :: Live(st.manifests, a, now) ==> ManifestUntouched(st, next, a))
  }

  lemma LiveDataIsLeased(st: Store, now: int)
    requires StoreInv(st, now)
    ensures forall u :: Live(st.sessions, u, now) ==> HasLease(st, st.sessions[u].value.attachmentId, now)
    ensures forall a :: Live(st.manifests, a, now) ==> HasLease(st, a, now)
  {
    forall u | Live(st.sessions, u, now)
      ensures HasLease(st, st.sessions[u].value.attachmentId, now)
    {
      assert SessionOk(st, u);
    }
    forall a | Live(st.manifests, a, now)
      ensures HasLease(st, a, now)
    {
      assert ManifestOk(st, a);
    }
  }

  lemma RemovalSparesOthers(st: Store, x: Id, now: int)
    requires StoreInv(st, now)
    ensures var next := RemoveArtifacts(st, x, now);
            && (forall u :: Live(st.sessions, u, now) && st.sessions[u].value.attachmentId != x ==>
                  UploadUntouched(st, next, u))
            && (forall a :: Live(st.manifests, a, now) && a != x ==> ManifestUntouched(st, next, a))
  {
    var next := RemoveArtifacts(st, x, now);
    forall u | Live(st.sessions, u, now) && st.sessions[u].value.attachmentId != x
      ensures UploadUntouched(st, next, u)
    {
      if Live(st.attachmentUpload, x, now) {
        assert IndexOk(st, x, now);
      }
    }
  }

  lemma LeaseCheckSparesLive(st: Store, x: Id, now: int)
    requires StoreInv(st, now)
    ensures LiveSpared(st, RemoveIfLeaseMissing(st, x, now), now)
  {
    LiveDataIsLeased(st, now);
    RemovalSparesOthers(st, x, now);
  }

  lemma {:induction false} SweepSparesLive(st: Store, ids: seq<Id>, now: int)
    requires StoreInv(st, now)
    ensures LiveSpared(st, Sweep(st, ids, now), now)
    decreases |ids|
  {
    if ids == [] {
    } else {
      SweepSparesLive(st, ids[..|ids| - 1], now);
      SweepKeeps(st, ids[..|ids| - 1], now);
      var mid := Sweep(st, ids[..|ids| - 1], now);
      LeaseCheckSparesLive(mid, ids[|ids| - 1], now);
      var next := Sweep(st, ids, now);
      forall u | Live(st.sessions, u, now)
        ensures UploadUntouched(st, next, u)
      {
        assert UploadUntouched(st, mid, u) && UploadUntouched(mid, next, u);
      }
      forall a | Live(st.manifests, a, now)
        ensures ManifestUntouched(st, next, a)
      {
        assert ManifestUntouched(st, mid, a) && ManifestUntouched(mid, next, a);
      }
    }
  }

  /** The sweeper removes exactly the listed directories whose lease has gone. */
  lemma {:induction false} SweepRemovesExactlyUnleased(st: Store, ids: seq<Id>, now: int)
    ensures var next := Sweep(st, ids, now);
            forall a :: a in next.disk <==> a in st.disk && (a !in ids || (a in st.leases && now < st.leases[a]))
    ensures forall a :: HasLease(Sweep(st, ids, now), a, now) <==> HasLease(st, a, now)
    decreases |ids|
  {
    if ids == [] {
    } else {
      SweepRemovesExactlyUnleased(st, ids[..|ids| - 1], now);
      assert ids == ids[..|ids| - 1] + [ids[|ids| - 1]];
    }
  }

  lemma ExpiredDataIsNotOurs(st: Store, u: Id, now: int)
    requires StoreInv(st, now) && InProgress(st, u, now)
    ensures forall v ::
              Live(st.sessions, v, now) && st.sessions[v].value.attachmentId == st.sessions[u].value.attachmentId ==>
                v == u
    ensures !Live(st.manifests, st.sessions[u].value.attachmentId, now)
  {
    assert SessionOk(st, u);
    forall v | Live(st.sessions, v, now) && st.sessions[v].value.attachmentId == st.sessions[u].value.attachmentId
      ensures v == u
    {
      assert SessionOk(st, v);
    }
  }

  lemma ReadingSessionsSparesLive(st: Store, v: Id, now: int)
    requires StoreInv(st, now)
    ensures var next := GetSession(st, v, now).0;
            && (forall u :: InProgress(st, u, now) ==> UploadUntouched(st, next, u))
            && (forall a :: Published(st, a, now) ==> ManifestUntouched(st, next, a))
  {
    if Live(st.sessions, v, now) && st.sessions[v].value.expiresAt <= now {
      var x := st.sessions[v].value.attachmentId;
      var st0 := st.(sessions := st.sessions - {v});
      ForgetKeeps(st, {v}, {}, now);
      assert st0 == st.(sessions := st.sessions - {v}, manifests := st.manifests - {});
      RemovalSparesOthers(st0, x, now);
      assert SessionOk(st, v);
      forall u | InProgress(st, u, now)
        ensures UploadUntouched(st, GetSession(st, v, now).0, u)
      {
        ExpiredDataIsNotOurs(st, u, now);
        assert UploadUntouched(st0, RemoveArtifacts(st0, x, now), u);
      }
      forall a | Published(st, a, now)
        ensures ManifestUntouched(st, GetSession(st, v, now).0, a)
      {
        assert a != x;
        assert ManifestUntouched(st0, RemoveArtifacts(st0, x, now), a);
      }
    }
  }

  lemma ReadingManifestsSparesLive(st: Store, b: Id, now: int)
    requires StoreInv(st, now)
    ensures var next := GetManifest(st, b, now).0;
            && (forall u :: InProgress(st, u, now) ==> UploadUntouched(st, next, u))
            && (forall a :: Published(st, a, now) ==> ManifestUntouched(st, next, a))
  {
    if !Live(st.manifests, b, now) {
      LeaseCheckSparesLive(st, b, now);
    } else {
      assert ManifestOk(st, b);
      var st0 := st.(manifests := st.manifests - {b});
      ForgetKeeps(st, {}, {b}, now);
      assert st0 == st.(sessions := st.sessions - {}, manifests := st.manifests - {b});
      RemovalSparesOthers(st0, b, now);
      var next := GetManifest(st, b, now).0;
      forall u | InProgress(st, u, now)
        ensures UploadUntouched(st, next, u)
      {
        ExpiredDataIsNotOurs(st, u, now);
        assert UploadUntouched(st0, RemoveArtifacts(st0, b, now), u);
      }
      forall a | Published(st, a, now)
        ensures ManifestUntouched(st, next, a)
      {
        if a != b {
          assert ManifestUntouched(st0, RemoveArtifacts(st0, b, now), a);
        }
      }
    }
  }

  /** What is published is complete: both parties read every chunk, at its expected size, until it expires or goes. */
  lemma PublishedIsServed(st: Store, user: Id, a: Id, k: nat, now: int)
    requires StoreInv(st, now) && Published(st, a, now)
    requires user == st.manifests[a].value.senderId || user == st.manifests[a].value.recipientId
    ensures var m, (next, reply) := st.manifests[a].value, ReadChunk(st, user, a, k, now);
            && next == st
            && (k < m.chunkCount ==> reply.Ok? && |reply.value| == ExpectedCipherSize(m.totalSize, m.chunkSize, k))
            && (k >= m.chunkCount ==> reply == Fail(400, InvalidFileMetadata))
  {
    var m := st.manifests[a].value;
    assert ManifestOk(st, a);
    assert k < m.chunkCount ==> ChunkOnDisk(st, a, k, ExpectedCipherSize(m.totalSize, m.chunkSize, k));
  }

  /** The requests that continue an upload: a chunk that passes every check, and a completion that succeeds. */
  ghost predicate Advances(srv: Server, op: Op, u: Id)
    requires u in srv.store.sessions
  {
    match op
    case OpPut(sender, v, k, payload, hashOk, _) =>
      v == u && ChunkRefusal(srv.store.sessions[u].value, sender, k, payload, hashOk).None?
    case OpComplete(sender, v, hash, signature, signatureOk) =>
      v == u && Complete(srv.store, sender, u, hash, signature, signatureOk, srv.now).1.Ok?
    case _ => false
  }

  /**
   * An upload in progress holds a live lease, and no operation other than an accepted chunk or a successful
   * completion of that very upload changes its session or removes a byte of its files: not the sweeper, not an
   * expired-key event, not a lazy read of its missing manifest, not an acknowledgement, and no refused request
   * on it, whoever sends it.
   */
  lemma CleanupSparesUpload(cfg: Config, srv: Server, op: Op, u: Id)
    requires StoreInv(srv.store, srv.now) && InProgress(srv.store, u, srv.now)
    requires Enabled(srv, op) && !Advances(srv, op, u)
    ensures HasLease(srv.store, srv.store.sessions[u].value.attachmentId, srv.now)
    ensures UploadUntouched(srv.store, Apply(cfg, srv, op).store, u)
  {
    var st, now := srv.store, srv.now;
    LiveDataIsLeased(st, now);
    assert SessionOk(st, u);
    match op
    case Tick(_) =>
    case OpInit(_, _, _, _, _) =>
    case OpPut(sender, v, k, payload, hashOk, _) => PutSparesUpload(st, sender, v, k, payload, hashOk, u, now);
    case OpStatus(_, v) => ReadingSessionsSparesLive(st, v, now);
    case OpComplete(sender, v, hash, signature, ok) => CompleteSparesUpload(st, sender, v, hash, signature, ok, u, now);
    case OpAck(user, v, ok) => AckSparesUpload(st, user, v, ok, u, now);
    case OpReadManifest(_, a) => ReadingManifestsSparesLive(st, a, now);
    case OpReadChunk(_, a, _) => ReadingManifestsSparesLive(st, a, now);
    case OpSweep(ids) => SweepSparesLive(st, ids, now);
    case OpKeyExpired(a) => RemovalSparesOthers(st, a, now);
  }

  /** A chunk for another upload, or one that is refused, changes nothing of upload u, interrupted or not. */
  lemma PutSparesUpload(st: Store, sender: Id, v: Id, k: nat, payload: Bytes, hashOk: bool, u: Id, now: int)
    requires StoreInv(st, now) && InProgress(st, u, now)
    requires v == u ==> ChunkRefusal(st.sessions[u].value, sender, k, payload, hashOk).Some?
    ensures UploadUntouched(st, PutChunk(st, sender, v, k, payload, hashOk, now).0, u)
    ensures UploadUntouched(st, PutChunkInterrupted(st, sender, v, k, payload, hashOk, now), u)
  {
    assert SessionOk(st, u);
    ReadingSessionsSparesLive(st, v, now);
    GetSessionKeeps(st, v, now);
    if Live(st.sessions, v, now) {
      assert SessionOk(st, v);
    }
  }

  /** A completion of another upload, or one that is refused, changes nothing of upload u. */
  lemma CompleteSparesUpload(
    st: Store, sender: Id, v: Id, hash: Option<string>, signature: string, ok: bool, u: Id, now: int
  )
    requires StoreInv(st, now) && InProgress(st, u, now)
    requires v == u ==> Complete(st, sender, v, hash, signature, ok, now).1.Fail?
    ensures UploadUntouched(st, Complete(st, sender, v, hash, signature, ok, now).0, u)
  {
    assert SessionOk(st, u);
    ReadingSessionsSparesLive(st, v, now);
    GetSessionKeeps(st, v, now);
    if Live(st.sessions, v, now) {
      assert SessionOk(st, v);
    }
  }

  lemma AckSparesUpload(st: Store, user: Id, v: Id, ok: bool, u: Id, now: int)
    requires StoreInv(st, now) && InProgress(st, u, now)
    ensures UploadUntouched(st, Ack(st, user, v, ok, now).0, u)
  {
    assert SessionOk(st, u);
    if Live(st.uploadAttachment, v, now) {
      var a := st.uploadAttachment[v].value;
      ReadingManifestsSparesLive(st, a, now);
      GetManifestKeeps(st, a, now);
      if GetManifest(st, a, now).1.Some? {
        RemovalSparesOthers(st, a, now);
      }
    }
  }

  /** The acknowledgement that the recipient signs is the one request that ends a published attachment. */
  ghost predicate Acknowledges(st: Store, op: Op, a: Id)
    requires a in st.manifests
  {
    var m := st.manifests[a].value;
    op.OpAck? && op.u == m.uploadId && op.user == m.recipientId && op.signatureOk
  }

  /** A published attachment keeps its manifest and files in every step but one, which removes both. */
  lemma PublishedUntilAcknowledged(cfg: Config, srv: Server, op: Op, a: Id)
    requires StoreInv(srv.store, srv.now) && Published(srv.store, a, srv.now) && Enabled(srv, op)
    ensures HasLease(srv.store, a, srv.now)
    ensures !Acknowledges(srv.store, op, a) ==> ManifestUntouched(srv.store, Apply(cfg, srv, op).store, a)
    ensures Acknowledges(srv.store, op, a) ==>
              var next := Apply(cfg, srv, op).store; a !in next.manifests && a !in next.disk
  {
    var st, now := srv.store, srv.now;
    LiveDataIsLeased(st, now);
    assert ManifestOk(st, a);
    match op
    case Tick(_) =>
    case OpInit(_, _, _, _, _) =>
    case OpPut(sender, v, k, payload, hashOk, _) => PutSparesManifest(st, sender, v, k, payload, hashOk, a, now);
    case OpStatus(_, v) => ReadingSessionsSparesLive(st, v, now);
    case OpComplete(sender, v, hash, signature, ok) =>
      CompleteSparesManifest(st, sender, v, hash, signature, ok, a, now);
    case OpAck(user, v, ok) => AckEffect(st, user, v, ok, a, now);
    case OpReadManifest(_, b) => ReadingManifestsSparesLive(st, b, now);
    case OpReadChunk(_, b, _) => ReadingManifestsSparesLive(st, b, now);
    case OpSweep(ids) => SweepSparesLive(st, ids, now);
    case OpKeyExpired(b) =>
      RemovalSparesOthers(st, b, now);
  }

  lemma PutSparesManifest(st: Store, sender: Id, v: Id, k: nat, payload: Bytes, hashOk: bool, a: Id, now: int)
    requires StoreInv(st, now) && Published(st, a, now)
    ensures ManifestUntouched(st, PutChunk(st, sender, v, k, payload, hashOk, now).0, a)
    ensures ManifestUntouched(st, PutChunkInterrupted(st, sender, v, k, payload, hashOk, now), a)
  {
    assert ManifestOk(st, a);
    ReadingSessionsSparesLive(st, v, now);
    GetSessionKeeps(st, v, now);
    if Live(st.sessions, v, now) {
      assert SessionOk(st, v);
    }
  }

  lemma CompleteSparesManifest(
    st: Store, sender: Id, v: Id, hash: Option<string>, signature: string, ok: bool, a: Id, now: int
  )
    requires StoreInv(st, now) && Published(st, a, now)
    ensures ManifestUntouched(st, Complete(st, sender, v, hash, signature, ok, now).0, a)
  {
    assert ManifestOk(st, a);
    ReadingSessionsSparesLive(st, v, now);
    GetSessionKeeps(st, v, now);
    if Live(st.sessions, v, now) {
      assert SessionOk(st, v);
    }
  }

  lemma AckEffect(st: Store, user: Id, v: Id, ok: bool, a: Id, now: int)
    requires StoreInv(st, now) && Published(st, a, now)
    ensures var m := st.manifests[a].value; var next := Ack(st, user, v, ok, now).0;
            if v == m.uploadId && user == m.recipientId && ok then a !in next.manifests && a !in next.disk
            else ManifestUntouched(st, next, a)
  {
    assert ManifestOk(st, a);
    if Live(st.uploadAttachment, v, now) {
      var b := st.uploadAttachment[v].value;
      ReadingManifestsSparesLive(st, b, now);
      GetManifestKeeps(st, b, now);
      if GetManifest(st, b, now).1.Some? {
        assert ManifestOk(st, b) && ReverseIndexOk(st, v, now);
        RemovalSparesOthers(st, b, now);
      }
    }
  }

  /** Everything recorded in the earlier state of the upload is still recorded and still stored. */
  ghost predicate UploadGrows(st: Store, next: Store, u: Id)
    requires u in st.sessions
  {
    && u in next.sessions
    && next.sessions[u].value == st.sessions[u].value.(receivedChunks := next.sessions[u].value.receivedChunks)
    && (forall k :: k in st.sessions[u].value.receivedChunks ==> k in next.sessions[u].value.receivedChunks)
  }

  lemma PutGrowsUpload(st: Store, sender: Id, u: Id, k: nat, payload: Bytes, hashOk: bool, now: int)
    requires StoreInv(st, now) && InProgress(st, u, now)
    ensures var next := PutChunk(st, sender, u, k, payload, hashOk, now).0;
            UploadGrows(st, next, u) && now < next.sessions[u].deadline
    ensures var next := PutChunkInterrupted(st, sender, u, k, payload, hashOk, now);
            UploadGrows(st, next, u) && now < next.sessions[u].deadline
  {
    GetSessionKeeps(st, u, now);
    var s := st.sessions[u].value;
    assert SessionOk(st, u);
    DeadlineReachesExpiry(s.expiresAt, now);
    if s.senderId == sender && ChunkRefusal(s, sender, k, payload, hashOk).None? && k !in s.receivedChunks {
      AscendingInsert(s.receivedChunks, k, s.chunkCount);
    }
  }

  /** The operation is a completion of upload u that succeeds. */
  ghost predicate Completes(srv: Server, op: Op, u: Id) {
    op.OpComplete? && op.u == u &&
      Complete(srv.store, op.sender, u, op.hash, op.signature, op.signatureOk, srv.now).1.Ok?
  }

  /**
   * In every run that ends before its expiry, an upload stays resumable and loses no recorded chunk, unless a
   * completion of it succeeds: refused completions and refused chunks, of whomever, do not matter.
   */
  lemma {:induction false} UploadSurvivesRun(cfg: Config, srv: Server, ops: seq<Op>, u: Id)
    requires cfg.ttlSeconds > 0 && StoreInv(srv.store, srv.now) && IsRun(cfg, srv, ops)
    requires InProgress(srv.store, u, srv.now)
    requires After(cfg, srv, ops).now < srv.store.sessions[u].value.expiresAt
    requires forall i :: 0 <= i < |ops| ==> !Completes(After(cfg, srv, ops[..i]), ops[i], u)
    ensures var end := After(cfg, srv, ops); UploadGrows(srv.store, end.store, u) && InProgress(end.store, u, end.now)
    decreases |ops|
  {
    if ops == [] {
    } else {
      var front, op := ops[..|ops| - 1], ops[|ops| - 1];
      var mid := After(cfg, srv, front);
      RunKeeps(cfg, srv, front);
      StepKeeps(cfg, mid, op);
      forall i | 0 <= i < |front|
        ensures !Completes(After(cfg, srv, front[..i]), front[i], u)
      {
        assert front[..i] == ops[..i] && front[i] == ops[i];
      }
      UploadSurvivesRun(cfg, srv, front, u);
      assert !Completes(After(cfg, srv, ops[..|front|]), op, u);
      OneMoreOperation(cfg, mid, op, u);
    }
  }

  /** One operation short of a successful completion: the upload only grows. */
  lemma OneMoreOperation(cfg: Config, srv: Server, op: Op, u: Id)
    requires cfg.ttlSeconds > 0 && StoreInv(srv.store, srv.now) && Enabled(srv, op) && InProgress(srv.store, u, srv.now)
    requires Apply(cfg, srv, op).now < srv.store.sessions[u].value.expiresAt && !Completes(srv, op, u)
    ensures var end := Apply(cfg, srv, op); UploadGrows(srv.store, end.store, u) && InProgress(end.store, u, end.now)
  {
    assert SessionOk(srv.store, u);
    if Advances(srv, op, u) {
      PutGrowsUpload(srv.store, op.sender, u, op.k, op.payload, op.hashOk, srv.now);
    } else {
      CleanupSparesUpload(cfg, srv, op, u);
    }
  }
}
