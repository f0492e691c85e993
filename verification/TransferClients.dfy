/** The sender's upload loop and the recipient's download loop, against the attachment server. */
module TransferClients {
  import opened Common
  import opened Chunking
  import opened AttachmentStore
  import opened AttachmentRuns
  import opened AttachmentServices
  import opened TransferProtocol

  /** What becomes of one HTTP request: it never arrives, its reply is lost, or the reply comes back. */
  datatype Network = Unreachable | ReplyLost | Replied

  datatype Outcome = Completed(descriptor: Descriptor) | Gone | Stalled(code: Option<ErrorCode>)

  datatype DownloadResult = Saved(file: Bytes) | FromLocalStore(file: Bytes) | DownloadFailed

  /** Chunks that the server has recorded stay recorded, and an accepted chunk is recorded too. */
  lemma AcceptedChunkIsRecorded(st: Store, sender: Id, u: Id, k: nat, payload: Bytes, now: int)
    requires StoreInv(st, now) && PutChunk(st, sender, u, k, payload, true, now).1.Ok?
    ensures var next := PutChunk(st, sender, u, k, payload, true, now).0;
            && Live(st.sessions, u, now) && u in next.sessions
            && k in next.sessions[u].value.receivedChunks
            && forall j :: j in st.sessions[u].value.receivedChunks ==> j in next.sessions[u].value.receivedChunks
  {
    GetSessionKeeps(st, u, now);
    var s := st.sessions[u].value;
    assert SessionOk(st, u);
    var st2 := WriteChunk(st, s.attachmentId, k, payload);
    assert GetSession(st2, u, now) == (st2, Some(s));
    if k !in s.receivedChunks {
      AscendingInsert(s.receivedChunks, k, s.chunkCount);
    }
  }

  /** The record of u differs in its IVs and nothing else in the queue differs. */
  ghost predicate OnlyIvsChanged(queue: map<Id, Transfer>, next: map<Id, Transfer>, u: Id, ivs: seq<Iv>) {
    u in queue && next == queue[u := queue[u].(chunkIvs := ivs)]
  }

  lemma IvsChangedTwice(
    first: map<Id, Transfer>, mid: map<Id, Transfer>, last: map<Id, Transfer>, u: Id, ivs: seq<Iv>, later: seq<Iv>
  )
    requires OnlyIvsChanged(first, mid, u, ivs) && OnlyIvsChanged(mid, last, u, later)
    ensures OnlyIvsChanged(first, last, u, later)
  {
  }

  ghost predicate ReceivedBelow(st: Store, u: Id, n: nat, now: int) {
    Live(st.sessions, u, now) ==> forall j :: 0 <= j < n ==> j in st.sessions[u].value.receivedChunks
  }

  /** Whatever was recorded for the upload still is, as long as its session can be read. */
  ghost predicate StillRecorded(st: Store, next: Store, u: Id, now: int) {
    Live(next.sessions, u, now) ==>
      && Live(st.sessions, u, now)
      && forall j :: j in st.sessions[u].value.receivedChunks ==> j in next.sessions[u].value.receivedChunks
  }

  lemma SentGrows(st: Store, next: Store, u: Id, k: nat, received: seq<nat>, now: int)
    requires SentOrReported(st, u, k, received, now) && StillRecorded(st, next, u, now)
    requires Live(next.sessions, u, now) ==> k in next.sessions[u].value.receivedChunks
    ensures SentOrReported(next, u, k + 1, received, now)
  {
  }

  ghost predicate SentOrReported(st: Store, u: Id, n: nat, received: seq<nat>, now: int) {
    Live(st.sessions, u, now) ==>
      forall j :: 0 <= j < n || j in received ==> j in st.sessions[u].value.receivedChunks
  }

  /** A sender whose chunks are all recorded is not told that the upload is incomplete. */
  lemma FullUploadIsNotIncomplete(
    c: Cipher, srv: Server, records: map<Id, Transfer>, u: Id, hash: Option<string>, signature: string, ok: bool
  )
    requires ServerSide(c, srv, records) && u in records
    requires ReceivedBelow(srv.store, u, records[u].chunkCount, srv.now)
    ensures var reply := Complete(srv.store, records[u].senderId, u, hash, signature, ok, srv.now).1;
            reply != Fail(409, UploadIncomplete)
  {
    GetSessionKeeps(srv.store, u, srv.now);
    if Live(srv.store.sessions, u, srv.now) {
      assert RecordOk(c, srv.store, records[u], u);
      GateOpensIffEveryChunkStored(srv.store, u, srv.now);
    }
  }

  class TransferClient {
    const cipher: Cipher
    const server: AttachmentServer
    const sha256: Bytes -> string
    /** `db.transferQueue`: survives a crash. */
    var queue: map<Id, Transfer>
    /** `db.localAttachments`. */
    var localFiles: map<Id, Bytes>

    constructor (cipher: Cipher, server: AttachmentServer, sha256: Bytes -> string)
      ensures this.cipher == cipher && this.server == server && queue == map[] && localFiles == map[]
    {
      this.cipher, this.server, this.sha256, queue, localFiles := cipher, server, sha256, map[], map[];
    }

    /** The durable queue and the server agree: what the server holds of each upload is sealed by the record. */
    ghost predicate Consistent()
      reads this, server
    {
      && server.cfg.ttlSeconds > 0
      && ServerSide(cipher, Server(server.Contents(), server.now), queue)
      && (forall u :: u in queue ==> RecordShape(queue[u]))
    }

    /** A chunk without an IV gets one, stored in the queue before anything is sent under it. */
    method StoreIv(u: Id, k: nat, chunkIvs: seq<Iv>, freshIv: Iv) returns (ivs: seq<Iv>)
      requires Consistent() && u in queue && k < queue[u].chunkCount && chunkIvs == queue[u].chunkIvs && freshIv != ""
      modifies this`queue
      ensures Consistent() && OnlyIvsChanged(old(queue), queue, u, ivs)
      ensures ivs == if old(queue[u]).chunkIvs[k] == "" then chunkIvs[k := freshIv] else chunkIvs
    {
      var r := queue[u];
      ivs := chunkIvs;
      if ivs[k] != "" {
        assert queue == queue[u := r.(chunkIvs := ivs)];
        return;
      }
      ivs := ivs[k := freshIv];
      ghost var before := queue;
      FilledRecordOk(cipher, server.Contents(), r, u, k, freshIv);
      queue := queue[u := r.(chunkIvs := ivs)];
      forall v | v in queue
        ensures RecordOk(cipher, server.Contents(), queue[v], v)
      {
        assert RecordOk(cipher, server.Contents(), before[v], v);
      }
    }

    /** The request for chunk k, sealed under its stored IV. */
    method PutSealedChunk(u: Id, k: nat, net: Network) returns (ok: bool)
      requires Consistent() && u in queue && k < queue[u].chunkCount && queue[u].chunkIvs[k] != ""
      modifies server
      ensures Consistent() && server.now == old(server.now)
      ensures ok ==> net.Replied? && u in server.sessions && k in server.sessions[u].value.receivedChunks
      ensures StillRecorded(old(server.Contents()), server.Contents(), u, server.now)
    {
      if net.Unreachable? {
        return false;
      }
      var r := queue[u];
      var payload := cipher.enc(r.fileKey, r.chunkIvs[k], Slice(r.file, r.chunkSize, k));
      ghost var srv := Server(server.Contents(), server.now);
      assert RequestOk(cipher, queue, PutRequest(u, k, payload));
      PutKeepsServerSide(cipher, srv, queue, r.senderId, u, k, payload, true, false);
      PutKeepsReceived(srv.store, r.senderId, u, k, payload, srv.now);
      var reply := server.HandlePutChunk(r.senderId, u, k, payload, true);
      if reply.Ok? {
        AcceptedChunkIsRecorded(srv.store, r.senderId, u, k, payload, srv.now);
      }
      ok := net.Replied? && reply.Ok?;
    }

    /** Send chunk k; a new IV is stored in the queue before the request leaves. */
    method UploadChunkWithQueueState(
      u: Id, k: nat, chunkIvs: seq<Iv>, freshIv: Iv, net: Network
    ) returns (ivs: seq<Iv>, ok: bool)
      requires Consistent() && u in queue && k < queue[u].chunkCount && chunkIvs == queue[u].chunkIvs && freshIv != ""
      modifies this`queue, server
      ensures Consistent() && server.now == old(server.now)
      ensures ivs == if old(queue[u]).chunkIvs[k] == "" then chunkIvs[k := freshIv] else chunkIvs
      ensures OnlyIvsChanged(old(queue), queue, u, ivs)
      ensures ok ==> net.Replied? && u in server.sessions && k in server.sessions[u].value.receivedChunks
      ensures StillRecorded(old(server.Contents()), server.Contents(), u, server.now)
    {
      ivs := StoreIv(u, k, chunkIvs, freshIv);
      ok := PutSealedChunk(u, k, net);
    }

    /** Time passes before the next request; nothing the client relies on is lost, only expired. */
    method Wait(ms: nat)
      requires Consistent()
      modifies server
      ensures Consistent() && server.Contents() == old(server.Contents()) && server.now == old(server.now) + ms
    {
      ghost var before := Server(server.Contents(), server.now);
      server.Elapse(ms);
      TimePasses(before.store, before.now, server.now);
      EvolvingKeepsServerSide(cipher, before, queue, Server(server.Contents(), server.now));
    }

    method AskStatus(u: Id) returns (reply: Reply<Session>)
      requires Consistent() && u in queue
      modifies server
      ensures Consistent() && server.now == old(server.now)
      ensures reply.Ok? ==> reply.value.chunkCount == queue[u].chunkCount
      ensures reply.Fail? ==> reply.code != UploadIncomplete
      ensures reply.Ok? && Live(server.sessions, u, server.now) ==> server.sessions[u].value == reply.value
    {
      ghost var srv := Server(server.Contents(), server.now);
      SessionReadEvolves(srv.store, u, srv.now);
      GetSessionKeeps(srv.store, u, srv.now);
      reply := server.HandleStatus(queue[u].senderId, u);
      EvolvingKeepsServerSide(cipher, srv, queue, Server(server.Contents(), server.now));
      if reply.Ok? {
        assert RecordOk(cipher, srv.store, queue[u], u);
      }
    }

    /** One turn of the upload loop: a chunk the server reported is skipped, any other is sent. */
    method SendIfMissing(
      u: Id, k: nat, received: seq<nat>, chunkIvs: seq<Iv>, freshIv: Iv, net: Network, ms: nat
    ) returns (ivs: seq<Iv>, ok: bool)
      requires Consistent() && u in queue && k < queue[u].chunkCount && chunkIvs == queue[u].chunkIvs && freshIv != ""
      requires SentOrReported(server.Contents(), u, k, received, server.now)
      modifies this`queue, server
      ensures Consistent() && OnlyIvsChanged(old(queue), queue, u, ivs)
      ensures ok ==> SentOrReported(server.Contents(), u, k + 1, received, server.now)
    {
      if k in received {
        assert queue == queue[u := queue[u].(chunkIvs := chunkIvs)];
        return chunkIvs, true;
      }
      Wait(ms);
      ghost var before := server.Contents();
      ivs, ok := UploadChunkWithQueueState(u, k, chunkIvs, freshIv, net);
      if ok {
        SentGrows(before, server.Contents(), u, k, received, server.now);
      }
    }

    method SendMissingChunks(
      u: Id, received: seq<nat>, total: nat, chunkIvs: seq<Iv>, freshIvs: nat -> Iv, nets: nat -> Network,
      latency: nat -> nat
    )
      returns (ivs: seq<Iv>, ok: bool)
      requires Consistent() && u in queue && total == queue[u].chunkCount && chunkIvs == queue[u].chunkIvs
      requires forall k :: freshIvs(k) != ""
      requires SentOrReported(server.Contents(), u, 0, received, server.now)
      modifies this`queue, server
      ensures Consistent() && OnlyIvsChanged(old(queue), queue, u, ivs)
      ensures ok ==> ReceivedBelow(server.Contents(), u, total, server.now)
    {
      ivs, ok := chunkIvs, true;
      assert queue == queue[u := queue[u].(chunkIvs := ivs)];
      var k := 0;
      while k < total && ok
        invariant k <= total && Consistent() && OnlyIvsChanged(old(queue), queue, u, ivs)
        invariant ok ==> SentOrReported(server.Contents(), u, k, received, server.now)
        decreases total - k
      {
        ghost var mid, before := queue, ivs;
        ivs, ok := SendIfMissing(u, k, received, ivs, freshIvs(k), nets(k), latency(k));
        IvsChangedTwice(old(queue), mid, queue, u, before, ivs);
        k := k + 1;
      }
    }

    /**
     * One attempt to finish a queued upload.  `nets` and `latency` decide the fate of each request;
     * an attempt that stops anywhere leaves the queue and the server consistent for the next one.
     */
    method ResumeQueuedTransfer(
      u: Id, freshIvs: nat -> Iv, first: Network, nets: nat -> Network, last: Network, latency: nat -> nat,
      signature: string, signatureOk: bool
    )
      returns (outcome: Outcome)
      requires Lawful(cipher) && Consistent() && u in queue && (forall k :: freshIvs(k) != "")
      modifies this, server
      ensures Consistent()
      ensures forall v :: v != u ==> (v in queue <==> v in old(queue)) && (v in queue ==> queue[v] == old(queue)[v])
      ensures outcome.Stalled? ==> u in queue && queue[u] == old(queue)[u].(chunkIvs := queue[u].chunkIvs)
      ensures outcome != Stalled(Some(UploadIncomplete))
      ensures outcome.Completed? ==> u !in queue && Delivers(outcome.descriptor, old(queue)[u])
    {
      if first.Unreachable? {
        return Stalled(None);
      }
      var status := AskStatus(u);
      if first.ReplyLost? {
        return Stalled(None);
      }
      if status.Fail? {
        if status.status == 404 {
          queue := queue - {u};
          return Gone;
        }
        return Stalled(Some(status.code));
      }
      var received, count := status.value.receivedChunks, status.value.chunkCount;
      var chunkIvs, ok := SendMissingChunks(u, received, count, queue[u].chunkIvs, freshIvs, nets, latency);
      if !ok {
        return Stalled(None);
      }
      outcome := CompleteQueuedUpload(u, chunkIvs, last, signature, signatureOk);
    }

    /** The descriptor opens the published chunk files of the upload to the file of its queue record. */
    ghost predicate Delivers(d: Descriptor, r: Transfer)
      reads this, server
    {
      && d.attachmentId == r.attachmentId && d.fileKey == r.fileKey
      && Live(server.manifests, r.attachmentId, server.now) && r.attachmentId in server.disk
      && Rebuild(cipher, d, server.disk[r.attachmentId], r.chunkCount) == Some(r.file)
    }

    /** The completion request: once it succeeds, the published files open to the file of the record. */
    method RequestCompletion(u: Id, signature: string, signatureOk: bool) returns (reply: Reply<Manifest>)
      requires Lawful(cipher) && Consistent() && u in queue
      requires ReceivedBelow(server.Contents(), u, queue[u].chunkCount, server.now)
      modifies server
      ensures Consistent() && server.now == old(server.now)
      ensures reply.Fail? ==> reply.code != UploadIncomplete
      ensures reply.Ok? ==> Delivers(DescriptorOf(queue[u], queue[u].chunkIvs), queue[u])
    {
      var r := queue[u];
      ghost var srv := Server(server.Contents(), server.now);
      CompleteKeepsServerSide(cipher, srv, queue, r.senderId, u, None, signature, signatureOk);
      FullUploadIsNotIncomplete(cipher, srv, queue, u, None, signature, signatureOk);
      CompleteEvolves(srv.store, r.senderId, u, None, signature, signatureOk, srv.now);
      reply := server.HandleComplete(r.senderId, u, None, signature, signatureOk);
      if reply.Ok? {
        assert RecordOk(cipher, srv.store, r, u);
        DeadlineReachesExpiry(reply.value.expiresAt, server.now);
        assert Live(server.manifests, r.attachmentId, server.now);
        RecordPublishedRebuilds(cipher, server.Contents(), r, u, server.now);
      }
    }

    method CompleteQueuedUpload(
      u: Id, chunkIvs: seq<Iv>, net: Network, signature: string, signatureOk: bool
    ) returns (outcome: Outcome)
      requires Lawful(cipher) && Consistent() && u in queue && queue[u].chunkIvs == chunkIvs
      requires ReceivedBelow(server.Contents(), u, queue[u].chunkCount, server.now)
      modifies this, server
      ensures Consistent() && server.now == old(server.now)
      ensures outcome.Stalled? ==> queue == old(queue)
      ensures !outcome.Gone? && outcome != Stalled(Some(UploadIncomplete))
      ensures outcome.Completed? ==>
                && queue == old(queue) - {u} && outcome.descriptor == DescriptorOf(old(queue)[u], chunkIvs)
                && Delivers(outcome.descriptor, old(queue)[u])
                && localFiles == old(localFiles)[old(queue)[u].attachmentId := old(queue)[u].file]
    {
      var r := queue[u];
      if net.Unreachable? {
        return Stalled(None);
      }
      var reply := RequestCompletion(u, signature, signatureOk);
      if !net.Replied? {
        return Stalled(None);
      }
      if reply.Fail? {
        return Stalled(Some(reply.code));
      }
      localFiles := localFiles[r.attachmentId := r.file];
      queue := queue - {u};
      return Completed(DescriptorOf(r, chunkIvs));
    }

    ghost predicate Fetched(first: Store, st: Store, d: Descriptor, n: nat, plain: Bytes) {
      && SubMap(st.disk, first.disk)
      && (n == 0 ==> plain == [])
      && (n > 0 ==> d.attachmentId in first.disk && Rebuild(cipher, d, first.disk[d.attachmentId], n) == Some(plain))
    }

    /** The manifest must be readable, well signed, and agree with the descriptor. */
    method AskManifest(d: Descriptor, me: Id, verified: bool) returns (ready: bool)
      requires StoreInv(server.Contents(), server.now)
      modifies server
      ensures StoreInv(server.Contents(), server.now) && server.now == old(server.now)
      ensures SubMap(server.disk, old(server.disk))
      ensures Published(old(server.Contents()), d.attachmentId, server.now) ==>
                ManifestUntouched(old(server.Contents()), server.Contents(), d.attachmentId)
      ensures ready ==> |d.chunkIvs| == d.chunkCount >= 1
    {
      ghost var first := server.Contents();
      ReadingManifestsSparesLive(first, d.attachmentId, server.now);
      ManifestReadEvolves(first, d.attachmentId, server.now);
      GetManifestKeeps(first, d.attachmentId, server.now);
      var m := server.GetAttachmentManifest(d.attachmentId);
      if m.None? || (m.value.senderId != me && m.value.recipientId != me) || !verified
         || m.value.chunkCount != d.chunkCount || |d.chunkIvs| != d.chunkCount {
        return false;
      }
      assert ManifestOk(first, d.attachmentId);
      return true;
    }

    method FetchChunk(d: Descriptor, me: Id, k: nat, net: Network, ms: nat) returns (piece: Option<Bytes>)
      requires StoreInv(server.Contents(), server.now) && k < |d.chunkIvs|
      modifies server
      ensures StoreInv(server.Contents(), server.now) && server.now >= old(server.now)
      ensures SubMap(server.disk, old(server.disk))
      ensures Published(old(server.Contents()), d.attachmentId, server.now) ==>
                ManifestUntouched(old(server.Contents()), server.Contents(), d.attachmentId)
      ensures piece.Some? ==>
                && d.attachmentId in server.disk && k in server.disk[d.attachmentId]
                && cipher.dec(d.fileKey, d.chunkIvs[k], server.disk[d.attachmentId][k]) == piece
    {
      ghost var before, sentAt := server.Contents(), server.now;
      server.Elapse(ms);
      TimePasses(before, sentAt, server.now);
      if net.Unreachable? {
        return None;
      }
      ReadingManifestsSparesLive(before, d.attachmentId, server.now);
      ChunkReadIsFile(before, me, d.attachmentId, k, server.now);
      var reply := server.HandleReadChunk(me, d.attachmentId, k);
      if net.ReplyLost? || reply.Fail? {
        return None;
      }
      piece := cipher.dec(d.fileKey, d.chunkIvs[k], reply.value);
    }

    /** Every chunk in order, decrypted and joined; nothing published is changed by it. */
    method FetchAll(d: Descriptor, me: Id, nets: nat -> Network, latency: nat -> nat) returns (plain: Option<Bytes>)
      requires StoreInv(server.Contents(), server.now) && |d.chunkIvs| == d.chunkCount
      modifies server
      ensures StoreInv(server.Contents(), server.now) && server.now >= old(server.now)
      ensures plain.Some? ==> Fetched(old(server.Contents()), server.Contents(), d, d.chunkCount, plain.value)
      ensures Published(old(server.Contents()), d.attachmentId, server.now) ==>
                ManifestUntouched(old(server.Contents()), server.Contents(), d.attachmentId)
    {
      ghost var first := server.Contents();
      var joined: Bytes := [];
      for k := 0 to d.chunkCount
        invariant StoreInv(server.Contents(), server.now) && server.now >= old(server.now)
        invariant Fetched(first, server.Contents(), d, k, joined)
        invariant Published(first, d.attachmentId, server.now) ==>
                    ManifestUntouched(first, server.Contents(), d.attachmentId)
      {
        var piece := FetchChunk(d, me, k, nets(k + 1), latency(k));
        if piece.None? {
          return None;
        }
        joined := joined + piece.value;
      }
      return Some(joined);
    }

    /**
     * Fetch every chunk in order, decrypt, check, save, and only then acknowledge.  Whenever the
     * download fails and the attachment has not expired, the server still holds all of it.
     */
    method DownloadAttachment(
      d: Descriptor, u: Id, me: Id, plainHash: Option<string>, verified: bool, nets: nat -> Network,
      latency: nat -> nat, ackSigned: bool
    ) returns (result: DownloadResult)
      requires StoreInv(server.Contents(), server.now)
      modifies this`localFiles, server
      ensures StoreInv(server.Contents(), server.now)
      ensures result.Saved? ==>
                && d.attachmentId in old(server.disk)
                && Rebuild(cipher, d, old(server.disk)[d.attachmentId], d.chunkCount) == Some(result.file)
                && localFiles == old(localFiles)[d.attachmentId := result.file]
                && (plainHash.Some? ==> sha256(result.file) == plainHash.value)
      ensures !result.Saved? ==> localFiles == old(localFiles)
      ensures !result.Saved? && Published(old(server.Contents()), d.attachmentId, server.now) ==>
                ManifestUntouched(old(server.Contents()), server.Contents(), d.attachmentId)
    {
      var a := d.attachmentId;
      if a in localFiles {
        return FromLocalStore(localFiles[a]);
      }
      if nets(0).Unreachable? {
        return DownloadFailed;
      }
      var ready := AskManifest(d, me, verified);
      if !ready || nets(0).ReplyLost? {
        return DownloadFailed;
      }
      var fetched := FetchAll(d, me, nets, latency);
      if fetched.None? {
        return DownloadFailed;
      }
      var plain := fetched.value;
      if plainHash.Some? && sha256(plain) != plainHash.value {
        return DownloadFailed;
      }
      localFiles := localFiles[a := plain];
      var _ := server.HandleAck(me, u, ackSigned);
      return Saved(plain);
    }
  }

  lemma PutKeepsReceived(st: Store, sender: Id, u: Id, k: nat, payload: Bytes, now: int)
    requires StoreInv(st, now)
    ensures StillRecorded(st, PutChunk(st, sender, u, k, payload, true, now).0, u, now)
  {
    if InProgress(st, u, now) {
      PutGrowsUpload(st, sender, u, k, payload, true, now);
    }
  }
}
