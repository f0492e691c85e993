/** The attachment services and handlers as the backend runs them: keys set and deleted one at a time. */
module AttachmentServices {
  import opened Common
  import opened Chunking
  import opened Sorting
  import opened AttachmentStore
  import opened AttachmentRuns
  import opened AttachmentOutcomes

  class AttachmentServer {
    const cfg: Config
    var now: int
    var sessions: map<Id, Keyed<Session>>
    var uploadAttachment: map<Id, Keyed<Id>>
    var attachmentUpload: map<Id, Keyed<Id>>
    var manifests: map<Id, Keyed<Manifest>>
    var leases: map<Id, int>
    var disk: map<Id, map<nat, Bytes>>

    function Contents(): Store
      reads this
    {
      Store(sessions, uploadAttachment, attachmentUpload, manifests, leases, disk)
    }

    /** The class invariant: what the server can count on for everything Redis still answers for. */
    ghost predicate Valid()
      reads this
    {
      StoreInv(Contents(), now)
    }

    /** At time t the session is read back as written, and the lease check removes nothing of its attachment. */
    ghost predicate SessionReadable(s: Session, t: int)
      reads this
    {
      && GetSession(Contents(), s.uploadId, t) == (Contents(), Some(s))
      && RemoveIfLeaseMissing(Contents(), s.attachmentId, t) == Contents()
    }

    /** At time t the manifest is found from either id, and the lease check removes nothing of its attachment. */
    ghost predicate ManifestReadable(m: Manifest, t: int)
      reads this
    {
      && GetManifest(Contents(), m.attachmentId, t) == (Contents(), Some(m))
      && GetManifestByUpload(Contents(), m.uploadId, t) == (Contents(), Some(m))
      && RemoveIfLeaseMissing(Contents(), m.attachmentId, t) == Contents()
    }

    /** The file of chunk k of attachment a. */
    function Stored(a: Id, k: nat): Option<Bytes>
      reads this
    {
      if a in disk && k in disk[a] then Some(disk[a][k]) else None
    }

    constructor (cfg: Config, now: int)
      ensures Contents() == EMPTY && this.now == now && this.cfg == cfg && Valid()
    {
      this.cfg, this.now := cfg, now;
      sessions, uploadAttachment, attachmentUpload, manifests, leases, disk := map[], map[], map[], map[], map[], map[];
    }

    method Elapse(ms: nat)
      modifies this`now
      ensures now == old(now) + ms
      ensures old(Valid()) ==> Valid()
    {
      if StoreInv(Contents(), now) {
        TimePasses(Contents(), now, now + ms);
      }
      now := now + ms;
    }

    method SetUploadSession(s: Session)
      modifies this
      ensures Contents() == SetSession(old(Contents()), s, now) && now == old(now)
      ensures forall t :: now <= t < s.expiresAt ==> SessionReadable(s, t)
    {
      DeadlineReachesExpiry(s.expiresAt, now);
      var deadline := now + 1000 * ToPositiveTtlSeconds(s.expiresAt, now);
      sessions := sessions[s.uploadId := Keyed(s, deadline)];
      uploadAttachment := uploadAttachment[s.uploadId := Keyed(s.attachmentId, deadline)];
      attachmentUpload := attachmentUpload[s.attachmentId := Keyed(s.uploadId, deadline)];
      leases := leases[s.attachmentId := deadline];
    }

    method SetAttachmentManifest(m: Manifest)
      modifies this
      ensures Contents() == SetManifest(old(Contents()), m, now) && now == old(now)
      ensures forall t :: now <= t < m.expiresAt ==> ManifestReadable(m, t)
    {
      DeadlineReachesExpiry(m.expiresAt, now);
      var deadline := now + 1000 * ToPositiveTtlSeconds(m.expiresAt, now);
      manifests := manifests[m.attachmentId := Keyed(m, deadline)];
      uploadAttachment := uploadAttachment[m.uploadId := Keyed(m.attachmentId, deadline)];
      attachmentUpload := attachmentUpload[m.attachmentId := Keyed(m.uploadId, deadline)];
      leases := leases[m.attachmentId := deadline];
    }

    method RemoveAttachmentArtifacts(a: Id)
      modifies this
      ensures Contents() == RemoveArtifacts(old(Contents()), a, now) && now == old(now)
      ensures a !in manifests && a !in leases && a !in attachmentUpload && a !in disk
    {
      var uploadId := if Live(attachmentUpload, a, now) then Some(attachmentUpload[a].value) else None;
      manifests := manifests - {a};
      leases := leases - {a};
      attachmentUpload := attachmentUpload - {a};
      if uploadId.Some? {
        uploadAttachment := uploadAttachment - {uploadId.value};
        sessions := sessions - {uploadId.value};
      }
      disk := disk - {a};
      assert uploadId.None? ==> uploadAttachment - {} == uploadAttachment && sessions - {} == sessions;
    }

    method RemoveArtifactsIfLeaseMissing(a: Id)
      modifies this
      ensures Contents() == RemoveIfLeaseMissing(old(Contents()), a, now) && now == old(now)
      ensures old(Valid()) ==> Valid() && LiveSpared(old(Contents()), Contents(), now)
    {
      if StoreInv(Contents(), now) {
        RemoveArtifactsKeeps(Contents(), a, now);
        LeaseCheckSparesLive(Contents(), a, now);
      }
      if a in leases && now < leases[a] {
        return;
      }
      RemoveAttachmentArtifacts(a);
    }

    /** `listing` is what `readdir` reports; only a batch of it is visited. */
    method SweepOrphans(listing: seq<Id>)
      modifies this
      ensures Contents() == Sweep(old(Contents()), listing[..Min(cfg.sweepBatch, |listing|)], now) && now == old(now)
      ensures old(Valid()) ==> Valid() && LiveSpared(old(Contents()), Contents(), now)
      ensures forall a :: a in disk <==>
                && a in old(disk)
                && (a !in listing[..Min(cfg.sweepBatch, |listing|)] || (a in old(leases) && now < old(leases)[a]))
    {
      var ids := listing[..Min(cfg.sweepBatch, |listing|)];
      ghost var st := Contents();
      for i := 0 to |ids|
        invariant Contents() == Sweep(st, ids[..i], now) && now == old(now)
      {
        assert ids[..i + 1][..i] == ids[..i];
        RemoveArtifactsIfLeaseMissing(ids[i]);
      }
      assert ids[..|ids|] == ids;
      SweepRemovesExactlyUnleased(st, ids, now);
      if StoreInv(st, now) {
        SweepKeeps(st, ids, now);
        SweepSparesLive(st, ids, now);
      }
    }

    method GetUploadSession(u: Id) returns (s: Option<Session>)
      modifies this
      ensures (Contents(), s) == GetSession(old(Contents()), u, now) && now == old(now)
      ensures s.Some? <==> InProgress(old(Contents()), u, now)
      ensures s.Some? ==> Contents() == old(Contents()) && s.value == sessions[u].value
      ensures old(Valid()) ==> Valid() && (s.Some? ==> SessionReadable(s.value, now))
    {
      if StoreInv(Contents(), now) {
        assert InProgress(Contents(), u, now) ==> SessionOk(Contents(), u);
        GetSessionKeeps(Contents(), u, now);
      }
      if !Live(sessions, u, now) {
        return None;
      }
      var found := sessions[u].value;
      if found.expiresAt <= now {
        sessions := sessions - {u};
        RemoveAttachmentArtifacts(found.attachmentId);
        return None;
      }
      return Some(found);
    }

    method GetAttachmentManifest(a: Id) returns (m: Option<Manifest>)
      modifies this
      ensures (Contents(), m) == GetManifest(old(Contents()), a, now) && now == old(now)
      ensures m.Some? ==> Contents() == old(Contents())
      ensures old(Valid()) ==> Valid() && (m.Some? <==> Published(old(Contents()), a, now))
    {
      if StoreInv(Contents(), now) {
        GetManifestKeeps(Contents(), a, now);
        assert Published(Contents(), a, now) ==> ManifestOk(Contents(), a);
      }
      if !Live(manifests, a, now) {
        RemoveArtifactsIfLeaseMissing(a);
        return None;
      }
      var found := manifests[a].value;
      if found.attachmentId != a {
        manifests := manifests - {a};
        RemoveArtifactsIfLeaseMissing(a);
        return None;
      }
      if found.expiresAt <= now {
        manifests := manifests - {a};
        RemoveAttachmentArtifacts(found.attachmentId);
        return None;
      }
      return Some(found);
    }

    method MarkUploadChunkReceived(u: Id, k: nat) returns (s: Option<Session>)
      modifies this
      ensures (Contents(), s) == MarkReceived(old(Contents()), u, k, now) && now == old(now)
      ensures s.Some? ==> u in old(sessions) && forall j ::
                j in s.value.receivedChunks <==> j == k || j in old(sessions)[u].value.receivedChunks
    {
      s := GetUploadSession(u);
      if s.Some? && k !in s.value.receivedChunks {
        ghost var grown := s.value.receivedChunks + [k];
        SortPermutes(ByIndex, grown);
        SameMembers(StableSort(ByIndex, grown), grown);
        var updated := s.value.(receivedChunks := StableSort(ByIndex, s.value.receivedChunks + [k]));
        SetUploadSession(updated);
        s := Some(updated);
      }
    }

    method WriteAttachmentChunk(a: Id, k: nat, payload: Bytes)
      modifies this`disk
      ensures Contents() == WriteChunk(old(Contents()), a, k, payload)
      ensures a in disk && k in disk[a] && disk[a][k] == payload
      ensures forall b, j :: (b, j) != (a, k) && b in old(disk) && j in old(disk)[b] ==>
                b in disk && j in disk[b] && disk[b][j] == old(disk)[b][j]
    {
      if a !in disk {
        disk := disk[a := map[]];
      }
      var dir: map<nat, Bytes> := disk[a];
      disk := disk[a := dir[k := payload]];
    }

    method HandleInitUpload(sender: Id, req: InitRequest, policyOk: bool, u: Id, a: Id) returns (reply: Reply<Session>)
      requires Valid() && cfg.ttlSeconds > 0 && FreshIds(Contents(), u, a)
      modifies this
      ensures (Contents(), reply) == InitUpload(old(Contents()), cfg, sender, req, policyOk, u, a, now)
      ensures now == old(now)
      ensures Valid()
      ensures reply.Ok? <==>
                && cfg.enabled && policyOk && 0 < req.chunkSize <= Min(cfg.maxChunkBytes, req.totalSize)
                && (req.chunkCount - 1) * req.chunkSize < req.totalSize <= req.chunkCount * req.chunkSize
      ensures reply.Ok? ==> forall t :: now <= t < reply.value.expiresAt ==> SessionReadable(reply.value, t)
      ensures reply.Fail? ==> Contents() == old(Contents())
    {
      InitAcceptedIff(Contents(), cfg, sender, req, policyOk, u, a, now);
      InitUploadKeeps(Contents(), cfg, sender, req, policyOk, u, a, now);
      if !cfg.enabled {
        return Fail(503, AttachmentsDisabled);
      }
      if req.totalSize <= 0 || req.chunkSize <= 0 || req.chunkCount <= 0 || !policyOk ||
        req.chunkSize > cfg.maxChunkBytes {
        return Fail(400, InvalidFileMetadata);
      }
      if req.chunkSize > req.totalSize || req.chunkCount != ExpectedChunkCount(req.totalSize, req.chunkSize) {
        return Fail(400, InvalidFileMetadata);
      }
      var s := Session(u, a, sender, req.recipientId, req.meta, req.totalSize, req.chunkSize, req.chunkCount,
                       req.hashSha256, [], now, now + cfg.ttlSeconds * 1000);
      SetUploadSession(s);
      return Ok(s);
    }

    method HandlePutChunk(sender: Id, u: Id, k: nat, payload: Bytes, hashOk: bool) returns (reply: Reply<Session>)
      requires Valid()
      modifies this
      ensures (Contents(), reply) == PutChunk(old(Contents()), sender, u, k, payload, hashOk, now) && now == old(now)
      ensures Valid()
      ensures old(InProgress(Contents(), u, now)) ==>
                var s := old(sessions)[u].value;
                reply.Ok? <==>
                  && sender == s.senderId && k < s.chunkCount && hashOk
                  && |payload| == Min(s.chunkSize, s.totalSize - k * s.chunkSize) + 16
      ensures reply.Ok? ==>
                && SessionReadable(reply.value, now) && k in reply.value.receivedChunks
                && Stored(reply.value.attachmentId, k) == Some(payload)
      ensures reply.Fail? && InProgress(old(Contents()), u, now) ==> Contents() == old(Contents())
    {
      PutChunkKeeps(Contents(), sender, u, k, payload, hashOk, now);
      PutAcceptedIff(Contents(), sender, u, k, payload, hashOk, now);
      var found := GetUploadSession(u);
      if found.None? {
        return Fail(404, UploadNotFound);
      }
      var refusal := ChunkRefusal(found.value, sender, k, payload, hashOk);
      if refusal.Some? {
        return Fail(refusal.value.0, refusal.value.1);
      }
      WriteAttachmentChunk(found.value.attachmentId, k, payload);
      var updated := MarkUploadChunkReceived(u, k);
      if updated.None? {
        return Fail(404, UploadNotFound);
      }
      return Ok(updated.value);
    }

    method HandleStatus(sender: Id, u: Id) returns (reply: Reply<Session>)
      requires Valid()
      modifies this
      ensures (Contents(), reply) == Status(old(Contents()), sender, u, now) && now == old(now)
      ensures Valid()
      ensures reply.Ok? ==>
                && Contents() == old(Contents()) && reply.value.senderId == sender
                && forall k :: k in reply.value.receivedChunks ==> Stored(reply.value.attachmentId, k).Some?
    {
      if InProgress(Contents(), u, now) {
        assert SessionOk(Contents(), u);
      }
      var found := GetUploadSession(u);
      if found.None? {
        return Fail(404, UploadNotFound);
      }
      if found.value.senderId != sender {
        return Fail(403, RecipientNotAllowed);
      }
      return Ok(found.value);
    }

    method HandleComplete(
      sender: Id, u: Id, hash: Option<string>, signature: string, signatureOk: bool
    ) returns (reply: Reply<Manifest>)
      requires Valid()
      modifies this
      ensures (Contents(), reply) == Complete(old(Contents()), sender, u, hash, signature, signatureOk, now)
      ensures now == old(now)
      ensures Valid()
      ensures old(InProgress(Contents(), u, now)) ==>
                var s := old(sessions)[u].value;
                reply.Ok? <==>
                  && sender == s.senderId && signatureOk
                  && (forall k :: 0 <= k < s.chunkCount ==> k in s.receivedChunks)
                  && (hash.None? || s.hashSha256.None? || hash.value == s.hashSha256.value)
      ensures reply.Ok? ==>
                && u !in sessions && reply.value.uploadId == u && reply.value.senderId == sender
                && Published(Contents(), reply.value.attachmentId, now)
                && manifests[reply.value.attachmentId].value == reply.value
                && (forall k :: 0 <= k < reply.value.chunkCount ==> Stored(reply.value.attachmentId, k).Some?)
      ensures reply.Fail? && InProgress(old(Contents()), u, now) ==> Contents() == old(Contents())
    {
      CompleteKeeps(Contents(), sender, u, hash, signature, signatureOk, now);
      CompleteAcceptedIff(Contents(), sender, u, hash, signature, signatureOk, now);
      if InProgress(Contents(), u, now) {
        GateOpensIffEveryChunkStored(Contents(), u, now);
      }
      var found := GetUploadSession(u);
      if found.None? {
        return Fail(404, UploadNotFound);
      }
      var s := found.value;
      if s.senderId != sender {
        return Fail(403, RecipientNotAllowed);
      }
      if |s.receivedChunks| < s.chunkCount {
        return Fail(409, UploadIncomplete);
      }
      if hash.Some? && s.hashSha256.Some? && hash != s.hashSha256 {
        return Fail(400, InvalidFileMetadata);
      }
      if !signatureOk {
        return Fail(401, Unauthorized);
      }
      var m := ManifestOf(s, hash, signature);
      ghost var before := Contents();
      SetAttachmentManifest(m);
      sessions := sessions - {u};
      assert disk == before.disk;
      forall k | 0 <= k < m.chunkCount
        ensures Stored(m.attachmentId, k).Some?
      {
        assert ChunkOnDisk(before, s.attachmentId, k, ExpectedCipherSize(s.totalSize, s.chunkSize, k));
      }
      return Ok(m);
    }

    method HandleAck(user: Id, u: Id, signatureOk: bool) returns (reply: Reply<Id>)
      requires Valid()
      modifies this
      ensures (Contents(), reply) == Ack(old(Contents()), user, u, signatureOk, now) && now == old(now)
      ensures Valid()
      ensures reply.Ok? ==>
                && Published(old(Contents()), reply.value, now) && old(manifests)[reply.value].value.recipientId == user
                && reply.value !in manifests && reply.value !in leases && reply.value !in disk
    {
      AckKeeps(Contents(), user, u, signatureOk, now);
      if !Live(uploadAttachment, u, now) {
        return Fail(404, UploadNotFound);
      }
      var m := GetAttachmentManifest(uploadAttachment[u].value);
      if m.None? {
        uploadAttachment := uploadAttachment - {u};
        return Fail(404, UploadNotFound);
      }
      if m.value.recipientId != user {
        return Fail(403, RecipientNotAllowed);
      }
      if !signatureOk {
        return Fail(401, Unauthorized);
      }
      var a := uploadAttachment[u].value;
      RemoveAttachmentArtifacts(a);
      return Ok(a);
    }

    method HandleReadChunk(user: Id, a: Id, k: nat) returns (reply: Reply<Bytes>)
      requires Valid()
      modifies this
      ensures (Contents(), reply) == ReadChunk(old(Contents()), user, a, k, now) && now == old(now)
      ensures Valid()
      ensures reply.Ok? ==>
                && Contents() == old(Contents()) && Published(Contents(), a, now) && Stored(a, k) == Some(reply.value)
                && user in {manifests[a].value.senderId, manifests[a].value.recipientId}
    {
      if Published(Contents(), a, now) {
        assert ManifestOk(Contents(), a);
      }
      var m := GetAttachmentManifest(a);
      if m.None? {
        return Fail(404, AttachmentNotFound);
      }
      if m.value.senderId != user && m.value.recipientId != user {
        return Fail(403, RecipientNotAllowed);
      }
      if k >= m.value.chunkCount {
        return Fail(400, InvalidFileMetadata);
      }
      if a in disk && k in disk[a] {
        return Ok(disk[a][k]);
      }
      return Fail(404, ChunkNotFound);
    }
  }
}
