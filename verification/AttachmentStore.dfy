/**
 * The attachment store of the backend: Redis keys with an expiry time, the chunk files on disk,
 * and the HTTP handlers over them.  Each handler is one atomic step at one reading of the clock.
 */
module AttachmentStore {
  import opened Common
  import opened Chunking
  import opened Sorting

  type Id = string

  datatype Session = Session(
    uploadId: Id, attachmentId: Id, senderId: Id, recipientId: Id, meta: string,
    totalSize: nat, chunkSize: nat, chunkCount: nat, hashSha256: Option<string>,
    receivedChunks: seq<nat>, createdAt: int, expiresAt: int)

  datatype Manifest = Manifest(
    attachmentId: Id, uploadId: Id, senderId: Id, recipientId: Id, meta: string,
    totalSize: nat, chunkSize: nat, chunkCount: nat, hashSha256: Option<string>,
    createdAt: int, expiresAt: int, signature: string)

  /** A Redis value and the time at which Redis drops it. */
  datatype Keyed<+V> = Keyed(value: V, deadline: int)

  datatype Store = Store(
    sessions: map<Id, Keyed<Session>>,
    uploadAttachment: map<Id, Keyed<Id>>,
    attachmentUpload: map<Id, Keyed<Id>>,
    manifests: map<Id, Keyed<Manifest>>,
    leases: map<Id, int>,
    disk: map<Id, map<nat, Bytes>>)

  const EMPTY := Store(map[], map[], map[], map[], map[], map[])

  datatype Config = Config(enabled: bool, ttlSeconds: nat, maxChunkBytes: nat, sweepBatch: nat)

  datatype ErrorCode =
    | AttachmentsDisabled | InvalidFileMetadata | UploadNotFound | RecipientNotAllowed | ChunkHashMismatch
    | UploadIncomplete | Unauthorized | AttachmentNotFound | ChunkNotFound

  datatype Reply<+T> = Ok(value: T) | Fail(status: int, code: ErrorCode)

  // ---- Redis keys and their life -------------------------------------------------------------

  /** Redis answers a read of key k at time `now`. */
  predicate Live<V>(m: map<Id, Keyed<V>>, k: Id, now: int) {
    k in m && now < m[k].deadline
  }

  predicate HasLease(st: Store, a: Id, now: int) {
    a in st.leases && now < st.leases[a]
  }

  function ToPositiveTtlSeconds(expiresAt: int, now: int): int {
    Max(1, CeilDiv(expiresAt - now, 1000))
  }

  function Deadline(expiresAt: int, now: int): int {
    now + 1000 * ToPositiveTtlSeconds(expiresAt, now)
  }

  /** Every key written for data that has not expired lives to its expiry, and less than a second more. */
  lemma DeadlineReachesExpiry(expiresAt: int, now: int)
    ensures now < Deadline(expiresAt, now)
    ensures expiresAt <= Deadline(expiresAt, now)
    ensures now < expiresAt <==> Deadline(expiresAt, now) < expiresAt + 1000
  {
  }

  // ---- Store primitives ------------------------------------------------------------------------

  function SetSession(st: Store, s: Session, now: int): Store {
    var d := Deadline(s.expiresAt, now);
    st.(sessions := st.sessions[s.uploadId := Keyed(s, d)],
        uploadAttachment := st.uploadAttachment[s.uploadId := Keyed(s.attachmentId, d)],
        attachmentUpload := st.attachmentUpload[s.attachmentId := Keyed(s.uploadId, d)],
        leases := st.leases[s.attachmentId := d])
  }

  function SetManifest(st: Store, m: Manifest, now: int): Store {
    var d := Deadline(m.expiresAt, now);
    st.(manifests := st.manifests[m.attachmentId := Keyed(m, d)],
        uploadAttachment := st.uploadAttachment[m.uploadId := Keyed(m.attachmentId, d)],
        attachmentUpload := st.attachmentUpload[m.attachmentId := Keyed(m.uploadId, d)],
        leases := st.leases[m.attachmentId := d])
  }

  function RemoveArtifacts(st: Store, a: Id, now: int): Store {
    var uploads := if Live(st.attachmentUpload, a, now) then {st.attachmentUpload[a].value} else {};
    st.(manifests := st.manifests - {a},
        leases := st.leases - {a},
        attachmentUpload := st.attachmentUpload - {a},
        uploadAttachment := st.uploadAttachment - uploads,
        sessions := st.sessions - uploads,
        disk := st.disk - {a})
  }

  function RemoveIfLeaseMissing(st: Store, a: Id, now: int): Store {
    if HasLease(st, a, now) then st else RemoveArtifacts(st, a, now)
  }

  function GetSession(st: Store, u: Id, now: int): (Store, Option<Session>) {
    if !Live(st.sessions, u, now) then
      (st, None)
    else
      var s := st.sessions[u].value;
      if s.expiresAt <= now then
        (RemoveArtifacts(st.(sessions := st.sessions - {u}), s.attachmentId, now), None)
      else
        (st, Some(s))
  }

  function GetManifest(st: Store, a: Id, now: int): (Store, Option<Manifest>) {
    if !Live(st.manifests, a, now) then
      (RemoveIfLeaseMissing(st, a, now), None)
    else
      var m := st.manifests[a].value;
      if m.attachmentId != a then
        (RemoveIfLeaseMissing(st.(manifests := st.manifests - {a}), a, now), None)
      else if m.expiresAt <= now then
        (RemoveArtifacts(st.(manifests := st.manifests - {a}), m.attachmentId, now), None)
      else
        (st, Some(m))
  }

  function GetManifestByUpload(st: Store, u: Id, now: int): (Store, Option<Manifest>) {
    if !Live(st.uploadAttachment, u, now) then
      (st, None)
    else
      var (st1, m) := GetManifest(st, st.uploadAttachment[u].value, now);
      if m.None? then (st1.(uploadAttachment := st1.uploadAttachment - {u}), None) else (st1, m)
  }

  function ClearByUpload(st: Store, u: Id, now: int): (Store, Option<Id>) {
    if Live(st.uploadAttachment, u, now) then
      var a := st.uploadAttachment[u].value;
      (RemoveArtifacts(st, a, now), Some(a))
    else
      var (st1, s) := GetSession(st, u, now);
      match s
      case None => (st1, None)
      case Some(s) => (RemoveArtifacts(st1, s.attachmentId, now), Some(s.attachmentId))
  }

  predicate ByIndex(a: nat, b: nat) { a <= b }

  function WithChunk(s: Session, k: nat): Session {
    s.(receivedChunks := StableSort(ByIndex, s.receivedChunks + [k]))
  }

  function MarkReceived(st: Store, u: Id, k: nat, now: int): (Store, Option<Session>) {
    var (st1, s) := GetSession(st, u, now);
    match s
    case None => (st1, None)
    case Some(s) =>
      if k in s.receivedChunks then (st1, Some(s)) else (SetSession(st1, WithChunk(s, k), now), Some(WithChunk(s, k)))
  }

  function WriteChunk(st: Store, a: Id, k: nat, payload: Bytes): Store {
    var dir: map<nat, Bytes> := if a in st.disk then st.disk[a] else map[];
    st.(disk := st.disk[a := dir[k := payload]])
  }

  /** The sweeper visits the first directories of its listing and removes those without a lease. */
  function Sweep(st: Store, ids: seq<Id>, now: int): Store
    decreases |ids|
  {
    if ids == [] then st else RemoveIfLeaseMissing(Sweep(st, ids[..|ids| - 1], now), ids[|ids| - 1], now)
  }

  // ---- HTTP handlers -----------------------------------------------------------------------------

  datatype InitRequest = InitRequest(recipientId: Id, meta: string, totalSize: int, chunkSize: int, chunkCount: int,
                                     hashSha256: Option<string>)

  /** `policyOk` stands for the file name, MIME type, hash format and per-kind size rules. */
  function InitUpload(
    st: Store, cfg: Config, sender: Id, req: InitRequest, policyOk: bool, u: Id, a: Id, now: int
  ): (Store, Reply<Session>) {
    if !cfg.enabled then
      (st, Fail(503, AttachmentsDisabled))
    else if req.totalSize <= 0 || req.chunkSize <= 0 || req.chunkCount <= 0 || !policyOk then
      (st, Fail(400, InvalidFileMetadata))
    else if req.chunkSize > cfg.maxChunkBytes then
      (st, Fail(400, InvalidFileMetadata))
    else if req.chunkSize > req.totalSize || req.chunkCount != ExpectedChunkCount(req.totalSize, req.chunkSize) then
      (st, Fail(400, InvalidFileMetadata))
    else
      var s := Session(u, a, sender, req.recipientId, req.meta, req.totalSize, req.chunkSize, req.chunkCount,
                       req.hashSha256, [], now, now + cfg.ttlSeconds * 1000);
      (SetSession(st, s, now), Ok(s))
  }

  /** The checks of the PUT handler once the session is known; `hashOk` compares SHA-256 of the body with the header. */
  function ChunkRefusal(s: Session, sender: Id, k: nat, payload: Bytes, hashOk: bool): Option<(int, ErrorCode)> {
    if s.senderId != sender then Some((403, RecipientNotAllowed))
    else if k >= s.chunkCount then Some((400, InvalidFileMetadata))
    else if |payload| == 0 then Some((400, InvalidFileMetadata))
    else if |payload| != ExpectedCipherSize(s.totalSize, s.chunkSize, k) then Some((400, InvalidFileMetadata))
    else if !hashOk then Some((409, ChunkHashMismatch))
    else None
  }

  function PutChunk(
    st: Store, sender: Id, u: Id, k: nat, payload: Bytes, hashOk: bool, now: int
  ): (Store, Reply<Session>) {
    var (st1, found) := GetSession(st, u, now);
    match found
    case None => (st1, Fail(404, UploadNotFound))
    case Some(s) =>
      match ChunkRefusal(s, sender, k, payload, hashOk)
      case Some(refusal) => (st1, Fail(refusal.0, refusal.1))
      case None =>
        var (st2, marked) := MarkReceived(WriteChunk(st1, s.attachmentId, k, payload), u, k, now);
        (st2, if marked.Some? then Ok(marked.value) else Fail(404, UploadNotFound))
  }

  /** The process stops after the chunk file is written and before the session records it. */
  function PutChunkInterrupted(st: Store, sender: Id, u: Id, k: nat, payload: Bytes, hashOk: bool, now: int): Store {
    var (st1, found) := GetSession(st, u, now);
    if found.Some? && ChunkRefusal(found.value, sender, k, payload, hashOk).None? then
      WriteChunk(st1, found.value.attachmentId, k, payload)
    else
      st1
  }

  function Status(st: Store, sender: Id, u: Id, now: int): (Store, Reply<Session>) {
    var (st1, found) := GetSession(st, u, now);
    match found
    case None => (st1, Fail(404, UploadNotFound))
    case Some(s) => (st1, if s.senderId != sender then Fail(403, RecipientNotAllowed) else Ok(s))
  }

  function ManifestOf(s: Session, hash: Option<string>, signature: string): Manifest {
    Manifest(s.attachmentId, s.uploadId, s.senderId, s.recipientId, s.meta, s.totalSize, s.chunkSize, s.chunkCount,
             if hash.Some? then hash else s.hashSha256, s.createdAt, s.expiresAt, signature)
  }

  /** `signatureOk` is the verdict of the signature check over the manifest the server builds. */
  function Complete(
    st: Store, sender: Id, u: Id, hash: Option<string>, signature: string, signatureOk: bool, now: int
  ): (Store, Reply<Manifest>) {
    var (st1, found) := GetSession(st, u, now);
    match found
    case None => (st1, Fail(404, UploadNotFound))
    case Some(s) =>
      if s.senderId != sender then (st1, Fail(403, RecipientNotAllowed))
      else if |s.receivedChunks| < s.chunkCount then (st1, Fail(409, UploadIncomplete))
      else if hash.Some? && s.hashSha256.Some? && hash != s.hashSha256 then (st1, Fail(400, InvalidFileMetadata))
      else if !signatureOk then (st1, Fail(401, Unauthorized))
      else
        var m := ManifestOf(s, hash, signature);
        var st2 := SetManifest(st1, m, now);
        (st2.(sessions := st2.sessions - {u}), Ok(m))
  }

  function Ack(st: Store, user: Id, u: Id, signatureOk: bool, now: int): (Store, Reply<Id>) {
    var (st1, found) := GetManifestByUpload(st, u, now);
    match found
    case None => (st1, Fail(404, UploadNotFound))
    case Some(m) =>
      if m.recipientId != user then (st1, Fail(403, RecipientNotAllowed))
      else if !signatureOk then (st1, Fail(401, Unauthorized))
      else
        var (st2, cleaned) := ClearByUpload(st1, u, now);
        (st2, if cleaned.Some? then Ok(cleaned.value) else Fail(404, UploadNotFound))
  }

  function ReadManifest(st: Store, user: Id, a: Id, now: int): (Store, Reply<Manifest>) {
    var (st1, found) := GetManifest(st, a, now);
    match found
    case None => (st1, Fail(404, AttachmentNotFound))
    case Some(m) => (st1, if m.senderId != user && m.recipientId != user then Fail(403, RecipientNotAllowed) else Ok(m))
  }

  function ReadChunk(st: Store, user: Id, a: Id, k: nat, now: int): (Store, Reply<Bytes>) {
    var (st1, reply) := ReadManifest(st, user, a, now);
    match reply
    case Fail(status, code) => (st1, Fail(status, code))
    case Ok(m) =>
      if k >= m.chunkCount then (st1, Fail(400, InvalidFileMetadata))
      else if a in st1.disk && k in st1.disk[a] then (st1, Ok(st1.disk[a][k]))
      else (st1, Fail(404, ChunkNotFound))
  }

  // ---- Invariant -----------------------------------------------------------------------------------

  ghost predicate Ascending(s: seq<nat>, bound: nat) {
    && (forall i, j :: 0 <= i < j < |s| ==> s[i] < s[j])
    && (forall i :: 0 <= i < |s| ==> s[i] < bound)
  }

  ghost predicate GoodShape(totalSize: nat, chunkSize: nat, chunkCount: nat) {
    1 <= chunkSize <= totalSize && chunkCount == ExpectedChunkCount(totalSize, chunkSize)
  }

  ghost predicate ChunkOnDisk(st: Store, a: Id, k: nat, size: int) {
    a in st.disk && k in st.disk[a] && |st.disk[a][k]| == size
  }

  /** The index and lease keys of attachment a, all dropped at time d, a moment after expiresAt. */
  ghost predicate Leased(st: Store, a: Id, u: Id, d: int, expiresAt: int) {
    && a in st.leases && st.leases[a] == d
    && a in st.attachmentUpload && st.attachmentUpload[a] == Keyed(u, d)
    && expiresAt <= d < expiresAt + 1000
  }

  ghost predicate SessionOk(st: Store, u: Id)
    requires u in st.sessions
  {
    var s := st.sessions[u].value;
    && s.uploadId == u
    && GoodShape(s.totalSize, s.chunkSize, s.chunkCount)
    && Ascending(s.receivedChunks, s.chunkCount)
    && (forall k :: k in s.receivedChunks ==>
          ChunkOnDisk(st, s.attachmentId, k, ExpectedCipherSize(s.totalSize, s.chunkSize, k)))
    && Leased(st, s.attachmentId, u, st.sessions[u].deadline, s.expiresAt)
    && (u in st.uploadAttachment ==> st.uploadAttachment[u].value == s.attachmentId)
    && s.attachmentId !in st.manifests
  }

  ghost predicate ManifestOk(st: Store, a: Id)
    requires a in st.manifests
  {
    var m := st.manifests[a].value;
    && m.attachmentId == a
    && m.uploadId !in st.sessions
    && GoodShape(m.totalSize, m.chunkSize, m.chunkCount)
    && (forall k :: 0 <= k < m.chunkCount ==> ChunkOnDisk(st, a, k, ExpectedCipherSize(m.totalSize, m.chunkSize, k)))
    && Leased(st, a, m.uploadId, st.manifests[a].deadline, m.expiresAt)
    && m.uploadId in st.uploadAttachment && st.uploadAttachment[m.uploadId] == Keyed(a, st.manifests[a].deadline)
  }

  /** The two index keys never point at different attachments for one upload. */
  ghost predicate IndexOk(st: Store, a: Id, now: int)
    requires a in st.attachmentUpload
  {
    var u := st.attachmentUpload[a].value;
    && (u in st.uploadAttachment ==> st.uploadAttachment[u].value == a)
    && (Live(st.sessions, u, now) ==> st.sessions[u].value.attachmentId == a)
  }

  ghost predicate ReverseIndexOk(st: Store, u: Id, now: int)
    requires u in st.uploadAttachment
  {
    var a := st.uploadAttachment[u].value;
    Live(st.attachmentUpload, a, now) ==> st.attachmentUpload[a].value == u
  }

  /** What the server can count on for everything Redis still answers for. */
  ghost predicate StoreInv(st: Store, now: int) {
    && (forall u :: Live(st.sessions, u, now) ==> SessionOk(st, u))
    && (forall a :: Live(st.manifests, a, now) ==> ManifestOk(st, a))
    && (forall a :: Live(st.attachmentUpload, a, now) ==> IndexOk(st, a, now))
    && (forall u :: Live(st.uploadAttachment, u, now) ==> ReverseIndexOk(st, u, now))
  }

  /** Identifiers drawn by `uuidv4` have never been used. */
  ghost predicate FreshIds(st: Store, u: Id, a: Id) {
    && u !in st.sessions && u !in st.uploadAttachment
    && a !in st.attachmentUpload && a !in st.manifests && a !in st.leases && a !in st.disk
    && (forall v :: v in st.sessions ==> st.sessions[v].value.attachmentId != a)
    && (forall b :: b in st.manifests ==> st.manifests[b].value.uploadId != u)
    && (forall b :: b in st.attachmentUpload ==> st.attachmentUpload[b].value != u)
    && (forall v :: v in st.uploadAttachment ==> st.uploadAttachment[v].value != a)
  }

  // ---- Every handler keeps it ------------------------------------------------------------------------

  lemma RemoveArtifactsKeeps(st: Store, a: Id, now: int)
    requires StoreInv(st, now)
    ensures StoreInv(RemoveArtifacts(st, a, now), now)
  {
    var st1 := RemoveArtifacts(st, a, now);
    forall v | Live(st1.sessions, v, now)
      ensures SessionOk(st1, v)
    {
      assert SessionOk(st, v);
    }
    forall b | Live(st1.manifests, b, now)
      ensures ManifestOk(st1, b)
    {
      assert ManifestOk(st, b);
    }
    forall b | Live(st1.attachmentUpload, b, now)
      ensures IndexOk(st1, b, now)
    {
      if Live(st.attachmentUpload, b, now) {
        assert IndexOk(st, b, now);
      }
    }
    forall v | Live(st1.uploadAttachment, v, now)
      ensures ReverseIndexOk(st1, v, now)
    {
      if Live(st.uploadAttachment, v, now) {
        assert ReverseIndexOk(st, v, now);
      }
    }
  }

  /** Forgetting a session or a manifest key breaks nothing about the others. */
  lemma ForgetKeeps(st: Store, sessions: set<Id>, manifests: set<Id>, now: int)
    requires StoreInv(st, now)
    ensures StoreInv(st.(sessions := st.sessions - sessions, manifests := st.manifests - manifests), now)
  {
    var st1 := st.(sessions := st.sessions - sessions, manifests := st.manifests - manifests);
    forall v | Live(st1.sessions, v, now)
      ensures SessionOk(st1, v)
    {
      assert SessionOk(st, v);
    }
    forall b | Live(st1.manifests, b, now)
      ensures ManifestOk(st1, b)
    {
      assert ManifestOk(st, b);
    }
  }

  lemma GetSessionKeeps(st: Store, u: Id, now: int)
    requires StoreInv(st, now)
    ensures StoreInv(GetSession(st, u, now).0, now)
    ensures var (st1, s) := GetSession(st, u, now);
            s.Some? ==>
              && st1 == st && Live(st.sessions, u, now)
              && s.value == st.sessions[u].value && now < s.value.expiresAt
  {
    if Live(st.sessions, u, now) && st.sessions[u].value.expiresAt <= now {
      var st0 := st.(sessions := st.sessions - {u});
      ForgetKeeps(st, {u}, {}, now);
      assert st0 == st.(sessions := st.sessions - {u}, manifests := st.manifests - {});
      RemoveArtifactsKeeps(st0, st.sessions[u].value.attachmentId, now);
    }
  }

  lemma GetManifestKeeps(st: Store, a: Id, now: int)
    requires StoreInv(st, now)
    ensures StoreInv(GetManifest(st, a, now).0, now)
    ensures var (st1, m) := GetManifest(st, a, now);
            m.Some? ==>
              && st1 == st && Live(st.manifests, a, now)
              && m.value == st.manifests[a].value && now < m.value.expiresAt
  {
    RemoveArtifactsKeeps(st, a, now);
    if Live(st.manifests, a, now) {
      var st0 := st.(manifests := st.manifests - {a});
      ForgetKeeps(st, {}, {a}, now);
      assert st0 == st.(sessions := st.sessions - {}, manifests := st.manifests - {a});
      RemoveArtifactsKeeps(st0, a, now);
    }
  }

  lemma AscendingInsert(s: seq<nat>, k: nat, bound: nat)
    requires Ascending(s, bound) && k !in s && k < bound
    ensures Ascending(StableSort(ByIndex, s + [k]), bound)
    ensures forall x :: x in StableSort(ByIndex, s + [k]) <==> x in s || x == k
    ensures |StableSort(ByIndex, s + [k])| == |s| + 1
  {
    var r := StableSort(ByIndex, s + [k]);
    SortSorts(ByIndex, s + [k]);
    SortPermutes(ByIndex, s + [k]);
    SameMembers(r, s + [k]);
    assert DistinctBy<nat, nat>((i: nat) => i, s + [k]);
    PermutationKeepsDistinct<nat, nat>((i: nat) => i, s + [k], r);
    forall i | 0 <= i < |r|
      ensures r[i] < bound
    {
      assert r[i] in r;
    }
    forall i, j | 0 <= i < j < |r|
      ensures r[i] < r[j]
    {
      assert ByIndex(r[i], r[j]) && r[i] != r[j];
    }
  }

  lemma WriteChunkKeeps(st: Store, u: Id, k: nat, payload: Bytes, now: int)
    requires StoreInv(st, now) && Live(st.sessions, u, now)
    requires |payload| == ExpectedCipherSize(st.sessions[u].value.totalSize, st.sessions[u].value.chunkSize, k)
    ensures StoreInv(WriteChunk(st, st.sessions[u].value.attachmentId, k, payload), now)
  {
    var a := st.sessions[u].value.attachmentId;
    var st1 := WriteChunk(st, a, k, payload);
    forall v | Live(st1.sessions, v, now)
      ensures SessionOk(st1, v)
    {
      assert SessionOk(st, v) && SessionOk(st, u);
    }
    forall b | Live(st1.manifests, b, now)
      ensures ManifestOk(st1, b)
    {
      assert ManifestOk(st, b) && SessionOk(st, u);
    }
  }

  lemma SetSessionKeeps(st: Store, s: Session, now: int)
    requires StoreInv(st, now) && Live(st.sessions, s.uploadId, now) && now < s.expiresAt
    requires var old' := st.sessions[s.uploadId].value; s == old'.(receivedChunks := s.receivedChunks)
    requires Ascending(s.receivedChunks, s.chunkCount)
    requires forall k :: k in s.receivedChunks ==>
               ChunkOnDisk(st, s.attachmentId, k, ExpectedCipherSize(s.totalSize, s.chunkSize, k))
    ensures StoreInv(SetSession(st, s, now), now)
  {
    var st1 := SetSession(st, s, now);
    DeadlineReachesExpiry(s.expiresAt, now);
    assert SessionOk(st, s.uploadId);
    forall v | Live(st1.sessions, v, now)
      ensures SessionOk(st1, v)
    {
      if v != s.uploadId {
        assert SessionOk(st, v);
      }
    }
    forall b | Live(st1.manifests, b, now)
      ensures ManifestOk(st1, b)
    {
      assert ManifestOk(st, b);
    }
    forall b | Live(st1.attachmentUpload, b, now)
      ensures IndexOk(st1, b, now)
    {
      if Live(st.attachmentUpload, b, now) {
        assert IndexOk(st, b, now);
      }
    }
    forall v | Live(st1.uploadAttachment, v, now)
      ensures ReverseIndexOk(st1, v, now)
    {
      if Live(st.uploadAttachment, v, now) {
        assert ReverseIndexOk(st, v, now);
      }
    }
  }

  lemma InitUploadKeeps(st: Store, cfg: Config, sender: Id, req: InitRequest, policyOk: bool, u: Id, a: Id, now: int)
    requires StoreInv(st, now) && FreshIds(st, u, a) && cfg.ttlSeconds > 0
    ensures StoreInv(InitUpload(st, cfg, sender, req, policyOk, u, a, now).0, now)
  {
    var (st1, reply) := InitUpload(st, cfg, sender, req, policyOk, u, a, now);
    if reply.Ok? {
      DeadlineReachesExpiry(reply.value.expiresAt, now);
      forall v | Live(st1.sessions, v, now)
        ensures SessionOk(st1, v)
      {
        if v != u {
          assert SessionOk(st, v);
        }
      }
      forall b | Live(st1.manifests, b, now)
        ensures ManifestOk(st1, b)
      {
        assert ManifestOk(st, b);
      }
      forall b | Live(st1.attachmentUpload, b, now)
        ensures IndexOk(st1, b, now)
      {
        if Live(st.attachmentUpload, b, now) {
          assert IndexOk(st, b, now);
        }
      }
      forall v | Live(st1.uploadAttachment, v, now)
        ensures ReverseIndexOk(st1, v, now)
      {
        if Live(st.uploadAttachment, v, now) {
          assert ReverseIndexOk(st, v, now);
        }
      }
    }
  }

  lemma PutChunkKeeps(st: Store, sender: Id, u: Id, k: nat, payload: Bytes, hashOk: bool, now: int)
    requires StoreInv(st, now)
    ensures StoreInv(PutChunk(st, sender, u, k, payload, hashOk, now).0, now)
    ensures StoreInv(PutChunkInterrupted(st, sender, u, k, payload, hashOk, now), now)
  {
    GetSessionKeeps(st, u, now);
    var (st1, found) := GetSession(st, u, now);
    if found.Some? && ChunkRefusal(found.value, sender, k, payload, hashOk).None? {
      var s := found.value;
      assert SessionOk(st, u);
      WriteChunkKeeps(st, u, k, payload, now);
      var st2 := WriteChunk(st, s.attachmentId, k, payload);
      assert SessionOk(st2, u);
      if k !in s.receivedChunks {
        AscendingInsert(s.receivedChunks, k, s.chunkCount);
        SetSessionKeeps(st2, WithChunk(s, k), now);
      }
    }
  }

  /** A full ascending list of n indices below n is 0, 1, ..., n-1. */
  lemma {:induction false} FullAscendingListHoldsAll(s: seq<nat>, n: nat)
    requires Ascending(s, n)
    ensures |s| <= n
    ensures |s| == n <==> forall k :: 0 <= k < n ==> k in s
  {
    AscendingLowerBound(s, n);
    if |s| == n {
      forall k | 0 <= k < n
        ensures k in s
      {
        assert s[k] == k;
      }
    } else {
      MissesOne(s, n);
    }
  }

  lemma {:induction false} AscendingLowerBound(s: seq<nat>, n: nat)
    requires Ascending(s, n)
    ensures |s| <= n
    ensures |s| == n ==> forall i :: 0 <= i < |s| ==> s[i] == i
  {
    if s == [] {
    } else {
      var last := s[|s| - 1];
      var front := s[..|s| - 1];
      assert Ascending(front, last);
      AscendingLowerBound(front, last);
    }
  }

  lemma {:induction false} MissesOne(s: seq<nat>, n: nat)
    requires Ascending(s, n) && |s| < n
    ensures exists k :: 0 <= k < n && k !in s
  {
    if n - 1 !in s {
    } else {
      var front := s[..|s| - 1];
      var at :| 0 <= at < |s| && s[at] == n - 1;
      assert s[|s| - 1] == n - 1;
      assert Ascending(front, n - 1);
      MissesOne(front, n - 1);
      var k :| 0 <= k < n - 1 && k !in front;
      assert s == front + [n - 1];
      assert k !in s;
    }
  }

  /**
   * The completion gate compares two lengths only, yet it opens exactly when every chunk is
   * recorded, and then every chunk is on disk with the size expected for its index.
   */
  lemma GateOpensIffEveryChunkStored(st: Store, u: Id, now: int)
    requires StoreInv(st, now) && Live(st.sessions, u, now)
    ensures var s := st.sessions[u].value;
            && (!(|s.receivedChunks| < s.chunkCount) <==> forall k :: 0 <= k < s.chunkCount ==> k in s.receivedChunks)
            && (!(|s.receivedChunks| < s.chunkCount) ==>
                  forall k :: 0 <= k < s.chunkCount ==>
                    ChunkOnDisk(st, s.attachmentId, k, ExpectedCipherSize(s.totalSize, s.chunkSize, k)))
  {
    var s := st.sessions[u].value;
    assert SessionOk(st, u);
    FullAscendingListHoldsAll(s.receivedChunks, s.chunkCount);
  }

  lemma CompleteKeeps(
    st: Store, sender: Id, u: Id, hash: Option<string>, signature: string, signatureOk: bool, now: int
  )
    requires StoreInv(st, now)
    ensures StoreInv(Complete(st, sender, u, hash, signature, signatureOk, now).0, now)
  {
    GetSessionKeeps(st, u, now);
    var (st1, reply) := Complete(st, sender, u, hash, signature, signatureOk, now);
    if reply.Ok? {
      var m := reply.value;
      GateOpensIffEveryChunkStored(st, u, now);
      assert SessionOk(st, u);
      DeadlineReachesExpiry(m.expiresAt, now);
      forall v | Live(st1.sessions, v, now)
        ensures SessionOk(st1, v)
      {
        assert SessionOk(st, v);
      }
      forall b | Live(st1.manifests, b, now)
        ensures ManifestOk(st1, b)
      {
        if b != m.attachmentId {
          assert ManifestOk(st, b);
        }
      }
      forall b | Live(st1.attachmentUpload, b, now)
        ensures IndexOk(st1, b, now)
      {
        if Live(st.attachmentUpload, b, now) {
          assert IndexOk(st, b, now);
        }
      }
      forall v | Live(st1.uploadAttachment, v, now)
        ensures ReverseIndexOk(st1, v, now)
      {
        if Live(st.uploadAttachment, v, now) {
          assert ReverseIndexOk(st, v, now);
        }
      }
    }
  }

  lemma AckKeeps(st: Store, user: Id, u: Id, signatureOk: bool, now: int)
    requires StoreInv(st, now)
    ensures StoreInv(Ack(st, user, u, signatureOk, now).0, now)
  {
    if Live(st.uploadAttachment, u, now) {
      var a := st.uploadAttachment[u].value;
      GetManifestKeeps(st, a, now);
      var (st1, m) := GetManifest(st, a, now);
      if m.None? {
        DropIndexKeeps(st1, u, a, now);
      } else {
        RemoveArtifactsKeeps(st, a, now);
      }
    }
  }

  /** Dropping the upload index is harmless while no readable manifest sits behind it. */
  lemma DropIndexKeeps(st: Store, u: Id, a: Id, now: int)
    requires StoreInv(st, now) && !Live(st.manifests, a, now)
    requires u in st.uploadAttachment ==> st.uploadAttachment[u].value == a
    ensures StoreInv(st.(uploadAttachment := st.uploadAttachment - {u}), now)
  {
    var st1 := st.(uploadAttachment := st.uploadAttachment - {u});
    forall v | Live(st1.sessions, v, now)
      ensures SessionOk(st1, v)
    {
      assert SessionOk(st, v);
    }
    forall b | Live(st1.manifests, b, now)
      ensures ManifestOk(st1, b)
    {
      assert ManifestOk(st, b);
    }
    forall v | Live(st1.uploadAttachment, v, now)
      ensures ReverseIndexOk(st1, v, now)
    {
      assert ReverseIndexOk(st, v, now);
    }
  }

  lemma {:induction false} SweepKeeps(st: Store, ids: seq<Id>, now: int)
    requires StoreInv(st, now)
    ensures StoreInv(Sweep(st, ids, now), now)
    decreases |ids|
  {
    if ids == [] {
    } else {
      SweepKeeps(st, ids[..|ids| - 1], now);
      RemoveArtifactsKeeps(Sweep(st, ids[..|ids| - 1], now), ids[|ids| - 1], now);
    }
  }
}
