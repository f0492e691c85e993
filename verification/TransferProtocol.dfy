/**
 * The resumable encrypted transfer of one file, end to end: the sender's durable queue and volatile
 * workers, chunk requests that may be delayed, repeated or lost, the server, and the recipient.
 * One worker drives an upload at a time; everything else may happen in any order.
 */
module TransferProtocol {
  import opened Common
  import opened Chunking
  import opened AttachmentStore
  import opened AttachmentRuns

  type Key = string
  /** A base64 IV; the empty string marks a chunk that has none yet. */
  type Iv = string

  /** AES-GCM under a file key, as a pair of functions. */
  datatype Cipher = Cipher(enc: (Key, Iv, Bytes) -> Bytes, dec: (Key, Iv, Bytes) -> Option<Bytes>)

  /** Encryption is deterministic in key, IV and text, adds a tag, and decryption undoes it. */
  ghost predicate Lawful(c: Cipher) {
    && (forall key, iv, p :: |c.enc(key, iv, p)| == |p| + TAG_BYTES)
    && (forall key, iv, p :: c.dec(key, iv, c.enc(key, iv, p)) == Some(p))
  }

  /** A record of the durable transfer queue. */
  datatype Transfer = Transfer(
    file: Bytes, fileKey: Key, attachmentId: Id, senderId: Id, recipientId: Id,
    totalSize: nat, chunkSize: nat, chunkCount: nat, chunkIvs: seq<Iv>)

  /** An upload loop in memory: chunks the server already had, the loop index, its copy of the IVs. */
  datatype Worker = Worker(received: set<nat>, next: nat, chunkIvs: seq<Iv>)

  datatype PutRequest = PutRequest(u: Id, k: nat, payload: Bytes)

  /** What the message to the recipient carries. */
  datatype Descriptor = Descriptor(attachmentId: Id, fileKey: Key, chunkIvs: seq<Iv>, chunkCount: nat)

  datatype Download = Download(next: nat, plain: Bytes)

  /**
   * The clients.  `records` keeps the last queue record of every upload and `queued` says which are
   * still queued; both are durable.  `workers` and `downloads` live in memory.
   */
  datatype Client = Client(
    records: map<Id, Transfer>, queued: set<Id>, workers: map<Id, Worker>, inFlight: set<PutRequest>,
    sent: map<Id, Descriptor>, downloads: map<Id, Download>, saved: map<Id, Bytes>)

  datatype World = World(server: Server, client: Client)

  function InitialWorld(now: int): World {
    World(Server(EMPTY, now), Client(map[], {}, map[], {}, map[], map[], map[]))
  }

  const DEFAULT_CHUNK_SIZE := 256 * 1024

  function RequestedChunkSize(size: int): int { Min(DEFAULT_CHUNK_SIZE, Max(1, size)) }

  function DescriptorOf(r: Transfer, chunkIvs: seq<Iv>): Descriptor {
    Descriptor(r.attachmentId, r.fileKey, chunkIvs, r.chunkCount)
  }

  /** The ciphertext of chunk k under the IV recorded for it. */
  function Sealed(c: Cipher, r: Transfer, k: nat): Bytes
    requires k < |r.chunkIvs|
  {
    c.enc(r.fileKey, r.chunkIvs[k], Slice(r.file, r.chunkSize, k))
  }

  datatype Step =
    | ServerStep(op: Op)
    | Start(u: Id, a: Id, sender: Id, recipient: Id, meta: string, file: Bytes, key: Key, policyOk: bool)
    | Skip(u: Id)
    | PersistIv(u: Id, iv: Iv)
    | Send(u: Id)
    | Deliver(put: PutRequest, interrupted: bool, replied: bool)
    | Crash(u: Id)
    | Resume(u: Id)
    | Finish(u: Id, hash: Option<string>, signature: string, signatureOk: bool, replied: bool)
    | BeginDownload(u: Id)
    | FetchChunk(u: Id)
    | AbortDownload(u: Id)
    | Save(u: Id)
    | AckSaved(u: Id, signatureOk: bool)

  /** The worker of u stands before a chunk that the server did not report as received. */
  predicate AtChunk(cl: Client, u: Id) {
    u in cl.workers && u in cl.records && cl.workers[u].next < cl.records[u].chunkCount
    && cl.workers[u].next < |cl.workers[u].chunkIvs| && cl.workers[u].next !in cl.workers[u].received
  }

  ghost predicate UnusedIds(w: World, u: Id, a: Id) {
    && FreshIds(w.server.store, u, a) && u !in w.client.records
    && (forall v :: v in w.client.records ==> w.client.records[v].attachmentId != a)
  }

  predicate FillsEmptyIv(cl: Client, u: Id, iv: Iv) {
    AtChunk(cl, u) && cl.workers[u].chunkIvs[cl.workers[u].next] == "" && iv != ""
  }

  predicate CanFetch(cl: Client, u: Id) {
    u in cl.downloads && u in cl.sent && u in cl.records && cl.downloads[u].next < cl.sent[u].chunkCount
  }

  predicate AllFetched(cl: Client, u: Id) {
    u in cl.downloads && u in cl.sent && cl.downloads[u].next >= cl.sent[u].chunkCount
  }

  predicate CanFinish(cl: Client, u: Id) {
    u in cl.workers && u in cl.records && cl.workers[u].next >= cl.records[u].chunkCount
  }

  ghost predicate CanStep(w: World, step: Step) {
    var cl := w.client;
    match step
    case ServerStep(op) =>
      // Anyone may do anything at the server, except change an upload with its sender's credentials.
      && Enabled(w.server, op)
      && (op.OpInit? ==> UnusedIds(w, op.u, op.a))
      && ((op.OpPut? || op.OpComplete?) && op.u in cl.records ==> op.sender != cl.records[op.u].senderId)
    case Start(u, a, _, _, _, _, _, _) => UnusedIds(w, u, a)
    case Skip(u) => u in cl.workers && cl.workers[u].next in cl.workers[u].received
    case PersistIv(u, iv) => FillsEmptyIv(cl, u, iv)
    case Send(u) => AtChunk(cl, u) && cl.workers[u].chunkIvs[cl.workers[u].next] != ""
    case Deliver(put, _, _) => put in cl.inFlight && put.u in cl.records
    case Crash(u) => true
    case Resume(u) => u in cl.queued && u in cl.records && u !in cl.workers
    case Finish(u, _, _, _, _) => CanFinish(cl, u)
    case BeginDownload(u) => u in cl.sent
    case FetchChunk(u) => CanFetch(cl, u)
    case AbortDownload(u) => true
    case Save(u) => AllFetched(cl, u)
    case AckSaved(u, _) => u in cl.saved && u in cl.records
  }

  // ---- What each step does to the clients --------------------------------------------------------------

  function Launched(cl: Client, u: Id, r: Transfer): Client {
    cl.(records := cl.records[u := r], queued := cl.queued + {u}, workers := cl.workers[u := Worker({}, 0, r.chunkIvs)])
  }

  /** The IV goes to the durable record and to the worker's copy before any ciphertext is sent. */
  function IvRecorded(cl: Client, u: Id, iv: Iv): Client
    requires AtChunk(cl, u)
  {
    var ivs := cl.workers[u].chunkIvs[cl.workers[u].next := iv];
    cl.(records := cl.records[u := cl.records[u].(chunkIvs := ivs)],
        workers := cl.workers[u := cl.workers[u].(chunkIvs := ivs)])
  }

  function ChunkSent(c: Cipher, cl: Client, u: Id): Client
    requires AtChunk(cl, u)
  {
    var r, k := cl.records[u], cl.workers[u].next;
    cl.(inFlight :=
        cl.inFlight + {PutRequest(u, k, c.enc(r.fileKey, cl.workers[u].chunkIvs[k], Slice(r.file, r.chunkSize, k)))})
  }

  function Advanced(cl: Client, u: Id): Client
    requires u in cl.workers
  {
    cl.(workers := cl.workers[u := cl.workers[u].(next := cl.workers[u].next + 1)])
  }

  function Stopped(cl: Client, u: Id): Client { cl.(workers := cl.workers - {u}) }

  function Resumed(cl: Client, u: Id, received: set<nat>): Client
    requires u in cl.records
  {
    cl.(workers := cl.workers[u := Worker(received, 0, cl.records[u].chunkIvs)])
  }

  function Dequeued(cl: Client, u: Id): Client { cl.(queued := cl.queued - {u}) }

  function Delivered(cl: Client, u: Id): Client
    requires u in cl.records && u in cl.workers
  {
    Stopped(Dequeued(cl, u), u).(sent := cl.sent[u := DescriptorOf(cl.records[u], cl.workers[u].chunkIvs)])
  }

  function Fetching(cl: Client, u: Id, dl: Download): Client { cl.(downloads := cl.downloads[u := dl]) }

  function Aborted(cl: Client, u: Id): Client { cl.(downloads := cl.downloads - {u}) }

  function FileSaved(cl: Client, u: Id): Client
    requires u in cl.downloads
  {
    Aborted(cl, u).(saved := cl.saved[u := cl.downloads[u].plain])
  }

  // ---- Steps ---------------------------------------------------------------------------------------------

  function StartUpload(cfg: Config, w: World, step: Step): World
    requires step.Start?
  {
    var size := RequestedChunkSize(|step.file|);
    var count := ExpectedChunkCount(|step.file|, size);
    var req := InitRequest(step.recipient, step.meta, |step.file|, size, count, None);
    var (st, reply) := InitUpload(w.server.store, cfg, step.sender, req, step.policyOk, step.u, step.a, w.server.now);
    var r := Transfer(step.file, step.key, step.a, step.sender, step.recipient, |step.file|, size, count,
                      seq(count, _ => ""));
    World(Server(st, w.server.now), if reply.Ok? then Launched(w.client, step.u, r) else w.client)
  }

  function DeliverPut(w: World, put: PutRequest, interrupted: bool, replied: bool): World
    requires put.u in w.client.records
  {
    var st, now, sender := w.server.store, w.server.now, w.client.records[put.u].senderId;
    if interrupted then
      World(Server(PutChunkInterrupted(st, sender, put.u, put.k, put.payload, true, now), now), w.client)
    else
      var (st1, reply) := PutChunk(st, sender, put.u, put.k, put.payload, true, now);
      var answered := replied && reply.Ok? && put.u in w.client.workers && w.client.workers[put.u].next == put.k;
      World(Server(st1, now), if answered then Advanced(w.client, put.u) else w.client)
  }

  function ResumeUpload(w: World, u: Id): World
    requires u in w.client.records
  {
    var (st, reply) := Status(w.server.store, w.client.records[u].senderId, u, w.server.now);
    World(Server(st, w.server.now),
          match reply
          case Ok(s) => Resumed(w.client, u, set k | k in s.receivedChunks)
          case Fail(status, _) => if status == 404 then Dequeued(w.client, u) else w.client)
  }

  function FinishUpload(w: World, step: Step): World
    requires step.Finish? && step.u in w.client.records && step.u in w.client.workers
  {
    var sender := w.client.records[step.u].senderId;
    var (st, reply) :=
        Complete(w.server.store, sender, step.u, step.hash, step.signature, step.signatureOk, w.server.now);
    World(Server(st, w.server.now), if reply.Ok? && step.replied then Delivered(w.client, step.u)
                                    else Stopped(w.client, step.u))
  }

  function FetchNext(c: Cipher, w: World, u: Id): World
    requires u in w.client.sent && u in w.client.downloads && u in w.client.records
  {
    var d, k := w.client.sent[u], w.client.downloads[u].next;
    var (st, reply) := ReadChunk(w.server.store, w.client.records[u].recipientId, d.attachmentId, k, w.server.now);
    var plain := if reply.Ok? && k < |d.chunkIvs| then c.dec(d.fileKey, d.chunkIvs[k], reply.value) else None;
    World(Server(st, w.server.now),
          if plain.Some? then Fetching(w.client, u, Download(k + 1, w.client.downloads[u].plain + plain.value))
          else Aborted(w.client, u))
  }

  ghost function Next(cfg: Config, c: Cipher, w: World, step: Step): World
    requires CanStep(w, step)
  {
    match step
    case ServerStep(op) => World(Apply(cfg, w.server, op), w.client)
    case Start(_, _, _, _, _, _, _, _) => StartUpload(cfg, w, step)
    case Skip(u) => World(w.server, Advanced(w.client, u))
    case PersistIv(u, iv) => World(w.server, IvRecorded(w.client, u, iv))
    case Send(u) => World(w.server, ChunkSent(c, w.client, u))
    case Deliver(put, interrupted, replied) => DeliverPut(w, put, interrupted, replied)
    case Crash(u) => World(w.server, Stopped(w.client, u))
    case Resume(u) => ResumeUpload(w, u)
    case Finish(_, _, _, _, _) => FinishUpload(w, step)
    case BeginDownload(u) => World(w.server, Fetching(w.client, u, Download(0, [])))
    case FetchChunk(u) => FetchNext(c, w, u)
    case AbortDownload(u) => World(w.server, Aborted(w.client, u))
    case Save(u) => World(w.server, FileSaved(w.client, u))
    case AckSaved(u, signatureOk) =>
      World(Server(Ack(w.server.store, w.client.records[u].recipientId, u, signatureOk, w.server.now).0, w.server.now),
            w.client)
  }

  /** The worlds of a run, from the first to the last: each follows the one before it by its step. */
  ghost predicate IsTransferRun(cfg: Config, c: Cipher, worlds: seq<World>, steps: seq<Step>) {
    && |worlds| == |steps| + 1
    && (forall i :: 0 <= i < |steps| ==>
          CanStep(worlds[i], steps[i]) && worlds[i + 1] == Next(cfg, c, worlds[i], steps[i]))
  }

  // ---- Invariant ---------------------------------------------------------------------------------------

  ghost predicate SessionMatches(s: Session, r: Transfer, u: Id) {
    && s.uploadId == u && s.attachmentId == r.attachmentId && s.senderId == r.senderId && s.recipientId == r.recipientId
    && s.totalSize == r.totalSize && s.chunkSize == r.chunkSize && s.chunkCount == r.chunkCount
  }

  ghost predicate ManifestMatches(m: Manifest, r: Transfer, u: Id) {
    && m.uploadId == u && m.senderId == r.senderId && m.recipientId == r.recipientId
    && m.totalSize == r.totalSize && m.chunkSize == r.chunkSize && m.chunkCount == r.chunkCount
  }

  /** Every chunk file of the attachment is the sealed slice under the IV recorded for its index. */
  ghost predicate FilesSealed(c: Cipher, st: Store, r: Transfer) {
    r.attachmentId in st.disk ==>
      forall k :: k in st.disk[r.attachmentId] ==>
        k < |r.chunkIvs| && r.chunkIvs[k] != "" && st.disk[r.attachmentId][k] == Sealed(c, r, k)
  }

  ghost predicate RecordShape(r: Transfer) {
    && |r.file| == r.totalSize && |r.chunkIvs| == r.chunkCount
    && GoodShape(r.totalSize, r.chunkSize, r.chunkCount)
  }

  /** The server's data about upload u agrees with the sender's record of it, and nobody else uses its files. */
  ghost predicate RecordOk(c: Cipher, st: Store, r: Transfer, u: Id) {
    && (u in st.sessions ==> SessionMatches(st.sessions[u].value, r, u))
    && (forall v :: v in st.sessions && st.sessions[v].value.attachmentId == r.attachmentId ==> v == u)
    && (r.attachmentId in st.manifests ==> ManifestMatches(st.manifests[r.attachmentId].value, r, u))
    && FilesSealed(c, st, r)
  }

  ghost predicate ServerSide(c: Cipher, srv: Server, records: map<Id, Transfer>) {
    && StoreInv(srv.store, srv.now)
    && (forall u :: u in records ==> RecordOk(c, srv.store, records[u], u))
    && (forall u, v {:trigger records[u].attachmentId, records[v].attachmentId} ::
          u in records && v in records && u != v ==> records[u].attachmentId != records[v].attachmentId)
  }

  /** A worker belongs to a queued upload and its IVs are the durable ones. */
  ghost predicate WorkersOk(records: map<Id, Transfer>, queued: set<Id>, workers: map<Id, Worker>) {
    forall u :: u in workers ==> u in queued && u in records && workers[u].chunkIvs == records[u].chunkIvs
  }

  ghost predicate RequestOk(c: Cipher, records: map<Id, Transfer>, put: PutRequest) {
    && put.u in records
    && put.k < |records[put.u].chunkIvs| && records[put.u].chunkIvs[put.k] != ""
    && put.payload == Sealed(c, records[put.u], put.k)
  }

  ghost predicate RequestsOk(c: Cipher, records: map<Id, Transfer>, inFlight: set<PutRequest>) {
    forall put :: put in inFlight ==> RequestOk(c, records, put)
  }

  /** What the recipient was told, fetched so far, and saved. */
  ghost predicate RecipientOk(
    records: map<Id, Transfer>, queued: set<Id>, sent: map<Id, Descriptor>, downloads: map<Id, Download>, saved: map<Id,
    Bytes>)
  {
    && (forall u :: u in queued ==> u in records)
    && (forall u :: u in sent ==>
          u in records && u !in queued && sent[u] == DescriptorOf(records[u], records[u].chunkIvs))
    && (forall u :: u in downloads ==> u in sent && u in records && DownloadOk(records[u], sent[u], downloads[u]))
    && (forall u :: u in saved ==> u in records && saved[u] == records[u].file)
  }

  ghost predicate DownloadOk(r: Transfer, d: Descriptor, dl: Download) {
    dl.next <= d.chunkCount && dl.plain == JoinSlices(r.file, r.chunkSize, dl.next)
  }

  ghost predicate ClientSide(c: Cipher, cl: Client) {
    && (forall u :: u in cl.records ==> RecordShape(cl.records[u]))
    && WorkersOk(cl.records, cl.queued, cl.workers)
    && RequestsOk(c, cl.records, cl.inFlight)
    && RecipientOk(cl.records, cl.queued, cl.sent, cl.downloads, cl.saved)
  }

  ghost predicate WorldInv(c: Cipher, w: World) {
    ServerSide(c, w.server, w.client.records) && ClientSide(c, w.client)
  }

  // ---- What a server operation can change ------------------------------------------------------------

  /** The same upload, perhaps with more chunks recorded. */
  predicate SameSession(s: Session, t: Session) {
    && s.uploadId == t.uploadId && s.attachmentId == t.attachmentId && s.senderId == t.senderId
    && s.recipientId == t.recipientId
    && s.totalSize == t.totalSize && s.chunkSize == t.chunkSize && s.chunkCount == t.chunkCount
  }

  ghost predicate SubMap<V>(next: map<Id, V>, m: map<Id, V>) {
    forall k :: k in next ==> k in m && next[k] == m[k]
  }

  ghost predicate SessionsEvolve(m: map<Id, Keyed<Session>>, next: map<Id, Keyed<Session>>) {
    forall v :: v in next ==> v in m && SameSession(m[v].value, next[v].value)
  }

  ghost predicate StoreEvolves(st: Store, next: Store) {
    && SessionsEvolve(st.sessions, next.sessions)
    && SubMap(next.manifests, st.manifests)
    && SubMap(next.disk, st.disk)
  }

  lemma EvolvesTransitively(s1: Store, s2: Store, s3: Store)
    requires StoreEvolves(s1, s2) && StoreEvolves(s2, s3)
    ensures StoreEvolves(s1, s3)
  {
  }

  lemma ForgettingEvolves(st: Store, sessions: set<Id>, manifests: set<Id>)
    ensures StoreEvolves(st, st.(sessions := st.sessions - sessions))
    ensures StoreEvolves(st, st.(manifests := st.manifests - manifests))
  {
  }

  lemma RemovalEvolves(st: Store, a: Id, now: int)
    ensures StoreEvolves(st, RemoveArtifacts(st, a, now))
    ensures StoreEvolves(st, RemoveIfLeaseMissing(st, a, now))
  {
  }

  lemma {:induction false} SweepEvolves(st: Store, ids: seq<Id>, now: int)
    ensures StoreEvolves(st, Sweep(st, ids, now))
    decreases |ids|
  {
    if ids == [] {
    } else {
      SweepEvolves(st, ids[..|ids| - 1], now);
      var mid := Sweep(st, ids[..|ids| - 1], now);
      RemovalEvolves(mid, ids[|ids| - 1], now);
      EvolvesTransitively(st, mid, Sweep(st, ids, now));
    }
  }

  lemma SessionReadEvolves(st: Store, u: Id, now: int)
    ensures StoreEvolves(st, GetSession(st, u, now).0)
  {
    if Live(st.sessions, u, now) && st.sessions[u].value.expiresAt <= now {
      var st0, a := st.(sessions := st.sessions - {u}), st.sessions[u].value.attachmentId;
      ForgettingEvolves(st, {u}, {});
      RemovalEvolves(st0, a, now);
      EvolvesTransitively(st, st0, RemoveArtifacts(st0, a, now));
    }
  }

  lemma ManifestReadEvolves(st: Store, a: Id, now: int)
    ensures StoreEvolves(st, GetManifest(st, a, now).0)
  {
    RemovalEvolves(st, a, now);
    if Live(st.manifests, a, now) {
      var st0, b := st.(manifests := st.manifests - {a}), st.manifests[a].value.attachmentId;
      ForgettingEvolves(st, {}, {a});
      RemovalEvolves(st0, a, now);
      RemovalEvolves(st0, b, now);
      EvolvesTransitively(st, st0, RemoveIfLeaseMissing(st0, a, now));
      EvolvesTransitively(st, st0, RemoveArtifacts(st0, b, now));
    }
  }

  lemma AckEvolves(st: Store, user: Id, u: Id, ok: bool, now: int)
    ensures StoreEvolves(st, Ack(st, user, u, ok, now).0)
  {
    var st1 := st;
    if Live(st.uploadAttachment, u, now) {
      ManifestReadEvolves(st, st.uploadAttachment[u].value, now);
      st1 := GetManifestByUpload(st, u, now).0;
    }
    var (st2, s) := GetSession(st1, u, now);
    SessionReadEvolves(st1, u, now);
    if Live(st1.uploadAttachment, u, now) {
      RemovalEvolves(st1, st1.uploadAttachment[u].value, now);
    } else if s.Some? {
      RemovalEvolves(st2, s.value.attachmentId, now);
      EvolvesTransitively(st1, st2, RemoveArtifacts(st2, s.value.attachmentId, now));
    }
    EvolvesTransitively(st, st1, ClearByUpload(st1, u, now).0);
  }

  predicate PutAccepted(st: Store, sender: Id, u: Id, k: nat, payload: Bytes, hashOk: bool, now: int) {
    var found := GetSession(st, u, now).1;
    found.Some? && ChunkRefusal(found.value, sender, k, payload, hashOk).None?
  }

  /** A chunk request that passes the checks writes one file of its own attachment; one that does not writes none. */
  lemma {:induction false} PutEvolves(
    st: Store, sender: Id, u: Id, k: nat, payload: Bytes, hashOk: bool, now: int, interrupted: bool
  )
    requires StoreInv(st, now)
    ensures var next := if interrupted then PutChunkInterrupted(st, sender, u, k, payload, hashOk, now)
                        else PutChunk(st, sender, u, k, payload, hashOk, now).0;
            if PutAccepted(st, sender, u, k, payload, hashOk, now) then
              && u in st.sessions && st.sessions[u].value.senderId == sender
              && next.disk == WriteChunk(st, st.sessions[u].value.attachmentId, k, payload).disk
              && StoreEvolves(st, next.(disk := st.disk))
            else StoreEvolves(st, next)
  {
    SessionReadEvolves(st, u, now);
    GetSessionKeeps(st, u, now);
    if PutAccepted(st, sender, u, k, payload, hashOk, now) {
      assert SessionOk(st, u);
      var s := st.sessions[u].value;
      var st2 := WriteChunk(st, s.attachmentId, k, payload);
      assert GetSession(st2, u, now) == (st2, Some(s));
    }
  }

  lemma {:induction false} CompleteEvolves(
    st: Store, sender: Id, u: Id, hash: Option<string>, signature: string, ok: bool, now: int
  )
    requires StoreInv(st, now)
    ensures var (next, reply) := Complete(st, sender, u, hash, signature, ok, now);
            if reply.Ok? then
              && u in st.sessions && st.sessions[u].value.senderId == sender
              && reply.value == ManifestOf(st.sessions[u].value, hash, signature)
              && next.manifests
                == st.manifests[reply.value.attachmentId := Keyed(reply.value, Deadline(reply.value.expiresAt, now))]
              && next.sessions == st.sessions - {u} && next.disk == st.disk
            else StoreEvolves(st, next)
  {
    SessionReadEvolves(st, u, now);
    GetSessionKeeps(st, u, now);
    if Complete(st, sender, u, hash, signature, ok, now).1.Ok? {
      assert SessionOk(st, u);
    }
  }

  // ---- Every step keeps the invariant -----------------------------------------------------------------

  lemma EvolvingKeepsServerSide(c: Cipher, srv: Server, records: map<Id, Transfer>, next: Server)
    requires ServerSide(c, srv, records)
    requires StoreEvolves(srv.store, next.store) && StoreInv(next.store, next.now)
    ensures ServerSide(c, next, records)
  {
    forall u | u in records
      ensures RecordOk(c, next.store, records[u], u)
    {
      assert RecordOk(c, srv.store, records[u], u);
    }
  }

  /** A write keeps the files sealed if it is somebody else's attachment or the sealed chunk itself. */
  lemma WriteKeepsServerSide(
    c: Cipher, srv: Server, records: map<Id, Transfer>, next: Server, a: Id, k: nat, payload: Bytes
  )
    requires ServerSide(c, srv, records)
    requires StoreEvolves(srv.store, next.store.(disk := srv.store.disk)) && StoreInv(next.store, next.now)
    requires next.store.disk == WriteChunk(srv.store, a, k, payload).disk
    requires forall u :: u in records && records[u].attachmentId == a ==>
               RequestOk(c, records, PutRequest(u, k, payload))
    ensures ServerSide(c, next, records)
  {
    forall u | u in records
      ensures RecordOk(c, next.store, records[u], u)
    {
      assert RecordOk(c, srv.store, records[u], u);
      if records[u].attachmentId == a {
        assert RequestOk(c, records, PutRequest(u, k, payload));
      }
    }
  }

  lemma PutKeepsServerSide(
    c: Cipher, srv: Server, records: map<Id, Transfer>, sender: Id, u: Id, k: nat, payload: Bytes, hashOk: bool,
    interrupted: bool)
    requires ServerSide(c, srv, records)
    requires u in records && sender == records[u].senderId ==> RequestOk(c, records, PutRequest(u, k, payload))
    ensures var st := if interrupted then PutChunkInterrupted(srv.store, sender, u, k, payload, hashOk, srv.now)
                      else PutChunk(srv.store, sender, u, k, payload, hashOk, srv.now).0;
            ServerSide(c, Server(st, srv.now), records)
  {
    var st := if interrupted then PutChunkInterrupted(srv.store, sender, u, k, payload, hashOk, srv.now)
              else PutChunk(srv.store, sender, u, k, payload, hashOk, srv.now).0;
    PutChunkKeeps(srv.store, sender, u, k, payload, hashOk, srv.now);
    PutEvolves(srv.store, sender, u, k, payload, hashOk, srv.now, interrupted);
    if PutAccepted(srv.store, sender, u, k, payload, hashOk, srv.now) {
      var a := srv.store.sessions[u].value.attachmentId;
      forall v | v in records && records[v].attachmentId == a
        ensures RequestOk(c, records, PutRequest(v, k, payload))
      {
        assert RecordOk(c, srv.store, records[v], v);
      }
      WriteKeepsServerSide(c, srv, records, Server(st, srv.now), a, k, payload);
    } else {
      EvolvingKeepsServerSide(c, srv, records, Server(st, srv.now));
    }
  }

  lemma CompleteKeepsServerSide(
    c: Cipher, srv: Server, records: map<Id, Transfer>, sender: Id, u: Id, hash: Option<string>, signature: string,
    ok: bool)
    requires ServerSide(c, srv, records)
    ensures ServerSide(c, Server(Complete(srv.store, sender, u, hash, signature, ok, srv.now).0, srv.now), records)
  {
    var (st, reply) := Complete(srv.store, sender, u, hash, signature, ok, srv.now);
    CompleteKeeps(srv.store, sender, u, hash, signature, ok, srv.now);
    CompleteEvolves(srv.store, sender, u, hash, signature, ok, srv.now);
    if reply.Fail? {
      EvolvingKeepsServerSide(c, srv, records, Server(st, srv.now));
    } else {
      forall v | v in records
        ensures RecordOk(c, st, records[v], v)
      {
        assert RecordOk(c, srv.store, records[v], v);
      }
    }
  }

  lemma InitKeepsServerSide(
    cfg: Config, c: Cipher, srv: Server, records: map<Id, Transfer>, sender: Id, req: InitRequest, policyOk: bool,
    u: Id, a: Id)
    requires cfg.ttlSeconds > 0 && ServerSide(c, srv, records) && FreshIds(srv.store, u, a)
    requires u !in records && forall v :: v in records ==> records[v].attachmentId != a
    ensures ServerSide(c, Server(InitUpload(srv.store, cfg, sender, req, policyOk, u, a, srv.now).0, srv.now), records)
  {
    var (st, reply) := InitUpload(srv.store, cfg, sender, req, policyOk, u, a, srv.now);
    InitUploadKeeps(srv.store, cfg, sender, req, policyOk, u, a, srv.now);
    forall v | v in records
      ensures RecordOk(c, st, records[v], v)
    {
      assert RecordOk(c, srv.store, records[v], v);
    }
  }

  lemma ServerStepKeeps(cfg: Config, c: Cipher, srv: Server, records: map<Id, Transfer>, op: Op)
    requires cfg.ttlSeconds > 0 && ServerSide(c, srv, records) && Enabled(srv, op)
    requires (op.OpPut? || op.OpComplete?) && op.u in records ==> op.sender != records[op.u].senderId
    requires op.OpInit? ==> op.u !in records && forall v :: v in records ==> records[v].attachmentId != op.a
    ensures ServerSide(c, Apply(cfg, srv, op), records)
  {
    StepKeeps(cfg, srv, op);
    var next := Apply(cfg, srv, op);
    match op
    case OpInit(sender, req, policyOk, u, a) => InitKeepsServerSide(cfg, c, srv, records, sender, req, policyOk, u, a);
    case OpPut(sender, u, k, payload, hashOk, interrupted) =>
      PutKeepsServerSide(c, srv, records, sender, u, k, payload, hashOk, interrupted);
    case OpComplete(sender, u, hash, signature, ok) =>
      CompleteKeepsServerSide(c, srv, records, sender, u, hash, signature, ok);
    case Tick(_) => EvolvingKeepsServerSide(c, srv, records, next);
    case OpStatus(_, u) => SessionReadEvolves(srv.store, u, srv.now); EvolvingKeepsServerSide(c, srv, records, next);
    case OpAck(user, u, ok) =>
      AckEvolves(srv.store, user, u, ok, srv.now); EvolvingKeepsServerSide(c, srv, records, next);
    case OpReadManifest(_, a) =>
      ManifestReadEvolves(srv.store, a, srv.now); EvolvingKeepsServerSide(c, srv, records, next);
    case OpReadChunk(_, a, _) =>
      ManifestReadEvolves(srv.store, a, srv.now); EvolvingKeepsServerSide(c, srv, records, next);
    case OpSweep(ids) => SweepEvolves(srv.store, ids, srv.now); EvolvingKeepsServerSide(c, srv, records, next);
    case OpKeyExpired(a) => RemovalEvolves(srv.store, a, srv.now); EvolvingKeepsServerSide(c, srv, records, next);
  }

  // ---- Client steps ----------------------------------------------------------------------------------

  lemma LaunchedKeeps(c: Cipher, cl: Client, u: Id, r: Transfer)
    requires ClientSide(c, cl) && u !in cl.records && RecordShape(r)
    ensures ClientSide(c, Launched(cl, u, r))
  {
    var next := Launched(cl, u, r);
    forall put | put in next.inFlight
      ensures RequestOk(c, next.records, put)
    {
      assert RequestOk(c, cl.records, put);
    }
  }

  /** Filling the IV of a chunk that has none changes nothing already sealed. */
  lemma FilledRecordOk(c: Cipher, st: Store, r: Transfer, u: Id, k: nat, iv: Iv)
    requires RecordOk(c, st, r, u) && k < |r.chunkIvs| && r.chunkIvs[k] == ""
    ensures RecordOk(c, st, r.(chunkIvs := r.chunkIvs[k := iv]), u)
  {
  }

  lemma IvRecordedKeepsServer(c: Cipher, srv: Server, cl: Client, u: Id, iv: Iv)
    requires ServerSide(c, srv, cl.records) && WorkersOk(cl.records, cl.queued, cl.workers) && FillsEmptyIv(cl, u, iv)
    ensures ServerSide(c, srv, IvRecorded(cl, u, iv).records)
  {
    var records := IvRecorded(cl, u, iv).records;
    FilledRecordOk(c, srv.store, cl.records[u], u, cl.workers[u].next, iv);
    forall v | v in records
      ensures RecordOk(c, srv.store, records[v], v)
    {
      assert RecordOk(c, srv.store, cl.records[v], v);
    }
  }

  lemma IvRecordedKeepsClient(c: Cipher, cl: Client, u: Id, iv: Iv)
    requires ClientSide(c, cl) && FillsEmptyIv(cl, u, iv)
    ensures ClientSide(c, IvRecorded(cl, u, iv))
  {
    var next := IvRecorded(cl, u, iv);
    forall put | put in next.inFlight
      ensures RequestOk(c, next.records, put)
    {
      assert RequestOk(c, cl.records, put);
    }
  }

  lemma ChunkSentKeeps(c: Cipher, cl: Client, u: Id)
    requires ClientSide(c, cl) && AtChunk(cl, u) && cl.workers[u].chunkIvs[cl.workers[u].next] != ""
    ensures ClientSide(c, ChunkSent(c, cl, u))
  {
  }

  lemma WorkerStepsKeep(c: Cipher, cl: Client, u: Id)
    requires ClientSide(c, cl)
    ensures ClientSide(c, Stopped(cl, u))
    ensures u !in cl.workers ==> ClientSide(c, Dequeued(cl, u))
    ensures u in cl.workers ==> ClientSide(c, Advanced(cl, u))
  {
  }

  lemma ResumedKeeps(c: Cipher, cl: Client, u: Id, received: set<nat>)
    requires ClientSide(c, cl) && u in cl.queued && u in cl.records
    ensures ClientSide(c, Resumed(cl, u, received))
  {
  }

  lemma DeliveredKeeps(c: Cipher, cl: Client, u: Id)
    requires ClientSide(c, cl) && u in cl.workers && u in cl.records
    ensures ClientSide(c, Delivered(cl, u))
  {
  }

  lemma FetchingKeeps(c: Cipher, cl: Client, u: Id, dl: Download)
    requires ClientSide(c, cl) && u in cl.sent && u in cl.records && DownloadOk(cl.records[u], cl.sent[u], dl)
    ensures ClientSide(c, Fetching(cl, u, dl))
  {
  }

  function OneMore(r: Transfer, dl: Download): Download {
    Download(dl.next + 1, dl.plain + Slice(r.file, r.chunkSize, dl.next))
  }

  lemma OneMoreOk(r: Transfer, d: Descriptor, dl: Download)
    requires DownloadOk(r, d, dl) && dl.next < d.chunkCount
    ensures DownloadOk(r, d, OneMore(r, dl))
  {
  }

  lemma FileSavedKeeps(c: Cipher, cl: Client, u: Id)
    requires ClientSide(c, cl) && AllFetched(cl, u)
    ensures ClientSide(c, FileSaved(cl, u))
  {
    SlicesRebuildFile(cl.records[u].file, cl.records[u].chunkSize);
  }

  lemma AbortedKeeps(c: Cipher, cl: Client, u: Id)
    requires ClientSide(c, cl)
    ensures ClientSide(c, Aborted(cl, u))
  {
  }

  lemma StartKeeps(cfg: Config, c: Cipher, w: World, step: Step)
    requires cfg.ttlSeconds > 0 && WorldInv(c, w) && step.Start? && UnusedIds(w, step.u, step.a)
    ensures WorldInv(c, StartUpload(cfg, w, step))
  {
    var srv, u, records := w.server, step.u, w.client.records;
    var size := RequestedChunkSize(|step.file|);
    var count := ExpectedChunkCount(|step.file|, size);
    var req := InitRequest(step.recipient, step.meta, |step.file|, size, count, None);
    InitKeepsServerSide(cfg, c, srv, records, step.sender, req, step.policyOk, u, step.a);
    var (st, reply) := InitUpload(srv.store, cfg, step.sender, req, step.policyOk, u, step.a, srv.now);
    if reply.Ok? {
      var r := Transfer(step.file, step.key, step.a, step.sender, step.recipient, |step.file|, size, count,
                        seq(count, _ => ""));
      LaunchedKeeps(c, w.client, u, r);
      NewRecordOk(c, srv.store, st, r, u, reply.value, srv.now);
      assert StartUpload(cfg, w, step) == World(Server(st, srv.now), Launched(w.client, u, r));
      ExtendServerSide(c, Server(st, srv.now), records, u, r);
    }
  }

  lemma NewRecordOk(c: Cipher, st: Store, next: Store, r: Transfer, u: Id, s: Session, now: int)
    requires FreshIds(st, u, r.attachmentId) && next == SetSession(st, s, now) && SessionMatches(s, r, u)
    ensures RecordOk(c, next, r, u)
  {
  }

  lemma ExtendServerSide(c: Cipher, srv: Server, records: map<Id, Transfer>, u: Id, r: Transfer)
    requires ServerSide(c, srv, records) && RecordOk(c, srv.store, r, u)
    requires u !in records && forall v :: v in records ==> records[v].attachmentId != r.attachmentId
    ensures ServerSide(c, srv, records[u := r])
  {
  }

  lemma ResumeKeeps(c: Cipher, w: World, u: Id)
    requires WorldInv(c, w) && u in w.client.records && u in w.client.queued && u !in w.client.workers
    ensures WorldInv(c, ResumeUpload(w, u))
  {
    var srv, cl := w.server, w.client;
    var (st, reply) := Status(srv.store, cl.records[u].senderId, u, srv.now);
    SessionReadEvolves(srv.store, u, srv.now);
    GetSessionKeeps(srv.store, u, srv.now);
    EvolvingKeepsServerSide(c, srv, cl.records, Server(st, srv.now));
    WorkerStepsKeep(c, cl, u);
    if reply.Ok? {
      ResumedKeeps(c, cl, u, set k | k in reply.value.receivedChunks);
    }
  }

  lemma ChunkReadIsFile(st: Store, user: Id, a: Id, k: nat, now: int)
    requires StoreInv(st, now)
    ensures var (next, reply) := ReadChunk(st, user, a, k, now);
            && StoreInv(next, now) && StoreEvolves(st, next)
            && (reply.Ok? ==> next == st && a in st.disk && k in st.disk[a] && reply.value == st.disk[a][k])
  {
    GetManifestKeeps(st, a, now);
    ManifestReadEvolves(st, a, now);
  }

  lemma OpensToSlice(c: Cipher, st: Store, r: Transfer, u: Id, k: nat)
    requires Lawful(c) && RecordOk(c, st, r, u) && r.attachmentId in st.disk && k in st.disk[r.attachmentId]
    ensures k < |r.chunkIvs|
    ensures c.dec(r.fileKey, r.chunkIvs[k], st.disk[r.attachmentId][k]) == Some(Slice(r.file, r.chunkSize, k))
  {
    assert st.disk[r.attachmentId][k] == Sealed(c, r, k);
  }

  lemma FetchKeepsServer(c: Cipher, w: World, u: Id)
    requires ServerSide(c, w.server, w.client.records) && CanFetch(w.client, u)
    ensures ServerSide(c, FetchNext(c, w, u).server, w.client.records)
  {
    var srv, a := w.server, w.client.sent[u].attachmentId;
    var st := ReadChunk(srv.store, w.client.records[u].recipientId, a, w.client.downloads[u].next, srv.now).0;
    ChunkReadIsFile(srv.store, w.client.records[u].recipientId, a, w.client.downloads[u].next, srv.now);
    EvolvingKeepsServerSide(c, srv, w.client.records, Server(st, srv.now));
  }

  /** A fetched chunk adds exactly the next slice of the file. */
  lemma FetchAddsSlice(c: Cipher, w: World, u: Id)
    requires Lawful(c) && CanFetch(w.client, u) && StoreInv(w.server.store, w.server.now)
    requires RecordOk(c, w.server.store, w.client.records[u], u)
    requires w.client.sent[u] == DescriptorOf(w.client.records[u], w.client.records[u].chunkIvs)
    ensures FetchNext(c, w, u).client in {Fetching(w.client, u, OneMore(w.client.records[u], w.client.downloads[u])),
                                          Aborted(w.client, u)}
  {
    var r, k := w.client.records[u], w.client.downloads[u].next;
    var reply := ReadChunk(w.server.store, r.recipientId, r.attachmentId, k, w.server.now).1;
    ChunkReadIsFile(w.server.store, r.recipientId, r.attachmentId, k, w.server.now);
    if reply.Ok? {
      OpensToSlice(c, w.server.store, r, u, k);
    }
  }

  lemma FetchKeeps(c: Cipher, w: World, u: Id)
    requires Lawful(c) && WorldInv(c, w) && CanFetch(w.client, u)
    ensures WorldInv(c, FetchNext(c, w, u))
  {
    FetchKeepsServer(c, w, u);
    OneMoreOk(w.client.records[u], w.client.sent[u], w.client.downloads[u]);
    FetchingKeeps(c, w.client, u, OneMore(w.client.records[u], w.client.downloads[u]));
    AbortedKeeps(c, w.client, u);
    FetchAddsSlice(c, w, u);
  }

  lemma DeliverKeeps(c: Cipher, w: World, put: PutRequest, interrupted: bool, replied: bool)
    requires WorldInv(c, w) && put in w.client.inFlight && put.u in w.client.records
    ensures WorldInv(c, DeliverPut(w, put, interrupted, replied))
  {
    var records := w.client.records;
    assert RequestOk(c, records, put);
    PutKeepsServerSide(c, w.server, records, records[put.u].senderId, put.u, put.k, put.payload, true, interrupted);
    WorkerStepsKeep(c, w.client, put.u);
  }

  lemma FinishKeeps(c: Cipher, w: World, step: Step)
    requires WorldInv(c, w) && step.Finish? && CanFinish(w.client, step.u)
    ensures WorldInv(c, FinishUpload(w, step))
  {
    CompleteKeepsServerSide(c, w.server, w.client.records, w.client.records[step.u].senderId, step.u, step.hash,
                            step.signature, step.signatureOk);
    DeliveredKeeps(c, w.client, step.u);
    WorkerStepsKeep(c, w.client, step.u);
  }

  lemma AckKeepsWorld(c: Cipher, w: World, u: Id, ok: bool)
    requires WorldInv(c, w) && u in w.client.records
    ensures var st := Ack(w.server.store, w.client.records[u].recipientId, u, ok, w.server.now).0;
            WorldInv(c, World(Server(st, w.server.now), w.client))
  {
    var user := w.client.records[u].recipientId;
    AckKeeps(w.server.store, user, u, ok, w.server.now);
    AckEvolves(w.server.store, user, u, ok, w.server.now);
    EvolvingKeepsServerSide(c, w.server, w.client.records,
                            Server(Ack(w.server.store, user, u, ok, w.server.now).0, w.server.now));
  }

  lemma TransferStepKeeps(cfg: Config, c: Cipher, w: World, step: Step)
    requires cfg.ttlSeconds > 0 && Lawful(c) && WorldInv(c, w) && CanStep(w, step)
    ensures WorldInv(c, Next(cfg, c, w, step))
  {
    match step
    case ServerStep(op) => ServerStepKeeps(cfg, c, w.server, w.client.records, op);
    case Start(_, _, _, _, _, _, _, _) => StartKeeps(cfg, c, w, step);
    case Skip(u) => WorkerStepsKeep(c, w.client, u);
    case PersistIv(u, iv) =>
      IvRecordedKeepsServer(c, w.server, w.client, u, iv);
      IvRecordedKeepsClient(c, w.client, u, iv);
    case Send(u) => ChunkSentKeeps(c, w.client, u);
    case Deliver(put, interrupted, replied) => DeliverKeeps(c, w, put, interrupted, replied);
    case Crash(u) => WorkerStepsKeep(c, w.client, u);
    case Resume(u) => ResumeKeeps(c, w, u);
    case Finish(_, _, _, _, _) => FinishKeeps(c, w, step);
    case BeginDownload(u) => FetchingKeeps(c, w.client, u, Download(0, []));
    case FetchChunk(u) => FetchKeeps(c, w, u);
    case AbortDownload(u) => AbortedKeeps(c, w.client, u);
    case Save(u) => FileSavedKeeps(c, w.client, u);
    case AckSaved(u, ok) => AckKeepsWorld(c, w, u, ok);
  }

  lemma {:induction false} TransferRunKeeps(cfg: Config, c: Cipher, worlds: seq<World>, steps: seq<Step>, n: nat)
    requires cfg.ttlSeconds > 0 && Lawful(c) && IsTransferRun(cfg, c, worlds, steps) && n < |worlds|
    requires WorldInv(c, worlds[0])
    ensures WorldInv(c, worlds[n])
  {
    if n == 0 {
    } else {
      TransferRunKeeps(cfg, c, worlds, steps, n - 1);
      TransferStepKeeps(cfg, c, worlds[n - 1], steps[n - 1]);
    }
  }

  // ---- End to end -------------------------------------------------------------------------------------

  /** The recipient's loop over the chunk files: decrypt each with its IV and join the pieces in order. */
  function Rebuild(c: Cipher, d: Descriptor, dir: map<nat, Bytes>, n: nat): Option<Bytes> {
    if n == 0 then Some([])
    else if n - 1 !in dir || n - 1 >= |d.chunkIvs| then None
    else
      match Rebuild(c, d, dir, n - 1)
      case None => None
      case Some(head) =>
        match c.dec(d.fileKey, d.chunkIvs[n - 1], dir[n - 1])
        case None => None
        case Some(p) => Some(head + p)
  }

  lemma {:induction false} RebuildSealed(c: Cipher, st: Store, r: Transfer, n: nat)
    requires Lawful(c) && RecordShape(r) && FilesSealed(c, st, r) && n <= r.chunkCount
    requires r.attachmentId in st.disk && forall k :: 0 <= k < n ==> k in st.disk[r.attachmentId]
    ensures Rebuild(c, DescriptorOf(r, r.chunkIvs), st.disk[r.attachmentId], n)
              == Some(JoinSlices(r.file, r.chunkSize, n))
  {
    if n == 0 {
    } else {
      RebuildSealed(c, st, r, n - 1);
      assert st.disk[r.attachmentId][n - 1] == Sealed(c, r, n - 1);
    }
  }

  /** Once its manifest is readable, every chunk file of an upload is there, sealed, and rebuilds the file. */
  ghost predicate PublishedIsFile(c: Cipher, w: World, u: Id) {
    && u in w.client.records
    && var r, disk := w.client.records[u], w.server.store.disk;
    && r.attachmentId in disk && |r.chunkIvs| == r.chunkCount
    && (forall k :: 0 <= k < r.chunkCount ==>
          && k in disk[r.attachmentId] && r.chunkIvs[k] != ""
          && disk[r.attachmentId][k] == c.enc(r.fileKey, r.chunkIvs[k], Slice(r.file, r.chunkSize, k)))
    && Rebuild(c, DescriptorOf(r, r.chunkIvs), disk[r.attachmentId], r.chunkCount) == Some(r.file)
    && (u in w.client.sent ==> w.client.sent[u] == DescriptorOf(r, r.chunkIvs))
  }

  /**
   * In every run of uploads, crashes, resumptions, delayed or repeated requests, expiries and sweeps:
   * once completion has published the manifest of an upload, every chunk file is the encryption of
   * the matching slice under the IV on record, and the recipient's loop gives the sender's file.
   */
  lemma PublishedUploadIsTheFile(cfg: Config, c: Cipher, worlds: seq<World>, steps: seq<Step>, n: nat, u: Id)
    requires cfg.ttlSeconds > 0 && Lawful(c) && IsTransferRun(cfg, c, worlds, steps) && n < |worlds|
    requires worlds[0] == InitialWorld(worlds[0].server.now)
    requires u in worlds[n].client.records
    requires Live(worlds[n].server.store.manifests, worlds[n].client.records[u].attachmentId, worlds[n].server.now)
    ensures PublishedIsFile(c, worlds[n], u)
  {
    TransferRunKeeps(cfg, c, worlds, steps, n);
    var r, st := worlds[n].client.records[u], worlds[n].server.store;
    assert RecordOk(c, st, r, u);
    RecordPublishedRebuilds(c, st, r, u, worlds[n].server.now);
  }

  lemma RecordPublishedRebuilds(c: Cipher, st: Store, r: Transfer, u: Id, now: int)
    requires Lawful(c) && StoreInv(st, now) && RecordShape(r) && RecordOk(c, st, r, u)
    requires Live(st.manifests, r.attachmentId, now)
    ensures r.attachmentId in st.disk
    ensures forall k :: 0 <= k < r.chunkCount ==>
              && k in st.disk[r.attachmentId] && r.chunkIvs[k] != ""
              && st.disk[r.attachmentId][k] == c.enc(r.fileKey, r.chunkIvs[k], Slice(r.file, r.chunkSize, k))
    ensures Rebuild(c, DescriptorOf(r, r.chunkIvs), st.disk[r.attachmentId], r.chunkCount) == Some(r.file)
  {
    assert ManifestOk(st, r.attachmentId);
    AllChunksPresent(st, r, u);
    RebuildSealed(c, st, r, r.chunkCount);
    SlicesRebuildFile(r.file, r.chunkSize);
  }

  lemma AllChunksPresent(st: Store, r: Transfer, u: Id)
    requires RecordShape(r) && r.attachmentId in st.manifests && ManifestOk(st, r.attachmentId)
    requires ManifestMatches(st.manifests[r.attachmentId].value, r, u)
    ensures r.attachmentId in st.disk && forall k :: 0 <= k < r.chunkCount ==> k in st.disk[r.attachmentId]
  {
    assert r.chunkCount >= 1;
    assert ChunkOnDisk(st, r.attachmentId, 0, ExpectedCipherSize(r.totalSize, r.chunkSize, 0));
    forall k | 0 <= k < r.chunkCount
      ensures k in st.disk[r.attachmentId]
    {
      assert ChunkOnDisk(st, r.attachmentId, k, ExpectedCipherSize(r.totalSize, r.chunkSize, k));
    }
  }

  /** This client acknowledges, and so lets the server delete its copy, only when the very file is saved. */
  lemma AcknowledgedOnlyWhenSaved(cfg: Config, c: Cipher, worlds: seq<World>, steps: seq<Step>, n: nat)
    requires cfg.ttlSeconds > 0 && Lawful(c) && IsTransferRun(cfg, c, worlds, steps) && n < |steps|
    requires worlds[0] == InitialWorld(worlds[0].server.now)
    requires steps[n].AckSaved?
    ensures var cl, u := worlds[n].client, steps[n].u;
            u in cl.saved && u in cl.records && cl.saved[u] == cl.records[u].file
  {
    TransferRunKeeps(cfg, c, worlds, steps, n);
  }

  /** The request or event at the server that a step amounts to; none is a moment in which no time passes. */
  lemma ServerOperation(cfg: Config, c: Cipher, w: World, step: Step) returns (op: Op)
    requires CanStep(w, step)
    ensures Enabled(w.server, op) && Next(cfg, c, w, step).server == Apply(cfg, w.server, op)
    ensures op.OpAck? ==> (step.ServerStep? && op == step.op) || (step.AckSaved? && op.u == step.u)
  {
    var cl := w.client;
    match step
    case ServerStep(done) => op := done;
    case Start(u, a, sender, recipient, meta, file, _, policyOk) =>
      var size := RequestedChunkSize(|file|);
      op := OpInit(sender, InitRequest(recipient, meta, |file|, size, ExpectedChunkCount(|file|, size), None), policyOk,
                   u, a);
    case Deliver(put, interrupted, _) =>
      op := OpPut(cl.records[put.u].senderId, put.u, put.k, put.payload, true, interrupted);
    case Resume(u) => op := OpStatus(cl.records[u].senderId, u);
    case Finish(u, hash, signature, signatureOk, _) =>
      op := OpComplete(cl.records[u].senderId, u, hash, signature, signatureOk);
    case FetchChunk(u) => op := OpReadChunk(cl.records[u].recipientId, cl.sent[u].attachmentId, cl.downloads[u].next);
    case AckSaved(u, signatureOk) => op := OpAck(cl.records[u].recipientId, u, signatureOk);
    case _ => op := Tick(0);
  }

  /**
   * In every run, when nobody else acknowledges for the recipient: a published upload that has not expired
   * keeps manifest and files in every step, unless the step is this client's acknowledgement of that very
   * upload, and then the sender's file is already saved.
   */
  lemma DeletedOnlyAfterSaved(cfg: Config, c: Cipher, worlds: seq<World>, steps: seq<Step>, n: nat, u: Id)
    requires cfg.ttlSeconds > 0 && Lawful(c) && IsTransferRun(cfg, c, worlds, steps) && n < |steps|
    requires worlds[0] == InitialWorld(worlds[0].server.now) && u in worlds[n].client.records
    requires Published(worlds[n].server.store, worlds[n].client.records[u].attachmentId, worlds[n].server.now)
    requires steps[n].ServerStep? ==>
               !Acknowledges(worlds[n].server.store, steps[n].op, worlds[n].client.records[u].attachmentId)
    ensures var cl, a := worlds[n].client, worlds[n].client.records[u].attachmentId;
            || ManifestUntouched(worlds[n].server.store, worlds[n + 1].server.store, a)
            || (steps[n].AckSaved? && steps[n].u == u && u in cl.saved && cl.saved[u] == cl.records[u].file)
  {
    TransferRunKeeps(cfg, c, worlds, steps, n);
    var w, a := worlds[n], worlds[n].client.records[u].attachmentId;
    var op := ServerOperation(cfg, c, w, steps[n]);
    PublishedUntilAcknowledged(cfg, w.server, op, a);
    assert RecordOk(c, w.server.store, w.client.records[u], u);
  }

  /** The file, its key and its chunking are those of the start, and an IV once recorded stays. */
  ghost predicate OnlyGainsIvs(cl: Client, next: Client, u: Id)
    requires u in cl.records
  {
    && u in next.records
    && next.records[u] == cl.records[u].(chunkIvs := next.records[u].chunkIvs)
    && |next.records[u].chunkIvs| == |cl.records[u].chunkIvs|
    && (forall k :: 0 <= k < |cl.records[u].chunkIvs| && cl.records[u].chunkIvs[k] != "" ==>
          next.records[u].chunkIvs[k] == cl.records[u].chunkIvs[k])
  }

  lemma {:induction false} RecordsOnlyGainIvs(
    cfg: Config, c: Cipher, worlds: seq<World>, steps: seq<Step>, m: nat, n: nat, u: Id
  )
    requires cfg.ttlSeconds > 0 && Lawful(c) && IsTransferRun(cfg, c, worlds, steps) && m <= n < |worlds|
    requires WorldInv(c, worlds[0]) && u in worlds[m].client.records
    ensures OnlyGainsIvs(worlds[m].client, worlds[n].client, u)
  {
    if n == m {
    } else {
      RecordsOnlyGainIvs(cfg, c, worlds, steps, m, n - 1, u);
      TransferRunKeeps(cfg, c, worlds, steps, n - 1);
      StepOnlyGainsIvs(cfg, c, worlds[n - 1], steps[n - 1], u);
    }
  }

  lemma StepOnlyGainsIvs(cfg: Config, c: Cipher, w: World, step: Step, u: Id)
    requires CanStep(w, step) && u in w.client.records && WorkersOk(w.client.records, w.client.queued, w.client.workers)
    ensures OnlyGainsIvs(w.client, Next(cfg, c, w, step).client, u)
  {
    if !step.PersistIv? && !step.Start? {
      SameRecords(cfg, c, w, step);
    }
  }

  lemma SameRecords(cfg: Config, c: Cipher, w: World, step: Step)
    requires CanStep(w, step) && !step.PersistIv? && !step.Start?
    ensures Next(cfg, c, w, step).client.records == w.client.records
  {
  }

  /** The laws assumed of the cipher can be met. */
  lemma LawfulCipherExists()
    ensures exists c: Cipher :: Lawful(c)
  {
    var tag: Bytes := [0, 0, 0, 0, 0, 0, 0, 0, 0, 0, 0, 0, 0, 0, 0, 0];
    var c := Cipher((key: Key, iv: Iv, p: Bytes) => p + tag,
                    (key: Key, iv: Iv, x: Bytes) => if |x| >= TAG_BYTES then Some(x[..|x| - TAG_BYTES]) else None);
    assert forall key, iv, p :: c.enc(key, iv, p)[..|p|] == p;
    assert Lawful(c);
  }
}
