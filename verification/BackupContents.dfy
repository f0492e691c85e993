/** What the records of a backup amount to once read: its items, its objects put together from chunks, its manifest. */
module BackupContents {
  import opened Common
  import opened Constants
  import opened CborOrder
  import opened CborCodec
  import opened CborObject
  import ClearHeader
  import M = Manifest
  import ManifestCodec
  import RecordHeader

  datatype Record = Record(header: RecordHeader.Header, payload: Bytes)

  /** The verdicts of the payload validators on one decoded value each; what a meta record declares is checked here. */
  datatype Validators = Validators(identity: Value -> bool, item: (M.Kind, Value) -> bool,
                                   meta: (M.Family, Value) -> bool)

  datatype BackupItem = BackupItem(kind: M.Kind, value: Value)

  datatype Object = Object(family: M.Family, objectId: string, meta: Value, chunks: seq<Option<Bytes>>, totalBytes: nat)

  /** What has been read so far.  The three maps of objects are one list of (family, id) in the order of arrival. */
  datatype Assembly = Assembly(
    identity: Option<Value>, items: seq<BackupItem>, objects: seq<Object>, counts: M.Counts, manifest: Option<Value>,
    records: nat)

  const NOTHING: Assembly := Assembly(None, [], [], M.EMPTY_COUNTS, None, 0)

  datatype Contents = Contents(identity: Value, items: seq<BackupItem>, objects: seq<Object>, manifest: M.Payload)

  // ---- Record types ------------------------------------------------------------------------------------

  function KindOf(name: string): Option<M.Kind> {
    if name == "identity" then Some(M.Identity)
    else if name == "peer-keys-batch" then Some(M.PeerKeys)
    else if name == "messages-batch" then Some(M.Messages)
    else if name == "link-previews-batch" then Some(M.LinkPreviews)
    else if name == "outbox-batch" then Some(M.Outbox)
    else if name == "attachment-meta" then Some(M.Meta(M.Attachments))
    else if name == "attachment-chunk" then Some(M.Chunk(M.Attachments))
    else if name == "transfer-queue-meta" then Some(M.Meta(M.TransferQueue))
    else if name == "transfer-queue-chunk" then Some(M.Chunk(M.TransferQueue))
    else if name == "remote-media-meta" then Some(M.Meta(M.RemoteMedia))
    else if name == "remote-media-chunk" then Some(M.Chunk(M.RemoteMedia))
    else None
  }

  function NameOf(kind: M.Kind): string {
    match kind
    case Identity => "identity"
    case PeerKeys => "peer-keys-batch"
    case Messages => "messages-batch"
    case LinkPreviews => "link-previews-batch"
    case Outbox => "outbox-batch"
    case Meta(Attachments) => "attachment-meta"
    case Chunk(Attachments) => "attachment-chunk"
    case Meta(TransferQueue) => "transfer-queue-meta"
    case Chunk(TransferQueue) => "transfer-queue-chunk"
    case Meta(RemoteMedia) => "remote-media-meta"
    case Chunk(RemoteMedia) => "remote-media-chunk"
  }

  lemma KindOfName(kind: M.Kind)
    ensures KindOf(NameOf(kind)) == Some(kind)
  {
  }

  lemma NamesAreRecordTypes(kind: M.Kind)
    ensures RecordHeader.IsRecordType(NameOf(kind)) && NameOf(kind) != "manifest"
    ensures RecordHeader.IsObjectMeta(NameOf(kind)) <==> kind.Meta?
  {
  }

  lemma NamesOfChunks(kind: M.Kind)
    ensures RecordHeader.IsChunk(NameOf(kind)) <==> kind.Chunk?
  {
  }

  lemma NamesOfOthers(kind: M.Kind)
    ensures NameOf(kind) == "identity" <==> kind.Identity?
  {
  }

  lemma PlainNamesEncodable(kind: M.Kind)
    requires !kind.Meta? && !kind.Chunk?
    ensures EncodableKey(NameOf(kind))
  {
  }

  lemma MetaNamesEncodable(family: M.Family)
    ensures EncodableKey(NameOf(M.Meta(family)))
  {
  }

  lemma ChunkNamesEncodable(family: M.Family)
    ensures EncodableKey(NameOf(M.Chunk(family)))
  {
  }

  lemma NamesEncodable(kind: M.Kind)
    ensures EncodableKey(NameOf(kind))
  {
    match kind
    case Meta(family) => MetaNamesEncodable(family);
    case Chunk(family) => ChunkNamesEncodable(family);
    case _ => PlainNamesEncodable(kind);
  }

  // ---- One record ----------------------------------------------------------------------------------------

  function Counted(a: Assembly, kind: M.Kind, items: nat): Assembly {
    a.(counts := M.Bump(a.counts, kind, items), records := a.records + 1)
  }

  function AbsorbIdentity(v: Validators, a: Assembly, payload: Bytes): Option<Assembly> {
    match DecodeCbor(payload)
    case None => None
    case Some(value) =>
      if a.identity.Some? || !v.identity(value) then None
      else Some(Counted(a.(identity := Some(value)), M.Identity, 0))
  }

  predicate ValidItems(v: Validators, kind: M.Kind, items: seq<Value>) {
    forall i :: 0 <= i < |items| ==> v.item(kind, items[i])
  }

  function Tagged(kind: M.Kind, items: seq<Value>): seq<BackupItem> {
    seq(|items|, i requires 0 <= i < |items| => BackupItem(kind, items[i]))
  }

  predicate ValidBatch(v: Validators, kind: M.Kind, value: Value) {
    value.Obj? && Get(value.fields, "items").List? && ValidItems(v, kind, Get(value.fields, "items").items)
  }

  function AbsorbBatch(v: Validators, a: Assembly, kind: M.Kind, payload: Bytes): Option<Assembly> {
    match DecodeCbor(payload)
    case None => None
    case Some(value) =>
      if !ValidBatch(v, kind, value) then None
      else
        var items := Get(value.fields, "items").items;
        Some(Counted(a.(items := a.items + Tagged(kind, items)), kind, |items|))
  }

  function IndexOf(objects: seq<Object>, family: M.Family, objectId: string): (i: nat)
    ensures i <= |objects|
    ensures i < |objects| ==> objects[i].family == family && objects[i].objectId == objectId
    ensures forall j :: 0 <= j < i ==> objects[j].family != family || objects[j].objectId != objectId
  {
    if objects == [] || (objects[0].family == family && objects[0].objectId == objectId) then 0
    else 1 + IndexOf(objects[1..], family, objectId)
  }

  /** A meta record is valid when its chunk count also fits a JavaScript array. */
  predicate ValidMeta(v: Validators, family: M.Family, value: Value) {
    && value.Obj? && PositiveSafe(Get(value.fields, "chunkSize")) && PositiveSafe(Get(value.fields, "chunkCount"))
    && Get(value.fields, "chunkCount").n < TWO32 && v.meta(family, value)
  }

  function EmptyObject(family: M.Family, objectId: string, meta: Value, chunkCount: nat): Object {
    Object(family, objectId, meta, seq(chunkCount, _ => None), 0)
  }

  function AbsorbMeta(
    v: Validators, a: Assembly, family: M.Family, objectId: string, payload: Bytes
  ): Option<Assembly> {
    if IndexOf(a.objects, family, objectId) < |a.objects| then None else
    match DecodeCbor(payload)
    case None => None
    case Some(value) =>
      if !ValidMeta(v, family, value) then None
      else
        var entry := EmptyObject(family, objectId, value, Get(value.fields, "chunkCount").n);
        Some(Counted(a.(objects := a.objects + [entry]), M.Meta(family), 0))
  }

  function WithChunk(o: Object, k: nat, payload: Bytes): Object
    requires k < |o.chunks|
  {
    o.(chunks := o.chunks[k := Some(payload)], totalBytes := o.totalBytes + |payload|)
  }

  /** The chunk record fits the object: its chunk count is the declared one and its chunk is not there yet. */
  predicate ChunkFits(o: Object, h: RecordHeader.Header) {
    && h.chunkCount == Some(|o.chunks|) && h.chunkIndex.Some? && 0 <= h.chunkIndex.value < |o.chunks|
    && o.chunks[h.chunkIndex.value].None?
  }

  function AbsorbChunk(a: Assembly, family: M.Family, objectId: string, r: Record): Option<Assembly> {
    var i := IndexOf(a.objects, family, objectId);
    if i == |a.objects| || !ChunkFits(a.objects[i], r.header) then None
    else
      var entry := WithChunk(a.objects[i], r.header.chunkIndex.value, r.payload);
      Some(Counted(a.(objects := a.objects[i := entry]), M.Chunk(family), 0))
  }

  function AbsorbManifest(a: Assembly, payload: Bytes): Option<Assembly> {
    match DecodeCbor(payload)
    case None => None
    case Some(value) => Some(a.(manifest := Some(value), records := a.records + 1))
  }

  /** The switch of the reading loop over the record type; `None` when the source throws. */
  function Absorb(v: Validators, a: Assembly, r: Record): Option<Assembly> {
    if r.header.kind == "manifest" then AbsorbManifest(a, r.payload) else
    match KindOf(r.header.kind)
    case None => None
    case Some(kind) => AbsorbKind(v, a, kind, r)
  }

  function AbsorbKind(v: Validators, a: Assembly, kind: M.Kind, r: Record): Option<Assembly> {
    match kind
    case Identity => AbsorbIdentity(v, a, r.payload)
    case Meta(family) =>
      if r.header.objectId == None then None else AbsorbMeta(v, a, family, r.header.objectId.value, r.payload)
    case Chunk(family) =>
      if r.header.objectId == None then None else AbsorbChunk(a, family, r.header.objectId.value, r)
    case _ => AbsorbBatch(v, a, kind, r.payload)
  }

  function Assemble(v: Validators, a: Assembly, records: seq<Record>): Option<Assembly>
    decreases |records|
  {
    if records == [] then Some(a)
    else
      match Assemble(v, a, records[..|records| - 1])
      case None => None
      case Some(before) => Absorb(v, before, records[|records| - 1])
  }

  lemma {:induction false} AssembleAppend(v: Validators, a: Assembly, first: seq<Record>, more: seq<Record>)
    ensures Assemble(v, a, first + more)
         == match Assemble(v, a, first)
            case None => None
            case Some(mid) => Assemble(v, mid, more)
    decreases |more|
  {
    if more == [] {
      assert first + more == first;
    } else {
      AssembleAppend(v, a, first, more[..|more| - 1]);
      assert (first + more)[..|first + more| - 1] == first + more[..|more| - 1];
    }
  }

  // ---- The end of the file ---------------------------------------------------------------------------------

  predicate WholeObject(o: Object) { forall k :: 0 <= k < |o.chunks| ==> o.chunks[k].Some? }

  function EntryOf(o: Object): M.Entry { M.Entry(o.objectId, |o.chunks|, o.totalBytes) }

  /** The entries of one family, in the order of its meta records. */
  function EntriesFor(objects: seq<Object>, family: M.Family): seq<M.Entry> {
    if objects == [] then []
    else
      var last := objects[|objects| - 1];
      EntriesFor(objects[..|objects| - 1], family) + if last.family == family then [EntryOf(last)] else []
  }

  function ExpectedManifest(h: ClearHeader.Header, a: Assembly): M.Payload {
    M.Payload(h.backupId, h.mode, h.createdAt, a.records, a.counts,
              M.Objects(EntriesFor(a.objects, M.Attachments), EntriesFor(a.objects, M.TransferQueue),
                        EntriesFor(a.objects, M.RemoteMedia)))
  }

  function SummaryOf(p: M.Payload): M.Summary { M.Summary(p.backupId, p.mode, p.createdAt, p.totalRecordCount) }

  /** `ids` is the string comparison of the object ids. */
  function Finish(ids: (string, string) -> int, h: ClearHeader.Header, a: Assembly): Option<Contents> {
    if a.identity == None || a.manifest == None || !AllWhole(a.objects) then None else
    match ManifestCodec.PayloadOf(a.manifest.value)
    case None => None
    case Some(manifest) =>
      var expected := ExpectedManifest(h, a);
      if M.ValidateManifestPayload(manifest, SummaryOf(expected)) && M.MatchesExpected(ids, manifest, expected) then
        Some(Contents(a.identity.value, a.items, a.objects, manifest))
      else None
  }

  predicate AllWhole(objects: seq<Object>) { forall i :: 0 <= i < |objects| ==> WholeObject(objects[i]) }

  // ---- An accepted backup is whole -------------------------------------------------------------------------

  /** The chunks that have arrived, one after the other. */
  function Join(chunks: seq<Option<Bytes>>): Bytes {
    if chunks == [] then []
    else
      var last := chunks[|chunks| - 1];
      Join(chunks[..|chunks| - 1]) + if last.Some? then last.value else []
  }

  function Present(chunks: seq<Option<Bytes>>): nat {
    if chunks == [] then 0 else Present(chunks[..|chunks| - 1]) + if chunks[|chunks| - 1].Some? then 1 else 0
  }

  function ChunksPresent(objects: seq<Object>, family: M.Family): nat {
    if objects == [] then 0
    else
      var last := objects[|objects| - 1];
      ChunksPresent(objects[..|objects| - 1], family) + if last.family == family then Present(last.chunks) else 0
  }

  function ItemsOf(items: seq<BackupItem>, kind: M.Kind): nat {
    if items == [] then 0 else ItemsOf(items[..|items| - 1], kind) + if items[|items| - 1].kind == kind then 1 else 0
  }

  function BatchCount(c: M.Counts, kind: M.Kind): int {
    match kind
    case PeerKeys => c.peerKeys
    case Messages => c.messages
    case LinkPreviews => c.linkPreviews
    case Outbox => c.outbox
    case _ => 0
  }

  predicate IsBatch(kind: M.Kind) { kind.PeerKeys? || kind.Messages? || kind.LinkPreviews? || kind.Outbox? }

  /** An object as its meta record declared it, holding as many bytes as its chunks. */
  ghost predicate SoundObject(v: Validators, o: Object) {
    && ValidMeta(v, o.family, o.meta) && |o.chunks| == Get(o.meta.fields, "chunkCount").n
    && o.totalBytes == |Join(o.chunks)|
  }

  ghost predicate DistinctObjects(objects: seq<Object>) {
    forall i, j {:trigger objects[i], objects[j]} :: 0 <= i < j < |objects| ==>
      objects[i].family != objects[j].family || objects[i].objectId != objects[j].objectId
  }

  ghost predicate SoundObjects(v: Validators, objects: seq<Object>) {
    DistinctObjects(objects) && forall i :: 0 <= i < |objects| ==> SoundObject(v, objects[i])
  }

  ghost predicate SoundItems(v: Validators, items: seq<BackupItem>) {
    forall i :: 0 <= i < |items| ==> v.item(items[i].kind, items[i].value)
  }

  ghost predicate ItemsCounted(c: M.Counts, items: seq<BackupItem>) {
    forall kind :: IsBatch(kind) ==> BatchCount(c, kind) == ItemsOf(items, kind)
  }

  ghost predicate ObjectsCounted(c: M.Counts, objects: seq<Object>) {
    forall family ::
      M.ObjectCount(c, family) == |EntriesFor(objects, family)| &&
        M.ChunkCount(c, family) == ChunksPresent(objects, family)
  }

  ghost predicate Sound(v: Validators, a: Assembly) {
    && (a.identity.Some? ==> v.identity(a.identity.value))
    && SoundItems(v, a.items) && SoundObjects(v, a.objects)
    && ItemsCounted(a.counts, a.items) && ObjectsCounted(a.counts, a.objects)
  }

  lemma {:induction false} TaggedCounts(items: seq<BackupItem>, kind: M.Kind, values: seq<Value>, other: M.Kind)
    ensures ItemsOf(items + Tagged(kind, values), other) == ItemsOf(items, other)
              + if other == kind then |values| else 0
  {
    if values == [] {
      assert items + Tagged(kind, values) == items;
    } else {
      var front, all := values[..|values| - 1], items + Tagged(kind, values);
      TaggedCounts(items, kind, front, other);
      assert all[..|all| - 1] == items + Tagged(kind, front);
    }
  }

  lemma BatchKeepsSound(v: Validators, a: Assembly, kind: M.Kind, payload: Bytes)
    requires Sound(v, a) && IsBatch(kind) && AbsorbBatch(v, a, kind, payload).Some?
    ensures Sound(v, AbsorbBatch(v, a, kind, payload).value)
  {
    var next := AbsorbBatch(v, a, kind, payload).value;
    var values := Get(DecodeCbor(payload).value.fields, "items").items;
    forall other | IsBatch(other)
      ensures BatchCount(next.counts, other) == ItemsOf(next.items, other)
    {
      TaggedCounts(a.items, kind, values, other);
    }
    forall family
      ensures M.ObjectCount(next.counts, family) == M.ObjectCount(a.counts, family)
      ensures M.ChunkCount(next.counts, family) == M.ChunkCount(a.counts, family)
    {
    }
  }

  lemma {:induction false} NothingPresent(chunkCount: nat)
    ensures Join(seq(chunkCount, _ => None)) == [] && Present(seq(chunkCount, _ => None)) == 0
  {
    var chunks: seq<Option<Bytes>> := seq(chunkCount, _ => None);
    if chunkCount == 0 {
    } else {
      NothingPresent(chunkCount - 1);
      assert chunks[..chunkCount - 1] == seq(chunkCount - 1, _ => None);
    }
  }

  lemma ObjectAdded(objects: seq<Object>, o: Object, family: M.Family)
    ensures EntriesFor(objects + [o], family) == EntriesFor(objects, family)
              + if o.family == family then [EntryOf(o)] else []
    ensures ChunksPresent(objects + [o], family)
         == ChunksPresent(objects, family) + if o.family == family then Present(o.chunks) else 0
  {
    assert (objects + [o])[..|objects|] == objects;
  }

  lemma NewObjectSound(v: Validators, objects: seq<Object>, family: M.Family, objectId: string, meta: Value)
    requires SoundObjects(v, objects) && ValidMeta(v, family, meta) && IndexOf(objects, family, objectId) == |objects|
    ensures SoundObjects(v, objects + [EmptyObject(family, objectId, meta, Get(meta.fields, "chunkCount").n)])
  {
    NothingPresent(Get(meta.fields, "chunkCount").n);
  }

  lemma NewObjectCounted(c: M.Counts, objects: seq<Object>, family: M.Family, o: Object)
    requires ObjectsCounted(c, objects) && o.family == family && Present(o.chunks) == 0
    ensures ObjectsCounted(M.Bump(c, M.Meta(family), 0), objects + [o])
  {
    var next := M.Bump(c, M.Meta(family), 0);
    forall other
      ensures M.ObjectCount(next, other) == |EntriesFor(objects + [o], other)|
      ensures M.ChunkCount(next, other) == ChunksPresent(objects + [o], other)
    {
      ObjectAdded(objects, o, other);
    }
  }

  lemma MetaKeepsSound(v: Validators, a: Assembly, family: M.Family, objectId: string, payload: Bytes)
    requires Sound(v, a) && AbsorbMeta(v, a, family, objectId, payload).Some?
    ensures Sound(v, AbsorbMeta(v, a, family, objectId, payload).value)
  {
    var meta := DecodeCbor(payload).value;
    var count := Get(meta.fields, "chunkCount").n;
    NewObjectSound(v, a.objects, family, objectId, meta);
    NothingPresent(count);
    NewObjectCounted(a.counts, a.objects, family, EmptyObject(family, objectId, meta, count));
    SameBatchCounts(a.counts, M.Meta(family));
  }

  lemma SameBatchCounts(c: M.Counts, kind: M.Kind)
    requires kind.Meta? || kind.Chunk?
    ensures forall other :: BatchCount(M.Bump(c, kind, 0), other) == BatchCount(c, other)
  {
  }

  lemma {:induction false} ChunkAdded(chunks: seq<Option<Bytes>>, k: nat, payload: Bytes)
    requires k < |chunks| && chunks[k].None?
    ensures |Join(chunks[k := Some(payload)])| == |Join(chunks)| + |payload|
    ensures Present(chunks[k := Some(payload)]) == Present(chunks) + 1
  {
    var next, front := chunks[k := Some(payload)], chunks[..|chunks| - 1];
    if k == |chunks| - 1 {
      assert next[..|next| - 1] == front;
    } else {
      ChunkAdded(front, k, payload);
      assert next[..|next| - 1] == front[k := Some(payload)];
    }
  }

  lemma {:induction false} ObjectReplaced(objects: seq<Object>, i: nat, o: Object, family: M.Family)
    requires i < |objects| && o.family == objects[i].family
    ensures |EntriesFor(objects[i := o], family)| == |EntriesFor(objects, family)|
    ensures ChunksPresent(objects[i := o], family) == ChunksPresent(objects, family)
              + if o.family == family then Present(o.chunks) - Present(objects[i].chunks) else 0
  {
    var next, front := objects[i := o], objects[..|objects| - 1];
    if i == |objects| - 1 {
      assert next[..|next| - 1] == front;
    } else {
      ObjectReplaced(front, i, o, family);
      assert next[..|next| - 1] == front[i := o];
    }
  }

  lemma FilledObjectSound(v: Validators, objects: seq<Object>, i: nat, k: nat, payload: Bytes)
    requires SoundObjects(v, objects) && i < |objects| && k < |objects[i].chunks| && objects[i].chunks[k].None?
    ensures SoundObjects(v, objects[i := WithChunk(objects[i], k, payload)])
  {
    assert SoundObject(v, objects[i]);
    ChunkAdded(objects[i].chunks, k, payload);
  }

  lemma FilledObjectCounted(c: M.Counts, objects: seq<Object>, i: nat, o: Object)
    requires ObjectsCounted(c, objects) && i < |objects|
    requires o.family == objects[i].family && Present(o.chunks) == Present(objects[i].chunks) + 1
    ensures ObjectsCounted(M.Bump(c, M.Chunk(o.family), 0), objects[i := o])
  {
    var next := M.Bump(c, M.Chunk(o.family), 0);
    forall other
      ensures M.ObjectCount(next, other) == |EntriesFor(objects[i := o], other)|
      ensures M.ChunkCount(next, other) == ChunksPresent(objects[i := o], other)
    {
      ObjectReplaced(objects, i, o, other);
    }
  }

  lemma ChunkKeepsSound(v: Validators, a: Assembly, family: M.Family, objectId: string, r: Record)
    requires Sound(v, a) && AbsorbChunk(a, family, objectId, r).Some?
    ensures Sound(v, AbsorbChunk(a, family, objectId, r).value)
  {
    var i := IndexOf(a.objects, family, objectId);
    var k := r.header.chunkIndex.value;
    FilledObjectSound(v, a.objects, i, k, r.payload);
    ChunkAdded(a.objects[i].chunks, k, r.payload);
    FilledObjectCounted(a.counts, a.objects, i, WithChunk(a.objects[i], k, r.payload));
    SameBatchCounts(a.counts, M.Chunk(family));
  }

  lemma AbsorbKeepsSound(v: Validators, a: Assembly, r: Record)
    requires Sound(v, a) && Absorb(v, a, r).Some?
    ensures Sound(v, Absorb(v, a, r).value)
  {
    if r.header.kind != "manifest" {
      match KindOf(r.header.kind).value
      case Identity =>
      case Meta(family) => MetaKeepsSound(v, a, family, r.header.objectId.value, r.payload);
      case Chunk(family) => ChunkKeepsSound(v, a, family, r.header.objectId.value, r);
      case kind => BatchKeepsSound(v, a, kind, r.payload);
    }
  }

  lemma {:induction false} AssembleKeepsSound(v: Validators, a: Assembly, records: seq<Record>)
    requires Sound(v, a) && Assemble(v, a, records).Some?
    ensures Sound(v, Assemble(v, a, records).value)
    decreases |records|
  {
    if records == [] {
    } else {
      AssembleKeepsSound(v, a, records[..|records| - 1]);
      AbsorbKeepsSound(v, Assemble(v, a, records[..|records| - 1]).value, records[|records| - 1]);
    }
  }

  /**
   * What a reader of the file can rely on: every payload passed its validator, every object of a family
   * has its own id and all the bytes of all the chunks its meta record declared, and the manifest lists
   * exactly these objects and counts exactly these items.
   */
  ghost predicate Whole(v: Validators, h: ClearHeader.Header, c: Contents) {
    && v.identity(c.identity) && SoundItems(v, c.items) && SoundObjects(v, c.objects) && AllWhole(c.objects)
    && c.manifest.backupId == h.backupId && c.manifest.mode == h.mode && c.manifest.createdAt == h.createdAt
    && ItemsCounted(c.manifest.counts, c.items) && ObjectsCounted(c.manifest.counts, c.objects)
    && forall family :: multiset(M.EntriesOf(c.manifest.objects, family)) == multiset(EntriesFor(c.objects, family))
  }

  lemma NothingSound(v: Validators)
    ensures Sound(v, NOTHING)
  {
  }

  /** Whatever records a backup holds, in whatever order: once accepted, its contents are whole. */
  lemma AcceptedIsWhole(v: Validators, ids: (string, string) -> int, h: ClearHeader.Header, records: seq<Record>)
    requires Assemble(v, NOTHING, records).Some? && Finish(ids, h, Assemble(v, NOTHING, records).value).Some?
    ensures Whole(v, h, Finish(ids, h, Assemble(v, NOTHING, records).value).value)
  {
    var a := Assemble(v, NOTHING, records).value;
    var c := Finish(ids, h, a).value;
    NothingSound(v);
    AssembleKeepsSound(v, NOTHING, records);
    M.MatchIsEqualityUpToOrder(ids, c.manifest, ExpectedManifest(h, a));
    forall family
      ensures multiset(M.EntriesOf(c.manifest.objects, family)) == multiset(EntriesFor(c.objects, family))
    {
    }
  }
}
