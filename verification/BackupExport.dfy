/** The exporter as a whole: what it writes and tracks for its data, and what restoring the file gives back. */
module BackupExport {
  import opened Common
  import opened Constants
  import opened Chunking
  import opened CborOrder
  import opened CborCodec
  import opened CborObject
  import opened BackupContents
  import opened BackupFile
  import ClearHeader
  import M = Manifest
  import ManifestCodec
  import RecordHeader

  const BLOB_CHUNK_BYTES: nat := 256 * 1024

  /** One batch of a table, or one record with its blob; `meta` holds the fields that precede the chunking. */
  datatype Part =
    | BatchPart(kind: M.Kind, items: seq<Value>)
    | ObjectPart(family: M.Family, objectId: string, meta: seq<Field>, blob: Bytes)

  datatype Source = Source(identity: Value, parts: seq<Part>)

  // ---- Writing -----------------------------------------------------------------------------------------

  function ChunkCountOf(blob: Bytes): nat { ExpectedChunkCount(|blob|, BLOB_CHUNK_BYTES) }

  function BatchValue(items: seq<Value>): Value { Obj([Field("items", List(items))]) }

  function MetaValue(meta: seq<Field>, blob: Bytes): Value {
    Obj(meta + [Field("chunkSize", Int(BLOB_CHUNK_BYTES)), Field("chunkCount", Int(ChunkCountOf(blob)))])
  }

  /** What the encoder is given: JavaScript objects of 64-bit integers and texts made of UTF-8 bytes. */
  ghost predicate Sendable(v: Value) { Proper(v) && Encodable(v) }

  ghost predicate PartSendable(part: Part) {
    match part
    case BatchPart(kind, items) => IsBatch(kind) && Sendable(BatchValue(items))
    case ObjectPart(_, objectId, meta, blob) => EncodableKey(objectId) && Sendable(MetaValue(meta, blob))
  }

  function CborBytes(v: Value): Bytes
    requires Sendable(v)
  {
    CanonEncodable(v);
    EncodeCanonical(v)
  }

  function ChunkDraft(family: M.Family, objectId: string, blob: Bytes, n: nat, k: nat): Draft {
    Draft(NameOf(M.Chunk(family)), "bytes", Slice(blob, BLOB_CHUNK_BYTES, k), Some(objectId), Some(k), Some(n))
  }

  function ChunkDrafts(family: M.Family, objectId: string, blob: Bytes, n: nat, k: nat): (drafts: seq<Draft>)
    ensures |drafts| == k
  {
    if k == 0 then []
    else ChunkDrafts(family, objectId, blob, n, k - 1) + [ChunkDraft(family, objectId, blob, n, k - 1)]
  }

  function CborDraft(kind: M.Kind, objectId: Option<string>, v: Value): Draft
    requires Sendable(v)
  {
    Draft(NameOf(kind), "cbor", CborBytes(v), objectId, None, None)
  }

  function PartDrafts(part: Part): seq<Draft>
    requires PartSendable(part)
  {
    match part
    case BatchPart(kind, items) => if items == [] then [] else [CborDraft(kind, None, BatchValue(items))]
    case ObjectPart(family, objectId, meta, blob) =>
      [CborDraft(M.Meta(family), Some(objectId), MetaValue(meta, blob))]
      + ChunkDrafts(family, objectId, blob, ChunkCountOf(blob), ChunkCountOf(blob))
  }

  function PartCalls(part: Part): seq<M.Call> {
    match part
    case BatchPart(kind, items) => if items == [] then [] else [M.Call(kind, Some(|items|), None, None, None)]
    case ObjectPart(family, objectId, _, blob) =>
      [M.MetaCall(family, M.Entry(objectId, ChunkCountOf(blob), |blob|))] + M.ChunkRun(family, ChunkCountOf(blob))
  }

  ghost predicate PartsSendable(parts: seq<Part>) { forall i :: 0 <= i < |parts| ==> PartSendable(parts[i]) }

  function AllDrafts(parts: seq<Part>): seq<Draft>
    requires PartsSendable(parts)
  {
    if parts == [] then [] else AllDrafts(parts[..|parts| - 1]) + PartDrafts(parts[|parts| - 1])
  }

  const IDENTITY_CALL: M.Call := M.Call(M.Identity, None, None, None, None)

  function AllCalls(parts: seq<Part>): seq<M.Call> {
    if parts == [] then [IDENTITY_CALL] else AllCalls(parts[..|parts| - 1]) + PartCalls(parts[|parts| - 1])
  }

  /** An identity-only backup stops after the identity. */
  function PartsIn(mode: string, parts: seq<Part>): seq<Part> { if mode == "full" then parts else [] }

  function ManifestOf(input: ClearHeader.Input, source: Source): M.Payload {
    M.Build(M.TrackAll(AllCalls(PartsIn(input.mode, source.parts))),
            M.Summary(input.backupId, input.mode, input.createdAt, 0))
  }

  ghost predicate SourceSendable(input: ClearHeader.Input, source: Source) {
    && Sendable(source.identity) && PartsSendable(PartsIn(input.mode, source.parts))
    && ManifestCodec.ManifestFits(ManifestOf(input, source))
  }

  function ManifestDraft(p: M.Payload): Draft
    requires ManifestCodec.ManifestFits(p)
  {
    ManifestCodec.ManifestEncodable(p);
    Draft("manifest", "cbor", EncodeCanonical(ManifestCodec.ManifestValue(p)), None, None, None)
  }

  function SourceDrafts(input: ClearHeader.Input, source: Source): seq<Draft>
    requires SourceSendable(input, source)
  {
    [CborDraft(M.Identity, None, source.identity)] + AllDrafts(PartsIn(input.mode, source.parts))
    + [ManifestDraft(ManifestOf(input, source))]
  }

  predicate AllAccepted(calls: seq<M.Call>) { forall i :: 0 <= i < |calls| ==> M.Accepted(calls[i]) }

  /** The bytes of the whole backup, or `None` when tracking or writing a record throws. */
  function ExportSource(
    c: Crypto, passphrase: string, input: ClearHeader.Input, contentKey: Bytes, source: Source
  ): Option<Bytes>
    requires Lawful(c) && ClearHeader.Representable(input, []) && SourceSendable(input, source)
  {
    SourceRepresentable(input, source);
    if !AllAccepted(AllCalls(PartsIn(input.mode, source.parts))) then None
    else Export(c, passphrase, input, contentKey, SourceDrafts(input, source))
  }

  lemma {:induction false} ChunksRepresentable(family: M.Family, objectId: string, blob: Bytes, n: nat, k: nat)
    requires EncodableKey(objectId) && EncodableKey(NameOf(M.Chunk(family)))
    ensures DraftsRepresentable(ChunkDrafts(family, objectId, blob, n, k))
  {
    if k == 0 {
    } else {
      ChunksRepresentable(family, objectId, blob, n, k - 1);
    }
  }

  lemma PartRepresentable(part: Part)
    requires PartSendable(part)
    ensures DraftsRepresentable(PartDrafts(part))
  {
    match part
    case BatchPart(kind, _) => NamesEncodable(kind);
    case ObjectPart(family, objectId, _, blob) =>
      NamesEncodable(M.Meta(family));
      NamesEncodable(M.Chunk(family));
      ChunksRepresentable(family, objectId, blob, ChunkCountOf(blob), ChunkCountOf(blob));
  }

  lemma {:induction false} AllRepresentable(parts: seq<Part>)
    requires PartsSendable(parts)
    ensures DraftsRepresentable(AllDrafts(parts))
  {
    if parts == [] {
    } else {
      AllRepresentable(parts[..|parts| - 1]);
      PartRepresentable(parts[|parts| - 1]);
    }
  }

  lemma ManifestRepresentable(p: M.Payload)
    requires ManifestCodec.ManifestFits(p)
    ensures DraftsRepresentable([ManifestDraft(p)])
  {
  }

  lemma JoinedRepresentable(a: seq<Draft>, b: seq<Draft>)
    requires DraftsRepresentable(a) && DraftsRepresentable(b)
    ensures DraftsRepresentable(a + b)
  {
  }

  lemma SourceRepresentable(input: ClearHeader.Input, source: Source)
    requires SourceSendable(input, source)
    ensures DraftsRepresentable(SourceDrafts(input, source))
  {
    var parts, manifest := AllDrafts(PartsIn(input.mode, source.parts)), ManifestDraft(ManifestOf(input, source));
    var identity := CborDraft(M.Identity, None, source.identity);
    NamesEncodable(M.Identity);
    assert DraftsRepresentable([identity]);
    AllRepresentable(PartsIn(input.mode, source.parts));
    ManifestRepresentable(ManifestOf(input, source));
    JoinedRepresentable([identity], parts);
    JoinedRepresentable([identity] + parts, [manifest]);
  }

  // ---- Reading back one record ---------------------------------------------------------------------------

  lemma {:induction false} RecordsAt(drafts: seq<Draft>, index: nat)
    ensures |RecordsOf(drafts, index)| == |drafts|
    ensures forall i {:trigger RecordsOf(drafts, index)[i]} :: 0 <= i < |drafts| ==>
              RecordsOf(drafts, index)[i] == Record(WrittenHeader(drafts[i], index + i), drafts[i].payload)
    decreases |drafts|
  {
    if drafts == [] {
    } else {
      RecordsAt(drafts[1..], index + 1);
    }
  }

  lemma RecordsAppend(a: seq<Draft>, b: seq<Draft>, index: nat)
    ensures RecordsOf(a + b, index) == RecordsOf(a, index) + RecordsOf(b, index + |a|)
  {
    RecordsAt(a + b, index);
    RecordsAt(a, index);
    RecordsAt(b, index + |a|);
  }

  lemma AssembleAfter(v: Validators, a: Assembly, first: seq<Draft>, more: seq<Draft>, index: nat)
    ensures Assemble(v, a, RecordsOf(first + more, index))
         == match Assemble(v, a, RecordsOf(first, index))
            case None => None
            case Some(mid) => Assemble(v, mid, RecordsOf(more, index + |first|))
  {
    RecordsAppend(first, more, index);
    AssembleAppend(v, a, RecordsOf(first, index), RecordsOf(more, index + |first|));
  }

  lemma AssembleOne(v: Validators, a: Assembly, d: Draft, index: nat)
    ensures Assemble(v, a, RecordsOf([d], index)) == Absorb(v, a, Record(WrittenHeader(d, index), d.payload))
  {
    var records := RecordsOf([d], index);
    RecordsAt([d], index);
    assert records[..0] == [] && Assemble(v, a, records[..|records| - 1]) == Some(a);
  }

  lemma AbsorbNamed(v: Validators, a: Assembly, kind: M.Kind, r: Record)
    requires r.header.kind == NameOf(kind)
    ensures Absorb(v, a, r) == AbsorbKind(v, a, kind, r)
  {
    KindOfName(kind);
    NamesAreRecordTypes(kind);
  }

  // ---- Reading back one part -------------------------------------------------------------------------------

  predicate ItemsAccepted(v: Validators, kind: M.Kind, items: seq<Value>) { ValidItems(v, kind, CanonItems(items)) }

  /** The restore's verdict on a part alone, given by the payload validators. */
  predicate PartAccepted(v: Validators, part: Part) {
    match part
    case BatchPart(kind, items) => ItemsAccepted(v, kind, items)
    case ObjectPart(family, _, meta, blob) => ChunkCountOf(blob) < TWO32 && v.meta(family, Canon(MetaValue(meta, blob)))
  }

  /** An object after its first k chunks have been read. */
  function Filled(family: M.Family, objectId: string, meta: Value, blob: Bytes, n: nat, k: nat): Object {
    Object(family, objectId, meta, seq(n, (i: nat) => if i < k then Some(Slice(blob, BLOB_CHUNK_BYTES, i)) else None),
           |JoinSlices(blob, BLOB_CHUNK_BYTES, k)|)
  }

  function RestoredObject(family: M.Family, objectId: string, meta: seq<Field>, blob: Bytes): Object {
    Filled(family, objectId, Canon(MetaValue(meta, blob)), blob, ChunkCountOf(blob), ChunkCountOf(blob))
  }

  function BumpRun(c: M.Counts, family: M.Family, k: nat): M.Counts {
    if k == 0 then c else M.Bump(BumpRun(c, family, k - 1), M.Chunk(family), 0)
  }

  function Plus(a: Assembly, part: Part): Assembly {
    match part
    case BatchPart(kind, items) =>
      if items == [] then a
      else Counted(a.(items := a.items + Tagged(kind, CanonItems(items))), kind, |items|)
    case ObjectPart(family, objectId, meta, blob) =>
      var counted := Counted(a, M.Meta(family), 0);
      counted.(objects := a.objects + [RestoredObject(family, objectId, meta, blob)],
               counts := BumpRun(counted.counts, family, ChunkCountOf(blob)),
               records := counted.records + ChunkCountOf(blob))
  }

  lemma {:induction false} IndexOfLast(objects: seq<Object>, o: Object)
    requires IndexOf(objects, o.family, o.objectId) == |objects|
    ensures IndexOf(objects + [o], o.family, o.objectId) == |objects|
  {
    if objects == [] {
    } else {
      assert (objects + [o])[1..] == objects[1..] + [o];
      IndexOfLast(objects[1..], o);
    }
  }

  lemma AbsorbIntoLast(a: Assembly, front: seq<Object>, o: Object, r: Record)
    requires a.objects == front + [o] && IndexOf(front, o.family, o.objectId) == |front| && ChunkFits(o, r.header)
    ensures AbsorbChunk(a, o.family, o.objectId, r)
         == Some(Counted(a.(objects := front + [WithChunk(o, r.header.chunkIndex.value, r.payload)]),
                         M.Chunk(o.family), 0))
  {
    IndexOfLast(front, o);
    var next := WithChunk(o, r.header.chunkIndex.value, r.payload);
    assert a.objects[|front| := next] == front + [next];
  }

  lemma FilledNext(family: M.Family, objectId: string, meta: Value, blob: Bytes, n: nat, k: nat)
    requires k < n
    ensures WithChunk(Filled(family, objectId, meta, blob, n, k), k, Slice(blob, BLOB_CHUNK_BYTES, k))
         == Filled(family, objectId, meta, blob, n, k + 1)
  {
    var o, next := Filled(family, objectId, meta, blob, n, k), Filled(family, objectId, meta, blob, n, k + 1);
    assert o.chunks[k := Some(Slice(blob, BLOB_CHUNK_BYTES, k))] == next.chunks;
  }

  lemma ChunkRecord(family: M.Family, objectId: string, blob: Bytes, n: nat, k: nat, index: nat) returns (r: Record)
    requires objectId != ""
    ensures var d := ChunkDraft(family, objectId, blob, n, k); r == Record(WrittenHeader(d, index), d.payload)
    ensures r.header.kind == NameOf(M.Chunk(family)) && r.header.objectId == Some(objectId)
    ensures r.header.chunkIndex == Some(k) && r.header.chunkCount == Some(n)
    ensures r.payload == Slice(blob, BLOB_CHUNK_BYTES, k)
  {
    var d := ChunkDraft(family, objectId, blob, n, k);
    r := Record(WrittenHeader(d, index), d.payload);
  }

  lemma AbsorbsChunk(v: Validators, a: Assembly, family: M.Family, objectId: string, r: Record)
    requires r.header.objectId == Some(objectId)
    ensures AbsorbKind(v, a, M.Chunk(family), r) == AbsorbChunk(a, family, objectId, r)
  {
  }

  lemma ChunkAbsorbed(v: Validators, a: Assembly, front: seq<Object>, o: Object, n: nat, k: nat, r: Record)
    requires k < n == |o.chunks| && o.chunks[k].None?
    requires a.objects == front + [o] && IndexOf(front, o.family, o.objectId) == |front|
    requires r.header.kind == NameOf(M.Chunk(o.family)) && r.header.objectId == Some(o.objectId)
    requires r.header.chunkIndex == Some(k) && r.header.chunkCount == Some(n)
    ensures Absorb(v, a, r) == Some(Counted(a.(objects := front + [WithChunk(o, k, r.payload)]), M.Chunk(o.family), 0))
  {
    AbsorbNamed(v, a, M.Chunk(o.family), r);
    AbsorbsChunk(v, a, o.family, o.objectId, r);
    AbsorbIntoLast(a, front, o, r);
  }

  /** The state after k chunks of the last object. */
  function AfterChunks(a: Assembly, front: seq<Object>, o: Object, k: nat): Assembly {
    a.(objects := front + [o], counts := BumpRun(a.counts, o.family, k), records := a.records + k)
  }

  lemma AssembleStep(
    v: Validators, a: Assembly, mid: Assembly, next: Assembly, before: seq<Draft>, last: Draft, index: nat
  )
    requires Assemble(v, a, RecordsOf(before, index)) == Some(mid)
    requires Absorb(v, mid, Record(WrittenHeader(last, index + |before|), last.payload)) == Some(next)
    ensures Assemble(v, a, RecordsOf(before + [last], index)) == Some(next)
  {
    AssembleAfter(v, a, before, [last], index);
    AssembleOne(v, mid, last, index + |before|);
  }

  lemma AfterOneMore(a: Assembly, front: seq<Object>, o: Object, next: Object, k: nat)
    requires next.family == o.family
    ensures Counted(AfterChunks(a, front, o, k).(objects := front + [next]), M.Chunk(o.family), 0)
         == AfterChunks(a, front, next, k + 1)
  {
  }

  lemma NextChunkAbsorbed(
    v: Validators, a: Assembly, front: seq<Object>, family: M.Family, objectId: string, meta: Value, blob: Bytes,
    n: nat,
    k: nat, next: nat, index: nat
  )
    requires k < n && next == k + 1 && objectId != "" && IndexOf(front, family, objectId) == |front|
    requires Assemble(v, a, RecordsOf(ChunkDrafts(family, objectId, blob, n, k), index))
          == Some(AfterChunks(a, front, Filled(family, objectId, meta, blob, n, k), k))
    ensures Assemble(v, a, RecordsOf(ChunkDrafts(family, objectId, blob, n, next), index))
         == Some(AfterChunks(a, front, Filled(family, objectId, meta, blob, n, next), next))
  {
    var before, o := ChunkDrafts(family, objectId, blob, n, k), Filled(family, objectId, meta, blob, n, k);
    var last, filled := ChunkDraft(family, objectId, blob, n, k), Filled(family, objectId, meta, blob, n, next);
    var r := ChunkRecord(family, objectId, blob, n, k, index + |before|);
    ChunkAbsorbed(v, AfterChunks(a, front, o, k), front, o, n, k, r);
    FilledNext(family, objectId, meta, blob, n, k);
    AfterOneMore(a, front, o, filled, k);
    AssembleStep(v, a, AfterChunks(a, front, o, k), AfterChunks(a, front, filled, next), before, last, index);
  }

  lemma {:induction false} ChunksAbsorbed(
    v: Validators, a: Assembly, front: seq<Object>, family: M.Family, objectId: string, meta: Value, blob: Bytes,
    n: nat,
    k: nat, index: nat
  )
    requires k <= n && objectId != "" && IndexOf(front, family, objectId) == |front|
    requires a.objects == front + [Filled(family, objectId, meta, blob, n, 0)]
    ensures Assemble(v, a, RecordsOf(ChunkDrafts(family, objectId, blob, n, k), index))
         == Some(AfterChunks(a, front, Filled(family, objectId, meta, blob, n, k), k))
    decreases k
  {
    if k == 0 {
      assert ChunkDrafts(family, objectId, blob, n, 0) == [];
    } else {
      ChunksAbsorbed(v, a, front, family, objectId, meta, blob, n, k - 1, index);
      NextChunkAbsorbed(v, a, front, family, objectId, meta, blob, n, k - 1, k, index);
    }
  }

  lemma MetaReads(meta: seq<Field>, blob: Bytes)
    requires Proper(MetaValue(meta, blob))
    ensures Get(CanonObject(MetaValue(meta, blob).fields), "chunkSize") == Int(BLOB_CHUNK_BYTES)
    ensures Get(CanonObject(MetaValue(meta, blob).fields), "chunkCount") == Int(ChunkCountOf(blob))
  {
    var f := MetaValue(meta, blob).fields;
    assert f[|meta|] == Field("chunkSize", Int(BLOB_CHUNK_BYTES)) &&
             f[|meta| + 1] == Field("chunkCount", Int(ChunkCountOf(blob)));
    GetCanon(f, |meta|);
    GetCanon(f, |meta| + 1);
  }

  predicate NewObject(objects: seq<Object>, family: M.Family, objectId: string) {
    IndexOf(objects, family, objectId) == |objects|
  }

  /** A part is read back exactly when its validators accept it and its object is new to its family. */
  predicate PartFits(v: Validators, a: Assembly, part: Part) {
    PartAccepted(v, part) && (part.ObjectPart? ==> NewObject(a.objects, part.family, part.objectId))
  }

  /** The state once the meta record has been read. */
  function AfterMeta(a: Assembly, part: Part): Assembly
    requires part.ObjectPart?
  {
    var meta, n := Canon(MetaValue(part.meta, part.blob)), ChunkCountOf(part.blob);
    Counted(a.(objects := a.objects + [Filled(part.family, part.objectId, meta, part.blob, n, 0)]),
            M.Meta(part.family), 0)
  }

  lemma MetaAbsorbed(
    v: Validators, a: Assembly, family: M.Family, objectId: string, meta: seq<Field>, blob: Bytes, index: nat
  )
    requires Sendable(MetaValue(meta, blob)) && objectId != "" && IsPositiveSafeInteger(ChunkCountOf(blob))
    ensures var d, part := CborDraft(M.Meta(family), Some(objectId), MetaValue(meta, blob)),
              ObjectPart(family, objectId, meta, blob);
            && Absorb(v, a, Record(WrittenHeader(d, index), d.payload))
            == if PartFits(v, a, part) then Some(AfterMeta(a, part)) else None
  {
    var d, n, value := CborDraft(M.Meta(family), Some(objectId), MetaValue(meta, blob)), ChunkCountOf(blob),
        MetaValue(meta, blob);
    AbsorbNamed(v, a, M.Meta(family), Record(WrittenHeader(d, index), d.payload));
    CborReads(value);
    MetaReads(meta, blob);
    EmptyIsUnfilled(family, objectId, Canon(value), blob, n);
  }

  lemma EmptyIsUnfilled(family: M.Family, objectId: string, meta: Value, blob: Bytes, n: nat)
    ensures EmptyObject(family, objectId, meta, n) == Filled(family, objectId, meta, blob, n, 0)
  {
    assert EmptyObject(family, objectId, meta, n).chunks == Filled(family, objectId, meta, blob, n, 0).chunks;
  }

  lemma CborReads(value: Value)
    requires Sendable(value)
    ensures DecodeCbor(CborBytes(value)) == Some(Canon(value))
  {
    CanonicalRoundTrip(value);
  }

  lemma BatchReads(items: seq<Value>)
    requires Sendable(BatchValue(items))
    ensures Canon(BatchValue(items)).Obj? && |CanonItems(items)| == |items|
    ensures Get(Canon(BatchValue(items)).fields, "items") == List(CanonItems(items))
  {
    GetCanon(BatchValue(items).fields, 0);
    CanonItemsAt(items);
  }

  lemma AbsorbsBatch(v: Validators, a: Assembly, kind: M.Kind, r: Record, value: Value, items: seq<Value>)
    requires IsBatch(kind) && DecodeCbor(r.payload) == Some(value) && value.Obj?
    requires Get(value.fields, "items") == List(items)
    ensures AbsorbKind(v, a, kind, r)
         == if ValidItems(v, kind, items) then Some(Counted(a.(items := a.items + Tagged(kind, items)), kind, |items|))
            else None
  {
  }

  lemma BatchAbsorbed(v: Validators, a: Assembly, kind: M.Kind, items: seq<Value>, r: Record)
    requires IsBatch(kind) && Sendable(BatchValue(items)) && r.header.kind == NameOf(kind)
    requires DecodeCbor(r.payload) == Some(Canon(BatchValue(items)))
    ensures Absorb(v, a, r)
         == if ItemsAccepted(v, kind, items)
            then Some(Counted(a.(items := a.items + Tagged(kind, CanonItems(items))), kind, |items|))
            else None
  {
    AbsorbNamed(v, a, kind, r);
    BatchReads(items);
    AbsorbsBatch(v, a, kind, r, Canon(BatchValue(items)), CanonItems(items));
  }

  lemma IdentityAbsorbed(v: Validators, identity: Value, index: nat)
    requires Sendable(identity)
    ensures var d := CborDraft(M.Identity, None, identity);
            && Absorb(v, NOTHING, Record(WrittenHeader(d, index), d.payload))
            == if v.identity(Canon(identity)) then
                 Some(Counted(NOTHING.(identity := Some(Canon(identity))), M.Identity, 0)) else None
  {
    var d := CborDraft(M.Identity, None, identity);
    AbsorbNamed(v, NOTHING, M.Identity, Record(WrittenHeader(d, index), d.payload));
    CanonicalRoundTrip(identity);
  }

  /** Reading what was written for some drafts, from state a on, succeeds exactly if `fits` and then ends in `end`. */
  ghost predicate Reads(v: Validators, a: Assembly, drafts: seq<Draft>, index: nat, fits: bool, end: Assembly) {
    Assemble(v, a, RecordsOf(drafts, index)) == if fits then Some(end) else None
  }

  lemma PartReads(v: Validators, a: Assembly, part: Part, index: nat)
    requires PartSendable(part) && AllAccepted(PartCalls(part))
    ensures Reads(v, a, PartDrafts(part), index, PartFits(v, a, part), Plus(a, part))
  {
    match part
    case BatchPart(kind, items) =>
      if items == [] {
      } else {
        var d := CborDraft(kind, None, BatchValue(items));
        AssembleOne(v, a, d, index);
        CborReads(BatchValue(items));
        BatchAbsorbed(v, a, kind, items, Record(WrittenHeader(d, index), d.payload));
      }
    case ObjectPart(family, objectId, meta, blob) => ObjectReads(v, a, family, objectId, meta, blob, index);
  }

  lemma PlusIsAfterChunks(a: Assembly, family: M.Family, objectId: string, meta: seq<Field>, blob: Bytes, o: Object)
    requires o.family == family
    ensures AfterChunks(Counted(a.(objects := a.objects + [o]), M.Meta(family), 0), a.objects,
                        RestoredObject(family, objectId, meta, blob), ChunkCountOf(blob))
         == Plus(a, ObjectPart(family, objectId, meta, blob))
  {
  }

  lemma ObjectReads(
    v: Validators, a: Assembly, family: M.Family, objectId: string, meta: seq<Field>, blob: Bytes, index: nat
  )
    requires PartSendable(ObjectPart(family, objectId, meta, blob))
    requires AllAccepted(PartCalls(ObjectPart(family, objectId, meta, blob)))
    ensures var part := ObjectPart(family, objectId, meta, blob);
            && Assemble(v, a, RecordsOf(PartDrafts(part), index))
              == if PartFits(v, a, part) then Some(Plus(a, part)) else None
  {
    var n, part := ChunkCountOf(blob), ObjectPart(family, objectId, meta, blob);
    var first, chunks := CborDraft(M.Meta(family), Some(objectId), MetaValue(meta, blob)),
        ChunkDrafts(family, objectId, blob, n, n);
    assert M.Accepted(PartCalls(part)[0]);
    MetaAbsorbed(v, a, family, objectId, meta, blob, index);
    ObjectReadsFrom(v, a, part, first, chunks, index);
  }

  lemma ObjectReadsFrom(v: Validators, a: Assembly, part: Part, first: Draft, chunks: seq<Draft>, index: nat)
    requires part.ObjectPart? && part.objectId != ""
    requires chunks
               == ChunkDrafts(part.family, part.objectId, part.blob, ChunkCountOf(part.blob), ChunkCountOf(part.blob))
    requires Absorb(v, a, Record(WrittenHeader(first, index), first.payload))
          == if PartFits(v, a, part) then Some(AfterMeta(a, part)) else None
    ensures Assemble(v, a, RecordsOf([first] + chunks, index))
              == if PartFits(v, a, part) then Some(Plus(a, part)) else None
  {
    AssembleAfter(v, a, [first], chunks, index);
    AssembleOne(v, a, first, index);
    if PartFits(v, a, part) {
      ChunksAfterMeta(v, a, part, chunks, index + 1);
    }
  }

  lemma ChunksAfterMeta(v: Validators, a: Assembly, part: Part, chunks: seq<Draft>, index: nat)
    requires part.ObjectPart? && part.objectId != "" && PartFits(v, a, part)
    requires chunks
               == ChunkDrafts(part.family, part.objectId, part.blob, ChunkCountOf(part.blob), ChunkCountOf(part.blob))
    ensures Assemble(v, AfterMeta(a, part), RecordsOf(chunks, index)) == Some(Plus(a, part))
  {
    var n, meta := ChunkCountOf(part.blob), Canon(MetaValue(part.meta, part.blob));
    ChunksAbsorbed(v, AfterMeta(a, part), a.objects, part.family, part.objectId, meta, part.blob, n, n, index);
    PlusIsAfterChunks(a, part.family, part.objectId, part.meta, part.blob,
                      Filled(part.family, part.objectId, meta, part.blob, n, 0));
  }

  // ---- Reading back every part -----------------------------------------------------------------------------

  function PlusAll(a: Assembly, parts: seq<Part>): Assembly {
    if parts == [] then a else Plus(PlusAll(a, parts[..|parts| - 1]), parts[|parts| - 1])
  }

  predicate PartsFit(v: Validators, a: Assembly, parts: seq<Part>) {
    parts == [] ||
      (PartsFit(v, a, parts[..|parts| - 1]) && PartFits(v, PlusAll(a, parts[..|parts| - 1]), parts[|parts| - 1]))
  }

  lemma BothAccepted(first: seq<M.Call>, last: seq<M.Call>)
    requires AllAccepted(first + last)
    ensures AllAccepted(first) && AllAccepted(last)
  {
    forall i | 0 <= i < |first|
      ensures M.Accepted(first[i])
    {
      assert M.Accepted((first + last)[i]);
    }
    forall i | 0 <= i < |last|
      ensures M.Accepted(last[i])
    {
      assert M.Accepted((first + last)[|first| + i]);
    }
  }

  lemma LastAccepted(parts: seq<Part>)
    requires parts != [] && AllAccepted(AllCalls(parts))
    ensures AllAccepted(AllCalls(parts[..|parts| - 1])) && AllAccepted(PartCalls(parts[|parts| - 1]))
  {
    BothAccepted(AllCalls(parts[..|parts| - 1]), PartCalls(parts[|parts| - 1]));
  }

  lemma BothRead(
    v: Validators, a: Assembly, first: seq<Draft>, more: seq<Draft>, index: nat, at: nat, firstFits: bool,
    mid: Assembly,
    moreFits: bool, end: Assembly
  )
    requires at == index + |first|
    requires Reads(v, a, first, index, firstFits, mid) && Reads(v, mid, more, at, moreFits, end)
    ensures Reads(v, a, first + more, index, firstFits && moreFits, end)
  {
    AssembleAfter(v, a, first, more, index);
  }

  lemma {:induction false} PartsRead(v: Validators, a: Assembly, parts: seq<Part>, index: nat)
    requires PartsSendable(parts) && AllAccepted(AllCalls(parts))
    ensures Reads(v, a, AllDrafts(parts), index, PartsFit(v, a, parts), PlusAll(a, parts))
  {
    if parts == [] {
    } else {
      var front, last := parts[..|parts| - 1], parts[|parts| - 1];
      LastAccepted(parts);
      PartsRead(v, a, front, index);
      var mid, first := PlusAll(a, front), AllDrafts(front);
      var at := index + |first|;
      PartReads(v, mid, last, at);
      BothRead(v, a, first, PartDrafts(last), index, at, PartsFit(v, a, front), mid, PartFits(v, mid, last),
               Plus(mid, last));
    }
  }

  function RestoredItems(parts: seq<Part>): seq<BackupItem> {
    if parts == [] then []
    else
      var last := parts[|parts| - 1];
      RestoredItems(parts[..|parts| - 1]) + if last.BatchPart? then Tagged(last.kind, CanonItems(last.items)) else []
  }

  function RestoredObjects(parts: seq<Part>): seq<Object> {
    if parts == [] then []
    else
      var last := parts[|parts| - 1];
      RestoredObjects(parts[..|parts| - 1])
      + if last.ObjectPart? then [RestoredObject(last.family, last.objectId, last.meta, last.blob)] else []
  }

  lemma {:induction false} PlusAllHolds(a: Assembly, parts: seq<Part>)
    requires a.items == [] && a.objects == []
    ensures PlusAll(a, parts).items == RestoredItems(parts) && PlusAll(a, parts).objects == RestoredObjects(parts)
    ensures PlusAll(a, parts).identity == a.identity && PlusAll(a, parts).manifest == a.manifest
  {
    if parts == [] {
    } else {
      PlusAllHolds(a, parts[..|parts| - 1]);
    }
  }

  predicate Clash(part: Part, family: M.Family, objectId: string) {
    part.ObjectPart? && part.family == family && part.objectId == objectId
  }

  /** No two parts are objects of one family with one id. */
  predicate DistinctParts(parts: seq<Part>) {
    forall i, j :: 0 <= i < j < |parts| && parts[j].ObjectPart? ==> !Clash(parts[i], parts[j].family, parts[j].objectId)
  }

  predicate NoClash(parts: seq<Part>, family: M.Family, objectId: string) {
    forall i :: 0 <= i < |parts| ==> !Clash(parts[i], family, objectId)
  }

  lemma NoClashAppend(front: seq<Part>, last: Part, family: M.Family, objectId: string)
    ensures NoClash(front + [last], family, objectId) <==>
              NoClash(front, family, objectId) && !Clash(last, family, objectId)
  {
    var parts := front + [last];
    assert forall i :: 0 <= i < |front| ==> parts[i] == front[i];
    assert parts[|front|] == last;
  }

  lemma {:induction false} RestoredIds(parts: seq<Part>, family: M.Family, objectId: string)
    ensures NewObject(RestoredObjects(parts), family, objectId) <==> NoClash(parts, family, objectId)
  {
    if parts == [] {
    } else {
      var front, last := parts[..|parts| - 1], parts[|parts| - 1];
      RestoredIds(front, family, objectId);
      NoClashAppend(front, last, family, objectId);
      assert parts == front + [last];
      if last.ObjectPart? {
        var o := RestoredObject(last.family, last.objectId, last.meta, last.blob);
        IndexOfAppend(RestoredObjects(front), o, family, objectId);
      } else {
        assert RestoredObjects(parts) == RestoredObjects(front) + [];
        assert RestoredObjects(front) + [] == RestoredObjects(front);
      }
    }
  }

  lemma IndexOfAppend(objects: seq<Object>, o: Object, family: M.Family, objectId: string)
    ensures NewObject(objects + [o], family, objectId)
       <==> NewObject(objects, family, objectId) && (o.family != family || o.objectId != objectId)
  {
    var all := objects + [o];
    assert forall k :: 0 <= k < |objects| ==> all[k] == objects[k];
    assert all[|objects|] == o;
  }

  lemma {:induction false} PartsFitIff(v: Validators, a: Assembly, parts: seq<Part>)
    requires a.items == [] && a.objects == []
    ensures PartsFit(v, a, parts) <==>
              (forall i :: 0 <= i < |parts| ==> PartAccepted(v, parts[i])) && DistinctParts(parts)
  {
    if parts == [] {
    } else {
      var front, last := parts[..|parts| - 1], parts[|parts| - 1];
      PartsFitIff(v, a, front);
      PlusAllHolds(a, front);
      assert parts == front + [last];
      if last.ObjectPart? {
        RestoredIds(front, last.family, last.objectId);
      }
      DistinctAppend(front, last);
    }
  }

  lemma DistinctAppend(front: seq<Part>, last: Part)
    ensures DistinctParts(front + [last]) <==>
            && DistinctParts(front)
            && (last.ObjectPart? ==> NoClash(front, last.family, last.objectId))
  {
    var parts := front + [last];
    assert forall i :: 0 <= i < |front| ==> parts[i] == front[i];
    assert parts[|front|] == last;
  }

  // ---- The blobs -------------------------------------------------------------------------------------------

  lemma {:induction false} JoinFilled(family: M.Family, objectId: string, meta: Value, blob: Bytes, n: nat, k: nat)
    requires k <= n
    ensures Join(Filled(family, objectId, meta, blob, n, n).chunks[..k]) == JoinSlices(blob, BLOB_CHUNK_BYTES, k)
  {
    var chunks := Filled(family, objectId, meta, blob, n, n).chunks;
    if k == 0 {
    } else {
      JoinFilled(family, objectId, meta, blob, n, k - 1);
      assert chunks[..k][..k - 1] == chunks[..k - 1];
    }
  }

  lemma AllSlices(blob: Bytes)
    ensures JoinSlices(blob, BLOB_CHUNK_BYTES, ChunkCountOf(blob)) == blob
  {
    if blob == [] {
      JoinSlicesIsPrefix(blob, BLOB_CHUNK_BYTES, ChunkCountOf(blob));
    } else {
      SlicesRebuildFile(blob, BLOB_CHUNK_BYTES);
    }
  }

  /** A restored object has every chunk, and its chunks joined are the blob that was exported, empty blobs included. */
  lemma BlobRestored(family: M.Family, objectId: string, meta: seq<Field>, blob: Bytes)
    ensures var o := RestoredObject(family, objectId, meta, blob);
            WholeObject(o) && Join(o.chunks) == blob && o.totalBytes == |blob| && |o.chunks| == ChunkCountOf(blob)
  {
    var o, n := RestoredObject(family, objectId, meta, blob), ChunkCountOf(blob);
    JoinFilled(family, objectId, Canon(MetaValue(meta, blob)), blob, n, n);
    assert o.chunks[..n] == o.chunks;
    AllSlices(blob);
  }

  lemma {:induction false} AllRestoredWhole(parts: seq<Part>)
    ensures AllWhole(RestoredObjects(parts))
  {
    if parts == [] {
    } else {
      var last := parts[|parts| - 1];
      AllRestoredWhole(parts[..|parts| - 1]);
      if last.ObjectPart? {
        BlobRestored(last.family, last.objectId, last.meta, last.blob);
      }
    }
  }

  // ---- The manifest ------------------------------------------------------------------------------------------

  /** What the exporter tracked and what the restore counted. */
  ghost predicate Agrees(s: M.State, a: Assembly) {
    s.counts == a.counts && s.tracked == a.records && forall family ::
      M.EntriesOf(s.objects, family) == EntriesFor(a.objects, family)
  }

  lemma {:induction false} TrackRun(calls: seq<M.Call>, family: M.Family, k: nat)
    ensures var s := M.TrackAll(calls);
            M.TrackAll(calls + M.ChunkRun(family, k)) == M.State(BumpRun(s.counts, family, k), s.objects, s.tracked + k)
  {
    if k == 0 {
      assert calls + M.ChunkRun(family, k) == calls;
    } else {
      TrackRun(calls, family, k - 1);
      var last := M.Call(M.Chunk(family), None, None, None, None);
      assert calls + M.ChunkRun(family, k) == (calls + M.ChunkRun(family, k - 1)) + [last];
      M.TrackOne(calls + M.ChunkRun(family, k - 1), last);
    }
  }

  lemma BatchAgrees(calls: seq<M.Call>, a: Assembly, kind: M.Kind, items: seq<Value>)
    requires Agrees(M.TrackAll(calls), a) && IsBatch(kind) && AllAccepted(PartCalls(BatchPart(kind, items)))
    ensures Agrees(M.TrackAll(calls + PartCalls(BatchPart(kind, items))), Plus(a, BatchPart(kind, items)))
  {
    if items == [] {
      assert calls + [] == calls;
    } else {
      var call := M.Call(kind, Some(|items|), None, None, None);
      assert PartCalls(BatchPart(kind, items)) == [call];
      assert M.Accepted(PartCalls(BatchPart(kind, items))[0]);
      M.TrackOne(calls, call);
    }
  }

  lemma MetaAgrees(s: M.State, a: Assembly, family: M.Family, e: M.Entry, o: Object)
    requires Agrees(s, a) && M.Accepted(M.MetaCall(family, e)) && o.family == family && EntryOf(o) == e
    ensures Agrees(M.Track(s, M.MetaCall(family, e)), Counted(a.(objects := a.objects + [o]), M.Meta(family), 0))
  {
    var t := M.Track(s, M.MetaCall(family, e));
    forall other
      ensures M.EntriesOf(t.objects, other) == EntriesFor(a.objects + [o], other)
    {
      ObjectAdded(a.objects, o, other);
      assert M.EntriesOf(t.objects, other) == M.EntriesOf(s.objects, other) + if other == family then [e] else [];
    }
  }

  lemma ObjectAgrees(calls: seq<M.Call>, a: Assembly, family: M.Family, objectId: string, meta: seq<Field>, blob: Bytes)
    requires Agrees(M.TrackAll(calls), a) && AllAccepted(PartCalls(ObjectPart(family, objectId, meta, blob)))
    ensures var part := ObjectPart(family, objectId, meta, blob);
            Agrees(M.TrackAll(calls + PartCalls(part)), Plus(a, part))
  {
    var part, n := ObjectPart(family, objectId, meta, blob), ChunkCountOf(blob);
    var first, run := M.MetaCall(family, M.Entry(objectId, n, |blob|)), M.ChunkRun(family, n);
    assert M.Accepted(PartCalls(part)[0]);
    assert calls + PartCalls(part) == (calls + [first]) + run;
    M.TrackOne(calls, first);
    TrackRun(calls + [first], family, n);
    AllSlices(blob);
    MetaAgrees(M.TrackAll(calls), a, family, M.Entry(objectId, n, |blob|),
               RestoredObject(family, objectId, meta, blob));
  }

  /** The state of the restore once the identity has been read. */
  function Started(identity: Value): Assembly { Counted(NOTHING.(identity := Some(Canon(identity))), M.Identity, 0) }

  lemma {:induction false} PartsAgree(identity: Value, parts: seq<Part>)
    requires PartsSendable(parts) && AllAccepted(AllCalls(parts))
    ensures Agrees(M.TrackAll(AllCalls(parts)), PlusAll(Started(identity), parts))
  {
    if parts == [] {
      assert [IDENTITY_CALL][..0] == [];
      assert M.TrackAll([IDENTITY_CALL]) == M.Track(M.INITIAL, IDENTITY_CALL);
    } else {
      var front, last := parts[..|parts| - 1], parts[|parts| - 1];
      LastAccepted(parts);
      PartsAgree(identity, front);
      assert PartSendable(last);
      match last
      case BatchPart(kind, items) => BatchAgrees(AllCalls(front), PlusAll(Started(identity), front), kind, items);
      case ObjectPart(family, objectId, meta, blob) =>
        ObjectAgrees(AllCalls(front), PlusAll(Started(identity), front), family, objectId, meta, blob);
    }
  }

  lemma {:induction false} CallsBalance(parts: seq<Part>, family: M.Family)
    requires PartsSendable(parts) && AllAccepted(AllCalls(parts))
    ensures M.ChunkCalls(AllCalls(parts), family) == M.DeclaredChunks(AllCalls(parts), family)
  {
    if parts == [] {
      assert [IDENTITY_CALL][..0] == [];
    } else {
      var front, last := parts[..|parts| - 1], parts[|parts| - 1];
      LastAccepted(parts);
      CallsBalance(front, family);
      assert PartSendable(last);
      PartBalances(last, family);
      M.TalliesAppend(AllCalls(front), PartCalls(last), family);
    }
  }

  lemma PartBalances(part: Part, family: M.Family)
    requires PartSendable(part) && AllAccepted(PartCalls(part))
    ensures M.ChunkCalls(PartCalls(part), family) == M.DeclaredChunks(PartCalls(part), family)
  {
    match part
    case BatchPart(kind, items) => M.BatchesBalance(PartCalls(part), family);
    case ObjectPart(of, objectId, _, blob) =>
      assert M.Accepted(PartCalls(part)[0]);
      M.ObjectBalances(of, M.Entry(objectId, ChunkCountOf(blob), |blob|), family);
  }

  /** The exporter's own manifest validates exactly when its numbers are safe integers. */
  lemma ManifestValidIff(input: ClearHeader.Input, source: Source)
    requires SourceSendable(input, source) && AllAccepted(AllCalls(PartsIn(input.mode, source.parts)))
    requires M.ValidSummary(SummaryOf(ManifestOf(input, source)))
    ensures var p := ManifestOf(input, source);
            && M.ValidateManifestPayload(p, SummaryOf(p))
            <==> M.SafeCounts(p.counts) && IsPositiveSafeInteger(p.totalRecordCount)
  {
    var p, calls := ManifestOf(input, source), AllCalls(PartsIn(input.mode, source.parts));
    var summary := M.Summary(input.backupId, input.mode, input.createdAt, 0);
    M.AllCounted(calls);
    M.TotalsTracked(calls);
    forall family
      ensures M.ChunkCalls(calls, family) == M.DeclaredChunks(calls, family)
    {
      CallsBalance(PartsIn(input.mode, source.parts), family);
    }
    if M.SafeCounts(p.counts) && IsPositiveSafeInteger(p.totalRecordCount) {
      M.AcceptedCallsManifest(calls, summary);
      assert SummaryOf(p) == summary.(totalRecordCount := |calls| + 1);
    }
  }

  // ---- Every written record is good ---------------------------------------------------------------------------

  /** Whenever its header can be built, the record is one the pipeline accepts. */
  ghost predicate GoodOnceBuilt(d: Draft, mode: string) {
    forall index: nat {:trigger HeaderOfDraft(d, index)} ::
      RecordHeader.Buildable(HeaderOfDraft(d, index)) ==> GoodDraft(d, index, mode)
  }

  ghost predicate AllGoodOnceBuilt(drafts: seq<Draft>, mode: string) {
    forall i :: 0 <= i < |drafts| ==> GoodOnceBuilt(drafts[i], mode) && drafts[i].kind != "manifest"
  }

  lemma FirstIsWritten(c: Crypto, key: Bytes, prefix: Bytes, drafts: seq<Draft>, index: nat)
    requires drafts != [] && DraftsRepresentable(drafts) && WriteRecords(c, key, prefix, drafts, index).Some?
    ensures RecordHeader.Buildable(HeaderOfDraft(drafts[0], index)) && DraftsRepresentable(drafts[1..])
    ensures WriteRecords(c, key, prefix, drafts[1..], index + 1).Some?
  {
    FirstRepresentable(drafts);
  }

  lemma {:induction false} WrittenIsGood(
    c: Crypto, key: Bytes, prefix: Bytes, drafts: seq<Draft>, last: Draft, index: nat, mode: string
  )
    requires DraftsRepresentable(drafts + [last]) && WriteRecords(c, key, prefix, drafts + [last], index).Some?
    requires AllGoodOnceBuilt(drafts, mode) && GoodOnceBuilt(last, mode)
    ensures GoodDrafts(drafts + [last], index, mode)
    decreases |drafts|
  {
    var all, next := drafts + [last], index + 1;
    FirstIsWritten(c, key, prefix, all, index);
    if drafts == [] {
      assert all[1..] == [];
    } else {
      assert all[1..] == drafts[1..] + [last] && all[0] == drafts[0];
      WrittenIsGood(c, key, prefix, drafts[1..], last, next, mode);
    }
  }

  lemma CborDraftGood(kind: M.Kind, objectId: Option<string>, v: Value, mode: string)
    requires Sendable(v) && !kind.Chunk? && objectId != Some("") && (kind.Meta? ==> objectId.Some?)
    requires mode == "full" || kind.Identity?
    ensures GoodOnceBuilt(CborDraft(kind, objectId, v), mode) && CborDraft(kind, objectId, v).kind != "manifest"
  {
    NamesAreRecordTypes(kind);
    NamesOfChunks(kind);
    NamesOfOthers(kind);
  }

  lemma ChunkDraftGood(family: M.Family, objectId: string, blob: Bytes, n: nat, k: nat)
    requires objectId != ""
    ensures GoodOnceBuilt(ChunkDraft(family, objectId, blob, n, k), "full")
    ensures ChunkDraft(family, objectId, blob, n, k).kind != "manifest"
  {
    NamesAreRecordTypes(M.Chunk(family));
    NamesOfChunks(M.Chunk(family));
  }

  lemma {:induction false} ChunkDraftsGood(family: M.Family, objectId: string, blob: Bytes, n: nat, k: nat)
    requires objectId != ""
    ensures AllGoodOnceBuilt(ChunkDrafts(family, objectId, blob, n, k), "full")
  {
    if k == 0 {
    } else {
      ChunkDraftsGood(family, objectId, blob, n, k - 1);
      ChunkDraftGood(family, objectId, blob, n, k - 1);
    }
  }

  lemma PartDraftsGood(part: Part)
    requires PartSendable(part) && AllAccepted(PartCalls(part))
    ensures AllGoodOnceBuilt(PartDrafts(part), "full")
  {
    match part
    case BatchPart(kind, items) =>
      if items != [] {
        CborDraftGood(kind, None, BatchValue(items), "full");
      }
    case ObjectPart(family, objectId, meta, blob) =>
      assert M.Accepted(PartCalls(part)[0]);
      CborDraftGood(M.Meta(family), Some(objectId), MetaValue(meta, blob), "full");
      ChunkDraftsGood(family, objectId, blob, ChunkCountOf(blob), ChunkCountOf(blob));
  }

  lemma {:induction false} AllDraftsGood(parts: seq<Part>)
    requires PartsSendable(parts) && AllAccepted(AllCalls(parts))
    ensures AllGoodOnceBuilt(AllDrafts(parts), "full")
  {
    if parts == [] {
    } else {
      LastAccepted(parts);
      AllDraftsGood(parts[..|parts| - 1]);
      PartDraftsGood(parts[|parts| - 1]);
    }
  }

  lemma ManifestDraftGood(p: M.Payload, mode: string)
    requires ManifestCodec.ManifestFits(p)
    ensures GoodOnceBuilt(ManifestDraft(p), mode)
  {
  }

  lemma SourceDraftsGood(c: Crypto, key: Bytes, input: ClearHeader.Input, source: Source)
    requires SourceSendable(input, source) && AllAccepted(AllCalls(PartsIn(input.mode, source.parts)))
    requires ValidMode(input.mode) && DraftsRepresentable(SourceDrafts(input, source))
    requires WriteRecords(c, key, input.noncePrefix, SourceDrafts(input, source), 0).Some?
    ensures GoodDrafts(SourceDrafts(input, source), 0, input.mode)
  {
    var parts, last := PartsIn(input.mode, source.parts), ManifestDraft(ManifestOf(input, source));
    var drafts := [CborDraft(M.Identity, None, source.identity)] + AllDrafts(parts);
    CborDraftGood(M.Identity, None, source.identity, input.mode);
    AllDraftsGood(parts);
    ManifestDraftGood(ManifestOf(input, source), input.mode);
    assert AllGoodOnceBuilt(drafts, input.mode);
    WrittenIsGood(c, key, input.noncePrefix, drafts, last, 0, input.mode);
  }

  // ---- The whole backup ------------------------------------------------------------------------------------------

  /** A caller can check this before exporting: what the restore asks of the data beyond what the exporter does. */
  predicate Restorable(checks: Checks, input: ClearHeader.Input, source: Source) {
    var parts, p := PartsIn(input.mode, source.parts), ManifestOf(input, source);
    && InputDecodes(input) && checks.validators.identity(Canon(source.identity))
    && (forall i :: 0 <= i < |parts| ==> PartAccepted(checks.validators, parts[i])) && DistinctParts(parts)
    && M.SafeCounts(p.counts) && IsPositiveSafeInteger(p.totalRecordCount)
  }

  /** What the restore must come back with: the canonical values in order, the blobs, and the exporter's manifest. */
  function ContentsOf(input: ClearHeader.Input, source: Source): Contents {
    var parts := PartsIn(input.mode, source.parts);
    Contents(Canon(source.identity), RestoredItems(parts), RestoredObjects(parts), ManifestOf(input, source))
  }

  lemma IdentityReads(v: Validators, identity: Value)
    requires Sendable(identity)
    ensures Reads(v, NOTHING, [CborDraft(M.Identity, None, identity)], 0, v.identity(Canon(identity)),
                  Started(identity))
  {
    AssembleOne(v, NOTHING, CborDraft(M.Identity, None, identity), 0);
    IdentityAbsorbed(v, identity, 0);
  }

  function WithManifest(a: Assembly, p: M.Payload): Assembly {
    a.(manifest := Some(Canon(ManifestCodec.ManifestValue(p))), records := a.records + 1)
  }

  lemma ManifestReads(v: Validators, a: Assembly, p: M.Payload, index: nat)
    requires ManifestCodec.ManifestFits(p)
    ensures Reads(v, a, [ManifestDraft(p)], index, true, WithManifest(a, p))
  {
    AssembleOne(v, a, ManifestDraft(p), index);
    ManifestCodec.ManifestRoundTrip(p);
  }

  lemma HeadReads(v: Validators, identity: Value, parts: seq<Part>)
    requires Sendable(identity) && PartsSendable(parts) && AllAccepted(AllCalls(parts))
    ensures Reads(v, NOTHING, [CborDraft(M.Identity, None, identity)] + AllDrafts(parts), 0,
                  v.identity(Canon(identity)) && PartsFit(v, Started(identity), parts),
                  PlusAll(Started(identity), parts))
  {
    var start := Started(identity);
    IdentityReads(v, identity);
    var first := [CborDraft(M.Identity, None, identity)];
    PartsRead(v, start, parts, |first|);
    BothRead(v, NOTHING, first, AllDrafts(parts), 0, |first|,
             v.identity(Canon(identity)), start, PartsFit(v, start, parts), PlusAll(start, parts));
  }

  lemma SourceReads(v: Validators, head: seq<Draft>, fits: bool, a: Assembly, p: M.Payload)
    requires ManifestCodec.ManifestFits(p) && Reads(v, NOTHING, head, 0, fits, a)
    ensures Reads(v, NOTHING, head + [ManifestDraft(p)], 0, fits, WithManifest(a, p))
  {
    ManifestReads(v, a, p, |head|);
    BothRead(v, NOTHING, head, [ManifestDraft(p)], 0, |head|, fits, a, true, WithManifest(a, p));
  }

  lemma FinishReads(ids: (string, string) -> int, h: ClearHeader.Header, a: Assembly, p: M.Payload)
    requires a.identity.Some? && AllWhole(a.objects) && ExpectedManifest(h, WithManifest(a, p)) == p
    ensures Finish(ids, h, WithManifest(a, p))
         == if M.ValidateManifestPayload(p, SummaryOf(p)) then Some(Contents(a.identity.value, a.items, a.objects, p))
            else None
  {
    ManifestCodec.ManifestReads(p);
  }

  lemma ManifestExpected(input: ClearHeader.Input, wrapped: Bytes, source: Source)
    requires SourceSendable(input, source) && AllAccepted(AllCalls(PartsIn(input.mode, source.parts)))
    ensures var a, p := PlusAll(Started(source.identity), PartsIn(input.mode, source.parts)), ManifestOf(input, source);
            ExpectedManifest(ClearHeader.HeaderOf(input, wrapped), WithManifest(a, p)) == p
  {
    var parts := PartsIn(input.mode, source.parts);
    PartsAgree(source.identity, parts);
    var s, a := M.TrackAll(AllCalls(parts)), PlusAll(Started(source.identity), parts);
    assert M.EntriesOf(s.objects, M.Attachments) == EntriesFor(a.objects, M.Attachments);
    assert M.EntriesOf(s.objects, M.TransferQueue) == EntriesFor(a.objects, M.TransferQueue);
    assert M.EntriesOf(s.objects, M.RemoteMedia) == EntriesFor(a.objects, M.RemoteMedia);
  }

  lemma RestorableIff(checks: Checks, input: ClearHeader.Input, source: Source)
    requires SourceSendable(input, source) && AllAccepted(AllCalls(PartsIn(input.mode, source.parts)))
    requires M.ValidSummary(SummaryOf(ManifestOf(input, source))) && InputDecodes(input)
    ensures var v, p := checks.validators, ManifestOf(input, source);
            && Restorable(checks, input, source)
            <==> && v.identity(Canon(source.identity)) && M.ValidateManifestPayload(p, SummaryOf(p))
                 && PartsFit(v, Started(source.identity), PartsIn(input.mode, source.parts))
  {
    PartsFitIff(checks.validators, Started(source.identity), PartsIn(input.mode, source.parts));
    ManifestValidIff(input, source);
  }

  lemma SourceFinishes(checks: Checks, input: ClearHeader.Input, wrapped: Bytes, source: Source)
    requires SourceSendable(input, source) && AllAccepted(AllCalls(PartsIn(input.mode, source.parts)))
    requires M.ValidSummary(SummaryOf(ManifestOf(input, source))) && InputDecodes(input)
    ensures FinishFile(checks, ClearHeader.HeaderOf(input, wrapped), Some(RecordsOf(SourceDrafts(input, source), 0)))
         == if Restorable(checks, input, source) then
              Ok(ClearHeader.HeaderOf(input, wrapped), ContentsOf(input, source))
            else Err(Malformed)
  {
    var parts, p, start := PartsIn(input.mode, source.parts), ManifestOf(input, source), Started(source.identity);
    var a, v := PlusAll(start, parts), checks.validators;
    var head := [CborDraft(M.Identity, None, source.identity)] + AllDrafts(parts);
    var fits := v.identity(Canon(source.identity)) && PartsFit(v, start, parts);
    HeadReads(v, source.identity, parts);
    SourceReads(v, head, fits, a, p);
    RestorableIff(checks, input, source);
    PlusAllHolds(start, parts);
    AllRestoredWhole(parts);
    ManifestExpected(input, wrapped, source);
    FinishesAs(checks, ClearHeader.HeaderOf(input, wrapped), head + [ManifestDraft(p)], fits, a, p);
  }

  lemma FinishesAs(checks: Checks, h: ClearHeader.Header, drafts: seq<Draft>, fits: bool, a: Assembly, p: M.Payload)
    requires Reads(checks.validators, NOTHING, drafts, 0, fits, WithManifest(a, p))
    requires a.identity.Some? && AllWhole(a.objects) && ExpectedManifest(h, WithManifest(a, p)) == p
    ensures FinishFile(checks, h, Some(RecordsOf(drafts, 0)))
         == if fits && M.ValidateManifestPayload(p, SummaryOf(p)) then
              Ok(h, Contents(a.identity.value, a.items, a.objects, p))
            else Err(Malformed)
  {
    FinishReads(checks.ids, h, a, p);
  }

  lemma DraftsDecide(
    c: Crypto, checks: Checks, passphrase: string, input: ClearHeader.Input, contentKey: Bytes, source: Source,
    wrapped: Bytes
  )
    requires Lawful(c) && ClearHeader.Representable(input, []) && SourceSendable(input, source) && InputDecodes(input)
    requires AllAccepted(AllCalls(PartsIn(input.mode, source.parts)))
    requires DraftsRepresentable(SourceDrafts(input, source))
    requires Export(c, passphrase, input, contentKey, SourceDrafts(input, source)).Some?
    ensures ReadResult(checks, input, wrapped, SourceDrafts(input, source))
         == if Restorable(checks, input, source) then
              Ok(ClearHeader.HeaderOf(input, wrapped), ContentsOf(input, source))
            else Err(Malformed)
  {
    ExportWritesRecords(c, passphrase, input, contentKey, SourceDrafts(input, source));
    SourceDraftsGood(c, contentKey, input, source);
    SourceFinishes(checks, input, wrapped, source);
  }

  /**
   * Whenever an export goes through, restoring the file with the same passphrase succeeds exactly when the
   * data is restorable, and then returns the exported identity, every batch item in order, every object with
   * its blob in chunks, and the manifest the exporter built.
   */
  lemma RestoreReturnsExport(
    c: Crypto, checks: Checks, passphrase: string, input: ClearHeader.Input, contentKey: Bytes, source: Source
  ) returns (wrapped: Bytes)
    requires Lawful(c) && ClearHeader.Representable(input, []) && SourceSendable(input, source)
    requires ExportSource(c, passphrase, input, contentKey, source).Some?
    ensures ReadBackup(c, checks, passphrase, ExportSource(c, passphrase, input, contentKey, source).value)
         == if Restorable(checks, input, source) then
              Ok(ClearHeader.HeaderOf(input, wrapped), ContentsOf(input, source))
            else Err(Malformed)
  {
    SourceRepresentable(input, source);
    wrapped := RestoreReadsExport(c, checks, passphrase, input, contentKey, SourceDrafts(input, source));
    if InputDecodes(input) {
      DraftsDecide(c, checks, passphrase, input, contentKey, source, wrapped);
    }
  }
}
