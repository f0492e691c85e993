/** The manifest as a CBOR value: the object the exporter encodes, and the shape the validator reads back. */
module ManifestCodec {
  import opened Common
  import opened Constants
  import opened CborOrder
  import opened CborCodec
  import opened CborObject
  import opened Manifest

  // ---- Writing -----------------------------------------------------------------------------------------

  function CountFields(c: Counts): seq<Field> {
    [Field("peerKeys", Int(c.peerKeys)), Field("messages", Int(c.messages)), Field("linkPreviews", Int(c.linkPreviews)),
     Field("outbox", Int(c.outbox)), Field("attachments", Int(c.attachments)),
     Field("attachmentChunks", Int(c.attachmentChunks)), Field("transferQueue", Int(c.transferQueue)),
     Field("transferQueueChunks", Int(c.transferQueueChunks)), Field("remoteMedia", Int(c.remoteMedia)),
     Field("remoteMediaChunks", Int(c.remoteMediaChunks))]
  }

  function EntryFields(e: Entry): seq<Field> {
    [Field("objectId", Text(e.objectId)), Field("chunkCount", Int(e.chunkCount)), Field("size", Int(e.size))]
  }

  function EntryValues(entries: seq<Entry>): seq<Value> {
    seq(|entries|, i requires 0 <= i < |entries| => Obj(EntryFields(entries[i])))
  }

  function ObjectFields(o: Objects): seq<Field> {
    [Field("attachments", List(EntryValues(o.attachments))), Field("transferQueue", List(EntryValues(o.transferQueue))),
     Field("remoteMedia", List(EntryValues(o.remoteMedia)))]
  }

  function ManifestFields(p: Payload): seq<Field> {
    [Field("backupId", Blob(p.backupId)), Field("mode", Text(p.mode)), Field("createdAt", Int(p.createdAt)),
     Field("totalRecordCount", Int(p.totalRecordCount)), Field("counts", Obj(CountFields(p.counts))),
     Field("objects", Obj(ObjectFields(p.objects)))]
  }

  function ManifestValue(p: Payload): Value { Obj(ManifestFields(p)) }

  // ---- Reading -----------------------------------------------------------------------------------------

  function CountsOf(v: Value): Option<Counts> {
    if !v.Obj? then None else
    var f := v.fields;
    if && Get(f, "peerKeys").Int? && Get(f, "messages").Int? && Get(f, "linkPreviews").Int? && Get(f, "outbox").Int?
       && Get(f, "attachments").Int? && Get(f, "attachmentChunks").Int? && Get(f, "transferQueue").Int?
       && Get(f, "transferQueueChunks").Int? && Get(f, "remoteMedia").Int? && Get(f, "remoteMediaChunks").Int?
    then Some(Counts(Get(f, "peerKeys").n, Get(f, "messages").n, Get(f, "linkPreviews").n, Get(f, "outbox").n,
                     Get(f, "attachments").n, Get(f, "attachmentChunks").n, Get(f, "transferQueue").n,
                     Get(f, "transferQueueChunks").n, Get(f, "remoteMedia").n, Get(f, "remoteMediaChunks").n))
    else None
  }

  function EntryOf(v: Value): Option<Entry> {
    if && v.Obj? && Get(v.fields, "objectId").Text? && Get(v.fields, "chunkCount").Int? && Get(v.fields, "size").Int?
    then Some(Entry(Get(v.fields, "objectId").s, Get(v.fields, "chunkCount").n, Get(v.fields, "size").n))
    else None
  }

  function EntriesOfItems(items: seq<Value>): Option<seq<Entry>> {
    if items == [] then Some([])
    else
      var first, rest := EntryOf(items[0]), EntriesOfItems(items[1..]);
      if first == None || rest == None then None else Some([first.value] + rest.value)
  }

  function ListOf(v: Value): Option<seq<Entry>> { if v.List? then EntriesOfItems(v.items) else None }

  function ObjectsOf(v: Value): Option<Objects> {
    if !v.Obj? then None else
    var a, t, r := ListOf(Get(v.fields, "attachments")), ListOf(Get(v.fields, "transferQueue")),
        ListOf(Get(v.fields, "remoteMedia"));
    if a == None || t == None || r == None then None else Some(Objects(a.value, t.value, r.value))
  }

  /** The types the manifest validator asks for; the ranges of the values are `ValidateManifestPayload`'s. */
  function PayloadOf(v: Value): Option<Payload> {
    if !v.Obj? then None else
    var f := v.fields;
    var counts, objects := CountsOf(Get(f, "counts")), ObjectsOf(Get(f, "objects"));
    if && Get(f, "backupId").Blob? && Get(f, "mode").Text? && Get(f, "createdAt").Int?
       && Get(f, "totalRecordCount").Int?
       && counts.Some? && objects.Some?
    then Some(Payload(Get(f, "backupId").bytes, Get(f, "mode").s, Get(f, "createdAt").n, Get(f, "totalRecordCount").n,
                      counts.value, objects.value))
    else None
  }

  // ---- Round trip ----------------------------------------------------------------------------------------

  lemma CountsRead(c: Counts)
    ensures DistinctKeys(CountFields(c))
    ensures CountsOf(Canon(Obj(CountFields(c)))) == Some(c)
  {
    var f := CountFields(c);
    FirstCountsRead(c);
    LastCountsRead(c);
  }

  lemma CountKeysDistinct(c: Counts)
    ensures DistinctKeys(CountFields(c))
  {
  }

  lemma FirstCountsRead(c: Counts)
    ensures DistinctKeys(CountFields(c))
    ensures var f := CanonObject(CountFields(c));
            && Get(f, "peerKeys") == Int(c.peerKeys) && Get(f, "messages") == Int(c.messages)
            && Get(f, "linkPreviews") == Int(c.linkPreviews) && Get(f, "outbox") == Int(c.outbox)
            && Get(f, "attachments") == Int(c.attachments)
  {
    var f := CountFields(c);
    CountKeysDistinct(c);
    GetCanon(f, 0);
    GetCanon(f, 1);
    GetCanon(f, 2);
    GetCanon(f, 3);
    GetCanon(f, 4);
  }

  lemma LastCountsRead(c: Counts)
    ensures var f := CanonObject(CountFields(c));
            && Get(f, "attachmentChunks") == Int(c.attachmentChunks) && Get(f, "transferQueue") == Int(c.transferQueue)
            && Get(f, "transferQueueChunks") == Int(c.transferQueueChunks)
            && Get(f, "remoteMedia") == Int(c.remoteMedia)
            && Get(f, "remoteMediaChunks") == Int(c.remoteMediaChunks)
  {
    var f := CountFields(c);
    CountKeysDistinct(c);
    GetCanon(f, 5);
    GetCanon(f, 6);
    GetCanon(f, 7);
    GetCanon(f, 8);
    GetCanon(f, 9);
  }

  lemma EntryRead(e: Entry)
    ensures EntryOf(Canon(Obj(EntryFields(e)))) == Some(e)
  {
    var f := EntryFields(e);
    GetCanon(f, 0);
    GetCanon(f, 1);
    GetCanon(f, 2);
  }

  lemma {:induction false} EntriesRead(entries: seq<Entry>)
    ensures EntriesOfItems(CanonItems(EntryValues(entries))) == Some(entries)
  {
    if entries == [] {
    } else {
      EntriesRead(entries[1..]);
      EntryRead(entries[0]);
      assert EntryValues(entries)[1..] == EntryValues(entries[1..]);
      assert CanonItems(EntryValues(entries))[1..] == CanonItems(EntryValues(entries[1..]));
      assert entries == [entries[0]] + entries[1..];
    }
  }

  lemma ObjectsRead(o: Objects)
    ensures DistinctKeys(ObjectFields(o))
    ensures ObjectsOf(Canon(Obj(ObjectFields(o)))) == Some(o)
  {
    var f := ObjectFields(o);
    GetCanon(f, 0);
    GetCanon(f, 1);
    GetCanon(f, 2);
    EntriesRead(o.attachments);
    EntriesRead(o.transferQueue);
    EntriesRead(o.remoteMedia);
  }

  lemma ManifestKeysDistinct(p: Payload)
    ensures DistinctKeys(ManifestFields(p))
  {
  }

  /** Every manifest is read back from its canonical value as it was. */
  lemma ManifestReads(p: Payload)
    ensures PayloadOf(Canon(ManifestValue(p))) == Some(p)
  {
    var f := ManifestFields(p);
    ManifestKeysDistinct(p);
    GetCanon(f, 0);
    GetCanon(f, 1);
    GetCanon(f, 2);
    GetCanon(f, 3);
    GetCanon(f, 4);
    GetCanon(f, 5);
    CountsRead(p.counts);
    ObjectsRead(p.objects);
  }

  // ---- Encoding --------------------------------------------------------------------------------------------

  predicate CountsFit(c: Counts) {
    && Fits(c.peerKeys) && Fits(c.messages) && Fits(c.linkPreviews) && Fits(c.outbox) && Fits(c.attachments)
    && Fits(c.attachmentChunks) && Fits(c.transferQueue) && Fits(c.transferQueueChunks) && Fits(c.remoteMedia)
    && Fits(c.remoteMediaChunks)
  }

  predicate EntriesFit(entries: seq<Entry>) {
    && |entries| < TWO64
    && forall i :: 0 <= i < |entries| ==>
         EncodableKey(entries[i].objectId) && Fits(entries[i].chunkCount) && Fits(entries[i].size)
  }

  /** What the encoder is given: 64-bit integers, and texts made of UTF-8 bytes. */
  predicate ManifestFits(p: Payload) {
    && |p.backupId| < TWO64 && EncodableKey(p.mode) && Fits(p.createdAt) && Fits(p.totalRecordCount)
    && CountsFit(p.counts)
    && EntriesFit(p.objects.attachments) && EntriesFit(p.objects.transferQueue) && EntriesFit(p.objects.remoteMedia)
  }

  lemma CountsEncodable(c: Counts)
    requires CountsFit(c)
    ensures Proper(Obj(CountFields(c))) && Encodable(Obj(CountFields(c)))
  {
    var f := CountFields(c);
    CountKeysDistinct(c);
    assert forall i :: 0 <= i < 10 ==> f[i].value.Int? && Encodable(f[i].value);
    CountKeysEncodable(c);
  }

  lemma CountKeysEncodable(c: Counts)
    ensures forall i :: 0 <= i < 10 ==> EncodableKey(CountFields(c)[i].key)
  {
  }

  lemma EntriesEncodable(entries: seq<Entry>)
    requires EntriesFit(entries)
    ensures Proper(List(EntryValues(entries))) && Encodable(List(EntryValues(entries)))
  {
    forall i | 0 <= i < |entries|
      ensures Proper(Obj(EntryFields(entries[i]))) && Encodable(Obj(EntryFields(entries[i])))
    {
    }
  }

  lemma ObjectsEncodable(o: Objects)
    requires EntriesFit(o.attachments) && EntriesFit(o.transferQueue) && EntriesFit(o.remoteMedia)
    ensures Proper(Obj(ObjectFields(o))) && Encodable(Obj(ObjectFields(o)))
  {
    EntriesEncodable(o.attachments);
    EntriesEncodable(o.transferQueue);
    EntriesEncodable(o.remoteMedia);
  }

  lemma ManifestKeysEncodable(p: Payload)
    ensures forall i :: 0 <= i < 6 ==> EncodableKey(ManifestFields(p)[i].key)
  {
  }

  lemma ManifestValuesEncodable(p: Payload)
    requires ManifestFits(p)
    requires Proper(Obj(CountFields(p.counts))) && Encodable(Obj(CountFields(p.counts)))
    requires Proper(Obj(ObjectFields(p.objects))) && Encodable(Obj(ObjectFields(p.objects)))
    ensures var f := ManifestFields(p); forall i :: 0 <= i < 6 ==> Proper(f[i].value) && Encodable(f[i].value)
  {
  }

  lemma ManifestEncodable(p: Payload)
    requires ManifestFits(p)
    ensures Proper(ManifestValue(p)) && Encodable(ManifestValue(p)) && Encodable(Canon(ManifestValue(p)))
  {
    ManifestKeysDistinct(p);
    ManifestKeysEncodable(p);
    CountsEncodable(p.counts);
    ObjectsEncodable(p.objects);
    ManifestValuesEncodable(p);
    CanonEncodable(ManifestValue(p));
  }

  /** Encoding the manifest and decoding it gives the manifest back. */
  lemma ManifestRoundTrip(p: Payload)
    requires ManifestFits(p)
    ensures Encodable(Canon(ManifestValue(p)))
    ensures DecodeCbor(EncodeCanonical(ManifestValue(p))) == Some(Canon(ManifestValue(p)))
    ensures PayloadOf(Canon(ManifestValue(p))) == Some(p)
  {
    ManifestEncodable(p);
    CanonicalRoundTrip(ManifestValue(p));
    ManifestReads(p);
  }
}
