/** The header in front of each encrypted record of a backup, and the nonce the record is sealed under. */
module RecordHeader {
  import opened Common
  import opened Constants
  import opened CborOrder
  import opened CborCodec
  import opened CborObject
  import opened Endian

  /** A record header: absent optional fields are `None`. */
  datatype Header = Header(
    recordVersion: int, kind: string, index: int, encoding: string, plainLength: int, cipherLength: int,
    objectId: Option<string>, chunkIndex: Option<int>, chunkCount: Option<int>)

  predicate IsObjectMeta(kind: string) {
    kind == "attachment-meta" || kind == "transfer-queue-meta" || kind == "remote-media-meta"
  }

  predicate IsChunk(kind: string) {
    kind == "attachment-chunk" || kind == "transfer-queue-chunk" || kind == "remote-media-chunk"
  }

  predicate IsRecordType(kind: string) {
    || IsObjectMeta(kind) || IsChunk(kind) || kind == "identity" || kind == "peer-keys-batch"
    || kind == "messages-batch"
    || kind == "link-previews-batch" || kind == "outbox-batch" || kind == "manifest"
  }

  predicate IsEncoding(encoding: string) { encoding == "cbor" || encoding == "bytes" }

  // ---- Validation of a decoded value -------------------------------------------------------------

  predicate NonEmptyText(v: Value) { v.Text? && |v.s| > 0 }

  predicate ScalarsValid(f: seq<Field>) {
    && Get(f, "recordVersion") == Int(RECORD_VERSION)
    && Get(f, "type").Text? && IsRecordType(Get(f, "type").s)
    && Get(f, "encoding").Text? && IsEncoding(Get(f, "encoding").s)
    && NonNegativeSafe(Get(f, "index")) && NonNegativeSafe(Get(f, "plainLength"))
    && NonNegativeSafe(Get(f, "cipherLength"))
  }

  predicate OptionalsValid(kind: string, objectId: Value, chunkIndex: Value, chunkCount: Value) {
    && (if IsObjectMeta(kind) || IsChunk(kind) then NonEmptyText(objectId)
        else !objectId.Undef? ==> NonEmptyText(objectId))
    && (IsChunk(kind) ==> !chunkIndex.Undef? && !chunkCount.Undef?)
    && (chunkIndex.Undef? <==> chunkCount.Undef?)
    && (!chunkIndex.Undef? ==>
          && NonNegativeSafe(chunkIndex) && PositiveSafe(chunkCount) && chunkIndex.n < chunkCount.n
          && NonEmptyText(objectId))
  }

  function TextOption(v: Value): Option<string> { if v.Text? then Some(v.s) else None }

  function IntOption(v: Value): Option<int> { if v.Int? then Some(v.n) else None }

  /** `None` when any assertion of the source fails. */
  function ValidateRecordHeader(v: Value): Option<Header> {
    if !v.Obj? then None else
    var f := v.fields;
    if && ScalarsValid(f)
       && OptionalsValid(Get(f, "type").s, Get(f, "objectId"), Get(f, "chunkIndex"), Get(f, "chunkCount"))
    then
      Some(Header(RECORD_VERSION, Get(f, "type").s, Get(f, "index").n, Get(f, "encoding").s, Get(f, "plainLength").n,
                  Get(f, "cipherLength").n, TextOption(Get(f, "objectId")), IntOption(Get(f, "chunkIndex")),
                  IntOption(Get(f, "chunkCount"))))
    else None
  }

  function DecodeRecordHeader(bytes: Bytes): Option<Header> {
    if bytes == [] then None else
    match DecodeCbor(bytes)
    case None => None
    case Some(v) => ValidateRecordHeader(v)
  }

  // ---- Building ---------------------------------------------------------------------------------------

  function OptionalText(t: Option<string>): Value { if t.Some? then Text(t.value) else Undef }

  function OptionalInt(n: Option<int>): Value { if n.Some? then Int(n.value) else Undef }

  /** An empty object id is falsy: it is left out. */
  function WithoutEmptyId(h: Header): Header { if h.objectId == Some("") then h.(objectId := None) else h }

  /** An absent optional field and an undefined one encode alike. */
  function HeaderFields(h: Header): seq<Field> {
    [Field("recordVersion", Int(h.recordVersion)), Field("type", Text(h.kind)), Field("index", Int(h.index)),
     Field("encoding", Text(h.encoding)), Field("plainLength", Int(h.plainLength)),
     Field("cipherLength", Int(h.cipherLength)),
     Field("objectId", OptionalText(h.objectId)), Field("chunkIndex", OptionalInt(h.chunkIndex)),
     Field("chunkCount", OptionalInt(h.chunkCount))]
  }

  /** The checks of the builder: neither the record type nor the object id is among them. */
  predicate Buildable(h: Header) {
    && h.recordVersion == RECORD_VERSION
    && IsNonNegativeSafeInteger(h.index) && IsNonNegativeSafeInteger(h.plainLength)
    && IsNonNegativeSafeInteger(h.cipherLength)
    && (h.chunkIndex.Some? <==> h.chunkCount.Some?)
    && (h.chunkIndex.Some? ==>
          && IsNonNegativeSafeInteger(h.chunkIndex.value) && IsPositiveSafeInteger(h.chunkCount.value)
          && h.chunkIndex.value < h.chunkCount.value)
  }

  /** What the encoder is given: texts made of UTF-8 bytes. */
  predicate Representable(h: Header) {
    EncodableKey(h.kind) && EncodableKey(h.encoding) && (h.objectId.Some? ==> EncodableKey(h.objectId.value))
  }

  function BuildRecordHeader(h: Header): Option<Bytes>
    requires Representable(h)
  {
    if !Buildable(h) then None
    else
      FieldsEncodable(WithoutEmptyId(h));
      Some(EncodeCanonical(Obj(HeaderFields(WithoutEmptyId(h)))))
  }

  lemma FieldsEncodable(h: Header)
    requires Representable(h) && Buildable(h)
    ensures DistinctKeys(HeaderFields(h)) && Proper(Obj(HeaderFields(h)))
    ensures Encodable(Obj(HeaderFields(h))) && Encodable(Canon(Obj(HeaderFields(h))))
  {
    KeysEncodable(h);
    KeysDistinct(h);
    CanonEncodable(Obj(HeaderFields(h)));
  }

  lemma KeysDistinct(h: Header)
    ensures DistinctKeys(HeaderFields(h)) && Proper(Obj(HeaderFields(h)))
  {
  }

  lemma KeysEncodable(h: Header)
    requires Representable(h) && Buildable(h)
    ensures EncodableFields(HeaderFields(h))
  {
    ScalarsEncodable(h);
    OptionalsEncodable(h);
  }

  lemma ScalarsEncodable(h: Header)
    requires Representable(h) && Buildable(h)
    ensures forall i :: 0 <= i < 6 ==> EncodableKey(HeaderFields(h)[i].key) && Encodable(HeaderFields(h)[i].value)
  {
  }

  lemma OptionalsEncodable(h: Header)
    requires Representable(h) && Buildable(h)
    ensures forall i :: 6 <= i < 9 ==> EncodableKey(HeaderFields(h)[i].key) && Encodable(HeaderFields(h)[i].value)
  {
  }

  // ---- Round trip ----------------------------------------------------------------------------------------

  /** Headers the validator accepts, as a condition on the header itself. */
  predicate Valid(h: Header) {
    && h.recordVersion == RECORD_VERSION && IsRecordType(h.kind) && IsEncoding(h.encoding)
    && IsNonNegativeSafeInteger(h.index) && IsNonNegativeSafeInteger(h.plainLength)
    && IsNonNegativeSafeInteger(h.cipherLength)
    && h.objectId != Some("")
    && (IsObjectMeta(h.kind) || IsChunk(h.kind) ==> h.objectId.Some?)
    && (IsChunk(h.kind) ==> h.chunkIndex.Some?)
    && (h.chunkIndex.Some? <==> h.chunkCount.Some?)
    && (h.chunkIndex.Some? ==>
          && IsNonNegativeSafeInteger(h.chunkIndex.value) && IsPositiveSafeInteger(h.chunkCount.value)
          && h.chunkIndex.value < h.chunkCount.value && h.objectId.Some?)
  }

  lemma ScalarReads(h: Header)
    ensures var f := CanonObject(HeaderFields(h));
            && Get(f, "recordVersion") == Int(h.recordVersion) && Get(f, "type") == Text(h.kind)
            && Get(f, "index") == Int(h.index)
            && Get(f, "encoding") == Text(h.encoding) && Get(f, "plainLength") == Int(h.plainLength)
            && Get(f, "cipherLength") == Int(h.cipherLength)
  {
    var f := HeaderFields(h);
    KeysDistinct(h);
    GetCanon(f, 0);
    GetCanon(f, 1);
    GetCanon(f, 2);
    GetCanon(f, 3);
    GetCanon(f, 4);
    GetCanon(f, 5);
  }

  lemma OptionalReads(h: Header)
    ensures var f := CanonObject(HeaderFields(h));
            && Get(f, "objectId") == OptionalText(h.objectId) && Get(f, "chunkIndex") == OptionalInt(h.chunkIndex)
            && Get(f, "chunkCount") == OptionalInt(h.chunkCount)
  {
    var f := HeaderFields(h);
    KeysDistinct(h);
    GetCanon(f, 6);
    GetCanon(f, 7);
    GetCanon(f, 8);
  }

  /** The validator accepts exactly the valid headers and returns them unchanged. */
  lemma ValidatorAcceptsValid(h: Header)
    ensures ValidateRecordHeader(Obj(CanonObject(HeaderFields(h)))) == if Valid(h) then Some(h) else None
  {
    ScalarReads(h);
    OptionalReads(h);
  }

  /**
   * Whatever header is built: decoding its bytes succeeds exactly when the header, without an empty object
   * id, is valid, and then returns that header.
   */
  lemma BuildThenDecode(h: Header)
    requires Representable(h) && Buildable(h)
    ensures BuildRecordHeader(h).Some?
    ensures DecodeRecordHeader(BuildRecordHeader(h).value)
         == if Valid(WithoutEmptyId(h)) then Some(WithoutEmptyId(h)) else None
  {
    var g := WithoutEmptyId(h);
    FieldsEncodable(g);
    CanonicalRoundTrip(Obj(HeaderFields(g)));
    ValidatorAcceptsValid(g);
  }

  /** Every header the validator accepts is built, and decoding the bytes gives it back. */
  lemma DecodeInvertsBuild(h: Header)
    requires Representable(h) && Valid(h)
    ensures BuildRecordHeader(h).Some? && DecodeRecordHeader(BuildRecordHeader(h).value) == Some(h)
  {
    BuildThenDecode(h);
  }

  /** The validator returns valid headers only, from whatever value. */
  lemma ValidatedIsValid(v: Value)
    ensures ValidateRecordHeader(v).Some? ==> Valid(ValidateRecordHeader(v).value)
  {
  }

  /** The builder alone is weaker: an attachment chunk without object id is built and refused on reading. */
  lemma BuildableNotDecodable() returns (h: Header)
    ensures Representable(h) && Buildable(h) && BuildRecordHeader(h).Some?
    ensures DecodeRecordHeader(BuildRecordHeader(h).value) == None
  {
    h := Header(RECORD_VERSION, "attachment-chunk", 0, "bytes", 0, 16, None, Some(0), Some(1));
    BuildThenDecode(h);
  }

  // ---- Nonces --------------------------------------------------------------------------------------------

  /** `setBigUint64` keeps the low 64 bits. */
  function RecordNonce(noncePrefix: Bytes, recordIndex: int): Option<Bytes> {
    if |noncePrefix| != RECORD_NONCE_PREFIX_BYTES || recordIndex < 0 then None
    else Some(noncePrefix + BigEndian(recordIndex % TWO64, 8))
  }

  method BuildRecordNonce(noncePrefix: Bytes, recordIndex: int) returns (nonce: Option<array<byte>>)
    ensures nonce.Some? <==> RecordNonce(noncePrefix, recordIndex).Some?
    ensures nonce.Some? ==> fresh(nonce.value) && Some(nonce.value[..]) == RecordNonce(noncePrefix, recordIndex)
  {
    if |noncePrefix| != RECORD_NONCE_PREFIX_BYTES || recordIndex < 0 {
      return None;
    }
    var buffer := new byte[RECORD_NONCE_BYTES](_ => 0);
    forall i | 0 <= i < |noncePrefix| {
      buffer[i] := noncePrefix[i];
    }
    var counter := BigEndian(recordIndex % TWO64, 8);
    forall i | 0 <= i < 8 {
      buffer[RECORD_NONCE_PREFIX_BYTES + i] := counter[i];
    }
    assert buffer[..] == noncePrefix + counter;
    return Some(buffer);
  }

  /** Two records of one backup share a nonce exactly when their indices agree modulo 2^64. */
  lemma NoncesCollideIff(noncePrefix: Bytes, i: int, j: int)
    requires |noncePrefix| == RECORD_NONCE_PREFIX_BYTES && i >= 0 && j >= 0
    ensures RecordNonce(noncePrefix, i).Some? && |RecordNonce(noncePrefix, i).value| == RECORD_NONCE_BYTES
    ensures RecordNonce(noncePrefix, i) == RecordNonce(noncePrefix, j) <==> i % TWO64 == j % TWO64
  {
    PowersOf256();
    BigEndianRoundTrip(i % TWO64, 8);
    BigEndianRoundTrip(j % TWO64, 8);
    if RecordNonce(noncePrefix, i) == RecordNonce(noncePrefix, j) {
      assert RecordNonce(noncePrefix, i).value[4..] == BigEndian(i % TWO64, 8);
      assert RecordNonce(noncePrefix, j).value[4..] == BigEndian(j % TWO64, 8);
    }
  }

  /** Twelve bytes: the prefix, then the index modulo 2^64, the most significant byte first. */
  lemma NonceLayout(noncePrefix: Bytes, recordIndex: int, j: nat)
    requires |noncePrefix| == 4 && recordIndex >= 0 && j < 8
    ensures RecordNonce(noncePrefix, recordIndex).Some?
    ensures var nonce := RecordNonce(noncePrefix, recordIndex).value;
            |nonce| == 12 && nonce[..4] == noncePrefix && nonce[11 - j] == recordIndex % TWO64 / Pow256(j) % 256
  {
    EachByte(recordIndex % TWO64, 8, j);
  }

  /** Safe indices never wrap: different records of one backup have different nonces. */
  lemma SafeNoncesDistinct(noncePrefix: Bytes, i: int, j: int)
    requires |noncePrefix| == RECORD_NONCE_PREFIX_BYTES && IsNonNegativeSafeInteger(i) && IsNonNegativeSafeInteger(j)
    ensures RecordNonce(noncePrefix, i) == RecordNonce(noncePrefix, j) <==> i == j
  {
    NoncesCollideIff(noncePrefix, i, j);
  }
}
