/** The clear header of a backup and the associated data its key wrap is bound to. */
module ClearHeader {
  import opened Common
  import opened Constants
  import opened CborOrder
  import opened CborCodec
  import opened CborObject

  datatype KdfProfile = KdfProfile(memoryKiB: int, iterations: int, parallelism: int, hashLength: int)

  datatype Input = Input(
    mode: string, createdAt: int, backupId: Bytes, kdfProfile: KdfProfile, salt: Bytes, wrapIv: Bytes,
    noncePrefix: Bytes)

  datatype Kdf = Kdf(algorithm: string, version: int, salt: Bytes, memoryKiB: int, iterations: int, parallelism: int,
                     outputLength: int)
  datatype KeyWrap = KeyWrap(algorithm: string, iv: Bytes, wrappedContentKey: Bytes)
  datatype RecordCipher = RecordCipher(algorithm: string, noncePrefix: Bytes, tagLengthBits: int)
  datatype Manifest = Manifest(required: bool, mustBeFinalRecord: bool)

  /** A validated clear header. */
  datatype Header = Header(
    headerVersion: int, mode: string, createdAt: int, backupId: Bytes, kdf: Kdf, hkdf: string,
    keyWrap: KeyWrap, recordCipher: RecordCipher, manifest: Manifest)

  // ---- Building -----------------------------------------------------------------------------------

  function KdfFields(k: Kdf): seq<Field> {
    [Field("algorithm", Text(k.algorithm)), Field("version", Int(k.version)), Field("salt", Blob(k.salt)),
     Field("memoryKiB", Int(k.memoryKiB)), Field("iterations", Int(k.iterations)),
     Field("parallelism", Int(k.parallelism)), Field("outputLength", Int(k.outputLength))]
  }

  function HkdfFields(algorithm: string): seq<Field> { [Field("algorithm", Text(algorithm))] }

  function KeyWrapFields(k: KeyWrap): seq<Field> {
    [Field("algorithm", Text(k.algorithm)), Field("iv", Blob(k.iv)),
     Field("wrappedContentKey", Blob(k.wrappedContentKey))]
  }

  function RecordCipherFields(c: RecordCipher): seq<Field> {
    [Field("algorithm", Text(c.algorithm)), Field("noncePrefix", Blob(c.noncePrefix)),
     Field("tagLengthBits", Int(c.tagLengthBits))]
  }

  function ManifestFields(m: Manifest): seq<Field> {
    [Field("required", Bool(m.required)), Field("mustBeFinalRecord", Bool(m.mustBeFinalRecord))]
  }

  function HeaderFields(h: Header): seq<Field> {
    [Field("headerVersion", Int(h.headerVersion)), Field("mode", Text(h.mode)), Field("createdAt", Int(h.createdAt)),
     Field("backupId", Blob(h.backupId)), Field("kdf", Obj(KdfFields(h.kdf))), Field("hkdf", Obj(HkdfFields(h.hkdf))),
     Field("keyWrap", Obj(KeyWrapFields(h.keyWrap))), Field("recordCipher", Obj(RecordCipherFields(h.recordCipher))),
     Field("manifest", Obj(ManifestFields(h.manifest)))]
  }

  predicate InputLengthsFit(input: Input) {
    && |input.backupId| == BACKUP_ID_BYTES && |input.salt| == SALT_BYTES
    && |input.wrapIv| == WRAP_IV_BYTES && |input.noncePrefix| == RECORD_NONCE_PREFIX_BYTES
    && input.createdAt > 0
  }

  /** The header an export input stands for: its own values and the constants of the format. */
  function HeaderOf(input: Input, wrappedContentKey: Bytes): Header {
    var k := input.kdfProfile;
    Header(HEADER_VERSION, input.mode, input.createdAt, input.backupId,
           Kdf(KDF_ALGORITHM, KDF_VERSION, input.salt, k.memoryKiB, k.iterations, k.parallelism, k.hashLength),
           HKDF_ALGORITHM, KeyWrap(KEY_WRAP_ALGORITHM, input.wrapIv, wrappedContentKey),
           RecordCipher(RECORD_CIPHER_ALGORITHM, input.noncePrefix, AES_GCM_TAG_BITS), Manifest(true, true))
  }

  /** `None` when a buffer has the wrong length or the date is not positive. */
  function BuildClearHeaderObject(input: Input, wrappedContentKey: Bytes): Option<Value> {
    if InputLengthsFit(input) then Some(Obj(HeaderFields(HeaderOf(input, wrappedContentKey)))) else None
  }

  /** What the encoder is given: 64-bit integers and a mode made of UTF-8 bytes. */
  predicate Representable(input: Input, wrappedContentKey: Bytes) {
    && EncodableKey(input.mode) && Fits(input.createdAt) && Fits(input.kdfProfile.memoryKiB)
    && Fits(input.kdfProfile.iterations) && Fits(input.kdfProfile.parallelism) && Fits(input.kdfProfile.hashLength)
    && |wrappedContentKey| < TWO64
  }

  predicate HeaderFits(h: Header) {
    && Fits(h.headerVersion) && EncodableKey(h.mode) && Fits(h.createdAt) && |h.backupId| < TWO64
    && EncodableKey(h.kdf.algorithm) && Fits(h.kdf.version) && |h.kdf.salt| < TWO64 && Fits(h.kdf.memoryKiB)
    && Fits(h.kdf.iterations) && Fits(h.kdf.parallelism) && Fits(h.kdf.outputLength) && EncodableKey(h.hkdf)
    && EncodableKey(h.keyWrap.algorithm) && |h.keyWrap.iv| < TWO64 && |h.keyWrap.wrappedContentKey| < TWO64
    && EncodableKey(h.recordCipher.algorithm) && |h.recordCipher.noncePrefix| < TWO64
    && Fits(h.recordCipher.tagLengthBits)
  }

  function EncodeHeader(h: Header): Bytes
    requires HeaderFits(h)
  {
    HeaderEncodable(h);
    EncodeCanonical(Obj(HeaderFields(h)))
  }

  function BuildClearHeader(input: Input, wrappedContentKey: Bytes): Option<Bytes>
    requires Representable(input, wrappedContentKey)
  {
    match BuildClearHeaderObject(input, wrappedContentKey)
    case None => None
    case Some(value) =>
      InputHeader(input, wrappedContentKey);
      HeaderEncodable(HeaderOf(input, wrappedContentKey));
      Some(EncodeCanonical(value))
  }

  /** Associated data when wrapping: the header of the input, with an empty wrapped key. */
  function BuildKeyWrapAadHeader(input: Input): Option<Bytes>
    requires Representable(input, [])
  {
    BuildClearHeader(input, [])
  }

  /** Associated data when unwrapping: rebuilt field by field from the validated header. */
  function BuildKeyWrapAadHeaderFromClearHeader(h: Header): Bytes
    requires HeaderFits(h)
  {
    EncodeHeader(h.(keyWrap := KeyWrap(h.keyWrap.algorithm, h.keyWrap.iv, [])))
  }

  // ---- Validation ---------------------------------------------------------------------------------

  predicate BlobOf(v: Value, length: nat) { v.Blob? && |v.bytes| == length }

  function ValidateKdf(v: Value): Option<Kdf> {
    if !v.Obj? then None else
    var f := v.fields;
    if && Get(f, "algorithm") == Text(KDF_ALGORITHM) && Get(f, "version") == Int(KDF_VERSION)
       && BlobOf(Get(f, "salt"), SALT_BYTES) && PositiveSafe(Get(f, "memoryKiB")) && PositiveSafe(Get(f, "iterations"))
       && PositiveSafe(Get(f, "parallelism")) && Get(f, "outputLength") == Int(ROOT_KEY_BYTES)
    then Some(Kdf(KDF_ALGORITHM, KDF_VERSION, Get(f, "salt").bytes, Get(f, "memoryKiB").n, Get(f, "iterations").n,
                  Get(f, "parallelism").n, ROOT_KEY_BYTES))
    else None
  }

  predicate ValidHkdf(v: Value) { v.Obj? && Get(v.fields, "algorithm") == Text(HKDF_ALGORITHM) }

  function ValidateKeyWrap(v: Value): Option<KeyWrap> {
    if && v.Obj? && Get(v.fields, "algorithm") == Text(KEY_WRAP_ALGORITHM) && BlobOf(Get(v.fields, "iv"), WRAP_IV_BYTES)
       && BlobOf(Get(v.fields, "wrappedContentKey"), ROOT_KEY_BYTES + AES_GCM_TAG_BITS / 8)
    then Some(KeyWrap(KEY_WRAP_ALGORITHM, Get(v.fields, "iv").bytes, Get(v.fields, "wrappedContentKey").bytes))
    else None
  }

  function ValidateRecordCipher(v: Value): Option<RecordCipher> {
    if && v.Obj? && Get(v.fields, "algorithm") == Text(RECORD_CIPHER_ALGORITHM)
       && BlobOf(Get(v.fields, "noncePrefix"), RECORD_NONCE_PREFIX_BYTES)
       && Get(v.fields, "tagLengthBits") == Int(AES_GCM_TAG_BITS)
    then Some(RecordCipher(RECORD_CIPHER_ALGORITHM, Get(v.fields, "noncePrefix").bytes, AES_GCM_TAG_BITS))
    else None
  }

  predicate ValidManifest(v: Value) {
    v.Obj? && Get(v.fields, "required") == Bool(true) && Get(v.fields, "mustBeFinalRecord") == Bool(true)
  }

  /** `None` when any assertion of the source fails. */
  function ValidateClearHeader(v: Value): Option<Header> {
    if !v.Obj? then None else
    var f := v.fields;
    var mode, createdAt, backupId := Get(f, "mode"), Get(f, "createdAt"), Get(f, "backupId");
    var kdf, keyWrap, cipher := ValidateKdf(Get(f, "kdf")), ValidateKeyWrap(Get(f, "keyWrap")),
        ValidateRecordCipher(Get(f, "recordCipher"));
    if && Get(f, "headerVersion") == Int(HEADER_VERSION) && mode.Text? && ValidMode(mode.s) && PositiveSafe(createdAt)
       && BlobOf(backupId, BACKUP_ID_BYTES) && kdf.Some? && ValidHkdf(Get(f, "hkdf")) && keyWrap.Some? && cipher.Some?
       && ValidManifest(Get(f, "manifest"))
    then Some(Header(HEADER_VERSION, mode.s, createdAt.n, backupId.bytes, kdf.value, HKDF_ALGORITHM, keyWrap.value,
                     cipher.value, Manifest(true, true)))
    else None
  }

  function DecodeClearHeader(bytes: Bytes): Option<Header> {
    if bytes == [] then None else
    match DecodeCbor(bytes)
    case None => None
    case Some(v) => ValidateClearHeader(v)
  }

  // ---- The header survives its encoding ------------------------------------------------------------

  lemma HeaderKeysDistinct(h: Header)
    ensures DistinctKeys(HeaderFields(h)) && DistinctKeys(KdfFields(h.kdf)) && DistinctKeys(HkdfFields(h.hkdf))
    ensures DistinctKeys(KeyWrapFields(h.keyWrap)) && DistinctKeys(RecordCipherFields(h.recordCipher))
    ensures DistinctKeys(ManifestFields(h.manifest))
  {
  }

  lemma HeaderProper(h: Header)
    ensures Proper(Obj(HeaderFields(h)))
  {
    HeaderKeysDistinct(h);
  }

  lemma KdfEncodable(h: Header)
    requires HeaderFits(h)
    ensures EncodableFields(KdfFields(h.kdf))
  {
  }

  lemma KeyWrapEncodable(h: Header)
    requires HeaderFits(h)
    ensures EncodableFields(HkdfFields(h.hkdf)) && EncodableFields(KeyWrapFields(h.keyWrap))
  {
  }

  lemma RecordCipherEncodable(h: Header)
    requires HeaderFits(h)
    ensures EncodableFields(RecordCipherFields(h.recordCipher)) && EncodableFields(ManifestFields(h.manifest))
  {
  }

  lemma HeaderEncodable(h: Header)
    requires HeaderFits(h)
    ensures Encodable(Obj(HeaderFields(h))) && Encodable(Canon(Obj(HeaderFields(h))))
  {
    HeaderProper(h);
    KdfEncodable(h);
    KeyWrapEncodable(h);
    RecordCipherEncodable(h);
    ScalarsEncodable(h);
    ObjectsEncodable(h);
    assert EncodableFields(HeaderFields(h));
    CanonEncodable(Obj(HeaderFields(h)));
  }

  lemma ScalarsEncodable(h: Header)
    requires HeaderFits(h)
    ensures forall i :: 0 <= i < 4 ==> EncodableKey(HeaderFields(h)[i].key) && Encodable(HeaderFields(h)[i].value)
  {
  }

  lemma ObjectsEncodable(h: Header)
    requires EncodableFields(KdfFields(h.kdf)) && EncodableFields(HkdfFields(h.hkdf))
    requires EncodableFields(KeyWrapFields(h.keyWrap)) && EncodableFields(RecordCipherFields(h.recordCipher))
    requires EncodableFields(ManifestFields(h.manifest))
    ensures forall i :: 4 <= i < 9 ==> EncodableKey(HeaderFields(h)[i].key) && Encodable(HeaderFields(h)[i].value)
  {
  }

  /** What validation demands of a header, in terms of the header alone. */
  predicate Acceptable(h: Header) {
    && h.headerVersion == HEADER_VERSION && ValidMode(h.mode) && IsPositiveSafeInteger(h.createdAt)
    && |h.backupId| == BACKUP_ID_BYTES && AcceptableKdf(h.kdf) && h.hkdf == HKDF_ALGORITHM
    && AcceptableKeyWrap(h.keyWrap) && AcceptableRecordCipher(h.recordCipher) && h.manifest == Manifest(true, true)
  }

  predicate AcceptableKdf(k: Kdf) {
    && k.algorithm == KDF_ALGORITHM && k.version == KDF_VERSION && |k.salt| == SALT_BYTES
    && IsPositiveSafeInteger(k.memoryKiB) && IsPositiveSafeInteger(k.iterations) && IsPositiveSafeInteger(k.parallelism)
    && k.outputLength == ROOT_KEY_BYTES
  }

  predicate AcceptableKeyWrap(k: KeyWrap) {
    k.algorithm == KEY_WRAP_ALGORITHM && |k.iv| == WRAP_IV_BYTES &&
      |k.wrappedContentKey| == ROOT_KEY_BYTES + AES_GCM_TAG_BITS / 8
  }

  predicate AcceptableRecordCipher(c: RecordCipher) {
    c.algorithm == RECORD_CIPHER_ALGORITHM && |c.noncePrefix| == RECORD_NONCE_PREFIX_BYTES &&
      c.tagLengthBits == AES_GCM_TAG_BITS
  }

  // What the decoder finds under each key of the canonical object.

  lemma KdfReads(k: Kdf)
    ensures var f := CanonObject(KdfFields(k));
            && Get(f, "algorithm") == Text(k.algorithm) && Get(f, "version") == Int(k.version)
            && Get(f, "salt") == Blob(k.salt)
            && Get(f, "memoryKiB") == Int(k.memoryKiB) && Get(f, "iterations") == Int(k.iterations)
            && Get(f, "parallelism") == Int(k.parallelism) && Get(f, "outputLength") == Int(k.outputLength)
  {
    var f := KdfFields(k);
    GetCanon(f, 0);
    GetCanon(f, 1);
    GetCanon(f, 2);
    GetCanon(f, 3);
    GetCanon(f, 4);
    GetCanon(f, 5);
    GetCanon(f, 6);
  }

  lemma KeyWrapReads(k: KeyWrap)
    ensures var f := CanonObject(KeyWrapFields(k));
            && Get(f, "algorithm") == Text(k.algorithm) && Get(f, "iv") == Blob(k.iv)
            && Get(f, "wrappedContentKey") == Blob(k.wrappedContentKey)
  {
    var f := KeyWrapFields(k);
    GetCanon(f, 0);
    GetCanon(f, 1);
    GetCanon(f, 2);
  }

  lemma RecordCipherReads(c: RecordCipher)
    ensures var f := CanonObject(RecordCipherFields(c));
            && Get(f, "algorithm") == Text(c.algorithm) && Get(f, "noncePrefix") == Blob(c.noncePrefix)
            && Get(f, "tagLengthBits") == Int(c.tagLengthBits)
  {
    var f := RecordCipherFields(c);
    GetCanon(f, 0);
    GetCanon(f, 1);
    GetCanon(f, 2);
  }

  lemma FlagReads(algorithm: string, m: Manifest)
    ensures Get(CanonObject(HkdfFields(algorithm)), "algorithm") == Text(algorithm)
    ensures var f := CanonObject(ManifestFields(m));
            Get(f, "required") == Bool(m.required) && Get(f, "mustBeFinalRecord") == Bool(m.mustBeFinalRecord)
  {
    GetCanon(HkdfFields(algorithm), 0);
    GetCanon(ManifestFields(m), 0);
    GetCanon(ManifestFields(m), 1);
  }

  lemma HeaderScalarReads(h: Header)
    ensures var f := CanonObject(HeaderFields(h));
            && Get(f, "headerVersion") == Int(h.headerVersion) && Get(f, "mode") == Text(h.mode)
            && Get(f, "createdAt") == Int(h.createdAt) && Get(f, "backupId") == Blob(h.backupId)
  {
    var f := HeaderFields(h);
    HeaderKeysDistinct(h);
    GetCanon(f, 0);
    GetCanon(f, 1);
    GetCanon(f, 2);
    GetCanon(f, 3);
  }

  lemma HeaderObjectReads(h: Header)
    ensures var f := CanonObject(HeaderFields(h));
            && Get(f, "kdf") == Obj(CanonObject(KdfFields(h.kdf)))
            && Get(f, "hkdf") == Obj(CanonObject(HkdfFields(h.hkdf)))
            && Get(f, "keyWrap") == Obj(CanonObject(KeyWrapFields(h.keyWrap)))
            && Get(f, "recordCipher") == Obj(CanonObject(RecordCipherFields(h.recordCipher)))
            && Get(f, "manifest") == Obj(CanonObject(ManifestFields(h.manifest)))
  {
    var f := HeaderFields(h);
    HeaderKeysDistinct(h);
    GetCanon(f, 4);
    GetCanon(f, 5);
    GetCanon(f, 6);
    GetCanon(f, 7);
    GetCanon(f, 8);
  }

  lemma PartsSurvive(h: Header)
    ensures ValidateKdf(Obj(CanonObject(KdfFields(h.kdf)))) == if AcceptableKdf(h.kdf) then Some(h.kdf) else None
    ensures ValidateKeyWrap(Obj(CanonObject(KeyWrapFields(h.keyWrap))))
              == if AcceptableKeyWrap(h.keyWrap) then Some(h.keyWrap) else None
    ensures ValidateRecordCipher(Obj(CanonObject(RecordCipherFields(h.recordCipher))))
         == if AcceptableRecordCipher(h.recordCipher) then Some(h.recordCipher) else None
    ensures ValidHkdf(Obj(CanonObject(HkdfFields(h.hkdf)))) <==> h.hkdf == HKDF_ALGORITHM
    ensures ValidManifest(Obj(CanonObject(ManifestFields(h.manifest)))) <==> h.manifest == Manifest(true, true)
  {
    KdfReads(h.kdf);
    KeyWrapReads(h.keyWrap);
    RecordCipherReads(h.recordCipher);
    FlagReads(h.hkdf, h.manifest);
  }

  lemma HeaderSurvives(h: Header)
    ensures ValidateClearHeader(Obj(CanonObject(HeaderFields(h)))) == if Acceptable(h) then Some(h) else None
  {
    HeaderScalarReads(h);
    HeaderObjectReads(h);
    PartsSurvive(h);
  }

  /** Encoding a header and decoding it: the same header when acceptable, a refusal otherwise. */
  lemma HeaderRoundTrip(h: Header)
    requires HeaderFits(h)
    ensures DecodeClearHeader(EncodeHeader(h)) == if Acceptable(h) then Some(h) else None
  {
    HeaderProper(h);
    HeaderEncodable(h);
    CanonicalRoundTrip(Obj(HeaderFields(h)));
    HeaderSurvives(h);
  }

  // ---- The two constructions agree -----------------------------------------------------------------

  /** What decoding checks and building does not: a caller can test it before exporting. */
  predicate Decodable(input: Input, wrappedContentKey: Bytes) {
    var k := input.kdfProfile;
    && input.mode in ["identity-only", "full"] && input.createdAt <= 9007199254740991
    && 0 < k.memoryKiB <= 9007199254740991 && 0 < k.iterations <= 9007199254740991
    && 0 < k.parallelism <= 9007199254740991 && k.hashLength == 32 && |wrappedContentKey| == 48
  }

  /** The header has every value of the input under its own name, and the constants of the format. */
  predicate HeldBy(h: Header, input: Input, wrappedContentKey: Bytes) {
    && h.mode == input.mode && h.createdAt == input.createdAt && h.backupId == input.backupId
    && h.kdf.salt == input.salt && h.kdf.memoryKiB == input.kdfProfile.memoryKiB
    && h.kdf.iterations == input.kdfProfile.iterations && h.kdf.parallelism == input.kdfProfile.parallelism
    && h.kdf.outputLength == input.kdfProfile.hashLength
    && h.keyWrap.iv == input.wrapIv && h.keyWrap.wrappedContentKey == wrappedContentKey
    && h.recordCipher.noncePrefix == input.noncePrefix
    && HasConstants(h)
  }

  predicate HasConstants(h: Header) {
    && h.headerVersion == 1 && h.kdf.algorithm == "argon2id" && h.kdf.version == 19 && h.hkdf == "HKDF-SHA-256"
    && h.keyWrap.algorithm == "AES-GCM-256" && h.recordCipher.algorithm == "AES-GCM-256"
    && h.recordCipher.tagLengthBits == 128 && h.manifest.required && h.manifest.mustBeFinalRecord
  }

  lemma InputHeader(input: Input, wrappedContentKey: Bytes)
    requires Representable(input, wrappedContentKey) && InputLengthsFit(input)
    ensures HeaderFits(HeaderOf(input, wrappedContentKey))
    ensures Acceptable(HeaderOf(input, wrappedContentKey)) <==> Decodable(input, wrappedContentKey)
  {
  }

  /**
   * Whatever input builds a header: it decodes again exactly when `Decodable`, to the input's own values,
   * and then both constructions of the associated data yield the same bytes.
   */
  lemma AadConstructionsAgree(input: Input, wrappedContentKey: Bytes)
    requires Representable(input, wrappedContentKey) && InputLengthsFit(input)
    ensures BuildClearHeader(input, wrappedContentKey).Some? && BuildKeyWrapAadHeader(input).Some?
    ensures var decoded := DecodeClearHeader(BuildClearHeader(input, wrappedContentKey).value);
            && (decoded.Some? <==> Decodable(input, wrappedContentKey))
            && (decoded.Some? ==>
                  && decoded.value == HeaderOf(input, wrappedContentKey) && HeaderFits(decoded.value)
                  && HeldBy(decoded.value, input, wrappedContentKey)
                  && BuildKeyWrapAadHeaderFromClearHeader(decoded.value) == BuildKeyWrapAadHeader(input).value)
  {
    InputHeader(input, wrappedContentKey);
    InputHeader(input, []);
    var h := HeaderOf(input, wrappedContentKey);
    HeaderRoundTrip(h);
    assert h.(keyWrap := KeyWrap(h.keyWrap.algorithm, h.keyWrap.iv, [])) == HeaderOf(input, []);
  }

  /** The fields of an encoded header, by the names they have in the file. */
  ghost predicate ReadsAs(v: Value, input: Input, wrappedContentKey: Bytes) {
    && v.Obj? && Get(v.fields, "kdf").Obj? && Get(v.fields, "keyWrap").Obj? && Get(v.fields, "recordCipher").Obj?
    && var f, kdf, wrap, cipher := v.fields, Get(v.fields, "kdf").fields, Get(v.fields, "keyWrap").fields,
          Get(v.fields, "recordCipher").fields;
       && Get(f, "headerVersion") == Int(1) && Get(f, "mode") == Text(input.mode)
       && Get(f, "createdAt") == Int(input.createdAt) && Get(f, "backupId") == Blob(input.backupId)
       && Get(kdf, "algorithm") == Text("argon2id") && Get(kdf, "version") == Int(19)
       && Get(kdf, "salt") == Blob(input.salt) && Get(kdf, "memoryKiB") == Int(input.kdfProfile.memoryKiB)
       && Get(kdf, "iterations") == Int(input.kdfProfile.iterations)
       && Get(kdf, "parallelism") == Int(input.kdfProfile.parallelism)
       && Get(kdf, "outputLength") == Int(input.kdfProfile.hashLength)
       && Get(wrap, "algorithm") == Text("AES-GCM-256") && Get(wrap, "iv") == Blob(input.wrapIv)
       && Get(wrap, "wrappedContentKey") == Blob(wrappedContentKey)
       && Get(cipher, "algorithm") == Text("AES-GCM-256") && Get(cipher, "noncePrefix") == Blob(input.noncePrefix)
       && Get(cipher, "tagLengthBits") == Int(128)
  }

  /** A built header holds the input, and the associated data the same input with an empty wrapped key. */
  lemma BuiltHeaderReads(input: Input, wrappedContentKey: Bytes)
    requires Representable(input, wrappedContentKey)
    ensures BuildClearHeader(input, wrappedContentKey).Some? <==>
              |input.backupId| == 16 && |input.salt| == 16 && |input.wrapIv| == 12 && |input.noncePrefix| == 4
              && input.createdAt > 0
    ensures BuildClearHeader(input, wrappedContentKey).Some? ==>
              && DecodeCbor(BuildClearHeader(input, wrappedContentKey).value).Some?
              && ReadsAs(DecodeCbor(BuildClearHeader(input, wrappedContentKey).value).value, input, wrappedContentKey)
              && BuildKeyWrapAadHeader(input).Some? && DecodeCbor(BuildKeyWrapAadHeader(input).value).Some?
              && ReadsAs(DecodeCbor(BuildKeyWrapAadHeader(input).value).value, input, [])
  {
    if InputLengthsFit(input) {
      EncodedInputReads(input, wrappedContentKey);
      EncodedInputReads(input, []);
    }
  }

  lemma EncodedInputReads(input: Input, wrappedContentKey: Bytes)
    requires Representable(input, wrappedContentKey) && InputLengthsFit(input)
    ensures BuildClearHeader(input, wrappedContentKey).Some?
    ensures DecodeCbor(BuildClearHeader(input, wrappedContentKey).value).Some?
    ensures ReadsAs(DecodeCbor(BuildClearHeader(input, wrappedContentKey).value).value, input, wrappedContentKey)
  {
    var h := HeaderOf(input, wrappedContentKey);
    InputHeader(input, wrappedContentKey);
    HeaderProper(h);
    HeaderEncodable(h);
    CanonicalRoundTrip(Obj(HeaderFields(h)));
    HeaderScalarReads(h);
    HeaderObjectReads(h);
    KdfReads(h.kdf);
    KeyWrapReads(h.keyWrap);
    RecordCipherReads(h.recordCipher);
  }

  /** Everything bound by the associated data: two inputs share it only when they agree on every field. */
  lemma AadDeterminesInput(a: Input, b: Input)
    requires Representable(a, []) && Representable(b, []) && InputLengthsFit(a) && InputLengthsFit(b)
    ensures BuildKeyWrapAadHeader(a) == BuildKeyWrapAadHeader(b) <==> a == b
  {
    InputHeader(a, []);
    InputHeader(b, []);
    if BuildKeyWrapAadHeader(a) == BuildKeyWrapAadHeader(b) {
      SameBytesSameHeader(HeaderOf(a, []), HeaderOf(b, []));
    }
  }

  lemma SameBytesSameHeader(h: Header, g: Header)
    requires HeaderFits(h) && HeaderFits(g) && EncodeHeader(h) == EncodeHeader(g)
    ensures h == g
  {
    SameBytesSameObject(h, g);
    HeaderScalarReads(h);
    HeaderScalarReads(g);
    HeaderObjectReads(h);
    HeaderObjectReads(g);
    SamePartsSameHeader(h, g);
  }

  lemma SameBytesSameObject(h: Header, g: Header)
    requires HeaderFits(h) && HeaderFits(g) && EncodeHeader(h) == EncodeHeader(g)
    ensures CanonObject(HeaderFields(h)) == CanonObject(HeaderFields(g))
  {
    HeaderProper(h);
    HeaderProper(g);
    HeaderEncodable(h);
    HeaderEncodable(g);
    CanonicalRoundTrip(Obj(HeaderFields(h)));
    CanonicalRoundTrip(Obj(HeaderFields(g)));
  }

  lemma SamePartsSameHeader(h: Header, g: Header)
    requires CanonObject(KdfFields(h.kdf)) == CanonObject(KdfFields(g.kdf))
    requires CanonObject(HkdfFields(h.hkdf)) == CanonObject(HkdfFields(g.hkdf))
    requires CanonObject(KeyWrapFields(h.keyWrap)) == CanonObject(KeyWrapFields(g.keyWrap))
    requires CanonObject(RecordCipherFields(h.recordCipher)) == CanonObject(RecordCipherFields(g.recordCipher))
    requires CanonObject(ManifestFields(h.manifest)) == CanonObject(ManifestFields(g.manifest))
    ensures h.kdf == g.kdf && h.hkdf == g.hkdf && h.keyWrap == g.keyWrap && h.recordCipher == g.recordCipher
    ensures h.manifest == g.manifest
  {
    KdfReads(h.kdf);
    KdfReads(g.kdf);
    KeyWrapReads(h.keyWrap);
    KeyWrapReads(g.keyWrap);
    RecordCipherReads(h.recordCipher);
    RecordCipherReads(g.recordCipher);
    FlagReads(h.hkdf, h.manifest);
    FlagReads(g.hkdf, g.manifest);
  }
}
