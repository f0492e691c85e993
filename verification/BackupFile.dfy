/** A whole backup file: written by the exporter, read back by the restore pipeline. */
module BackupFile {
  import opened Common
  import opened Constants
  import opened Endian
  import opened BackupContents
  import CborCodec
  import Prelude
  import ClearHeader
  import RecordHeader

  const RECORD_AUTH_TAG_BYTES: nat := AES_GCM_TAG_BITS / 8

  /** Key derivation from the passphrase and the header's parameters, subkeys, HMAC and AES-GCM. */
  datatype Crypto = Crypto(
    rootKey: (string, ClearHeader.Kdf) -> Bytes,
    subkey: (Bytes, string) -> Bytes,
    mac: (Bytes, Bytes) -> Bytes,
    seal: (Bytes, Bytes, Bytes, Bytes) -> Bytes,
    open: (Bytes, Bytes, Bytes, Bytes) -> Option<Bytes>)

  ghost predicate Lawful(c: Crypto) {
    && (forall key, data :: |c.mac(key, data)| == HEADER_AUTH_TAG_BYTES)
    && (forall key, iv, aad, plain :: SealsAt(c, key, iv, aad, plain))
  }

  ghost predicate SealsAt(c: Crypto, key: Bytes, iv: Bytes, aad: Bytes, plain: Bytes) {
    && |c.seal(key, iv, aad, plain)| == |plain| + RECORD_AUTH_TAG_BYTES
    && c.open(key, iv, aad, c.seal(key, iv, aad, plain)) == Some(plain)
  }

  /** A record before it is numbered and sealed. */
  datatype Draft = Draft(
    kind: string, encoding: string, payload: Bytes, objectId: Option<string>, chunkIndex: Option<int>,
    chunkCount: Option<int>)

  // ---- Writing -----------------------------------------------------------------------------------------

  function HeaderOfDraft(d: Draft, index: nat): RecordHeader.Header {
    RecordHeader.Header(RECORD_VERSION, d.kind, index, d.encoding, |d.payload|, |d.payload| + RECORD_AUTH_TAG_BYTES,
                        d.objectId, d.chunkIndex, d.chunkCount)
  }

  /** `None` when building the header or the nonce throws. */
  function WriteRecord(c: Crypto, contentKey: Bytes, noncePrefix: Bytes, d: Draft, index: nat): Option<Bytes>
    requires RecordHeader.Representable(HeaderOfDraft(d, index))
  {
    var header := RecordHeader.BuildRecordHeader(HeaderOfDraft(d, index));
    var nonce := RecordHeader.RecordNonce(noncePrefix, index);
    if header == None || nonce == None then None
    else
      var length := Prelude.EncodeUint32LittleEndian(|header.value|);
      if length == None then None
      else Some(length.value + header.value + c.seal(contentKey, nonce.value, header.value, d.payload))
  }

  predicate DraftsRepresentable(drafts: seq<Draft>) {
    forall i :: 0 <= i < |drafts| ==> RecordHeader.Representable(HeaderOfDraft(drafts[i], 0))
  }

  function WriteRecords(c: Crypto, contentKey: Bytes, noncePrefix: Bytes, drafts: seq<Draft>, index: nat): Option<Bytes>
    requires DraftsRepresentable(drafts)
    decreases |drafts|
  {
    if drafts == [] then Some([])
    else
      assert RecordHeader.Representable(HeaderOfDraft(drafts[0], 0));
      var first := WriteRecord(c, contentKey, noncePrefix, drafts[0], index);
      var rest := WriteRecords(c, contentKey, noncePrefix, drafts[1..], index + 1);
      if first == None || rest == None then None else Some(first.value + rest.value)
  }

  function WrapContentKey(c: Crypto, rootKey: Bytes, contentKey: Bytes, aadHeader: Bytes, iv: Bytes): Option<Bytes> {
    if |iv| != WRAP_IV_BYTES || |contentKey| != ROOT_KEY_BYTES then None
    else
      match Prelude.AuthenticationBytes(MAGIC, FORMAT_VERSION, FLAGS, aadHeader)
      case None => None
      case Some(aad) => Some(c.seal(c.subkey(rootKey, KEY_WRAP_INFO), iv, aad, contentKey))
  }

  function HeaderTag(c: Crypto, rootKey: Bytes, magic: string, version: byte, flags: byte, header: Bytes): Option<Bytes>
    requires CborCodec.IsUtf8Bytes(magic)
  {
    match Prelude.AuthenticationBytes(magic, version, flags, header)
    case None => None
    case Some(data) => Some(c.mac(c.subkey(rootKey, HEADER_AUTH_INFO), data))
  }

  function KdfOf(input: ClearHeader.Input): ClearHeader.Kdf { ClearHeader.HeaderOf(input, []).kdf }

  /** The bytes the exporter writes, or `None` when a step throws. */
  function Export(
    c: Crypto, passphrase: string, input: ClearHeader.Input, contentKey: Bytes, drafts: seq<Draft>
  ): Option<Bytes>
    requires Lawful(c) && ClearHeader.Representable(input, []) && DraftsRepresentable(drafts)
  {
    var rootKey := c.rootKey(passphrase, KdfOf(input));
    match ClearHeader.BuildKeyWrapAadHeader(input)
    case None => None
    case Some(aadHeader) =>
      match WrapContentKey(c, rootKey, contentKey, aadHeader, input.wrapIv)
      case None => None
      case Some(wrapped) => ExportWrapped(c, rootKey, input, contentKey, wrapped, drafts)
  }

  function ExportWrapped(
    c: Crypto, rootKey: Bytes, input: ClearHeader.Input, contentKey: Bytes, wrapped: Bytes, drafts: seq<Draft>
  ): Option<Bytes>
    requires ClearHeader.Representable(input, []) && DraftsRepresentable(drafts)
  {
    if |wrapped| >= TWO64 then None else
    match ClearHeader.BuildClearHeader(input, wrapped)
    case None => None
    case Some(header) =>
      var tag := HeaderTag(c, rootKey, MAGIC, FORMAT_VERSION, FLAGS, header);
      var records := WriteRecords(c, contentKey, input.noncePrefix, drafts, 0);
      if tag == None || records == None then None
      else
        match Prelude.WritePrelude(header, tag.value)
        case None => None
        case Some(prelude) => Some(prelude + records.value)
  }

  // ---- Reading -----------------------------------------------------------------------------------------

  predicate AllowedInMode(mode: string, kind: string) {
    mode == "identity-only" ==> kind == "identity" || kind == "manifest"
  }

  /** The encoding the pipeline expects of each record type. */
  predicate ExpectedEncoding(kind: string, encoding: string) {
    encoding == if RecordHeader.IsChunk(kind) then "bytes" else "cbor"
  }

  datatype ReadRecord = ReadRecord(record: Record, rest: Bytes)

  /** One turn of the reading loop on the bytes not yet read; `None` when it throws. */
  function ReadOne(
    c: Crypto, contentKey: Bytes, noncePrefix: Bytes, mode: string, tail: Bytes, index: nat
  ): (r: Option<ReadRecord>)
    ensures r.Some? ==> |r.value.rest| < |tail|
  {
    match Prelude.ReadUint32LittleEndian(tail, 0)
    case None => None
    case Some(length) =>
      if 4 + length > |tail| then None else
      var headerBytes := tail[4..4 + length];
      match RecordHeader.DecodeRecordHeader(headerBytes)
      case None => None
      case Some(header) => ReadSealed(c, contentKey, noncePrefix, mode, headerBytes, header, tail[4 + length..], index)
  }

  function ReadSealed(
    c: Crypto, contentKey: Bytes, noncePrefix: Bytes, mode: string, headerBytes: Bytes, header: RecordHeader.Header,
    body: Bytes, index: nat
  ): (r: Option<ReadRecord>)
    ensures r.Some? ==> |r.value.rest| <= |body|
  {
    if || header.index != index || header.cipherLength != header.plainLength + RECORD_AUTH_TAG_BYTES
       || header.cipherLength < 0 || header.cipherLength > |body| then None
    else
      var nonce := RecordHeader.RecordNonce(noncePrefix, header.index);
      if nonce == None then None
      else
        match c.open(contentKey, nonce.value, headerBytes, body[..header.cipherLength])
        case None => None
        case Some(payload) =>
          if || |payload| != header.plainLength || !AllowedInMode(mode, header.kind)
             || !ExpectedEncoding(header.kind, header.encoding)
             || (header.kind == "manifest" && header.cipherLength != |body|) then None
          else Some(ReadRecord(Record(header, payload), body[header.cipherLength..]))
  }

  /** A turn of the loop leaves a shorter end of what it was given. */
  ghost predicate Consumes(readOne: (Bytes, nat) -> Option<ReadRecord>) {
    forall tail, index :: ConsumesAt(readOne, tail, index)
  }

  ghost predicate ConsumesAt(readOne: (Bytes, nat) -> Option<ReadRecord>, tail: Bytes, index: nat) {
    readOne(tail, index).Some? ==>
      var rest := readOne(tail, index).value.rest;
      |rest| < |tail| && rest == tail[|tail| - |rest|..]
  }

  /** The reading loop: it stops at the end of the file or after the manifest. */
  function ReadAll(readOne: (Bytes, nat) -> Option<ReadRecord>, tail: Bytes, index: nat): Option<seq<Record>>
    requires Consumes(readOne)
    decreases |tail|
  {
    if tail == [] then Some([])
    else
      assert ConsumesAt(readOne, tail, index);
      match readOne(tail, index)
      case None => None
      case Some(first) =>
        if first.record.header.kind == "manifest" then Some([first.record])
        else Prefixed([first.record], ReadAll(readOne, first.rest, index + 1))
  }

  function Prefixed(read: seq<Record>, more: Option<seq<Record>>): Option<seq<Record>> {
    if more == None then None else Some(read + more.value)
  }

  lemma PrefixedNothing(more: Option<seq<Record>>)
    ensures Prefixed([], more) == more
  {
    if more.Some? {
      assert [] + more.value == more.value;
    }
  }

  lemma PrefixedTwice(read: seq<Record>, record: Record, more: Option<seq<Record>>)
    ensures Prefixed(read, Prefixed([record], more)) == Prefixed(read + [record], more)
  {
    if more.Some? {
      assert read + ([record] + more.value) == (read + [record]) + more.value;
    }
  }

  function Assembled(v: Validators, records: Option<seq<Record>>): Option<Assembly> {
    if records == None then None else Assemble(v, NOTHING, records.value)
  }

  lemma AbsorbedNext(v: Validators, a: Assembly, read: seq<Record>, record: Record, more: Option<seq<Record>>)
    requires Assemble(v, NOTHING, read) == Some(a)
    ensures Assemble(v, NOTHING, read + [record]) == Absorb(v, a, record)
    ensures Absorb(v, a, record) == None ==> Assembled(v, Prefixed(read + [record], more)) == None
  {
    var next := read + [record];
    assert next[..|next| - 1] == read;
    if more.Some? {
      AssembleAppend(v, NOTHING, next, more.value);
    }
  }

  /** The loop of the pipeline: an offset moves through the file and every record is taken in as it is read. */
  method ReadRecordLoop(
    v: Validators, readOne: (Bytes, nat) -> Option<ReadRecord>, bytes: Bytes, start: nat
  ) returns (assembly: Option<Assembly>)
    requires Consumes(readOne) && start <= |bytes|
    ensures assembly == Assembled(v, ReadAll(readOne, bytes[start..], 0))
  {
    ghost var read: seq<Record> := [];
    var state := NOTHING;
    var offset, index := start, 0;
    PrefixedNothing(ReadAll(readOne, bytes[start..], 0));
    while offset < |bytes|
      invariant start <= offset <= |bytes| && Assemble(v, NOTHING, read) == Some(state)
      invariant ReadAll(readOne, bytes[start..], 0) == Prefixed(read, ReadAll(readOne, bytes[offset..], index))
      decreases |bytes| - offset
    {
      assert ConsumesAt(readOne, bytes[offset..], index);
      var first := readOne(bytes[offset..], index);
      if first == None {
        return None;
      }
      var record, rest := first.value.record, first.value.rest;
      ghost var more := if record.header.kind == "manifest" then Some([]) else ReadAll(readOne, rest, index + 1);
      PrefixedTwice(read, record, more);
      AbsorbedNext(v, state, read, record, more);
      var absorbed := Absorb(v, state, record);
      if absorbed == None {
        return None;
      }
      read, state, index := read + [record], absorbed.value, index + 1;
      if record.header.kind == "manifest" {
        assert read + [] == read;
        return Some(state);
      }
      offset := |bytes| - |rest|;
      assert bytes[offset..] == rest;
    }
    assert bytes[offset..] == [] && read + [] == read;
    return Some(state);
  }

  function ReaderOf(
    c: Crypto, contentKey: Bytes, noncePrefix: Bytes, mode: string
  ): (Bytes, nat) -> Option<ReadRecord> {
    (tail: Bytes, index: nat) => ReadOne(c, contentKey, noncePrefix, mode, tail, index)
  }

  function ReadRecords(
    c: Crypto, contentKey: Bytes, noncePrefix: Bytes, mode: string, tail: Bytes, index: nat
  ): Option<seq<Record>> {
    ReaderConsumes(c, contentKey, noncePrefix, mode);
    ReadAll(ReaderOf(c, contentKey, noncePrefix, mode), tail, index)
  }

  lemma ReaderConsumes(c: Crypto, contentKey: Bytes, noncePrefix: Bytes, mode: string)
    ensures Consumes(ReaderOf(c, contentKey, noncePrefix, mode))
  {
    forall tail, index
      ensures ConsumesAt(ReaderOf(c, contentKey, noncePrefix, mode), tail, index)
    {
      if ReadOne(c, contentKey, noncePrefix, mode, tail, index).Some? {
        ReadOneLeavesTail(c, contentKey, noncePrefix, mode, tail, index);
      }
    }
  }

  lemma ReadOneLeavesTail(c: Crypto, contentKey: Bytes, noncePrefix: Bytes, mode: string, tail: Bytes, index: nat)
    requires ReadOne(c, contentKey, noncePrefix, mode, tail, index).Some?
    ensures var rest := ReadOne(c, contentKey, noncePrefix, mode, tail, index).value.rest;
            |rest| < |tail| && rest == tail[|tail| - |rest|..]
  {
    var length := Prelude.ReadUint32LittleEndian(tail, 0).value;
    var header := RecordHeader.DecodeRecordHeader(tail[4..4 + length]).value;
    assert tail[4 + length..][header.cipherLength..] == tail[4 + length + header.cipherLength..];
  }

  function UnwrapContentKey(
    c: Crypto, rootKey: Bytes, header: ClearHeader.Header, p: Prelude.ParsedPrelude
  ): Option<Bytes>
    requires ClearHeader.HeaderFits(header) && CborCodec.IsUtf8Bytes(p.magic)
  {
    match Prelude.AuthenticationBytes(p.magic, p.formatVersion, p.flags,
                                      ClearHeader.BuildKeyWrapAadHeaderFromClearHeader(header))
    case None => None
    case Some(aad) =>
      match c.open(c.subkey(rootKey, KEY_WRAP_INFO), header.keyWrap.iv, aad, header.keyWrap.wrappedContentKey)
      case None => None
      case Some(key) => if |key| == ROOT_KEY_BYTES then Some(key) else None
  }

  datatype Failure = Malformed | WrongPassphrase
  datatype Result = Ok(header: ClearHeader.Header, contents: Contents) | Err(failure: Failure)

  /** How a backup is judged: the payload validators and the string comparison of the manifest check. */
  datatype Checks = Checks(validators: Validators, ids: (string, string) -> int)

  function ReadBackup(c: Crypto, checks: Checks, passphrase: string, bytes: Bytes): Result {
    var parsed := Prelude.ParsePrelude(bytes);
    if parsed.Rejected? then Err(Malformed)
    else
      match ClearHeader.DecodeClearHeader(parsed.prelude.clearHeaderBytes)
      case None => Err(Malformed)
      case Some(header) => ReadAuthenticated(c, checks, passphrase, bytes, parsed.prelude, header)
  }

  function ReadAuthenticated(
    c: Crypto, checks: Checks, passphrase: string, bytes: Bytes, p: Prelude.ParsedPrelude, header: ClearHeader.Header
  ): Result
  {
    if !CborCodec.IsUtf8Bytes(p.magic) || !ClearHeader.HeaderFits(header) || p.preludeLength > |bytes| then
      Err(Malformed)
    else
      var rootKey := c.rootKey(passphrase, header.kdf);
      if HeaderTag(c, rootKey, p.magic, p.formatVersion, p.flags, p.clearHeaderBytes) != Some(p.headerAuthTag) then
        Err(WrongPassphrase)
      else
        match UnwrapContentKey(c, rootKey, header, p)
        case None => Err(Malformed)
        case Some(contentKey) =>
          var tail := bytes[p.preludeLength..];
          FinishFile(checks, header, ReadRecords(c, contentKey, header.recordCipher.noncePrefix, header.mode, tail, 0))
  }

  function FinishFile(checks: Checks, header: ClearHeader.Header, records: Option<seq<Record>>): Result {
    match Assembled(checks.validators, records)
    case None => Err(Malformed)
    case Some(a) =>
      match Finish(checks.ids, header, a)
      case None => Err(Malformed)
      case Some(contents) => Ok(header, contents)
  }

  /** Whatever the bytes: a backup that is read without an error is whole. */
  lemma AcceptedBackupIsWhole(c: Crypto, checks: Checks, passphrase: string, bytes: Bytes)
    requires ReadBackup(c, checks, passphrase, bytes).Ok?
    ensures var result := ReadBackup(c, checks, passphrase, bytes);
            Whole(checks.validators, result.header, result.contents)
  {
    var p := Prelude.ParsePrelude(bytes).prelude;
    var header := ClearHeader.DecodeClearHeader(p.clearHeaderBytes).value;
    var contentKey := UnwrapContentKey(c, c.rootKey(passphrase, header.kdf), header, p).value;
    var tail := bytes[p.preludeLength..];
    var records := ReadRecords(c, contentKey, header.recordCipher.noncePrefix, header.mode, tail, 0).value;
    AcceptedIsWhole(checks.validators, checks.ids, header, records);
  }

  // ---- Round trip ----------------------------------------------------------------------------------------

  /** The header a written record carries: an empty object id is left out. */
  function WrittenHeader(d: Draft, index: nat): RecordHeader.Header {
    RecordHeader.WithoutEmptyId(HeaderOfDraft(d, index))
  }

  /** A record the pipeline accepts: a valid header, the expected encoding, allowed in the mode. */
  predicate GoodDraft(d: Draft, index: nat, mode: string) {
    RecordHeader.Valid(WrittenHeader(d, index)) && ExpectedEncoding(d.kind, d.encoding) && AllowedInMode(mode, d.kind)
  }

  /** What was written, part by part. */
  lemma WrittenRecord(c: Crypto, contentKey: Bytes, noncePrefix: Bytes, d: Draft, index: nat)
    requires RecordHeader.Representable(HeaderOfDraft(d, index))
    requires WriteRecord(c, contentKey, noncePrefix, d, index).Some?
    ensures RecordHeader.BuildRecordHeader(HeaderOfDraft(d, index)).Some?
    ensures RecordHeader.RecordNonce(noncePrefix, index).Some?
    ensures var header, nonce := RecordHeader.BuildRecordHeader(HeaderOfDraft(d, index)).value,
              RecordHeader.RecordNonce(noncePrefix, index).value;
            && |header| < TWO32
            && WriteRecord(c, contentKey, noncePrefix, d, index).value
            == LittleEndian(|header|, 4) + header + c.seal(contentKey, nonce, header, d.payload)
            && RecordHeader.DecodeRecordHeader(header)
            == if RecordHeader.Valid(WrittenHeader(d, index)) then Some(WrittenHeader(d, index)) else None
  {
    RecordHeader.BuildThenDecode(HeaderOfDraft(d, index));
  }

  /** Reading a sealed body opens it under the nonce and associated data it was sealed with. */
  lemma SealedRoundTrip(
    c: Crypto, contentKey: Bytes, noncePrefix: Bytes, mode: string, headerBytes: Bytes, d: Draft, index: nat,
    rest: Bytes
  )
    requires Lawful(c) && RecordHeader.RecordNonce(noncePrefix, index).Some?
    ensures ReadSealed(c, contentKey, noncePrefix, mode, headerBytes, WrittenHeader(d, index),
                       c.seal(contentKey, RecordHeader.RecordNonce(noncePrefix, index).value, headerBytes, d.payload) +
                         rest, index)
         == if && ExpectedEncoding(d.kind, d.encoding) && AllowedInMode(mode, d.kind)
               && (d.kind == "manifest" ==> rest == [])
            then Some(ReadRecord(Record(WrittenHeader(d, index), d.payload), rest)) else None
  {
    var nonce := RecordHeader.RecordNonce(noncePrefix, index).value;
    var cipher := c.seal(contentKey, nonce, headerBytes, d.payload);
    assert SealsAt(c, contentKey, nonce, headerBytes, d.payload);
    assert (cipher + rest)[..|cipher|] == cipher && (cipher + rest)[|cipher|..] == rest;
  }

  /** Reading a written record returns it exactly when it is good and, if a manifest, the last. */
  lemma RecordRoundTrip(
    c: Crypto, contentKey: Bytes, noncePrefix: Bytes, d: Draft, index: nat, mode: string, rest: Bytes
  )
    requires Lawful(c) && RecordHeader.Representable(HeaderOfDraft(d, index))
    requires WriteRecord(c, contentKey, noncePrefix, d, index).Some?
    ensures ReadOne(c, contentKey, noncePrefix, mode, WriteRecord(c, contentKey, noncePrefix, d, index).value + rest,
                    index)
         == if GoodDraft(d, index, mode) && (d.kind == "manifest" ==> rest == [])
            then Some(ReadRecord(Record(WrittenHeader(d, index), d.payload), rest)) else None
  {
    WrittenRecord(c, contentKey, noncePrefix, d, index);
    var header := RecordHeader.BuildRecordHeader(HeaderOfDraft(d, index)).value;
    var cipher := c.seal(contentKey, RecordHeader.RecordNonce(noncePrefix, index).value, header, d.payload);
    SealedRoundTrip(c, contentKey, noncePrefix, mode, header, d, index, rest);
    Frame(header, cipher + rest);
    Regroup(LittleEndian(|header|, 4) + header, cipher, rest);
    Regroup(LittleEndian(|header|, 4), header, cipher + rest);
  }

  lemma Frame(header: Bytes, body: Bytes)
    requires |header| < TWO32
    ensures var tail := LittleEndian(|header|, 4) + (header + body);
            && Prelude.ReadUint32LittleEndian(tail, 0) == Some(|header|)
            && |tail| >= 4 + |header| && tail[4..4 + |header|] == header && tail[4 + |header|..] == body
  {
    Prelude.Uint32RoundTrip(|header|, [], header + body);
    assert [] + LittleEndian(|header|, 4) + (header + body) == LittleEndian(|header|, 4) + (header + body);
  }

  function RecordsOf(drafts: seq<Draft>, index: nat): seq<Record>
    decreases |drafts|
  {
    if drafts == [] then []
    else [Record(WrittenHeader(drafts[0], index), drafts[0].payload)] + RecordsOf(drafts[1..], index + 1)
  }

  /** Every record is good and only the last may be a manifest. */
  predicate GoodDrafts(drafts: seq<Draft>, index: nat, mode: string)
    decreases |drafts|
  {
    drafts == [] ||
    (GoodDraft(drafts[0], index, mode) && (drafts[0].kind == "manifest" ==> |drafts| == 1) &&
     GoodDrafts(drafts[1..], index + 1, mode))
  }

  lemma {:induction false} RecordsRoundTrip(
    c: Crypto, contentKey: Bytes, noncePrefix: Bytes, drafts: seq<Draft>, index: nat, mode: string
  )
    requires Lawful(c) && DraftsRepresentable(drafts)
    requires WriteRecords(c, contentKey, noncePrefix, drafts, index).Some?
    ensures WriteRecords(c, contentKey, noncePrefix, drafts, index).value == [] <==> drafts == []
    ensures Consumes(ReaderOf(c, contentKey, noncePrefix, mode))
    ensures ReadAll(ReaderOf(c, contentKey, noncePrefix, mode),
                    WriteRecords(c, contentKey, noncePrefix, drafts, index).value, index)
         == if GoodDrafts(drafts, index, mode) then Some(RecordsOf(drafts, index)) else None
    decreases |drafts|
  {
    ReaderConsumes(c, contentKey, noncePrefix, mode);
    if drafts == [] {
    } else {
      FirstRepresentable(drafts);
      RecordsRoundTrip(c, contentKey, noncePrefix, drafts[1..], index + 1, mode);
      var rest := WriteRecords(c, contentKey, noncePrefix, drafts[1..], index + 1).value;
      RecordRoundTrip(c, contentKey, noncePrefix, drafts[0], index, mode, rest);
      WrittenNotEmpty(c, contentKey, noncePrefix, drafts[0], index);
      var first := WriteRecord(c, contentKey, noncePrefix, drafts[0], index).value;
      OneStep(ReaderOf(c, contentKey, noncePrefix, mode), first, drafts, index, mode, rest);
    }
  }

  lemma FirstRepresentable(drafts: seq<Draft>)
    requires drafts != [] && DraftsRepresentable(drafts)
    ensures forall index :: RecordHeader.Representable(HeaderOfDraft(drafts[0], index))
    ensures DraftsRepresentable(drafts[1..])
  {
    assert RecordHeader.Representable(HeaderOfDraft(drafts[0], 0));
    forall i | 0 <= i < |drafts| - 1
      ensures RecordHeader.Representable(HeaderOfDraft(drafts[1..][i], 0))
    {
      assert RecordHeader.Representable(HeaderOfDraft(drafts[i + 1], 0));
    }
  }

  lemma WrittenNotEmpty(c: Crypto, contentKey: Bytes, noncePrefix: Bytes, d: Draft, index: nat)
    requires RecordHeader.Representable(HeaderOfDraft(d, index))
    requires WriteRecord(c, contentKey, noncePrefix, d, index).Some?
    ensures WriteRecord(c, contentKey, noncePrefix, d, index).value != []
  {
    WrittenRecord(c, contentKey, noncePrefix, d, index);
  }

  /** One turn of writing and reading, given that the rest reads back. */
  lemma OneStep(
    readOne: (Bytes, nat) -> Option<ReadRecord>, first: Bytes, drafts: seq<Draft>, index: nat, mode: string, rest: Bytes
  )
    requires Consumes(readOne) && drafts != [] && first != [] && (rest == [] <==> drafts[1..] == [])
    requires readOne(first + rest, index)
          == if GoodDraft(drafts[0], index, mode) && (drafts[0].kind == "manifest" ==> rest == [])
             then Some(ReadRecord(Record(WrittenHeader(drafts[0], index), drafts[0].payload), rest)) else None
    requires ReadAll(readOne, rest, index + 1)
          == if GoodDrafts(drafts[1..], index + 1, mode) then Some(RecordsOf(drafts[1..], index + 1)) else None
    ensures ReadAll(readOne, first + rest, index)
              == if GoodDrafts(drafts, index, mode) then Some(RecordsOf(drafts, index)) else None
  {
    var record := Record(WrittenHeader(drafts[0], index), drafts[0].payload);
    assert record.header.kind == drafts[0].kind;
    assert drafts[1..] == [] <==> |drafts| == 1;
    if |drafts| == 1 {
      assert RecordsOf(drafts[1..], index + 1) == [] && [record] + [] == [record];
    }
  }

  // ---- The whole file ----------------------------------------------------------------------------------------

  lemma WrappedHeader(c: Crypto, rootKey: Bytes, input: ClearHeader.Input, contentKey: Bytes, wrapped: Bytes)
    requires Lawful(c) && ClearHeader.Representable(input, []) && ClearHeader.InputLengthsFit(input)
    requires ClearHeader.BuildKeyWrapAadHeader(input).Some?
    requires WrapContentKey(c, rootKey, contentKey, ClearHeader.BuildKeyWrapAadHeader(input).value, input.wrapIv)
               == Some(wrapped)
    ensures |wrapped| == 48 && ClearHeader.BuildClearHeader(input, wrapped).Some?
    ensures var header := ClearHeader.DecodeClearHeader(ClearHeader.BuildClearHeader(input, wrapped).value);
            && (header.Some? <==> ClearHeader.Decodable(input, wrapped))
            && (header.Some? ==>
                  header.value == ClearHeader.HeaderOf(input, wrapped) && ClearHeader.HeaderFits(header.value))
  {
    var aad := Prelude.AuthenticationBytes(MAGIC, FORMAT_VERSION, FLAGS,
                                           ClearHeader.BuildKeyWrapAadHeader(input).value).value;
    assert SealsAt(c, c.subkey(rootKey, KEY_WRAP_INFO), input.wrapIv, aad, contentKey);
    ClearHeader.AadConstructionsAgree(input, wrapped);
  }

  /** The content key survives wrapping on export and unwrapping from the decoded header. */
  lemma KeySurvivesWrapping(
    c: Crypto, rootKey: Bytes, input: ClearHeader.Input, contentKey: Bytes, wrapped: Bytes, p: Prelude.ParsedPrelude
  )
    requires Lawful(c) && ClearHeader.Representable(input, []) && ClearHeader.InputLengthsFit(input)
    requires ClearHeader.BuildKeyWrapAadHeader(input).Some? && ClearHeader.Decodable(input, wrapped) && |wrapped| == 48
    requires WrapContentKey(c, rootKey, contentKey, ClearHeader.BuildKeyWrapAadHeader(input).value, input.wrapIv)
               == Some(wrapped)
    requires p.magic == MAGIC && p.formatVersion == FORMAT_VERSION && p.flags == FLAGS
    ensures ClearHeader.HeaderFits(ClearHeader.HeaderOf(input, wrapped)) && CborCodec.IsUtf8Bytes(p.magic)
    ensures UnwrapContentKey(c, rootKey, ClearHeader.HeaderOf(input, wrapped), p) == Some(contentKey)
  {
    var aad := Prelude.AuthenticationBytes(MAGIC, FORMAT_VERSION, FLAGS,
                                           ClearHeader.BuildKeyWrapAadHeader(input).value).value;
    assert SealsAt(c, c.subkey(rootKey, KEY_WRAP_INFO), input.wrapIv, aad, contentKey);
    ClearHeader.AadConstructionsAgree(input, wrapped);
  }

  /** What decoding the header checks and building it does not. */
  predicate InputDecodes(input: ClearHeader.Input) { ClearHeader.Decodable(input, seq(48, _ => 0)) }

  /** What an export that goes through consists of. */
  lemma ExportParts(c: Crypto, passphrase: string, input: ClearHeader.Input, contentKey: Bytes, drafts: seq<Draft>)
    returns (wrapped: Bytes, header: Bytes, tag: Bytes, records: Bytes)
    requires Lawful(c) && ClearHeader.Representable(input, []) && DraftsRepresentable(drafts)
    requires Export(c, passphrase, input, contentKey, drafts).Some?
    ensures ClearHeader.InputLengthsFit(input) && ClearHeader.BuildKeyWrapAadHeader(input).Some? && |wrapped| == 48
    ensures WrapContentKey(c, c.rootKey(passphrase, KdfOf(input)), contentKey,
                           ClearHeader.BuildKeyWrapAadHeader(input).value, input.wrapIv)
         == Some(wrapped)
    ensures ClearHeader.BuildClearHeader(input, wrapped) == Some(header) && 0 < |header| < TWO32
    ensures HeaderTag(c, c.rootKey(passphrase, KdfOf(input)), MAGIC, FORMAT_VERSION, FLAGS, header) == Some(tag)
    ensures |tag| == HEADER_AUTH_TAG_BYTES
    ensures WriteRecords(c, contentKey, input.noncePrefix, drafts, 0) == Some(records)
    ensures Prelude.WritePrelude(header, tag).Some?
    ensures Export(c, passphrase, input, contentKey, drafts).value == Prelude.WritePrelude(header, tag).value + records
  {
    var rootKey := c.rootKey(passphrase, KdfOf(input));
    wrapped := WrapContentKey(c, rootKey, contentKey, ClearHeader.BuildKeyWrapAadHeader(input).value,
                              input.wrapIv).value;
    WrappedHeader(c, rootKey, input, contentKey, wrapped);
    header := ClearHeader.BuildClearHeader(input, wrapped).value;
    tag := HeaderTag(c, rootKey, MAGIC, FORMAT_VERSION, FLAGS, header).value;
    records := WriteRecords(c, contentKey, input.noncePrefix, drafts, 0).value;
  }

  lemma ExportWritesRecords(
    c: Crypto, passphrase: string, input: ClearHeader.Input, contentKey: Bytes, drafts: seq<Draft>
  )
    requires Lawful(c) && ClearHeader.Representable(input, []) && DraftsRepresentable(drafts)
    requires Export(c, passphrase, input, contentKey, drafts).Some?
    ensures ClearHeader.InputLengthsFit(input) && WriteRecords(c, contentKey, input.noncePrefix, drafts, 0).Some?
  {
    var _, _, _, records := ExportParts(c, passphrase, input, contentKey, drafts);
  }

  /**
   * What reading an exported file comes to: the verdict on its records, provided the header and each record is
   * good.
   */
  function ReadResult(checks: Checks, input: ClearHeader.Input, wrapped: Bytes, drafts: seq<Draft>): Result {
    if InputDecodes(input) && GoodDrafts(drafts, 0, input.mode) then
      FinishFile(checks, ClearHeader.HeaderOf(input, wrapped), Some(RecordsOf(drafts, 0)))
    else Err(Malformed)
  }

  /**
   * Whenever an export goes through, reading the file with the same passphrase finds the input's header and
   * every record, in order, with its payload, and what it makes of them decides the result.
   */
  lemma RestoreReadsExport(
    c: Crypto, checks: Checks, passphrase: string, input: ClearHeader.Input, contentKey: Bytes, drafts: seq<Draft>
  ) returns (wrapped: Bytes)
    requires Lawful(c) && ClearHeader.Representable(input, []) && DraftsRepresentable(drafts)
    requires Export(c, passphrase, input, contentKey, drafts).Some?
    ensures ReadBackup(c, checks, passphrase, Export(c, passphrase, input, contentKey, drafts).value)
         == ReadResult(checks, input, wrapped, drafts)
  {
    var rootKey := c.rootKey(passphrase, KdfOf(input));
    var header, tag, records;
    wrapped, header, tag, records := ExportParts(c, passphrase, input, contentKey, drafts);
    Prelude.ParseInvertsFraming(header, tag, records);
    Prelude.PreludeLayout(header, tag, records);
    WrappedHeader(c, rootKey, input, contentKey, wrapped);
    var p := Prelude.ParsedPrelude(MAGIC, FORMAT_VERSION, FLAGS, |header|, header, tag, 10 + |header| + 32);
    var file := Prelude.WritePrelude(header, tag).value + records;
    if InputDecodes(input) {
      ReadsAuthenticated(c, checks, passphrase, input, contentKey, drafts, file, p, wrapped, records);
    }
  }

  lemma ReadsAuthenticated(
    c: Crypto, checks: Checks, passphrase: string, input: ClearHeader.Input, contentKey: Bytes, drafts: seq<Draft>,
    file: Bytes, p: Prelude.ParsedPrelude, wrapped: Bytes, records: Bytes
  )
    requires Lawful(c) && ClearHeader.Representable(input, []) && ClearHeader.InputLengthsFit(input)
    requires DraftsRepresentable(drafts)
    requires ClearHeader.BuildKeyWrapAadHeader(input).Some? && ClearHeader.Decodable(input, wrapped) && |wrapped| == 48
    requires WrapContentKey(c, c.rootKey(passphrase, KdfOf(input)), contentKey,
                            ClearHeader.BuildKeyWrapAadHeader(input).value, input.wrapIv) == Some(wrapped)
    requires p.magic == MAGIC && p.formatVersion == FORMAT_VERSION && p.flags == FLAGS
    requires HeaderTag(c, c.rootKey(passphrase, KdfOf(input)), MAGIC, p.formatVersion, p.flags, p.clearHeaderBytes)
          == Some(p.headerAuthTag)
    requires p.preludeLength <= |file| && file[p.preludeLength..] == records
    requires WriteRecords(c, contentKey, input.noncePrefix, drafts, 0) == Some(records)
    ensures ReadAuthenticated(c, checks, passphrase, file, p, ClearHeader.HeaderOf(input, wrapped))
         == FinishFile(checks, ClearHeader.HeaderOf(input, wrapped),
                       if GoodDrafts(drafts, 0, input.mode) then Some(RecordsOf(drafts, 0)) else None)
  {
    KeySurvivesWrapping(c, c.rootKey(passphrase, KdfOf(input)), input, contentKey, wrapped, p);
    RecordsRoundTrip(c, contentKey, input.noncePrefix, drafts, 0, input.mode);
  }

  /** The laws asked of the cryptography can be met. */
  lemma LawfulCryptoExists() returns (c: Crypto)
    ensures Lawful(c)
  {
    var zeros: Bytes, tag: Bytes := seq(16, _ => 0), seq(32, _ => 0);
    c := Crypto(
      (passphrase, kdf) => [], (key, info) => [], (key, data) => tag, (key, iv, aad, plain) => plain + zeros,
      (key, iv, aad, cipher) => if |cipher| < 16 then None else Some(cipher[..|cipher| - 16]));
    forall key, iv, aad, plain
      ensures SealsAt(c, key, iv, aad, plain)
    {
      assert (plain + zeros)[..|plain|] == plain;
    }
  }
}
