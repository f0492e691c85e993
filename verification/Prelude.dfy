/** The fixed-layout start of a PCBK backup file: magic, version, flags, header length, header, tag. */
module Prelude {
  import opened Common
  import opened Constants
  import opened Endian
  import opened CborCodec

  const PRELUDE_FIXED_LENGTH: nat := 10

  datatype ParsedPrelude = ParsedPrelude(
    magic: string, formatVersion: byte, flags: byte, clearHeaderLength: nat,
    clearHeaderBytes: Bytes, headerAuthTag: Bytes, preludeLength: nat)

  datatype PreludeError = TooShort | UnsupportedMagic | UnsupportedVersion | UnsupportedFlags | EmptyHeader | Truncated
  datatype ParseResult = Parsed(prelude: ParsedPrelude) | Rejected(error: PreludeError)

  /** `None` when four bytes do not fit behind the offset or the offset is negative. */
  function ReadUint32LittleEndian(bytes: Bytes, offset: int): Option<nat> {
    if offset < 0 || offset + HEADER_LENGTH_BYTES > |bytes| then None
    else Some(FromLittleEndian(bytes[offset..offset + HEADER_LENGTH_BYTES]))
  }

  /** `None` when the value is not a uint32. */
  function EncodeUint32LittleEndian(value: int): Option<Bytes> {
    if value < 0 || value >= TWO32 then None else Some(LittleEndian(value, HEADER_LENGTH_BYTES))
  }

  function ParsePrelude(bytes: Bytes): ParseResult {
    if |bytes| < PRELUDE_FIXED_LENGTH + HEADER_AUTH_TAG_BYTES then Rejected(TooShort)
    else if bytes[..4] != Chars(MAGIC) then Rejected(UnsupportedMagic)
    else if bytes[4] != FORMAT_VERSION then Rejected(UnsupportedVersion)
    else if bytes[5] != FLAGS then Rejected(UnsupportedFlags)
    else
      var length := FromLittleEndian(bytes[6..10]);
      var headerEnd := PRELUDE_FIXED_LENGTH + length;
      var tagEnd := headerEnd + HEADER_AUTH_TAG_BYTES;
      if length <= 0 then Rejected(EmptyHeader)
      else if tagEnd > |bytes| then Rejected(Truncated)
      else Parsed(ParsedPrelude(MAGIC, bytes[4], bytes[5], length,
                                bytes[PRELUDE_FIXED_LENGTH..headerEnd], bytes[headerEnd..tagEnd], tagEnd))
  }

  /** The bytes the header tag authenticates. */
  function AuthenticationBytes(magic: string, formatVersion: byte, flags: byte, header: Bytes): Option<Bytes>
    requires IsUtf8Bytes(magic)
  {
    if |header| >= TWO32 then None
    else Some(Chars(magic) + [formatVersion, flags] + LittleEndian(|header|, HEADER_LENGTH_BYTES) + header)
  }

  /** `buffer.set(part, offset)`. */
  method SetAt(buffer: array<byte>, part: Bytes, offset: nat)
    requires offset + |part| <= buffer.Length
    modifies buffer
    ensures buffer[..] == old(buffer[..offset]) + part + old(buffer[offset + |part|..])
  {
    forall i | 0 <= i < |part| {
      buffer[offset + i] := part[i];
    }
  }

  lemma FiveParts(a: Bytes, b: byte, c: byte, d: Bytes, e: Bytes, s: Bytes)
    requires |s| == |a| + 2 + |d| + |e|
    requires s[..|a|] == a && s[|a|] == b && s[|a| + 1] == c
    requires s[|a| + 2..|a| + 2 + |d|] == d && s[|a| + 2 + |d|..] == e
    ensures s == a + [b, c] + d + e
  {
    assert s == s[..|a|] + [s[|a|], s[|a| + 1]] + s[|a| + 2..|a| + 2 + |d|] + s[|a| + 2 + |d|..];
  }

  /** The buffer is filled part by part at its offsets. */
  method BuildHeaderAuthenticationBytes(magic: string, formatVersion: byte, flags: byte, header: Bytes)
    returns (result: Option<array<byte>>)
    requires IsUtf8Bytes(magic)
    ensures result.Some? <==> |header| < TWO32
    ensures result.Some? ==> Some(result.value[..]) == AuthenticationBytes(magic, formatVersion, flags, header)
  {
    var magicBytes := Chars(magic);
    if |header| >= TWO32 {
      return None;
    }
    var lengthBytes := LittleEndian(|header|, HEADER_LENGTH_BYTES);
    var m := |magicBytes|;
    var buffer := new byte[m + 1 + 1 + |lengthBytes| + |header|](_ => 0);
    SetAt(buffer, magicBytes, 0);
    assert buffer[..m] == magicBytes;
    buffer[m] := formatVersion;
    buffer[m + 1] := flags;
    ghost var start := buffer[..m + 2];
    SetAt(buffer, lengthBytes, m + 2);
    assert buffer[..m + 2] == start && buffer[m + 2..m + 6] == lengthBytes;
    ghost var start2 := buffer[..m + 6];
    SetAt(buffer, header, m + 2 + |lengthBytes|);
    assert buffer[..m + 6] == start2 && buffer[m + 6..] == header;
    ghost var s := buffer[..];
    assert s[..m] == start2[..m] == start[..m] == magicBytes;
    assert s[m + 2..m + 6] == start2[m + 2..m + 6] == lengthBytes;
    FiveParts(magicBytes, formatVersion, flags, lengthBytes, header, s);
    return Some(buffer);
  }

  /** What the exporter writes first: magic, version, flags, header length, header and tag in a row. */
  function WritePrelude(header: Bytes, tag: Bytes): Option<Bytes> {
    match EncodeUint32LittleEndian(|header|)
    case None => None
    case Some(length) => Some(Chars(MAGIC) + [FORMAT_VERSION, FLAGS] + length + header + tag)
  }

  lemma PreludeLayout(header: Bytes, tag: Bytes, rest: Bytes)
    requires |header| < TWO32
    ensures WritePrelude(header, tag).Some?
    ensures var b := WritePrelude(header, tag).value + rest;
            && |b| == 10 + |header| + |tag| + |rest|
            && b[..4] == Chars(MAGIC) && b[4] == FORMAT_VERSION && b[5] == FLAGS
            && b[6..10] == LittleEndian(|header|, 4) && b[10..10 + |header|] == header
            && b[10 + |header|..10 + |header| + |tag|] == tag && b[10 + |header| + |tag|..] == rest
  {
  }

  /** The file begins with "PCBK", version 1, no flags and the header's length, its lowest byte first. */
  lemma PreludeBytes(header: Bytes, tag: Bytes)
    requires |header| < 0x1_0000_0000
    ensures WritePrelude(header, tag).Some?
    ensures var b := WritePrelude(header, tag).value;
            && |b| == 10 + |header| + |tag|
            && b[0] == 0x50 && b[1] == 0x43 && b[2] == 0x42 && b[3] == 0x4b && b[4] == 1 && b[5] == 0
            && b[6] == |header| % 256 && b[7] == |header| / 0x100 % 256
            && b[8] == |header| / 0x1_0000 % 256 && b[9] == |header| / 0x100_0000 % 256
            && b[10..10 + |header|] == header && b[10 + |header|..] == tag
  {
    PreludeLayout(header, tag, []);
    var b := WritePrelude(header, tag).value;
    assert b + [] == b;
    LengthBytes(|header|);
    assert b[6] == b[6..10][0] && b[7] == b[6..10][1] && b[8] == b[6..10][2] && b[9] == b[6..10][3];
    assert b[0] == b[..4][0] && b[1] == b[..4][1] && b[2] == b[..4][2] && b[3] == b[..4][3];
  }

  lemma LengthBytes(n: nat)
    ensures var b := LittleEndian(n, 4);
            b[0] == n % 256 && b[1] == n / 0x100 % 256 && b[2] == n / 0x1_0000 % 256 && b[3] == n / 0x100_0000 % 256
  {
    assert Pow256(1) == 256 * Pow256(0) && Pow256(2) == 256 * Pow256(1) && Pow256(3) == 256 * Pow256(2);
    EachByte(n, 4, 0);
    EachByte(n, 4, 1);
    EachByte(n, 4, 2);
    EachByte(n, 4, 3);
  }

  /** Parsing what the exporter wrote, whatever follows, recovers header, tag and where the records start. */
  lemma ParseInvertsFraming(header: Bytes, tag: Bytes, rest: Bytes)
    requires 0 < |header| < TWO32 && |tag| == HEADER_AUTH_TAG_BYTES
    ensures WritePrelude(header, tag).Some?
    ensures ParsePrelude(WritePrelude(header, tag).value + rest)
         == Parsed(ParsedPrelude(MAGIC, FORMAT_VERSION, FLAGS, |header|, header, tag, 10 + |header| + 32))
  {
    PreludeLayout(header, tag, rest);
    PowersOf256();
    LittleEndianRoundTrip(|header|, 4);
  }

  ghost predicate IsFramed(bytes: Bytes, header: Bytes, tag: Bytes, rest: Bytes) {
    && 0 < |header| < TWO32 && |tag| == HEADER_AUTH_TAG_BYTES
    && WritePrelude(header, tag).Some? && bytes == WritePrelude(header, tag).value + rest
  }

  /**
   * A file is accepted exactly when it is a framing of some non-empty header and some 32-byte tag, and
   * authenticating the parsed fields authenticates precisely the bytes before the tag.
   */
  lemma AcceptedIffFramed(bytes: Bytes)
    ensures ParsePrelude(bytes).Parsed? <==>
              exists header: Bytes, tag: Bytes, rest: Bytes :: IsFramed(bytes, header, tag, rest)
    ensures ParsePrelude(bytes).Parsed? ==>
              var p := ParsePrelude(bytes).prelude;
              && p.preludeLength <= |bytes| && p.clearHeaderLength == |p.clearHeaderBytes|
              && IsFramed(bytes, p.clearHeaderBytes, p.headerAuthTag, bytes[p.preludeLength..])
              && AuthenticationBytes(p.magic, p.formatVersion, p.flags, p.clearHeaderBytes)
              == Some(bytes[..p.preludeLength - HEADER_AUTH_TAG_BYTES])
  {
    if exists header: Bytes, tag: Bytes, rest: Bytes :: IsFramed(bytes, header, tag, rest) {
      var header: Bytes, tag: Bytes, rest: Bytes :| IsFramed(bytes, header, tag, rest);
      ParseInvertsFraming(header, tag, rest);
    }
    if ParsePrelude(bytes).Parsed? {
      AcceptedIsFramed(bytes);
    }
  }

  lemma AcceptedIsFramed(bytes: Bytes)
    requires ParsePrelude(bytes).Parsed?
    ensures var p := ParsePrelude(bytes).prelude;
            && p.preludeLength <= |bytes| && p.clearHeaderLength == |p.clearHeaderBytes|
            && IsFramed(bytes, p.clearHeaderBytes, p.headerAuthTag, bytes[p.preludeLength..])
            && AuthenticationBytes(p.magic, p.formatVersion, p.flags, p.clearHeaderBytes)
            == Some(bytes[..p.preludeLength - HEADER_AUTH_TAG_BYTES])
  {
    var p := ParsePrelude(bytes).prelude;
    var n := p.clearHeaderLength;
    PowersOf256();
    FromLittleEndianRoundTrip(bytes[6..10]);
    assert LittleEndian(n, 4) == bytes[6..10];
    FiveParts(Chars(MAGIC), bytes[4], bytes[5], bytes[6..10], p.clearHeaderBytes, bytes[..10 + n]);
    assert bytes == bytes[..10 + n] + p.headerAuthTag + bytes[p.preludeLength..];
  }

  /** Two accepted files whose authenticated bytes agree have the same header. */
  lemma AuthenticationBytesDetermineHeader(header: Bytes, other: Bytes)
    requires |header| < TWO32 && |other| < TWO32
    requires AuthenticationBytes(MAGIC, FORMAT_VERSION, FLAGS, header)
               == AuthenticationBytes(MAGIC, FORMAT_VERSION, FLAGS, other)
    ensures header == other
  {
    assert AuthenticationBytes(MAGIC, FORMAT_VERSION, FLAGS, header).value[10..] == header;
    assert AuthenticationBytes(MAGIC, FORMAT_VERSION, FLAGS, other).value[10..] == other;
  }

  /** Reading a uint32 back gives the number that was written, and every four bytes are one number's. */
  lemma Uint32RoundTrip(value: nat, before: Bytes, after: Bytes)
    requires value < TWO32
    ensures EncodeUint32LittleEndian(value).Some?
    ensures ReadUint32LittleEndian(before + EncodeUint32LittleEndian(value).value + after, |before|) == Some(value)
  {
    PowersOf256();
    LittleEndianRoundTrip(value, 4);
    var four := EncodeUint32LittleEndian(value).value;
    assert (before + four + after)[|before|..|before| + 4] == four;
  }
}
