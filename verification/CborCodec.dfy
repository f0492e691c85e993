/** Encoding of backup values as CBOR data items (section 3 of RFC 8949) and the decoder that reads them back. */
module CborCodec {
  import opened Common
  import opened Constants
  import opened Sorting
  import opened CborOrder
  import opened Endian

  datatype Item = Item(value: Value, rest: Bytes)
  datatype Head = Head(major: int, argument: nat, rest: Bytes)

  function Chars(s: string): (r: Bytes)
    requires forall i :: 0 <= i < |s| ==> s[i] < 256 as char
    ensures |r| == |s|
  {
    seq(|s|, i requires 0 <= i < |s| => s[i] as int)
  }

  function FromBytes(b: Bytes): (s: string)
    ensures |s| == |b| && IsUtf8Bytes(s)
  {
    seq(|b|, i requires 0 <= i < |b| => b[i] as char)
  }

  predicate IsUtf8Bytes(s: string) { forall i :: 0 <= i < |s| ==> s[i] < 256 as char }

  // ---- Encoder -----------------------------------------------------------------------------------

  function EncodeHead(major: int, n: nat): (r: Bytes)
    requires 0 <= major < 8 && n < TWO64
    ensures r != []
  {
    if n < 24 then [32 * major + n]
    else if n < 0x100 then [32 * major + 24] + BigEndian(n, 1)
    else if n < 0x1_0000 then [32 * major + 25] + BigEndian(n, 2)
    else if n < 0x1_0000_0000 then [32 * major + 26] + BigEndian(n, 4)
    else [32 * major + 27] + BigEndian(n, 8)
  }

  /** What the encoder can represent: 64-bit arguments and texts made of bytes. */
  predicate Encodable(v: Value)
    decreases v
  {
    match v
    case Int(n) => Fits(n)
    case Text(s) => EncodableKey(s)
    case Blob(bytes) => |bytes| < TWO64
    case List(items) => |items| < TWO64 && forall i :: 0 <= i < |items| ==> Encodable(items[i])
    case Obj(fields) => |fields| < TWO64 && EncodableFields(fields)
    case _ => true
  }

  predicate Fits(n: int) { -TWO64 <= n < TWO64 }

  predicate EncodableFields(fields: seq<Field>)
    decreases fields
  {
    forall i :: 0 <= i < |fields| ==> EncodableKey(fields[i].key) && Encodable(fields[i].value)
  }

  predicate EncodableKey(key: string) { IsUtf8Bytes(key) && |key| < TWO64 }

  function Encode(v: Value): (r: Bytes)
    requires Encodable(v)
    ensures r != []
    decreases v, 1
  {
    match v
    case Undef => [0xf7]
    case Null => [0xf6]
    case Bool(b) => [if b then 0xf5 else 0xf4]
    case Int(n) => if n >= 0 then EncodeHead(0, n) else EncodeHead(1, -1 - n)
    case Blob(bytes) => EncodeHead(2, |bytes|) + bytes
    case Text(s) => EncodeText(s)
    case List(items) => EncodeHead(4, |items|) + EncodeItems(items)
    case Obj(fields) => EncodeHead(5, |fields|) + EncodeFields(fields)
  }

  function EncodeText(s: string): (r: Bytes)
    requires EncodableKey(s)
    ensures r != []
  {
    EncodeHead(3, |s|) + Chars(s)
  }

  function EncodeItems(items: seq<Value>): Bytes
    requires forall i :: 0 <= i < |items| ==> Encodable(items[i])
    decreases items, 0
  {
    if items == [] then [] else Encode(items[0]) + EncodeItems(items[1..])
  }

  function EncodeFields(fields: seq<Field>): Bytes
    requires EncodableFields(fields)
    decreases fields, 0
  {
    if fields == [] then []
    else EncodeText(fields[0].key) + Encode(fields[0].value) + EncodeFields(fields[1..])
  }

  function EncodeCanonical(v: Value): Bytes
    requires Encodable(Canon(v))
  {
    Encode(Canon(v))
  }

  // ---- Decoder ----------------------------------------------------------------------------------

  function ArgumentWidth(info: int): nat {
    if info == 24 then 1 else if info == 25 then 2 else if info == 26 then 4 else if info == 27 then 8 else 0
  }

  function DecodeHead(b: Bytes): (r: Option<Head>)
    ensures r.Some? ==> |r.value.rest| < |b| && 0 <= r.value.major < 8
  {
    if b == [] then None else
    var major, info := b[0] / 32, b[0] % 32;
    var width := ArgumentWidth(info);
    if info < 24 then Some(Head(major, info, b[1..]))
    else if info > 27 || |b| < 1 + width then None
    else Some(Head(major, FromBigEndian(b[1..1 + width]), b[1 + width..]))
  }

  /** The first data item of `b` and the bytes after it; `None` when no item of the kinds above starts there. */
  function DecodeItem(b: Bytes): (r: Option<Item>)
    ensures r.Some? ==> |r.value.rest| < |b|
    decreases |b|, 0, 0
  {
    match DecodeHead(b)
    case None => None
    case Some(h) =>
      if h.major == 0 then Some(Item(Int(h.argument), h.rest))
      else if h.major == 1 then Some(Item(Int(-1 - h.argument), h.rest))
      else if h.major == 2 || h.major == 3 then
        if h.argument > |h.rest| then None
        else
          var body := h.rest[..h.argument];
          Some(Item(if h.major == 2 then Blob(body) else Text(FromBytes(body)), h.rest[h.argument..]))
      else if h.major == 4 then
        (match DecodeItems(h.rest, h.argument)
         case None => None
         case Some((items, rest)) => Some(Item(List(items), rest)))
      else if h.major == 5 then
        (match DecodeFields(h.rest, h.argument)
         case None => None
         case Some((fields, rest)) => Some(Item(Obj(fields), rest)))
      else if h.major == 7 then DecodeSimple(b[0], h.rest)
      else None
  }

  function DecodeSimple(initial: byte, rest: Bytes): (r: Option<Item>)
    ensures r.Some? ==> r.value.rest == rest
  {
    if initial == 0xf4 then Some(Item(Bool(false), rest))
    else if initial == 0xf5 then Some(Item(Bool(true), rest))
    else if initial == 0xf6 then Some(Item(Null, rest))
    else if initial == 0xf7 then Some(Item(Undef, rest))
    else None
  }

  function DecodeItems(b: Bytes, n: nat): (r: Option<(seq<Value>, Bytes)>)
    ensures r.Some? ==> |r.value.1| <= |b| && |r.value.0| == n
    decreases |b|, 1, n
  {
    if n == 0 then Some(([], b)) else
    match DecodeItem(b)
    case None => None
    case Some(first) =>
      match DecodeItems(first.rest, n - 1)
      case None => None
      case Some((items, rest)) => Some(([first.value] + items, rest))
  }

  /** The pairs become the fields of a fresh object, assigned one after the other. */
  function DecodeFields(b: Bytes, n: nat): (r: Option<(seq<Field>, Bytes)>)
    ensures r.Some? ==> |r.value.1| <= |b|
    decreases |b|, 1, n
  {
    if n == 0 then Some(([], b)) else
    match DecodeItem(b)
    case None => None
    case Some(key) =>
      if !key.value.Text? then None else
      match DecodeItem(key.rest)
      case None => None
      case Some(value) =>
        match DecodeFields(value.rest, n - 1)
        case None => None
        case Some((fields, rest)) => Some((AssignBefore(key.value.s, value.value, fields), rest))
  }

  function IndexOfKey(fields: seq<Field>, key: string): (i: nat)
    ensures i <= |fields|
    ensures i < |fields| ==> fields[i].key == key
    ensures forall j :: 0 <= j < i ==> fields[j].key != key
  {
    if fields == [] || fields[0].key == key then 0 else 1 + IndexOfKey(fields[1..], key)
  }

  /** Assigning `key` before the fields of `later`: the first assignment fixes the place, the last the value. */
  function AssignBefore(key: string, value: Value, later: seq<Field>): (r: seq<Field>)
  {
    var i := IndexOfKey(later, key);
    if i == |later| then [Field(key, value)] + later
    else [later[i]] + later[..i] + later[i + 1..]
  }

  /** A whole buffer: one item and nothing after it. */
  function DecodeCbor(b: Bytes): Option<Value> {
    match DecodeItem(b)
    case None => None
    case Some(item) => if item.rest == [] then Some(item.value) else None
  }

  /** Examples of appendix A of RFC 8949: non-negative integers of each width. */
  lemma AppendixANumbers()
    ensures Encode(Int(0)) == [0x00] && Encode(Int(23)) == [0x17] && Encode(Int(24)) == [0x18, 0x18]
    ensures Encode(Int(100)) == [0x18, 0x64] && Encode(Int(1000)) == [0x19, 0x03, 0xe8]
    ensures Encode(Int(1000000)) == [0x1a, 0x00, 0x0f, 0x42, 0x40]
  {
    WideNumbers();
  }

  lemma AppendixANegatives()
    ensures Encode(Int(-1)) == [0x20] && Encode(Int(-100)) == [0x38, 0x63] && Encode(Int(-1000)) == [0x39, 0x03, 0xe7]
  {
    WideNumbers();
  }

  lemma AppendixAOthers()
    ensures Encode(Bool(false)) == [0xf4] && Encode(Bool(true)) == [0xf5] && Encode(Null) == [0xf6]
    ensures Encode(Undef) == [0xf7] && Encode(Blob([1, 2, 3, 4])) == [0x44, 0x01, 0x02, 0x03, 0x04]
    ensures Encode(List([])) == [0x80] && Encode(Obj([])) == [0xa0]
  {
  }

  lemma WideNumbers()
    ensures BigEndian(24, 1) == [24] && BigEndian(100, 1) == [100] && BigEndian(99, 1) == [99]
    ensures BigEndian(1000, 2) == [3, 232] && BigEndian(999, 2) == [3, 231]
    ensures BigEndian(1000000, 4) == [0, 15, 66, 64]
  {
    assert BigEndian(0, 1) == [0] && BigEndian(15, 2) == [0, 15] && BigEndian(3906, 3) == [0, 15, 66];
    assert BigEndian(3, 1) == [3];
  }

  // ---- Round trip ---------------------------------------------------------------------------------

  lemma HeadRoundTrip(major: int, n: nat, rest: Bytes)
    requires 0 <= major < 8 && n < TWO64
    ensures DecodeHead(EncodeHead(major, n) + rest) == Some(Head(major, n, rest))
  {
    var head := EncodeHead(major, n);
    var b := head + rest;
    assert b[0] == head[0];
    assert head[0] / 32 == major;
    assert b[|head|..] == rest;
    PowersOf256();
    if n >= 24 {
      var width := |head| - 1;
      assert head[0] % 32 == if width == 1 then 24 else if width == 2 then 25 else if width == 4 then 26 else 27;
      BigEndianRoundTrip(n, width);
      assert b[1..1 + width] == head[1..] == BigEndian(n, width);
    }
  }

  /** Heads are as short as the format allows: whatever reads as the same head is no shorter (RFC 8949, 4.2.1). */
  lemma HeadIsShortest(h: Bytes, major: int, n: nat)
    requires n < TWO64 && DecodeHead(h) == Some(Head(major, n, []))
    ensures |EncodeHead(major, n)| <= |h|
  {
    PowersOf256();
    var info := h[0] % 32;
    if info >= 24 {
      FromBigEndianRange(h[1..1 + ArgumentWidth(info)]);
    }
  }

  lemma CharsRoundTrip(s: string)
    requires IsUtf8Bytes(s)
    ensures FromBytes(Chars(s)) == s
  {
  }

  lemma Split(a: Bytes, rest: Bytes)
    ensures (a + rest)[..|a|] == a && (a + rest)[|a|..] == rest
  {
  }

  lemma IntRoundTrip(n: int, rest: Bytes)
    requires Encodable(Int(n))
    ensures DecodeItem(Encode(Int(n)) + rest) == Some(Item(Int(n), rest))
  {
    HeadRoundTrip(if n >= 0 then 0 else 1, if n >= 0 then n else -1 - n, rest);
  }

  lemma BlobRoundTrip(bytes: Bytes, rest: Bytes)
    requires |bytes| < TWO64
    ensures DecodeItem(Encode(Blob(bytes)) + rest) == Some(Item(Blob(bytes), rest))
  {
    HeadRoundTrip(2, |bytes|, bytes + rest);
    assert Encode(Blob(bytes)) + rest == EncodeHead(2, |bytes|) + (bytes + rest);
    Split(bytes, rest);
  }

  lemma TextRoundTrip(s: string, rest: Bytes)
    requires EncodableKey(s)
    ensures DecodeItem(EncodeText(s) + rest) == Some(Item(Text(s), rest))
  {
    HeadRoundTrip(3, |s|, Chars(s) + rest);
    assert EncodeText(s) + rest == EncodeHead(3, |s|) + (Chars(s) + rest);
    Split(Chars(s), rest);
    CharsRoundTrip(s);
  }

  lemma SimpleRoundTrip(v: Value, rest: Bytes)
    requires v.Undef? || v.Null? || v.Bool?
    ensures DecodeItem(Encode(v) + rest) == Some(Item(v, rest))
  {
    var b := Encode(v) + rest;
    assert b[0] == Encode(v)[0] && b[1..] == rest;
  }

  lemma ListAfterHead(n: nat, body: Bytes, items: seq<Value>, rest: Bytes)
    requires n < TWO64 && DecodeItems(body, n) == Some((items, rest))
    ensures DecodeItem(EncodeHead(4, n) + body) == Some(Item(List(items), rest))
  {
    HeadRoundTrip(4, n, body);
  }

  lemma ObjAfterHead(n: nat, body: Bytes, fields: seq<Field>, rest: Bytes)
    requires n < TWO64 && DecodeFields(body, n) == Some((fields, rest))
    ensures DecodeItem(EncodeHead(5, n) + body) == Some(Item(Obj(fields), rest))
  {
    HeadRoundTrip(5, n, body);
  }

  lemma ListRoundTrip(items: seq<Value>, rest: Bytes)
    requires Encodable(List(items)) && DecodeItems(EncodeItems(items) + rest, |items|) == Some((items, rest))
    ensures DecodeItem(Encode(List(items)) + rest) == Some(Item(List(items), rest))
  {
    ListAfterHead(|items|, EncodeItems(items) + rest, items, rest);
    Regroup(EncodeHead(4, |items|), EncodeItems(items), rest);
  }

  lemma ObjRoundTrip(fields: seq<Field>, rest: Bytes)
    requires Encodable(Obj(fields)) && DecodeFields(EncodeFields(fields) + rest, |fields|) == Some((fields, rest))
    ensures DecodeItem(Encode(Obj(fields)) + rest) == Some(Item(Obj(fields), rest))
  {
    ObjAfterHead(|fields|, EncodeFields(fields) + rest, fields, rest);
    Regroup(EncodeHead(5, |fields|), EncodeFields(fields), rest);
  }

  /** Decoding what was encoded gives back the value and leaves what followed it. */
  lemma {:induction false} RoundTrip(v: Value, rest: Bytes)
    requires Encodable(v) && Proper(v)
    ensures DecodeItem(Encode(v) + rest) == Some(Item(v, rest))
    decreases v, 1
  {
    match v
    case Int(n) => IntRoundTrip(n, rest);
    case Blob(bytes) => BlobRoundTrip(bytes, rest);
    case Text(s) => TextRoundTrip(s, rest);
    case List(items) =>
      ItemsRoundTrip(items, rest);
      ListRoundTrip(items, rest);
    case Obj(fields) =>
      FieldsRoundTrip(fields, rest);
      ObjRoundTrip(fields, rest);
    case _ => SimpleRoundTrip(v, rest);
  }

  lemma {:induction false} ItemsRoundTrip(items: seq<Value>, rest: Bytes)
    requires forall i :: 0 <= i < |items| ==> Encodable(items[i]) && Proper(items[i])
    ensures DecodeItems(EncodeItems(items) + rest, |items|) == Some((items, rest))
    decreases items, 0
  {
    if items == [] {
      assert EncodeItems(items) + rest == rest;
    } else {
      var tail := EncodeItems(items[1..]) + rest;
      assert EncodeItems(items) + rest == Encode(items[0]) + tail;
      RoundTrip(items[0], tail);
      ItemsRoundTrip(items[1..], rest);
      ItemsFollow(EncodeItems(items) + rest, items[0], tail, items[1..], rest);
      assert items == [items[0]] + items[1..];
    }
  }

  lemma ItemsFollow(b: Bytes, v: Value, tail: Bytes, items: seq<Value>, rest: Bytes)
    requires DecodeItem(b) == Some(Item(v, tail)) && DecodeItems(tail, |items|) == Some((items, rest))
    ensures DecodeItems(b, |items| + 1) == Some(([v] + items, rest))
  {
  }

  lemma {:induction false} FieldsRoundTrip(fields: seq<Field>, rest: Bytes)
    requires EncodableFields(fields) && ProperFields(fields)
    ensures DecodeFields(EncodeFields(fields) + rest, |fields|) == Some((fields, rest))
    decreases fields, 0
  {
    if fields == [] {
      assert EncodeFields(fields) + rest == rest;
    } else {
      var f := fields[0];
      var tail := EncodeFields(fields[1..]) + rest;
      assert EncodeFields(fields) + rest == EncodeText(f.key) + (Encode(f.value) + tail);
      TextRoundTrip(f.key, Encode(f.value) + tail);
      RoundTrip(f.value, tail);
      FieldsRoundTrip(fields[1..], rest);
      FieldsFollow(EncodeFields(fields) + rest, f, Encode(f.value) + tail, tail, fields[1..], rest);
      assert fields == [f] + fields[1..];
    }
  }

  lemma FieldsFollow(b: Bytes, f: Field, afterKey: Bytes, tail: Bytes, fields: seq<Field>, rest: Bytes)
    requires DecodeItem(b) == Some(Item(Text(f.key), afterKey)) && DecodeItem(afterKey) == Some(Item(f.value, tail))
    requires DecodeFields(tail, |fields|) == Some((fields, rest)) && DistinctKeys([f] + fields)
    ensures DecodeFields(b, |fields| + 1) == Some(([f] + fields, rest))
  {
    NewKey(f, fields);
  }

  lemma NewKey(f: Field, fields: seq<Field>)
    requires DistinctKeys([f] + fields)
    ensures AssignBefore(f.key, f.value, fields) == [f] + fields
  {
    forall j | 0 <= j < |fields|
      ensures fields[j].key != f.key
    {
      assert ([f] + fields)[0].key != ([f] + fields)[j + 1].key;
    }
  }

  lemma DecodeEncodeCbor(v: Value)
    requires Encodable(v) && Proper(v)
    ensures DecodeCbor(Encode(v)) == Some(v)
  {
    RoundTrip(v, []);
    assert Encode(v) + [] == Encode(v);
  }

  // ---- Canonical bytes ----------------------------------------------------------------------------

  /** Every encodable value still fits once canonical. */
  lemma {:induction false} CanonEncodable(v: Value)
    requires Encodable(v) && Proper(v)
    ensures Encodable(Canon(v))
    decreases v
  {
    if v.List? {
      CanonItemsAt(v.items);
      forall i | 0 <= i < |v.items|
        ensures Encodable(CanonItems(v.items)[i])
      {
        CanonEncodable(v.items[i]);
      }
    } else if v.Obj? {
      var s := StableSort(KeyLe, CanonFields(v.fields));
      CanonFieldsHolds(v.fields);
      CanonFieldsShorter(v.fields);
      SortedFields(CanonFields(v.fields));
      forall j | 0 <= j < |s|
        ensures EncodableKey(s[j].key) && Encodable(s[j].value)
      {
        var i := Origin(v.fields, s[j]);
        CanonEncodable(v.fields[i].value);
      }
    }
  }

  lemma {:induction false} CanonFieldsShorter(fields: seq<Field>)
    ensures |CanonFields(fields)| <= |fields|
  {
    if fields == [] {
    } else {
      CanonFieldsShorter(fields[1..]);
    }
  }

  /** The canonical bytes of two values are equal exactly when the values mean the same. */
  lemma CanonicalBytesDecideMeaning(v: Value, w: Value)
    requires Proper(v) && Encodable(v) && Proper(w) && Encodable(w)
    ensures Encodable(Canon(v)) && Encodable(Canon(w))
    ensures EncodeCanonical(v) == EncodeCanonical(w) <==> Denote(v) == Denote(w)
  {
    CanonEncodable(v);
    CanonEncodable(w);
    CanonKeepsMeaning(v);
    CanonKeepsMeaning(w);
    CanonDecidesMeaning(v, w);
    DecodeEncodeCbor(Canon(v));
    DecodeEncodeCbor(Canon(w));
  }

  /** Decoding canonical bytes yields the canonical tree, which means what was encoded. */
  lemma CanonicalRoundTrip(v: Value)
    requires Proper(v) && Encodable(v)
    ensures Encodable(Canon(v))
    ensures DecodeCbor(EncodeCanonical(v)) == Some(Canon(v))
    ensures Proper(Canon(v)) && Denote(Canon(v)) == Denote(v)
  {
    CanonEncodable(v);
    CanonKeepsMeaning(v);
    DecodeEncodeCbor(Canon(v));
  }

  // ---- Whatever bytes are decoded --------------------------------------------------------------------

  lemma AssignKeepsDistinct(key: string, value: Value, later: seq<Field>)
    requires ProperFields(later) && Proper(value)
    ensures ProperFields(AssignBefore(key, value, later))
  {
    var i := IndexOfKey(later, key);
    var r := AssignBefore(key, value, later);
    if i < |later| {
      forall j | 1 <= j < |r|
        ensures r[j] == later[if j - 1 < i then j - 1 else j] && Proper(r[j].value) && r[j].key != r[0].key
      {
      }
    }
  }

  /** Every accepted input decodes to objects without repeated keys, however often the input repeats one. */
  lemma {:induction false} DecodedIsProper(b: Bytes)
    ensures DecodeItem(b).Some? ==> Proper(DecodeItem(b).value.value)
    decreases |b|, 0, 0
  {
    match DecodeHead(b)
    case None =>
    case Some(h) =>
      if h.major == 4 {
        DecodedItemsAreProper(h.rest, h.argument);
      } else if h.major == 5 {
        DecodedFieldsAreProper(h.rest, h.argument);
      }
  }

  ghost predicate ProperItems(items: seq<Value>) { forall i :: 0 <= i < |items| ==> Proper(items[i]) }

  lemma {:induction false} DecodedItemsAreProper(b: Bytes, n: nat)
    ensures DecodeItems(b, n).Some? ==> ProperItems(DecodeItems(b, n).value.0)
    decreases |b|, 1, n
  {
    if n == 0 {
    } else {
      match DecodeItem(b) {
        case None =>
        case Some(first) =>
          DecodedIsProper(b);
          DecodedItemsAreProper(first.rest, n - 1);
      }
    }
  }

  lemma {:induction false} DecodedFieldsAreProper(b: Bytes, n: nat)
    ensures DecodeFields(b, n).Some? ==> ProperFields(DecodeFields(b, n).value.0)
    decreases |b|, 1, n
  {
    if n == 0 {
    } else {
      match DecodeItem(b) {
        case None =>
        case Some(key) =>
          match DecodeItem(key.rest) {
            case None =>
            case Some(value) =>
              DecodedIsProper(key.rest);
              DecodedFieldsAreProper(value.rest, n - 1);
              if key.value.Text? && DecodeFields(value.rest, n - 1).Some? {
                AssignKeepsDistinct(key.value.s, value.value, DecodeFields(value.rest, n - 1).value.0);
              }
          }
      }
    }
  }

  // ---- Key order of RFC 8949 ---------------------------------------------------------------------------

  predicate LexLe(a: Bytes, b: Bytes) {
    a == [] || (b != [] && (a[0] < b[0] || (a[0] == b[0] && LexLe(a[1..], b[1..]))))
  }

  /** Section 4.2.3: the shorter encoded key first, keys of equal length in bytewise lexical order. */
  predicate LengthFirstLe(a: Bytes, b: Bytes) {
    |a| < |b| || (|a| == |b| && LexLe(a, b))
  }

  lemma {:induction false} DifferenceIsLexical(a: string, b: string)
    requires IsUtf8Bytes(a) && IsUtf8Bytes(b) && |a| == |b|
    ensures FirstDifference(a, b) <= 0 <==> LexLe(Chars(a), Chars(b))
  {
    if a == [] {
    } else {
      DifferenceIsLexical(a[1..], b[1..]);
      assert Chars(a)[1..] == Chars(a[1..]) && Chars(b)[1..] == Chars(b[1..]);
    }
  }

  lemma {:induction false} CommonPrefixIsIrrelevant(p: Bytes, a: Bytes, b: Bytes)
    ensures LexLe(p + a, p + b) <==> LexLe(a, b)
  {
    if p == [] {
      assert p + a == a && p + b == b;
    } else {
      CommonPrefixIsIrrelevant(p[1..], a, b);
      assert (p + a)[1..] == p[1..] + a && (p + b)[1..] == p[1..] + b;
    }
  }

  /** The comparison of key texts orders their encodings as the RFC asks. */
  lemma KeyOrderIsLengthFirst(a: string, b: string)
    requires EncodableKey(a) && EncodableKey(b)
    ensures CompareUtf8Keys(a, b) <= 0 <==> LengthFirstLe(Encode(Text(a)), Encode(Text(b)))
  {
    if |a| == |b| {
      DifferenceIsLexical(a, b);
      CommonPrefixIsIrrelevant(EncodeHead(3, |a|), Chars(a), Chars(b));
    }
  }
}
