/** Canonical form of the values a backup stores: undefined fields dropped, object keys in order. */
module CborOrder {
  import opened Common
  import opened Sorting

  /**
   * A JavaScript value as the encoder sees it.  Objects list their fields in insertion order.  A text
   * stands for its UTF-8 bytes, one character per byte.
   */
  datatype Value =
    | Undef | Null | Bool(b: bool) | Int(n: int) | Text(s: string) | Blob(bytes: Bytes)
    | List(items: seq<Value>) | Obj(fields: seq<Field>)

  datatype Field = Field(key: string, value: Value)

  // ---- Key order ---------------------------------------------------------------------------------

  function FirstDifference(left: string, right: string): int {
    if left == [] || right == [] then 0
    else if left[0] != right[0] then left[0] as int - right[0] as int
    else FirstDifference(left[1..], right[1..])
  }

  function CompareUtf8Keys(left: string, right: string): int {
    if |left| != |right| then |left| - |right| else FirstDifference(left, right)
  }

  /** The comparison as the source runs it: one iterator per side, stepped together. */
  method CompareKeys(left: string, right: string) returns (r: int)
    ensures r == CompareUtf8Keys(left, right)
  {
    if |left| != |right| {
      return |left| - |right|;
    }
    var i := 0;
    while i < |left|
      invariant 0 <= i <= |left|
      invariant FirstDifference(left, right) == FirstDifference(left[i..], right[i..])
    {
      if left[i] != right[i] {
        return left[i] as int - right[i] as int;
      }
      i := i + 1;
    }
    return 0;
  }

  lemma {:induction false} DifferenceIsOrder(a: string, b: string, c: string)
    requires |a| == |b| == |c|
    ensures FirstDifference(a, b) == 0 <==> a == b
    ensures FirstDifference(a, b) == -FirstDifference(b, a)
    ensures FirstDifference(a, b) <= 0 && FirstDifference(b, c) <= 0 ==> FirstDifference(a, c) <= 0
  {
    if a == [] {
    } else {
      DifferenceIsOrder(a[1..], b[1..], c[1..]);
      assert a == [a[0]] + a[1..] && b == [b[0]] + b[1..];
    }
  }

  /** The key comparison is a total order: it vanishes on equal keys only, and is antisymmetric and transitive. */
  lemma KeyOrderIsTotal(a: string, b: string, c: string)
    ensures CompareUtf8Keys(a, b) == 0 <==> a == b
    ensures CompareUtf8Keys(a, b) == -CompareUtf8Keys(b, a)
    ensures CompareUtf8Keys(a, b) <= 0 && CompareUtf8Keys(b, c) <= 0 ==> CompareUtf8Keys(a, c) <= 0
  {
    if |a| == |b| {
      DifferenceIsOrder(a, b, b);
      if |b| == |c| {
        DifferenceIsOrder(a, b, c);
      }
    }
  }

  predicate KeyLe(f: Field, g: Field) { CompareUtf8Keys(f.key, g.key) <= 0 }

  lemma KeyLePreorder()
    ensures TotalPreorder(KeyLe)
  {
    forall f, g
      ensures KeyLe(f, g) || KeyLe(g, f)
    {
      KeyOrderIsTotal(f.key, g.key, f.key);
    }
    forall f, g, h | KeyLe(f, g) && KeyLe(g, h)
      ensures KeyLe(f, h)
    {
      KeyOrderIsTotal(f.key, g.key, h.key);
    }
  }

  // ---- Canonical form ------------------------------------------------------------------------------

  function Canon(v: Value): Value
    decreases v, 1
  {
    match v
    case List(items) => List(CanonItems(items))
    case Obj(fields) => Obj(StableSort(KeyLe, CanonFields(fields)))
    case _ => v
  }

  function CanonItems(items: seq<Value>): seq<Value>
    decreases items, 0
  {
    if items == [] then [] else [Canon(items[0])] + CanonItems(items[1..])
  }

  /** Undefined fields are left out, the others canonicalized in place. */
  function CanonFields(fields: seq<Field>): seq<Field>
    decreases fields, 0
  {
    if fields == [] then []
    else if fields[0].value.Undef? then CanonFields(fields[1..])
    else [Field(fields[0].key, Canon(fields[0].value))] + CanonFields(fields[1..])
  }

  function Defined(fields: seq<Field>): seq<Field> {
    if fields == [] then []
    else if fields[0].value.Undef? then Defined(fields[1..])
    else [fields[0]] + Defined(fields[1..])
  }

  lemma {:induction false} InsertThenCanon(f: Field, fields: seq<Field>)
    requires !f.value.Undef? && forall g :: g in fields ==> !g.value.Undef?
    ensures Insert(KeyLe, Field(f.key, Canon(f.value)), CanonFields(fields)) == CanonFields(Insert(KeyLe, f, fields))
    ensures forall g :: g in Insert(KeyLe, f, fields) ==> !g.value.Undef?
  {
    if fields == [] {
    } else if KeyLe(f, fields[0]) {
      assert ([f] + fields)[1..] == fields;
    } else {
      InsertThenCanon(f, fields[1..]);
      var rest := Insert(KeyLe, f, fields[1..]);
      assert ([fields[0]] + rest)[1..] == rest;
      assert ([Field(fields[0].key, Canon(fields[0].value))] + CanonFields(fields[1..]))[1..]
               == CanonFields(fields[1..]);
    }
  }

  /** The source filters, sorts and only then maps; keys alone decide the order, so this is the same. */
  lemma {:induction false} FilterSortMap(fields: seq<Field>)
    ensures StableSort(KeyLe, CanonFields(fields)) == CanonFields(StableSort(KeyLe, Defined(fields)))
    ensures forall g :: g in StableSort(KeyLe, Defined(fields)) ==> !g.value.Undef?
  {
    if fields == [] {
    } else {
      FilterSortMap(fields[1..]);
      if !fields[0].value.Undef? {
        var rest := StableSort(KeyLe, Defined(fields[1..]));
        assert ([fields[0]] + Defined(fields[1..]))[1..] == Defined(fields[1..]);
        var head := Field(fields[0].key, Canon(fields[0].value));
        assert ([head] + CanonFields(fields[1..]))[1..] == CanonFields(fields[1..]);
        InsertThenCanon(fields[0], rest);
      }
    }
  }

  // ---- Meaning -------------------------------------------------------------------------------------------

  /** What a value means: an object is a finite map from its defined keys, in no order. */
  datatype Meaning =
    | MUndef | MNull | MBool(b: bool) | MInt(n: int) | MText(s: string) | MBlob(bytes: Bytes)
    | MList(items: seq<Meaning>) | MMap(entries: map<string, Meaning>)

  function Denote(v: Value): Meaning
    decreases v, 1
  {
    match v
    case Undef => MUndef
    case Null => MNull
    case Bool(b) => MBool(b)
    case Int(n) => MInt(n)
    case Text(s) => MText(s)
    case Blob(bytes) => MBlob(bytes)
    case List(items) => MList(DenoteItems(items))
    case Obj(fields) => MMap(DenoteFields(fields))
  }

  function DenoteItems(items: seq<Value>): seq<Meaning>
    decreases items, 0
  {
    if items == [] then [] else [Denote(items[0])] + DenoteItems(items[1..])
  }

  function DenoteFields(fields: seq<Field>): map<string, Meaning>
    decreases fields, 0
  {
    if fields == [] then map[]
    else if fields[0].value.Undef? then DenoteFields(fields[1..])
    else DenoteFields(fields[1..])[fields[0].key := Denote(fields[0].value)]
  }

  ghost predicate DistinctKeys(fields: seq<Field>) {
    forall i, j :: 0 <= i < j < |fields| ==> fields[i].key != fields[j].key
  }

  /** As any JavaScript object, no object inside the value has a key twice. */
  ghost predicate Proper(v: Value)
    decreases v
  {
    match v
    case List(items) => forall i :: 0 <= i < |items| ==> Proper(items[i])
    case Obj(fields) => DistinctKeys(fields) && forall i :: 0 <= i < |fields| ==> Proper(fields[i].value)
    case _ => true
  }

  ghost predicate ProperFields(fields: seq<Field>) {
    DistinctKeys(fields) && forall i :: 0 <= i < |fields| ==> Proper(fields[i].value)
  }

  // ---- Fields as a set ---------------------------------------------------------------------------------

  /** The meaning of an object holds exactly its defined fields. */
  lemma {:induction false} DenoteFieldsHolds(fields: seq<Field>)
    requires DistinctKeys(fields)
    ensures forall k :: k in DenoteFields(fields) <==>
              exists i :: 0 <= i < |fields| && fields[i].key == k && !fields[i].value.Undef?
    ensures forall i :: 0 <= i < |fields| && !fields[i].value.Undef? ==>
              fields[i].key in DenoteFields(fields) && DenoteFields(fields)[fields[i].key] == Denote(fields[i].value)
  {
    if fields == [] {
    } else {
      var rest := fields[1..];
      DenoteFieldsHolds(rest);
      forall k
        ensures k in DenoteFields(fields) <==>
                  exists i :: 0 <= i < |fields| && fields[i].key == k && !fields[i].value.Undef?
      {
        if k in DenoteFields(rest) {
          var i :| 0 <= i < |rest| && rest[i].key == k && !rest[i].value.Undef?;
          assert fields[i + 1].key == k;
        }
        if i :| 0 <= i < |fields| && fields[i].key == k && !fields[i].value.Undef? {
          if i > 0 {
            assert rest[i - 1].key == k;
          }
        }
      }
      forall i | 0 <= i < |fields| && !fields[i].value.Undef?
        ensures fields[i].key in DenoteFields(fields) && DenoteFields(fields)[fields[i].key] == Denote(fields[i].value)
      {
        if i > 0 {
          assert rest[i - 1] == fields[i];
        }
      }
    }
  }

  lemma {:induction false} CanonFieldsHolds(fields: seq<Field>)
    requires DistinctKeys(fields)
    ensures forall f :: f in CanonFields(fields) <==>
              exists i :: 0 <= i < |fields| && !fields[i].value.Undef? &&
                f == Field(fields[i].key, Canon(fields[i].value))
    ensures DistinctKeys(CanonFields(fields))
  {
    if fields == [] {
    } else {
      var rest := fields[1..];
      CanonFieldsHolds(rest);
      forall f
        ensures f in CanonFields(fields) <==>
                exists i :: 0 <= i < |fields| && !fields[i].value.Undef? &&
                  f == Field(fields[i].key, Canon(fields[i].value))
      {
        if f in CanonFields(rest) {
          var i :| 0 <= i < |rest| && !rest[i].value.Undef? && f == Field(rest[i].key, Canon(rest[i].value));
          assert fields[i + 1] == rest[i];
        }
        if i :| 0 <= i < |fields| && !fields[i].value.Undef? && f == Field(fields[i].key, Canon(fields[i].value)) {
          if i > 0 {
            assert rest[i - 1] == fields[i];
          }
        }
      }
      var canon := CanonFields(rest);
      forall j | 0 <= j < |canon|
        ensures canon[j].key != fields[0].key
      {
        assert canon[j] in canon;
      }
    }
  }

  lemma SortedFields(fields: seq<Field>)
    requires DistinctKeys(fields)
    ensures var s := StableSort(KeyLe, fields);
            SortedBy(KeyLe, s) && DistinctKeys(s) && |s| == |fields| && forall f :: f in s <==> f in fields
  {
    var s := StableSort(KeyLe, fields);
    KeyLePreorder();
    SortSorts(KeyLe, fields);
    SortPermutes(KeyLe, fields);
    SameMembers(s, fields);
    PermutationKeepsDistinct((f: Field) => f.key, fields, s);
  }

  lemma TailMember(s: seq<Field>, f: Field)
    requires DistinctKeys(s) && s != []
    ensures f in s[1..] <==> f in s && f != s[0]
  {
    assert s == [s[0]] + s[1..];
    if f in s[1..] {
      var i :| 0 <= i < |s[1..]| && s[1..][i] == f;
      assert s[i + 1] == f;
    }
  }

  /** Two lists of distinct keys in key order with the same fields are the same list. */
  lemma {:induction false} OrderedFieldsUnique(s: seq<Field>, t: seq<Field>)
    requires SortedBy(KeyLe, s) && DistinctKeys(s) && SortedBy(KeyLe, t) && DistinctKeys(t)
    requires forall f :: f in s <==> f in t
    ensures s == t
  {
    assert (s != [] ==> s[0] in s) && (t != [] ==> t[0] in t);
    if s == [] || t == [] {
    } else {
      assert s[0] in t && t[0] in s;
      KeyOrderIsTotal(s[0].key, s[0].key, s[0].key);
      KeyOrderIsTotal(t[0].key, t[0].key, t[0].key);
      assert KeyLe(s[0], t[0]) && KeyLe(t[0], s[0]);
      KeyOrderIsTotal(s[0].key, t[0].key, s[0].key);
      assert s[0] == t[0] by {
        var i :| 0 <= i < |t| && t[i] == s[0];
        assert i == 0;
      }
      forall f
        ensures f in s[1..] <==> f in t[1..]
      {
        TailMember(s, f);
        TailMember(t, f);
      }
      OrderedFieldsUnique(s[1..], t[1..]);
    }
  }

  // ---- Canonicalization and meaning --------------------------------------------------------------------

  lemma {:induction false} CanonItemsAt(items: seq<Value>)
    ensures |CanonItems(items)| == |items| && |DenoteItems(items)| == |items|
    ensures forall i :: 0 <= i < |items| ==>
              CanonItems(items)[i] == Canon(items[i]) && DenoteItems(items)[i] == Denote(items[i])
  {
    if items == [] {
    } else {
      CanonItemsAt(items[1..]);
    }
  }

  /** Objects with the same meaning, whatever their insertion order and undefined fields, canonicalize alike. */
  lemma {:induction false} SameMeaningSameCanon(v: Value, w: Value)
    requires Proper(v) && Proper(w) && Denote(v) == Denote(w)
    ensures Canon(v) == Canon(w)
    decreases v
  {
    if v.List? {
      CanonItemsAt(v.items);
      CanonItemsAt(w.items);
      forall i | 0 <= i < |v.items|
        ensures Canon(v.items[i]) == Canon(w.items[i])
      {
        assert Denote(v.items[i]) == DenoteItems(v.items)[i] == DenoteItems(w.items)[i];
        SameMeaningSameCanon(v.items[i], w.items[i]);
      }
      assert CanonItems(v.items) == CanonItems(w.items);
    } else if v.Obj? {
      forall i, j | 0 <= i < |v.fields| && 0 <= j < |w.fields| && Denote(v.fields[i].value) == Denote(w.fields[j].value)
        ensures Canon(v.fields[i].value) == Canon(w.fields[j].value)
      {
        SameMeaningSameCanon(v.fields[i].value, w.fields[j].value);
      }
      SameFields(v.fields, w.fields);
    }
  }

  lemma SameFields(fs: seq<Field>, gs: seq<Field>)
    requires DistinctKeys(fs) && DistinctKeys(gs) && DenoteFields(fs) == DenoteFields(gs)
    requires forall i, j :: 0 <= i < |fs| && 0 <= j < |gs| && Denote(fs[i].value) == Denote(gs[j].value) ==>
               Canon(fs[i].value) == Canon(gs[j].value)
    ensures StableSort(KeyLe, CanonFields(fs)) == StableSort(KeyLe, CanonFields(gs))
  {
    CanonFieldsHolds(fs);
    CanonFieldsHolds(gs);
    DenoteFieldsHolds(fs);
    DenoteFieldsHolds(gs);
    forall f | f in CanonFields(fs)
      ensures f in CanonFields(gs)
    {
      var i :| 0 <= i < |fs| && !fs[i].value.Undef? && f == Field(fs[i].key, Canon(fs[i].value));
      assert fs[i].key in DenoteFields(gs);
      var j :| 0 <= j < |gs| && gs[j].key == fs[i].key && !gs[j].value.Undef?;
      assert Denote(fs[i].value) == Denote(gs[j].value);
    }
    forall f | f in CanonFields(gs)
      ensures f in CanonFields(fs)
    {
      var j :| 0 <= j < |gs| && !gs[j].value.Undef? && f == Field(gs[j].key, Canon(gs[j].value));
      assert gs[j].key in DenoteFields(fs);
      var i :| 0 <= i < |fs| && fs[i].key == gs[j].key && !fs[i].value.Undef?;
      assert Denote(fs[i].value) == Denote(gs[j].value);
    }
    SortedFields(CanonFields(fs));
    SortedFields(CanonFields(gs));
    OrderedFieldsUnique(StableSort(KeyLe, CanonFields(fs)), StableSort(KeyLe, CanonFields(gs)));
  }

  /** Canonicalization loses nothing: the canonical value is proper and means the same. */
  lemma {:induction false} CanonKeepsMeaning(v: Value)
    requires Proper(v)
    ensures Proper(Canon(v)) && Denote(Canon(v)) == Denote(v)
    ensures Canon(v).Undef? <==> v.Undef?
    decreases v
  {
    if v.List? {
      forall i | 0 <= i < |v.items|
        ensures Proper(Canon(v.items[i])) && Denote(Canon(v.items[i])) == Denote(v.items[i])
      {
        CanonKeepsMeaning(v.items[i]);
      }
      CanonItemsAt(v.items);
      CanonItemsAt(CanonItems(v.items));
      assert DenoteItems(CanonItems(v.items)) == DenoteItems(v.items);
    } else if v.Obj? {
      forall i | 0 <= i < |v.fields|
        ensures CanonKeeps(v.fields[i])
      {
        CanonKeepsMeaning(v.fields[i].value);
      }
      CanonFieldsKeepMeaning(v.fields);
    }
  }

  ghost predicate CanonKeeps(f: Field) {
    && Proper(Canon(f.value)) && Denote(Canon(f.value)) == Denote(f.value)
    && (Canon(f.value).Undef? <==> f.value.Undef?)
  }

  /** The field of the source object that a canonical field comes from. */
  lemma Origin(fields: seq<Field>, f: Field) returns (i: nat)
    requires DistinctKeys(fields) && f in StableSort(KeyLe, CanonFields(fields))
    ensures i < |fields| && !fields[i].value.Undef? && f == Field(fields[i].key, Canon(fields[i].value))
  {
    CanonFieldsHolds(fields);
    SortedFields(CanonFields(fields));
    i :| 0 <= i < |fields| && !fields[i].value.Undef? && f == Field(fields[i].key, Canon(fields[i].value));
  }

  lemma CanonicalLookup(fields: seq<Field>, i: nat)
    requires DistinctKeys(fields) && i < |fields| && !fields[i].value.Undef? && CanonKeeps(fields[i])
    ensures var m := DenoteFields(StableSort(KeyLe, CanonFields(fields)));
            fields[i].key in m && m[fields[i].key] == Denote(fields[i].value)
  {
    var s, f := StableSort(KeyLe, CanonFields(fields)), Field(fields[i].key, Canon(fields[i].value));
    CanonFieldsHolds(fields);
    SortedFields(CanonFields(fields));
    DenoteFieldsHolds(s);
    assert f in CanonFields(fields);
    var j :| 0 <= j < |s| && s[j] == f;
  }

  lemma CanonFieldsKeepMeaning(fields: seq<Field>)
    requires DistinctKeys(fields) && forall i :: 0 <= i < |fields| ==> CanonKeeps(fields[i])
    ensures var s := StableSort(KeyLe, CanonFields(fields)); ProperFields(s) && DenoteFields(s) == DenoteFields(fields)
  {
    var s := StableSort(KeyLe, CanonFields(fields));
    CanonFieldsHolds(fields);
    SortedFields(CanonFields(fields));
    forall j | 0 <= j < |s|
      ensures Proper(s[j].value)
    {
      var i := Origin(fields, s[j]);
    }
    CanonicalHasFields(fields);
    CanonicalHasNoOther(fields);
    assert DenoteFields(s) == DenoteFields(fields);
  }

  lemma CanonicalHasFields(fields: seq<Field>)
    requires DistinctKeys(fields) && forall i :: 0 <= i < |fields| ==> CanonKeeps(fields[i])
    ensures var m, n := DenoteFields(StableSort(KeyLe, CanonFields(fields))), DenoteFields(fields);
            forall k :: k in n ==> k in m && m[k] == n[k]
  {
    var n := DenoteFields(fields);
    DenoteFieldsHolds(fields);
    forall k | k in n
      ensures var m := DenoteFields(StableSort(KeyLe, CanonFields(fields))); k in m && m[k] == n[k]
    {
      var i :| 0 <= i < |fields| && fields[i].key == k && !fields[i].value.Undef?;
      CanonicalLookup(fields, i);
    }
  }

  lemma CanonicalHasNoOther(fields: seq<Field>)
    requires DistinctKeys(fields)
    ensures forall k :: k in DenoteFields(StableSort(KeyLe, CanonFields(fields))) ==> k in DenoteFields(fields)
  {
    var s := StableSort(KeyLe, CanonFields(fields));
    CanonFieldsHolds(fields);
    SortedFields(CanonFields(fields));
    DenoteFieldsHolds(s);
    DenoteFieldsHolds(fields);
    forall k | k in DenoteFields(s)
      ensures k in DenoteFields(fields)
    {
      var j :| 0 <= j < |s| && s[j].key == k && !s[j].value.Undef?;
      var i := Origin(fields, s[j]);
    }
  }

  /** Canonicalizing twice is canonicalizing once. */
  lemma CanonIdempotent(v: Value)
    requires Proper(v)
    ensures Canon(Canon(v)) == Canon(v)
  {
    CanonKeepsMeaning(v);
    SameMeaningSameCanon(Canon(v), v);
  }

  /** Two values canonicalize to the same tree exactly when they mean the same. */
  lemma CanonDecidesMeaning(v: Value, w: Value)
    requires Proper(v) && Proper(w)
    ensures Canon(v) == Canon(w) <==> Denote(v) == Denote(w)
  {
    CanonKeepsMeaning(v);
    CanonKeepsMeaning(w);
    if Denote(v) == Denote(w) {
      SameMeaningSameCanon(v, w);
    }
  }
}
