/** Fields of an encoded object: looking one up, and what canonical order does to the lookup. */
module CborObject {
  import opened Common
  import opened Sorting
  import opened CborOrder

  /** `object[key]`: a missing field reads as undefined. */
  function Get(fields: seq<Field>, key: string): Value {
    if fields == [] then Undef
    else if fields[0].key == key then fields[0].value
    else Get(fields[1..], key)
  }

  predicate NonNegativeSafe(v: Value) { v.Int? && IsNonNegativeSafeInteger(v.n) }

  predicate PositiveSafe(v: Value) { v.Int? && IsPositiveSafeInteger(v.n) }

  function CanonObject(fields: seq<Field>): seq<Field> { StableSort(KeyLe, CanonFields(fields)) }

  lemma {:induction false} GetAt(fields: seq<Field>, i: nat)
    requires DistinctKeys(fields) && i < |fields|
    ensures Get(fields, fields[i].key) == fields[i].value
  {
    if i == 0 {
    } else {
      assert fields[0].key != fields[i].key;
      GetAt(fields[1..], i - 1);
    }
  }

  lemma {:induction false} GetMissing(fields: seq<Field>, key: string)
    requires forall i :: 0 <= i < |fields| ==> fields[i].key != key
    ensures Get(fields, key) == Undef
  {
    if fields == [] {
    } else {
      GetMissing(fields[1..], key);
    }
  }

  /** Reading a field of the canonical object gives the canonical form of the field's value. */
  lemma GetCanon(fields: seq<Field>, i: nat)
    requires DistinctKeys(fields) && i < |fields|
    ensures Get(CanonObject(fields), fields[i].key) == Canon(fields[i].value)
  {
    var s, key := CanonObject(fields), fields[i].key;
    CanonFieldsHolds(fields);
    SortedFields(CanonFields(fields));
    if fields[i].value.Undef? {
      forall j | 0 <= j < |s|
        ensures s[j].key != key
      {
        var k := Origin(fields, s[j]);
      }
      GetMissing(s, key);
    } else {
      var f := Field(key, Canon(fields[i].value));
      assert f in CanonFields(fields);
      var j: nat :| j < |s| && s[j] == f;
      GetAt(s, j);
    }
  }
}
