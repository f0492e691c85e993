/** Bytes, options and replies shared by every module of the model. */
module Common {
  type byte = x: int | 0 <= x < 256
  type Bytes = seq<byte>

  datatype Option<+T> = None | Some(value: T)

  function Min(a: int, b: int): int { if a < b then a else b }

  function Max(a: int, b: int): int { if a < b then b else a }

  lemma Regroup<T>(a: seq<T>, b: seq<T>, c: seq<T>)
    ensures (a + b) + c == a + (b + c)
  {
  }

  const MAX_SAFE_INTEGER: int := 0x1F_FFFF_FFFF_FFFF

  predicate IsNonNegativeSafeInteger(n: int) { 0 <= n <= MAX_SAFE_INTEGER }

  predicate IsPositiveSafeInteger(n: int) { 0 < n <= MAX_SAFE_INTEGER }
}
