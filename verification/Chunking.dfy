/** How a file is cut into chunks: the server's expected sizes and the client's slices. */
module Chunking {
  import opened Common

  /** `Math.ceil(n / d)`. */
  function CeilDiv(n: int, d: int): int
    requires d > 0
  {
    -((-n) / d)
  }

  function ExpectedChunkCount(totalSize: int, chunkSize: int): int
    requires chunkSize > 0
  {
    Max(1, CeilDiv(totalSize, chunkSize))
  }

  function ExpectedPlainSize(totalSize: int, chunkSize: int, k: int): int {
    Max(0, Min(chunkSize, totalSize - k * chunkSize))
  }

  /** AES-GCM appends a tag of this many bytes to every chunk. */
  const TAG_BYTES := 16

  function ExpectedCipherSize(totalSize: int, chunkSize: int, k: int): int {
    ExpectedPlainSize(totalSize, chunkSize, k) + TAG_BYTES
  }

  /** `Blob.slice(start, min(start + size, blob.size))`, whose bounds are clamped to the blob. */
  function Slice(file: Bytes, chunkSize: nat, k: nat): Bytes {
    var start := Min(k * chunkSize, |file|);
    var end := Min(k * chunkSize + chunkSize, |file|);
    file[start..end]
  }

  /** The first n slices, one after the other. */
  function JoinSlices(file: Bytes, chunkSize: nat, n: nat): Bytes {
    if n == 0 then [] else JoinSlices(file, chunkSize, n - 1) + Slice(file, chunkSize, n - 1)
  }

  function TotalPlainSize(totalSize: int, chunkSize: int, n: nat): int {
    if n == 0 then 0 else TotalPlainSize(totalSize, chunkSize, n - 1) + ExpectedPlainSize(totalSize, chunkSize, n - 1)
  }

  lemma ScaleMonotone(a: int, b: int, scale: int)
    requires a <= b && scale >= 0
    ensures a * scale <= b * scale
  {
    assert (b - a) * scale == b * scale - a * scale;
  }

  lemma CountCovers(totalSize: int, chunkSize: int)
    requires totalSize > 0 && chunkSize > 0
    ensures var n := ExpectedChunkCount(totalSize, chunkSize);
            n >= 1 && (n - 1) * chunkSize < totalSize <= n * chunkSize
  {
    var n := CeilDiv(totalSize, chunkSize);
    assert (-totalSize) == chunkSize * (-n) + (-totalSize) % chunkSize;
    assert chunkSize * (-n) == -(n * chunkSize) && (n - 1) * chunkSize == n * chunkSize - chunkSize;
    ScaleMonotone(Min(n, 0), 0, chunkSize);
  }

  /** The expected chunk count is exactly the number of chunks that carry any byte. */
  lemma ChunkIsNonEmptyIffCounted(totalSize: int, chunkSize: int, k: nat)
    requires totalSize > 0 && chunkSize > 0
    ensures ExpectedPlainSize(totalSize, chunkSize, k) > 0 <==> k < ExpectedChunkCount(totalSize, chunkSize)
  {
    var n := ExpectedChunkCount(totalSize, chunkSize);
    CountCovers(totalSize, chunkSize);
    if k < n {
      ScaleMonotone(k, n - 1, chunkSize);
    } else {
      ScaleMonotone(n, k, chunkSize);
    }
  }

  lemma {:induction false} PlainSizesUpTo(totalSize: int, chunkSize: int, n: nat)
    requires totalSize > 0 && chunkSize > 0
    ensures TotalPlainSize(totalSize, chunkSize, n) == Min(n * chunkSize, totalSize)
  {
    if n == 0 {
    } else {
      PlainSizesUpTo(totalSize, chunkSize, n - 1);
      assert n * chunkSize == (n - 1) * chunkSize + chunkSize;
    }
  }

  /** The sizes the server insists on add up to the declared size of the file. */
  lemma PlainSizesSumToTotal(totalSize: int, chunkSize: int)
    requires totalSize > 0 && chunkSize > 0
    ensures TotalPlainSize(totalSize, chunkSize, ExpectedChunkCount(totalSize, chunkSize)) == totalSize
  {
    CountCovers(totalSize, chunkSize);
    PlainSizesUpTo(totalSize, chunkSize, ExpectedChunkCount(totalSize, chunkSize));
  }

  /** The client's k-th slice has the size the server expects for index k. */
  lemma SliceHasExpectedSize(file: Bytes, chunkSize: nat, k: nat)
    requires chunkSize > 0
    ensures |Slice(file, chunkSize, k)| == ExpectedPlainSize(|file|, chunkSize, k)
  {
    assert 0 <= k * chunkSize;
  }

  lemma {:induction false} JoinSlicesIsPrefix(file: Bytes, chunkSize: nat, n: nat)
    requires chunkSize > 0
    ensures 0 <= n * chunkSize
    ensures JoinSlices(file, chunkSize, n) == file[..Min(n * chunkSize, |file|)]
  {
    if n == 0 {
    } else {
      JoinSlicesIsPrefix(file, chunkSize, n - 1);
      assert n * chunkSize == (n - 1) * chunkSize + chunkSize;
    }
  }

  /** Joining all the slices gives the file back. */
  lemma SlicesRebuildFile(file: Bytes, chunkSize: nat)
    requires |file| > 0 && chunkSize > 0
    ensures JoinSlices(file, chunkSize, ExpectedChunkCount(|file|, chunkSize)) == file
  {
    var n := ExpectedChunkCount(|file|, chunkSize);
    CountCovers(|file|, chunkSize);
    JoinSlicesIsPrefix(file, chunkSize, n);
    assert Min(n * chunkSize, |file|) == |file|;
    assert file[..|file|] == file;
  }
}
