/**
 CompressedSecondaryCache: a value is stored in a chain of chunks whose allocation sizes fit the allocator's
 bins, and put together again.
 */
module ChunkSplit {
  const BINS: seq<nat> := [128, 256, 512, 1024, 2048, 4096, 8192, 16384]

  /** sizeof(CacheValueChunk) - 1 with 64-bit pointers: what an allocation holds besides the data. */
  const OVERHEAD: nat := 23

  /** std::upper_bound on the bins: the first that is greater than n. */
  function UpperBound(n: nat, i: nat): (j: nat)
    requires i <= |BINS|
    ensures i <= j <= |BINS|
    ensures forall k :: i <= k < j ==> BINS[k] <= n
    ensures j < |BINS| ==> BINS[j] > n
    decreases |BINS| - i
  {
    if i == |BINS| || BINS[i] > n then i else UpperBound(n, i + 1)
  }

  /** How much to allocate for the next chunk when `size` bytes are left. */
  function Allocation(size: nat, compressed: bool): nat {
    var predicted := OVERHEAD + size;
    var upper := UpperBound(predicted, 0);
    if upper == 0 || upper == |BINS| || BINS[upper] - predicted < BINS[0] || !compressed then predicted
    else BINS[upper - 1]
  }

  /** A chunk that is not the last one fills a bin, takes something, and leaves less than that bin. */
  lemma AllocationShrinks(size: nat, compressed: bool)
    requires size > 0
    ensures OVERHEAD < Allocation(size, compressed) <= OVERHEAD + size
    ensures !compressed ==> Allocation(size, compressed) == OVERHEAD + size
    ensures Allocation(size, compressed) < OVERHEAD + size ==>
      && Allocation(size, compressed) in BINS && Allocation(size, compressed) <= 8192
      && OVERHEAD + (size - (Allocation(size, compressed) - OVERHEAD)) < Allocation(size, compressed)
  {
  }

  /** An allocation for so many bytes leaves less than the smallest bin of its own bin unused, or no bin holds it. */
  predicate Snug(n: nat) {
    OVERHEAD + n >= 16384 || exists i :: 0 <= i < |BINS| && OVERHEAD + n <= BINS[i] < OVERHEAD + n + 128
  }

  lemma BinsAscend(i: nat, j: nat)
    requires i <= j < |BINS|
    ensures BINS[i] <= BINS[j]
  {
  }

  /** What is left is put into one chunk if and only if it is not compressed or fits its bin. */
  lemma SplitsIff(size: nat, compressed: bool)
    requires size > 0
    ensures Allocation(size, compressed) == OVERHEAD + size <==> !compressed || Snug(size)
  {
    hide UpperBound;
    var p := OVERHEAD + size;
    var u := UpperBound(p, 0);
    if u == |BINS| {
      assert BINS[7] <= p;
    } else if exists i :: 0 <= i < |BINS| && p <= BINS[i] < p + 128 {
      var i :| 0 <= i < |BINS| && p <= BINS[i] < p + 128;
      if i >= u { BinsAscend(u, i); } else { BinsAscend(i, u - 1); }
    }
  }

  function Concat(chunks: seq<string>): string {
    if chunks == [] then "" else Concat(chunks[..|chunks| - 1]) + chunks[|chunks| - 1]
  }

  function TotalSize(chunks: seq<string>): nat {
    if chunks == [] then 0 else TotalSize(chunks[..|chunks| - 1]) + |chunks[|chunks| - 1]|
  }

  lemma {:induction false} ConcatSize(chunks: seq<string>)
    ensures |Concat(chunks)| == TotalSize(chunks)
  {
    if chunks != [] { ConcatSize(chunks[..|chunks| - 1]); }
  }

  /** A chunk that fills its bin exactly. */
  predicate FillsBin(chunk: string) {
    |chunk| + OVERHEAD in BINS && |chunk| + OVERHEAD <= 8192
  }

  /** All but the last chunk fill a bin, and each is strictly smaller than the one before. */
  predicate WellSplit(chunks: seq<string>) {
    && (forall i :: 0 <= i < |chunks| - 1 ==> FillsBin(chunks[i]))
    && (forall i :: 0 < i < |chunks| ==> |chunks[i]| < |chunks[i - 1]|)
  }

  /** The last chunk's bin is the r-th: what is left needs a smaller one. */
  predicate Narrowing(chunks: seq<string>, left: nat, r: nat) {
    && r <= 7 && |chunks| + r <= 7
    && (chunks != [] ==> |chunks[|chunks| - 1]| + OVERHEAD == BINS[r] && OVERHEAD + left < BINS[r])
  }

  lemma NextNarrower(size: nat, compressed: bool, r: nat) returns (q: nat)
    requires size > 0 && Allocation(size, compressed) < OVERHEAD + size && r <= 7
    requires r < 7 ==> OVERHEAD + size < BINS[r]
    ensures q < r && Allocation(size, compressed) == BINS[q]
    ensures OVERHEAD + (size - (BINS[q] - OVERHEAD)) < BINS[q]
  {
    AllocationShrinks(size, compressed);
    q := UpperBound(OVERHEAD + size, 0) - 1;
  }

  lemma ConcatNone()
    ensures Concat([]) == ""
  {
  }

  lemma ConcatAppend(chunks: seq<string>, c: string)
    ensures Concat(chunks + [c]) == Concat(chunks) + c
  {
    assert (chunks + [c])[..|chunks|] == chunks;
  }

  /** Each chunk is larger than all that comes after it. */
  predicate Greedy(chunks: seq<string>, total: nat) {
    forall i: nat {:trigger chunks[i]} :: i < |chunks| ==> total - TotalSize(chunks[..i + 1]) < |chunks[i]|
  }

  lemma GreedyNone(total: nat)
    ensures Greedy([], total) && TotalSize([]) == 0 && WellSplit([])
  {
  }

  lemma GreedyAppend(chunks: seq<string>, c: string, total: nat)
    requires Greedy(chunks, total) && total - TotalSize(chunks) - |c| < |c|
    ensures TotalSize(chunks + [c]) == TotalSize(chunks) + |c| && Greedy(chunks + [c], total)
  {
    var all := chunks + [c];
    assert all[..|chunks|] == chunks;
    forall i: nat | i < |all| ensures total - TotalSize(all[..i + 1]) < |all[i]| {
      if i < |chunks| {
        assert all[..i + 1] == chunks[..i + 1] && total - TotalSize(chunks[..i + 1]) < |chunks[i]|;
      } else {
        assert all[..i + 1] == all;
      }
    }
  }

  lemma WellAppend(chunks: seq<string>, c: string)
    requires WellSplit(chunks) && (forall i :: 0 <= i < |chunks| ==> FillsBin(chunks[i]))
    requires chunks != [] ==> |c| < |chunks[|chunks| - 1]|
    ensures WellSplit(chunks + [c])
  {
  }

  /** The chunks make up the value; there are at most 8; all but the last fill bins of strictly decreasing size, the
      largest that what is left fills; and the charge is the value's size plus a fixed overhead per chunk.  A value is
      split if and only if it is compressed and would leave 128 bytes or more of its bin unused. */
  method SplitValueIntoChunks(value: string, compressed: bool) returns (chunks: seq<string>, charge: nat)
    requires value != ""
    ensures Concat(chunks) == value && 1 <= |chunks| <= 8 && WellSplit(chunks)
    ensures forall i :: 0 <= i < |chunks| ==> chunks[i] != ""
    ensures charge == |value| + OVERHEAD * |chunks|
    ensures |chunks| == 1 <==> !compressed || Snug(|value|)
    ensures compressed ==> Snug(|chunks[|chunks| - 1]|)
    ensures Greedy(chunks, |value|)
  {
    hide Allocation, Concat, UpperBound, Snug, Greedy, TotalSize, WellSplit;
    ConcatNone();
    GreedyNone(|value|);
    SplitsIff(|value|, compressed);
    var src: nat, left: nat := 0, |value|;
    chunks, charge := [], 0;
    ghost var r := 7;
    while left > 0
      invariant src + left == |value| && Concat(chunks) == value[..src] && TotalSize(chunks) == src
      invariant Greedy(chunks, |value|)
      invariant chunks == [] ==> left == |value|
      invariant left == 0 ==> (|chunks| == 1 <==> !compressed || Snug(|value|))
      invariant left == 0 && compressed ==> Snug(|chunks[|chunks| - 1]|)
      invariant left > 0 && chunks != [] ==> !(!compressed || Snug(|value|))
      invariant charge == src + OVERHEAD * |chunks| && |chunks| <= 8
      invariant left > 0 ==> Narrowing(chunks, left, r) && (forall i :: 0 <= i < |chunks| ==> FillsBin(chunks[i]))
      invariant left == 0 ==> chunks != []
      invariant left > 0 && !compressed ==> chunks == []
      invariant !compressed ==> |chunks| <= 1
      invariant WellSplit(chunks) && forall i :: 0 <= i < |chunks| ==> chunks[i] != ""
    {
      var size := Allocation(left, compressed);
      AllocationShrinks(left, compressed);
      SplitsIff(left, compressed);
      var n := size - OVERHEAD;
      var chunk := value[src..src + n];
      ConcatAppend(chunks, chunk);
      assert value[..src] + chunk == value[..src + n];
      assert chunks != [] ==> n < |chunks[|chunks| - 1]|;
      if n < left { r := NextNarrower(left, compressed, if chunks == [] then 7 else r); }
      GreedyAppend(chunks, chunk, |value|);
      WellAppend(chunks, chunk);
      chunks := chunks + [chunk];
      src, left, charge := src + n, left - n, charge + size;
    }
    assert value[..src] == value;
  }

  /** Copies the chunks one after the other into a block of their total size. */
  method MergeChunksIntoValue(chunks: seq<string>) returns (block: array<char>, charge: nat)
    ensures charge == block.Length == TotalSize(chunks) && block[..] == Concat(chunks)
  {
    charge := 0;
    for i := 0 to |chunks|
      invariant charge == TotalSize(chunks[..i])
    {
      assert chunks[..i + 1][..i] == chunks[..i];
      charge := charge + |chunks[i]|;
    }
    assert chunks[..|chunks|] == chunks;
    block := new char[charge];
    var pos := 0;
    for i := 0 to |chunks|
      invariant pos == TotalSize(chunks[..i]) <= charge && block[..pos] == Concat(chunks[..i])
    {
      SizeGrows(chunks, i + 1);
      assert chunks[..i + 1][..i] == chunks[..i];
      for j := 0 to |chunks[i]|
        invariant pos + |chunks[i]| <= charge && block[..pos] == Concat(chunks[..i])
        invariant block[pos..pos + j] == chunks[i][..j]
      {
        block[pos + j] := chunks[i][j];
      }
      assert block[..pos + |chunks[i]|] == block[..pos] + block[pos..pos + |chunks[i]|];
      pos := pos + |chunks[i]|;
    }
  }

  lemma {:induction false} SizeGrows(chunks: seq<string>, i: nat)
    requires i <= |chunks|
    ensures TotalSize(chunks[..i]) <= TotalSize(chunks)
    decreases |chunks| - i
  {
    if i < |chunks| {
      assert chunks[..i + 1][..i] == chunks[..i];
      SizeGrows(chunks, i + 1);
    } else {
      assert chunks[..i] == chunks;
    }
  }

  /** Merging what was split gives the value back, and its length as charge. */
  method SplitThenMerge(value: string, compressed: bool) returns (block: array<char>, charge: nat)
    requires value != ""
    ensures block[..] == value && charge == |value|
  {
    var chunks, cost := SplitValueIntoChunks(value, compressed);
    block, charge := MergeChunksIntoValue(chunks);
    ConcatSize(chunks);
  }
}
