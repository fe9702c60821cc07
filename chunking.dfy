/**
 * `chunkArray(array, size)` (index.js:368-374): cut a list into consecutive slices of `size`
 * elements, the last one possibly shorter.
 */
module Chunking {
  function Min(x: int, y: int): int {
    if x <= y then x else y
  }

  /** The concatenation of a list of lists. */
  function Flatten<T>(chunks: seq<seq<T>>): seq<T>
    decreases |chunks|
  {
    if chunks == [] then [] else Flatten(chunks[..|chunks| - 1]) + chunks[|chunks| - 1]
  }

  lemma FlattenAppend<T>(chunks: seq<seq<T>>, c: seq<T>)
    ensures Flatten(chunks + [c]) == Flatten(chunks) + c
  {
    assert (chunks + [c])[..|chunks|] == chunks;
  }

  lemma MulSucc(x: int, y: int)
    ensures (x + 1) * y == x * y + y
  {
  }

  lemma MulAtLeast(x: int, y: int)
    requires x >= 1 && y > 0
    ensures x * y >= y
  {
    MulSucc(x - 1, y);
  }

  /** Division by a positive number is determined by quotient and remainder. */
  lemma DivUnique(x: int, d: int, q: int, r: int)
    requires d > 0 && 0 <= r < d && x == q * d + r
    ensures x / d == q
  {
    var q', r' := x / d, x % d;
    assert x == q' * d + r';
    assert (q - q') * d == r' - r;
    if q - q' >= 1 {
      MulAtLeast(q - q', d);
    } else if q' - q >= 1 {
      MulAtLeast(q' - q, d);
    }
  }

  /** The smallest number of `size`-element chunks that hold `n` elements. */
  lemma CeilDiv(n: nat, size: nat, c: nat)
    requires size > 0 && c >= 1
    requires (c - 1) * size < n <= c * size
    ensures (n + size - 1) / size == c
  {
    MulSucc(c - 1, size);
    DivUnique(n + size - 1, size, c, n + size - 1 - c * size);
  }

  /** Where chunk `k` starts: `k * size`, counted up one chunk at a time. */
  function Offset(k: nat, size: nat): nat
    decreases k
  {
    if k == 0 then 0 else Offset(k - 1, size) + size
  }

  /** `Offset` is the product of its arguments. */
  lemma {:induction false} OffsetProduct(k: nat, size: nat)
    ensures Offset(k, size) == k * size
    decreases k
  {
    if k > 0 {
      OffsetProduct(k - 1, size);
      MulSucc(k - 1, size);
    }
  }

  /** Chunk `k` is the slice of `a` that starts at `Offset(k, size)`. */
  ghost predicate Slices<T>(a: seq<T>, size: nat, chunked: seq<seq<T>>) {
    forall k :: 0 <= k < |chunked| ==>
      Offset(k, size) < |a| && chunked[k] == a[Offset(k, size)..Min(Offset(k, size) + size, |a|)]
  }

  /** One more chunk, cut where the previous ones end. */
  lemma ChunkStep<T>(a: seq<T>, size: nat, chunked: seq<seq<T>>, i: nat)
    requires i == Offset(|chunked|, size) && i < |a|
    requires Flatten(chunked) == a[..i]
    requires Slices(a, size, chunked)
    ensures var piece := a[i..Min(i + size, |a|)];
      && Flatten(chunked + [piece]) == a[..Min(i + size, |a|)]
      && Slices(a, size, chunked + [piece])
      && Offset(|chunked| + 1, size) == i + size
  {
    var piece := a[i..Min(i + size, |a|)];
    FlattenAppend(chunked, piece);
    assert a[..i] + piece == a[..Min(i + size, |a|)];
    var c := chunked + [piece];
    forall k | 0 <= k < |c|
      ensures Offset(k, size) < |a| && c[k] == a[Offset(k, size)..Min(Offset(k, size) + size, |a|)]
    {
      if k < |chunked| {
        assert c[k] == chunked[k];
      } else {
        assert k == |chunked| && c[k] == piece;
      }
    }
  }

  /** The sizes of the chunks, from where each one starts. */
  lemma ChunkSizes<T>(a: seq<T>, size: nat, chunked: seq<seq<T>>)
    requires Offset(|chunked|, size) >= |a|
    requires Slices(a, size, chunked)
    ensures forall k :: 0 <= k < |chunked| - 1 ==> |chunked[k]| == size
    ensures chunked != [] ==> 1 <= |chunked[|chunked| - 1]| <= size
    ensures size > 0 ==> |chunked| == (|a| + size - 1) / size
  {
    forall k | 0 <= k < |chunked| - 1 ensures |chunked[k]| == size {
      assert Offset(k + 1, size) < |a|;
    }
    if size > 0 && chunked != [] {
      var c := |chunked|;
      OffsetProduct(c - 1, size);
      OffsetProduct(c, size);
      CeilDiv(|a|, size, c);
    } else if size > 0 {
      DivUnique(size - 1, size, 0, size - 1);
    }
  }

  /** What the loop of `ChunkArray` has built once it has passed the end of `a`. */
  lemma ChunksDone<T>(a: seq<T>, size: nat, chunked: seq<seq<T>>, i: nat)
    requires i == Offset(|chunked|, size) && |a| <= i
    requires Flatten(chunked) == a[..Min(i, |a|)]
    requires Slices(a, size, chunked)
    ensures Flatten(chunked) == a
    ensures a == [] <==> chunked == []
    ensures forall k :: 0 <= k < |chunked| - 1 ==> |chunked[k]| == size
    ensures chunked != [] ==> 1 <= |chunked[|chunked| - 1]| <= size
    ensures size > 0 ==> |chunked| == (|a| + size - 1) / size
  {
    assert a[..|a|] == a;
    assert chunked != [] ==> Offset(0, size) < |a|;
    ChunkSizes(a, size, chunked);
  }

  /** The chunks concatenate back to the input; chunk `k` is the slice that starts at
      `Offset(k, size)`, which is `k * size`; every chunk but the last has exactly `size`
      elements and the last one between 1 and `size`; there are ceil(n / size) of them. A
      `size` of 0 only terminates on an empty input, where the loop never runs. */
  method ChunkArray<T>(a: seq<T>, size: nat) returns (chunked: seq<seq<T>>)
    requires size > 0 || a == []
    ensures Flatten(chunked) == a
    ensures Slices(a, size, chunked)
    ensures forall k :: 0 <= k < |chunked| - 1 ==> |chunked[k]| == size
    ensures chunked != [] ==> 1 <= |chunked[|chunked| - 1]| <= size
    ensures a == [] <==> chunked == []
    ensures size > 0 ==> |chunked| == (|a| + size - 1) / size
  {
    chunked := [];
    var i := 0;
    while i < |a|
      invariant i == Offset(|chunked|, size)
      invariant Flatten(chunked) == a[..Min(i, |a|)]
      invariant Slices(a, size, chunked)
      invariant i > |a| ==> i < |a| + size
      decreases |a| - i
    {
      var piece := a[i..Min(i + size, |a|)];
      ChunkStep(a, size, chunked, i);
      chunked := chunked + [piece];
      i := i + size;
    }
    ChunksDone(a, size, chunked, i);
  }
}
