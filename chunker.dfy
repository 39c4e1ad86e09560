/** The fixed-size chunker `chunk_text`: the text is cut at every multiple
    of the chunk size, giving non-overlapping, order-preserving slices of
    which only the last may be shorter. */
module Chunker {
  import opened Results
  import opened Text

  /** The chunk size the pipeline uses (the default of `chunk_text`). */
  const DefaultChunkSize: nat := 500

  /** The message of the `ValueError` that `range` raises for a zero step. */
  const ZeroStep := "range() arg 3 must not be zero"

  /** The number of values `range(start, stop, step)` yields, computed as
      Python computes it. */
  function RangeLength(start: int, stop: int, step: int): nat
    requires step != 0
  {
    if step > 0 && start < stop then (stop - start - 1) / step + 1
    else if step < 0 && stop < start then (start - stop - 1) / (-step) + 1
    else 0
  }

  /** Python's `range(start, stop, step)` for a non-zero step: value `k` is
      `start + k * step`. For a positive step every value lies in
      `[start, stop)` and the next value would reach `stop`; for a negative
      step every value lies in `(stop, start]`. */
  function Range(start: int, stop: int, step: int): (r: seq<int>)
    requires step != 0
    ensures |r| == RangeLength(start, stop, step)
    ensures forall k :: 0 <= k < |r| ==> r[k] == start + k * step
    ensures step > 0 ==> forall k :: 0 <= k < |r| ==> start <= r[k] < stop
    ensures step > 0 ==> start + |r| * step >= stop
    ensures step > 0 ==> (|r| == 0 <==> stop <= start)
    ensures step < 0 ==> forall k :: 0 <= k < |r| ==> stop < r[k] <= start
    ensures step < 0 ==> (|r| == 0 <==> start <= stop)
  {
    RangeBounds(start, stop, step);
    seq(RangeLength(start, stop, step), k => start + k * step)
  }

  lemma {:induction false} RangeBounds(start: int, stop: int, step: int)
    requires step != 0
    ensures step > 0 ==> forall k :: 0 <= k < RangeLength(start, stop, step) ==> start <= start + k * step < stop
    ensures step > 0 ==> start + RangeLength(start, stop, step) * step >= stop
    ensures step < 0 ==> forall k :: 0 <= k < RangeLength(start, stop, step) ==> stop < start + k * step <= start
  {
    if step > 0 && start < stop {
      var n := RangeLength(start, stop, step);
      var d := stop - start - 1;
      assert d == (n - 1) * step + d % step;
      forall k | 0 <= k < n
        ensures start <= start + k * step < stop
      {
        MulMonotone(k, n - 1, step);
        MulMonotone(0, k, step);
      }
      MulSucc(n - 1, step);
    } else if step < 0 && stop < start {
      var n := RangeLength(start, stop, step);
      var d := start - stop - 1;
      assert d == (n - 1) * -step + d % -step;
      forall k | 0 <= k < n
        ensures stop < start + k * step <= start
      {
        MulMonotone(k, n - 1, -step);
        MulMonotone(0, k, -step);
      }
    }
  }

  lemma {:induction false} MulSucc(a: int, b: int)
    ensures (a + 1) * b == a * b + b
  {
  }

  lemma {:induction false} MulMonotone(a: int, b: int, c: nat)
    requires a <= b
    ensures a * c <= b * c
  {
  }

  /** A whole number `k` of strides of `s` below the `n`-th lies in
      `[0, limit)` and leaves no remainder, where `n` is the number of
      strides that fit below `limit`. */
  lemma {:induction false} StrideForward(k: int, s: nat, n: nat, limit: int)
    requires s > 0 && 0 <= k < n
    requires n == (if limit > 0 then (limit - 1) / s + 1 else 0)
    ensures 0 <= k * s < limit
    ensures (k * s) % s == 0
  {
    var d := limit - 1;
    assert d == (n - 1) * s + d % s;
    MulMonotone(k, n - 1, s);
    MulMonotone(0, k, s);
    DivUnique(k * s, s, k, 0);
  }

  /** Conversely, a distance in `[0, limit)` with no remainder is `q` strides
      for a `q` below `n`. */
  lemma {:induction false} StrideBackward(dist: int, s: nat, n: nat, limit: int)
    requires s > 0 && 0 <= dist < limit && dist % s == 0
    requires n == (if limit > 0 then (limit - 1) / s + 1 else 0)
    ensures 0 <= dist / s < n
    ensures dist == (dist / s) * s
  {
    var q := dist / s;
    DivUnique(dist, s, q, dist % s);
    var m := (limit - 1) / s;
    DivUnique(limit - 1, s, m, (limit - 1) % s);
    if q > m {
      MulMonotone(m + 1, q, s);
      MulSucc(m, s);
      assert false;
    }
  }

  /** The members of a range with a positive step: the values from `start`
      below `stop` that are a whole number of steps from `start`. */
  lemma {:induction false} RangeMembershipUp(start: int, stop: int, step: int, x: int)
    requires step > 0
    ensures x in Range(start, stop, step) <==> start <= x < stop && (x - start) % step == 0
  {
    var r := Range(start, stop, step);
    if x in r {
      var k :| 0 <= k < |r| && r[k] == x;
      StrideForward(k, step, |r|, stop - start);
    }
    if start <= x < stop && (x - start) % step == 0 {
      StrideBackward(x - start, step, |r|, stop - start);
      assert r[(x - start) / step] == x;
    }
  }

  /** The members of a range with a negative step: the values from `start`
      down to above `stop` that are a whole number of steps from `start`. */
  lemma {:induction false} RangeMembershipDown(start: int, stop: int, step: int, x: int)
    requires step < 0
    ensures x in Range(start, stop, step) <==> stop < x <= start && (start - x) % -step == 0
  {
    var r := Range(start, stop, step);
    var s: nat := -step;
    if x in r {
      var k :| 0 <= k < |r| && r[k] == x;
      MulNegate(k, s);
      StrideForward(k, s, |r|, start - stop);
    }
    if stop < x <= start && (start - x) % s == 0 {
      StrideBackward(start - x, s, |r|, start - stop);
      var q := (start - x) / s;
      MulNegate(q, s);
      assert r[q] == x;
    }
  }

  lemma {:induction false} MulNegate(a: int, b: int)
    ensures a * -b == -(a * b)
  {
  }

  /** The comprehension of `chunk_text(text, size)` for a non-zero size:
      one slice `text[i:i+size]` for every `i` in `range(0, len(text), size)`. */
  function ChunkText(text: string, size: int): seq<string>
    requires size != 0
  {
    var starts := Range(0, |text|, size);
    seq(|starts|, k requires 0 <= k < |starts| => Slice(text, starts[k], starts[k] + size))
  }

  /** `chunk_text(text, size)` for any integer size. A zero size makes
      `range` raise. A negative size gives an empty range and so no chunks.
      A positive size gives non-empty chunks of at most `size` characters,
      ⌈len(text)/size⌉ of them, that concatenate back to the text. */
  function ChunkTextChecked(text: string, size: int): (r: Result<seq<string>>)
    ensures r.Err? <==> size == 0
    ensures r.Err? ==> r.error == ZeroStep
    ensures size < 0 ==> r == Ok([])
    ensures size > 0 ==> r == Ok(ChunkText(text, size))
    ensures size > 0 ==> Concat(r.value) == text
    ensures size > 0 ==> |r.value| == (|text| + size - 1) / size
    ensures size > 0 ==> forall j :: 0 <= j < |r.value| ==> 0 < |r.value[j]| <= size
  {
    if size == 0 then Err(ZeroStep)
    else if size > 0 then
      ChunksConcat(text, size);
      ChunkCount(text, size);
      ChunkLengths(text, size);
      Ok(ChunkText(text, size))
    else Ok(ChunkText(text, size))
  }

  /** Chunk `j` is the slice of the text from offset `j * size` up to the
      next multiple of `size` or the end of the text; so the chunks are in
      order, do not overlap, and depend on nothing but `text` and `size`. */
  lemma {:induction false} ChunkAt(text: string, size: nat, j: nat)
    requires size > 0
    requires j < |ChunkText(text, size)|
    ensures j * size < |text|
    ensures ChunkText(text, size)[j] == text[j * size .. Min(j * size + size, |text|)]
  {
    assert Range(0, |text|, size)[j] == j * size;
  }

  lemma {:induction false} DivUnique(a: int, b: nat, q: int, m: int)
    requires b > 0
    requires a == q * b + m && 0 <= m < b
    ensures a / b == q
  {
    var d, r := a / b, a % b;
    assert a == d * b + r && 0 <= r < b;
    if q > d {
      assert (q - d) * b == q * b - d * b;
      MulMonotone(1, q - d, b);
    } else if q < d {
      assert (d - q) * b == d * b - q * b;
      MulMonotone(1, d - q, b);
    }
  }

  lemma {:induction false} CeilingUnique(n: nat, size: nat, q: nat)
    requires size > 0
    requires (q - 1) * size < n <= q * size
    ensures q == (n + size - 1) / size
  {
    assert (q - 1) * size == q * size - size;
    DivUnique(n + size - 1, size, q, n + size - 1 - q * size);
  }

  /** The number of chunks is the ceiling of `len(text) / size`: the chunks
      of `size` characters that cover the text, and one fewer would not. */
  lemma {:induction false} ChunkCount(text: string, size: nat)
    requires size > 0
    ensures |ChunkText(text, size)| == (|text| + size - 1) / size
    ensures |text| > 0 ==> (|ChunkText(text, size)| - 1) * size < |text| <= |ChunkText(text, size)| * size
    ensures |ChunkText(text, size)| == 0 <==> |text| == 0
  {
    var q := |ChunkText(text, size)|;
    var starts := Range(0, |text|, size);
    if |text| == 0 {
      assert q == 0;
    } else {
      assert q > 0;
      assert starts[q - 1] == (q - 1) * size;
      CeilingUnique(|text|, size, q);
    }
  }

  /** Every chunk but the last has exactly `size` characters; the last has
      between 1 and `size`, so no chunk is empty. */
  lemma {:induction false} ChunkLengths(text: string, size: nat)
    requires size > 0
    ensures forall j :: 0 <= j < |ChunkText(text, size)| - 1 ==> |ChunkText(text, size)[j]| == size
    ensures |ChunkText(text, size)| > 0 ==>
      0 < |ChunkText(text, size)[|ChunkText(text, size)| - 1]| <= size
    ensures forall j :: 0 <= j < |ChunkText(text, size)| ==> ChunkText(text, size)[j] != ""
  {
    var chunks := ChunkText(text, size);
    ChunkCount(text, size);
    forall j | 0 <= j < |chunks|
      ensures 0 < |chunks[j]| <= size
      ensures j < |chunks| - 1 ==> |chunks[j]| == size
    {
      ChunkAt(text, size, j);
      MulSucc(j, size);
      if j < |chunks| - 1 {
        MulMonotone(j + 1, |chunks| - 1, size);
      }
    }
  }

  /** Cutting off the first chunk leaves one chunk fewer. */
  lemma {:induction false} ChunkCountOfRest(text: string, size: nat)
    requires size > 0 && text != ""
    ensures |ChunkText(text, size)| == |ChunkText(text[Min(size, |text|)..], size)| + 1
  {
    var rest := text[Min(size, |text|)..];
    ChunkCount(text, size);
    ChunkCount(rest, size);
    var q := |ChunkText(rest, size)|;
    if |text| <= size {
      assert q == 0;
      CeilingUnique(|text|, size, 1);
    } else {
      assert |text| == |rest| + size;
      MulSucc(q, size);
      MulSucc(q - 1, size);
      CeilingUnique(|text|, size, q + 1);
    }
  }

  /** Slicing the text after its first `size` characters is slicing the
      text itself `size` characters further on. */
  lemma {:induction false} SliceAfterCut(text: string, size: nat, lo: nat)
    requires size <= |text|
    ensures Slice(text[size..], lo, lo + size) == Slice(text, lo + size, lo + size + size)
  {
    if lo < |text[size..]| {
      assert text[size..][lo..Min(lo + size, |text| - size)] == text[lo + size..Min(lo + size + size, |text|)];
    }
  }

  /** Chunk `j + 1` of the text is chunk `j` of the text after its first chunk. */
  lemma {:induction false} ChunkShift(text: string, size: nat, j: nat)
    requires size > 0 && text != ""
    requires j < |ChunkText(text[Min(size, |text|)..], size)|
    ensures j + 1 < |ChunkText(text, size)|
    ensures ChunkText(text, size)[j + 1] == ChunkText(text[Min(size, |text|)..], size)[j]
  {
    var rest := text[Min(size, |text|)..];
    ChunkCountOfRest(text, size);
    assert |text| > size;
    var lo := j * size;
    MulSucc(j, size);
    assert Range(0, |rest|, size)[j] == lo;
    assert Range(0, |text|, size)[j + 1] == lo + size;
    SliceAfterCut(text, size, lo);
  }

  /** Recursive reading of the chunker: the first chunk is the first `size`
      characters (or the whole text), and the rest are the chunks of what is left. */
  lemma {:induction false} ChunkTextUnfold(text: string, size: nat)
    requires size > 0
    ensures text == "" ==> ChunkText(text, size) == []
    ensures text != "" ==>
      ChunkText(text, size) == [text[..Min(size, |text|)]] + ChunkText(text[Min(size, |text|)..], size)
  {
    if text == "" {
      ChunkCount(text, size);
    } else {
      var rest := text[Min(size, |text|)..];
      var chunks := ChunkText(text, size);
      var tail := ChunkText(rest, size);
      ChunkCountOfRest(text, size);
      ChunkAt(text, size, 0);
      forall j | 0 <= j < |tail|
        ensures chunks[j + 1] == tail[j]
      {
        ChunkShift(text, size, j);
      }
      assert chunks == [chunks[0]] + tail;
    }
  }

  /** Concatenating the chunks gives back the text exactly. */
  lemma {:induction false} ChunksConcat(text: string, size: nat)
    requires size > 0
    ensures Concat(ChunkText(text, size)) == text
    decreases |text|
  {
    ChunkTextUnfold(text, size);
    if text != "" {
      var cut := Min(size, |text|);
      ChunksConcat(text[cut..], size);
      assert text[..cut] + text[cut..] == text;
    }
  }

  /** A 1200-character document cut at the default size gives three chunks
      of 500, 500 and 200 characters. */
  lemma {:induction false} TwelveHundredCharacters(text: string)
    requires |text| == 1200
    ensures |ChunkText(text, DefaultChunkSize)| == 3
    ensures |ChunkText(text, DefaultChunkSize)[0]| == 500
    ensures |ChunkText(text, DefaultChunkSize)[1]| == 500
    ensures |ChunkText(text, DefaultChunkSize)[2]| == 200
  {
    ChunkCount(text, DefaultChunkSize);
    ChunkAt(text, DefaultChunkSize, 0);
    ChunkAt(text, DefaultChunkSize, 1);
    ChunkAt(text, DefaultChunkSize, 2);
  }
}
