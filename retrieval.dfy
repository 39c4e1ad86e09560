/** The part of `search_faiss` that is not a foreign call: the indices the
    vector index returns are mapped to their chunks, in the order returned,
    and the chunks are joined with newlines into the prompt's context. */
module Retrieval {
  import opened Results
  import opened Text

  /** The number of neighbours the pipeline asks for (`top_k`). */
  const TopK: nat := 3

  /** The message of the `IndexError` raised by an out-of-range list index. */
  const IndexOutOfRange := "list index out of range"

  /** Python's `chunks[i]`: a negative index counts from the end. */
  function Lookup(chunks: seq<string>, i: int): (r: Result<string>)
    ensures r.Ok? <==> -|chunks| <= i < |chunks|
    ensures r.Err? ==> r.error == IndexOutOfRange
    ensures 0 <= i < |chunks| ==> r == Ok(chunks[i])
    ensures -|chunks| <= i < 0 ==> r == Ok(chunks[|chunks| + i])
    ensures -|chunks| <= i < |chunks| ==> r == Ok(chunks[i % |chunks|])
  {
    if 0 <= i < |chunks| then Ok(chunks[i])
    else if -|chunks| <= i < 0 then Ok(chunks[|chunks| + i])
    else Err(IndexOutOfRange)
  }

  /** `[chunks[i] for i in indices]`: the first index out of range raises. */
  function SelectChunks(chunks: seq<string>, indices: seq<int>): (r: Result<seq<string>>)
    ensures r.Ok? <==> forall k :: 0 <= k < |indices| ==> -|chunks| <= indices[k] < |chunks|
    ensures r.Err? ==> r.error == IndexOutOfRange
    ensures r.Ok? ==> |r.value| == |indices|
    ensures r.Ok? ==> forall k :: 0 <= k < |indices| ==> Lookup(chunks, indices[k]) == Ok(r.value[k])
  {
    if |indices| == 0 then Ok([])
    else
      var first :- Lookup(chunks, indices[0]);
      var rest :- SelectChunks(chunks, indices[1..]);
      Ok([first] + rest)
  }

  /** `"\n".join(relevant)`. */
  function Context(relevant: seq<string>): string
  {
    Join("\n", relevant)
  }

  /** With every index in range, the retrieved chunks are exactly
      `chunks[i]` for the returned indices, one per index in the order
      returned, repetitions kept. */
  lemma {:induction false} SelectInRange(chunks: seq<string>, indices: seq<int>)
    requires forall k :: 0 <= k < |indices| ==> 0 <= indices[k] < |chunks|
    ensures SelectChunks(chunks, indices) == Ok(seq(|indices|, k requires 0 <= k < |indices| => chunks[indices[k]]))
  {
    var r := SelectChunks(chunks, indices);
    var expected := seq(|indices|, k requires 0 <= k < |indices| => chunks[indices[k]]);
    assert r.Ok? && |r.value| == |expected|;
    forall k | 0 <= k < |indices| ensures r.value[k] == expected[k] {
      assert Lookup(chunks, indices[k]) == Ok(r.value[k]);
    }
    assert r.value == expected;
  }

  /** The context holds the retrieved chunks in retrieval order: when no
      retrieved chunk contains a newline, splitting the context gives them back. */
  lemma {:induction false} ContextKeepsOrder(chunks: seq<string>, indices: seq<int>)
    requires |indices| > 0
    requires forall k :: 0 <= k < |indices| ==> 0 <= indices[k] < |chunks|
    requires forall k :: 0 <= k < |indices| ==> '\n' !in chunks[indices[k]]
    ensures SelectChunks(chunks, indices).Ok?
    ensures var relevant := SelectChunks(chunks, indices).value;
      Split(Context(relevant), '\n') == relevant &&
      forall k :: 0 <= k < |indices| ==> relevant[k] == chunks[indices[k]]
  {
    SelectInRange(chunks, indices);
    var relevant := SelectChunks(chunks, indices).value;
    SplitJoin(relevant, '\n');
  }
}
