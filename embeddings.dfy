/**
 * Embeddings as the sorter obtains them: `processTabsInBatches`
 * (ai-tabs.uc.js:317-327) and the `validIndices` mapping
 * (ai-tabs.uc.js:524-527). The embedding engine itself is a parameter.
 */
module Embeddings {
  import opened Common
  import opened JsText
  import opened Tabs

  /** An embedding vector. Its entries never enter the model's arithmetic. */
  type Vec = seq<real>

  /**
   * `generateEmbedding(title)`: a vector, or `null` when the engine fails or
   * does not return an array.
   */
  type Embedder = String -> Option<Vec>

  /** The batch size `processTabsInBatches` is called with everywhere. */
  const BatchSize: nat := 5

  /** The embedding of every tab's title, in tab order. */
  function EmbedAll(tabs: seq<Tab>, embed: Embedder): (r: seq<Option<Vec>>)
    ensures |r| == |tabs|
  {
    seq(|tabs|, k requires 0 <= k < |tabs| => embed(tabs[k].title))
  }

  /**
   * `processTabsInBatches(tabs, batchSize)`: embeds the tabs `batchSize` at a
   * time and appends each batch's results in order.
   */
  method ProcessInBatches(tabs: seq<Tab>, embed: Embedder, batchSize: nat) returns (results: seq<Option<Vec>>)
    requires batchSize > 0
    ensures results == EmbedAll(tabs, embed)
  {
    results := [];
    var i := 0;
    while i < |tabs|
      invariant |results| == if i <= |tabs| then i else |tabs|
      invariant forall k :: 0 <= k < |results| ==> results[k] == embed(tabs[k].title)
      decreases |tabs| - i
    {
      var end := if i + batchSize <= |tabs| then i + batchSize else |tabs|;
      var batch := tabs[i..end];
      var batchResults := seq(|batch|, k requires 0 <= k < |batch| => embed(batch[k].title));
      results := results + batchResults;
      i := i + batchSize;
    }
  }

  /** `Array.isArray(e) && e.length > 0`. */
  predicate Usable(e: Option<Vec>) {
    e.Some? && |e.value| > 0
  }

  /**
   * `embeddings.map((e, i) => usable ? i : -1).filter((i) => i !== -1)`:
   * the positions of the usable embeddings, in order.
   */
  function ValidIndices(embs: seq<Option<Vec>>): (r: seq<nat>)
    ensures Increasing(r)
    ensures forall k :: 0 <= k < |r| ==> r[k] < |embs| && Usable(embs[r[k]])
  {
    if embs == [] then []
    else
      var prev := ValidIndices(embs[..|embs| - 1]);
      if Usable(embs[|embs| - 1]) then prev + [|embs| - 1] else prev
  }

  /** No usable embedding is left out. */
  lemma {:induction false} ValidIndicesComplete(embs: seq<Option<Vec>>, i: nat)
    requires i < |embs| && Usable(embs[i])
    ensures i in ValidIndices(embs)
  {
    var prefix := embs[..|embs| - 1];
    if i < |embs| - 1 {
      assert prefix[i] == embs[i];
      ValidIndicesComplete(prefix, i);
    }
  }

  /** `validIndices.map((i) => embeddings[i])`: the usable vectors, in order. */
  function ValidEmbeddings(embs: seq<Option<Vec>>): (r: seq<Vec>)
    ensures |r| == |ValidIndices(embs)|
  {
    var idx := ValidIndices(embs);
    seq(|idx|, k requires 0 <= k < |idx| => embs[idx[k]].value)
  }
}
