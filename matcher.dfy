/**
 * Matching sorted tabs against the tab groups that already exist in the
 * workspace (ai-tabs.uc.js:471-520).
 *
 * A tab without an embedding is passed on as ungrouped. Otherwise an
 * embedding pass scores every group that has a centroid and keeps the first
 * strictly best boosted score above 0.65; only when it finds nothing, a fuzzy
 * pass compares the tab's title with every member title of every group and
 * keeps the last group whose best title similarity is above 0.7.
 */
module GroupMatcher {
  import opened Common
  import opened JsText
  import opened Tabs
  import opened EditDistance
  import opened Embeddings

  /** `CONFIG.EXISTING_GROUP_BOOST` (ai-tabs.uc.js:93). */
  const ExistingGroupBoost: real := 0.1

  /** `CONFIG.GROUP_SIMILARITY_THRESHOLD` (ai-tabs.uc.js:85). */
  const GroupSimilarityThreshold: real := 0.65

  /** `cosineSimilarity`, left abstract. */
  type Cosine = (Vec, Vec) -> real

  /**
   * One entry of `existingWorkspaceGroups`: its label (`name`), the titles of its tabs,
   * and the averaged embedding of those tabs when any of them had one.
   */
  datatype ExistingGroup = ExistingGroup(name: String, titles: seq<String>, centroid: Option<Vec>)

  function Labels(gs: seq<ExistingGroup>): (r: seq<String>)
    ensures |r| == |gs|
  {
    seq(|gs|, k requires 0 <= k < |gs| => gs[k].name)
  }

  // ------------------------------------------------------- embedding pass

  /** The boosted similarity of a tab to a group with a centroid. */
  function Score(e: Vec, g: ExistingGroup, cos: Cosine): real
    requires g.centroid.Some?
  {
    cos(e, g.centroid.value) + ExistingGroupBoost
  }

  /** A group the embedding pass may accept. */
  predicate Candidate(e: Vec, g: ExistingGroup, cos: Cosine) {
    g.centroid.Some? && Score(e, g, cos) > GroupSimilarityThreshold
  }

  /** `bestSimilarity` for a given `bestMatch`: 0 while nothing is matched. */
  function BestScore(e: Vec, gs: seq<ExistingGroup>, best: Option<nat>, cos: Cosine): real
    requires best.Some? ==> best.value < |gs| && gs[best.value].centroid.Some?
  {
    if best.None? then 0.0 else Score(e, gs[best.value], cos)
  }

  /** The group `bestMatch` names after the embedding pass over gs. */
  function EmbeddingBest(e: Vec, gs: seq<ExistingGroup>, cos: Cosine): (r: Option<nat>)
    ensures r.Some? ==> r.value < |gs| && Candidate(e, gs[r.value], cos)
  {
    if gs == [] then None
    else
      var prefix, g := gs[..|gs| - 1], gs[|gs| - 1];
      var prev := EmbeddingBest(e, prefix, cos);
      if Candidate(e, g, cos) && Score(e, g, cos) > BestScore(e, prefix, prev, cos) then Some(|gs| - 1) else prev
  }

  /**
   * The embedding pass matches exactly when some group is a candidate, and it
   * picks the first of the groups with the highest score.
   */
  lemma {:induction false} EmbeddingBestSpec(e: Vec, gs: seq<ExistingGroup>, cos: Cosine)
    ensures var r := EmbeddingBest(e, gs, cos);
      && (r.None? <==> forall k :: 0 <= k < |gs| ==> !Candidate(e, gs[k], cos))
      && (r.Some? ==> forall k :: 0 <= k < |gs| && gs[k].centroid.Some? ==> Score(e, gs[k], cos) <= Score(e, gs[r.value], cos))
      && (r.Some? ==> forall k :: 0 <= k < r.value && gs[k].centroid.Some? ==> Score(e, gs[k], cos) < Score(e, gs[r.value], cos))
  {
    if gs != [] {
      var prefix := gs[..|gs| - 1];
      EmbeddingBestSpec(e, prefix, cos);
      assert forall k :: 0 <= k < |prefix| ==> prefix[k] == gs[k];
    }
  }

  /** The first loop over `existingWorkspaceGroups` (ai-tabs.uc.js:484-499). */
  method EmbeddingPass(e: Vec, gs: seq<ExistingGroup>, cos: Cosine) returns (bestMatch: Option<nat>)
    ensures bestMatch == EmbeddingBest(e, gs, cos)
  {
    bestMatch := None;
    var bestSimilarity: real := 0.0;
    for i := 0 to |gs|
      invariant bestMatch == EmbeddingBest(e, gs[..i], cos)
      invariant bestSimilarity == BestScore(e, gs[..i], bestMatch, cos)
    {
      assert gs[..i + 1][..i] == gs[..i];
      var g := gs[i];
      if g.centroid.None? {
        continue;
      }
      var similarity := cos(e, g.centroid.value) + ExistingGroupBoost;
      if similarity > GroupSimilarityThreshold && similarity > bestSimilarity {
        bestMatch := Some(i);
        bestSimilarity := similarity;
      }
    }
    assert gs[..|gs|] == gs;
  }

  // ----------------------------------------------------------- fuzzy pass

  /** `1 - dist / Math.max(tabTitle.length, t.length)` for titles not both empty. */
  function TitleSimilarity(x: String, t: String): real
    requires |x| > 0 || |t| > 0
  {
    1.0 - (Distance(x, t) as real) / (Max(|x|, |t|) as real)
  }

  /** The 0.7 test on one title, in integers; two empty titles give NaN, which fails it. */
  predicate TitleHit(x: String, t: String) {
    var m := Max(|x|, |t|);
    m > 0 && 10 * (m - Distance(x, t)) > 7 * m
  }

  /** The title similarity lies in [0, 1] and is above 0.7 exactly when TitleHit holds. */
  lemma TitleSimilarityFacts(x: String, t: String)
    requires |x| > 0 || |t| > 0
    ensures 0.0 <= TitleSimilarity(x, t) <= 1.0
    ensures TitleSimilarity(x, t) > 0.7 <==> TitleHit(x, t)
  {
    DistanceBounds(x, t);
    RatioFacts(Distance(x, t) as real, Max(|x|, |t|) as real);
  }

  /** `1 - d / m` for 0 <= d <= m lies in [0, 1] and exceeds 0.7 exactly when 10d < 3m. */
  lemma RatioFacts(d: real, m: real)
    requires 0.0 <= d <= m && m > 0.0
    ensures 0.0 <= 1.0 - d / m <= 1.0
    ensures 1.0 - d / m > 0.7 <==> 10.0 * d < 3.0 * m
  {
    var q := d / m;
    assert q * m == d;
    assert q < 0.3 <==> d < 0.3 * m;
  }

  /** `Math.max(...)` of the title similarities of a non-empty title against ts. */
  function MaxSimilarity(x: String, ts: seq<String>): real
    requires |x| > 0 && |ts| > 0
  {
    if |ts| == 1 then TitleSimilarity(x, ts[0])
    else
      var prev, s := MaxSimilarity(x, ts[..|ts| - 1]), TitleSimilarity(x, ts[|ts| - 1]);
      if s > prev then s else prev
  }

  /** Some member title is close enough. */
  predicate GroupHit(x: String, titles: seq<String>) {
    exists k :: 0 <= k < |titles| && TitleHit(x, titles[k])
  }

  /** The maximum is above 0.7 exactly when one of the titles is. */
  lemma {:induction false} MaxSimilarityHit(x: String, ts: seq<String>)
    requires |x| > 0 && |ts| > 0
    ensures MaxSimilarity(x, ts) > 0.7 <==> GroupHit(x, ts)
  {
    var last := ts[|ts| - 1];
    TitleSimilarityFacts(x, last);
    if |ts| > 1 {
      var prefix := ts[..|ts| - 1];
      MaxSimilarityHit(x, prefix);
      assert forall k :: 0 <= k < |prefix| ==> prefix[k] == ts[k];
      if GroupHit(x, ts) && !TitleHit(x, last) {
        var k :| 0 <= k < |ts| && TitleHit(x, ts[k]);
        assert k < |prefix|;
      }
    }
  }

  /** An empty tab title never matches by name: every term is 0 or NaN. */
  lemma EmptyTitleNeverHits(titles: seq<String>)
    ensures !GroupHit([], titles)
  {
    forall k | 0 <= k < |titles| ensures !TitleHit([], titles[k]) {
      DistanceFromEmpty(titles[k]);
    }
  }

  /**
   * `Math.max(...).map(...)) > 0.7` for one group (ai-tabs.uc.js:503-510). An
   * empty tab title makes every term 0 or NaN, and `Math.max()` of no titles is
   * -Infinity; neither is above 0.7.
   */
  method FuzzyGroupHit(x: String, titles: seq<String>) returns (hit: bool)
    ensures hit <==> GroupHit(x, titles)
  {
    if x == [] {
      EmptyTitleNeverHits(titles);
      return false;
    }
    if titles == [] {
      return false;
    }
    var d := LevenshteinDistance(x, titles[0]);
    var maxSim: real := 1.0 - (d as real) / (Max(|x|, |titles[0]|) as real);
    for k := 1 to |titles|
      invariant maxSim == MaxSimilarity(x, titles[..k])
    {
      assert titles[..k + 1][..k] == titles[..k];
      d := LevenshteinDistance(x, titles[k]);
      var s := 1.0 - (d as real) / (Max(|x|, |titles[k]|) as real);
      maxSim := if s > maxSim then s else maxSim;
    }
    assert titles[..|titles|] == titles;
    MaxSimilarityHit(x, titles);
    hit := maxSim > 0.7;
  }

  /** The group the fuzzy pass over gs leaves in `bestMatch`: the last one that hits. */
  function FuzzyChoice(x: String, gs: seq<ExistingGroup>): (r: Option<nat>)
    ensures r.Some? ==> r.value < |gs|
  {
    if gs == [] then None
    else if GroupHit(x, gs[|gs| - 1].titles) then Some(|gs| - 1)
    else FuzzyChoice(x, gs[..|gs| - 1])
  }

  /** The fuzzy pass matches exactly when some group hits, and then picks the last such group. */
  lemma {:induction false} FuzzyChoiceSpec(x: String, gs: seq<ExistingGroup>)
    ensures FuzzyChoice(x, gs).None? <==> forall k :: 0 <= k < |gs| ==> !GroupHit(x, gs[k].titles)
    ensures FuzzyChoice(x, gs).Some? ==>
      && GroupHit(x, gs[FuzzyChoice(x, gs).value].titles)
      && forall k :: FuzzyChoice(x, gs).value < k < |gs| ==> !GroupHit(x, gs[k].titles)
  {
    if gs != [] && !GroupHit(x, gs[|gs| - 1].titles) {
      var prefix := gs[..|gs| - 1];
      FuzzyChoiceSpec(x, prefix);
      assert forall k :: 0 <= k < |prefix| ==> prefix[k] == gs[k];
    }
  }

  /** The second loop over `existingWorkspaceGroups` (ai-tabs.uc.js:501-513). */
  method FuzzyPass(x: String, gs: seq<ExistingGroup>) returns (bestMatch: Option<nat>)
    ensures bestMatch == FuzzyChoice(x, gs)
  {
    bestMatch := None;
    for i := 0 to |gs|
      invariant bestMatch == FuzzyChoice(x, gs[..i])
    {
      assert gs[..i + 1][..i] == gs[..i];
      var hit := FuzzyGroupHit(x, gs[i].titles);
      if hit {
        bestMatch := Some(i);
      }
    }
    assert gs[..|gs|] == gs;
  }

  // ------------------------------------------------------------- one tab

  /** The group a tab joins: none without an embedding, else the embedding pass, else the fuzzy pass. */
  function Decide(title: String, e: Option<Vec>, gs: seq<ExistingGroup>, cos: Cosine): (r: Option<nat>)
    ensures r.Some? ==> r.value < |gs|
  {
    if e.None? then None
    else
      var best := EmbeddingBest(e.value, gs, cos);
      if best.Some? then best else FuzzyChoice(title, gs)
  }

  /** The fuzzy pass decides only when no group is an embedding candidate. */
  lemma DecideSpec(title: String, e: Vec, gs: seq<ExistingGroup>, cos: Cosine)
    ensures (exists k :: 0 <= k < |gs| && Candidate(e, gs[k], cos)) ==>
      Decide(title, Some(e), gs, cos) == EmbeddingBest(e, gs, cos) != None
    ensures (forall k :: 0 <= k < |gs| ==> !Candidate(e, gs[k], cos)) ==>
      Decide(title, Some(e), gs, cos) == FuzzyChoice(title, gs)
  {
    EmbeddingBestSpec(e, gs, cos);
  }

  // ------------------------------------------------------------ all tabs

  /** The assignments the matcher pushes to `result`, in tab order. */
  function Matched(tabs: seq<Tab>, embs: seq<Option<Vec>>, gs: seq<ExistingGroup>, cos: Cosine): (r: seq<Assignment>)
    requires |embs| == |tabs|
    ensures |r| <= |tabs|
    ensures forall p :: 0 <= p < |r| ==> r[p].topic in Labels(gs)
  {
    if tabs == [] then []
    else
      var n := |tabs| - 1;
      var prev := Matched(tabs[..n], embs[..n], gs, cos);
      match Decide(tabs[n].title, embs[n], gs, cos)
      case Some(k) =>
        assert Labels(gs)[k] == gs[k].name;
        prev + [Assignment(tabs[n], gs[k].name)]
      case None => prev
  }

  /** The tabs the matcher pushes to `ungroupedTabs`, in tab order. */
  function Unmatched(tabs: seq<Tab>, embs: seq<Option<Vec>>, gs: seq<ExistingGroup>, cos: Cosine): (r: seq<Tab>)
    requires |embs| == |tabs|
    ensures |r| <= |tabs|
  {
    if tabs == [] then []
    else
      var n := |tabs| - 1;
      var prev := Unmatched(tabs[..n], embs[..n], gs, cos);
      if Decide(tabs[n].title, embs[n], gs, cos).None? then prev + [tabs[n]] else prev
  }

  /** Every tab ends up exactly once, either matched to a group or ungrouped. */
  lemma {:induction false} MatchConserves(tabs: seq<Tab>, embs: seq<Option<Vec>>, gs: seq<ExistingGroup>, cos: Cosine)
    requires |embs| == |tabs|
    ensures multiset(TabsOf(Matched(tabs, embs, gs, cos))) + multiset(Unmatched(tabs, embs, gs, cos)) == multiset(tabs)
  {
    if tabs != [] {
      var n := |tabs| - 1;
      MatchConserves(tabs[..n], embs[..n], gs, cos);
      assert tabs == tabs[..n] + [tabs[n]];
      var prev := Matched(tabs[..n], embs[..n], gs, cos);
      if Decide(tabs[n].title, embs[n], gs, cos).Some? {
        var k := Decide(tabs[n].title, embs[n], gs, cos).value;
        assert TabsOf(prev + [Assignment(tabs[n], gs[k].name)]) == TabsOf(prev) + [tabs[n]];
      }
    }
  }

  /** A tab without an embedding is always passed on as ungrouped. */
  lemma {:induction false} NoEmbeddingIsUngrouped(tabs: seq<Tab>, embs: seq<Option<Vec>>, gs: seq<ExistingGroup>, cos: Cosine, i: nat)
    requires |embs| == |tabs| && i < |tabs| && embs[i].None?
    ensures tabs[i] in Unmatched(tabs, embs, gs, cos)
  {
    var n := |tabs| - 1;
    if i < n {
      NoEmbeddingIsUngrouped(tabs[..n], embs[..n], gs, cos, i);
    }
  }

  /** The loop over `validTabs` (ai-tabs.uc.js:471-520). */
  method MatchTabs(tabs: seq<Tab>, embs: seq<Option<Vec>>, gs: seq<ExistingGroup>, cos: Cosine)
    returns (result: seq<Assignment>, ungrouped: seq<Tab>)
    requires |embs| == |tabs|
    ensures result == Matched(tabs, embs, gs, cos)
    ensures ungrouped == Unmatched(tabs, embs, gs, cos)
  {
    result, ungrouped := [], [];
    for i := 0 to |tabs|
      invariant result == Matched(tabs[..i], embs[..i], gs, cos)
      invariant ungrouped == Unmatched(tabs[..i], embs[..i], gs, cos)
    {
      assert tabs[..i + 1][..i] == tabs[..i] && embs[..i + 1][..i] == embs[..i];
      var tab, tabEmbedding, tabTitle := tabs[i], embs[i], tabs[i].title;
      if tabEmbedding.None? {
        ungrouped := ungrouped + [tab];
        continue;
      }
      var bestMatch := EmbeddingPass(tabEmbedding.value, gs, cos);
      if bestMatch.None? {
        bestMatch := FuzzyPass(tabTitle, gs);
      }
      if bestMatch.Some? {
        result := result + [Assignment(tab, gs[bestMatch.value].name)];
      } else {
        ungrouped := ungrouped + [tab];
      }
    }
    assert tabs[..|tabs|] == tabs && embs[..|embs|] == embs;
  }
}
