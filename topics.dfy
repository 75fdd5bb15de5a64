/**
 * `askAIForMultipleTopics` (ai-tabs.uc.js:330-585) put together from its
 * parts, and what `sortTabsByTopic` (ai-tabs.uc.js:657-705) decides from its
 * answer.
 *
 * The local path matches the connected tabs against the existing groups,
 * clusters the tabs left over by their embeddings and names every cluster of
 * two tabs or more. The engines are parameters: `embed` stands for the
 * feature-extraction engine, `cos` for `cosineSimilarity`, and `namer` for
 * the outcome of running the text-generation engine on a cluster's titles.
 * The existing groups come in already collected, with their centroids.
 */
module TopicAssigner {
  import opened Common
  import opened JsText
  import opened Tabs
  import opened Embeddings
  import opened Clustering
  import opened GroupMatcher
  import opened ClusterNamer
  import opened RemoteClassifier
  import opened Consolidation

  /** `CONFIG.SIMILARITY_THRESHOLD` (ai-tabs.uc.js:84). */
  const SimilarityThreshold: real := 0.45

  /** The value of the provider preference that selects Gemini; any other value selects the local model. */
  const GeminiProvider: int := 1

  /** The text-generation engine's run on a list of titles. */
  type Namer = seq<String> -> Generation

  /** `cosineSimilarity(vectors[i], vectors[j])` over the usable embeddings. */
  function VectorSimilarity(vs: seq<Vec>, cos: Cosine): Similarity {
    (i: nat, j: nat) => if i < |vs| && j < |vs| then cos(vs[i], vs[j]) else 0.0
  }

  // ------------------------------------------------------------ picking tabs by position

  /** The elements of s at the positions ps, in the order of ps. */
  function Pick<T>(s: seq<T>, ps: seq<nat>): (r: seq<T>)
    requires forall k :: 0 <= k < |ps| ==> ps[k] < |s|
    ensures |r| == |ps|
  {
    seq(|ps|, k requires 0 <= k < |ps| => s[ps[k]])
  }

  /** Picking at distinct positions takes no element more often than it occurs. */
  lemma {:induction false} PickWithin<T>(s: seq<T>, ps: seq<nat>)
    requires forall k :: 0 <= k < |ps| ==> ps[k] < |s|
    requires NoDup(ps)
    ensures multiset(Pick(s, ps)) <= multiset(s)
    decreases |s|
  {
    if ps != [] {
      assert ps[0] < |s|;
      var n := |s| - 1;
      var init := s[..n];
      assert s == init + [s[n]];
      if n in ps {
        var k :| 0 <= k < |ps| && ps[k] == n;
        var rest := PickSplit(s, ps, k);
        forall j | 0 <= j < |rest| ensures rest[j] < n {
          var j' := if j < k then j else j + 1;
          assert rest[j] == ps[j'] && j' != k;
        }
        assert Pick(s, rest) == Pick(init, rest);
        PickWithin(init, rest);
      } else {
        forall j | 0 <= j < |ps| ensures ps[j] < n {
          assert ps[j] in ps;
        }
        assert Pick(s, ps) == Pick(init, ps);
        PickWithin(init, ps);
      }
    }
  }

  /** Taking out the position at index k leaves distinct positions and one element fewer. */
  lemma PickSplit<T>(s: seq<T>, ps: seq<nat>, k: nat) returns (rest: seq<nat>)
    requires forall j :: 0 <= j < |ps| ==> ps[j] < |s|
    requires NoDup(ps) && k < |ps|
    ensures rest == ps[..k] + ps[k + 1..]
    ensures NoDup(rest) && forall j :: 0 <= j < |rest| ==> rest[j] < |s| && rest[j] != ps[k]
    ensures multiset(Pick(s, ps)) == multiset(Pick(s, rest)) + multiset{s[ps[k]]}
  {
    rest := ps[..k] + ps[k + 1..];
    forall j | 0 <= j < |rest| ensures rest[j] == ps[if j < k then j else j + 1] {
    }
    forall p, q | 0 <= p < q < |rest| ensures rest[p] != rest[q] {
      assert rest[p] == ps[if p < k then p else p + 1];
      assert rest[q] == ps[if q < k then q else q + 1];
    }
    forall j | 0 <= j < |rest| ensures rest[j] != ps[k] {
      var j' := if j < k then j else j + 1;
      if j' < k { assert ps[j'] != ps[k]; } else { assert ps[k] != ps[j']; }
    }
    assert Pick(s, ps) == Pick(s, ps[..k]) + [s[ps[k]]] + Pick(s, ps[k + 1..]);
    assert Pick(s, rest) == Pick(s, ps[..k]) + Pick(s, ps[k + 1..]);
  }

  lemma PickAppend<T>(s: seq<T>, a: seq<nat>, b: seq<nat>)
    requires forall k :: 0 <= k < |a| ==> a[k] < |s|
    requires forall k :: 0 <= k < |b| ==> b[k] < |s|
    ensures Pick(s, a + b) == Pick(s, a) + Pick(s, b)
  {
  }

  lemma TabsOfAppend(a: seq<Assignment>, b: seq<Assignment>)
    ensures TabsOf(a + b) == TabsOf(a) + TabsOf(b)
  {
  }

  // ------------------------------------------------------------ naming the clusters

  /** Every cluster member numbers a usable embedding. */
  predicate InRange(clusters: seq<seq<nat>>, m: nat) {
    forall k, p :: 0 <= k < |clusters| && 0 <= p < |clusters[k]| ==> clusters[k][p] < m
  }

  /** Every usable embedding's index is the position of an ungrouped tab. */
  predicate Positions(vi: seq<nat>, m: nat) {
    forall k :: 0 <= k < |vi| ==> vi[k] < m
  }

  /** `cluster.map((idx) => ungroupedTabs[validIndices[idx]])`. */
  function ClusterTabs(cluster: seq<nat>, vi: seq<nat>, ungrouped: seq<Tab>): (r: seq<Tab>)
    requires forall p :: 0 <= p < |cluster| ==> cluster[p] < |vi|
    requires Positions(vi, |ungrouped|)
    ensures |r| == |cluster|
  {
    var ps := ClusterPositions(cluster, vi);
    assert forall p :: 0 <= p < |ps| ==> ps[p] == vi[cluster[p]];
    Pick(ungrouped, ps)
  }

  /** The titles of a list of tabs, in order. */
  function Titles(ts: seq<Tab>): (r: seq<String>)
    ensures |r| == |ts|
  {
    seq(|ts|, k requires 0 <= k < |ts| => ts[k].title)
  }

  /** `nameGroup(groupTitles)`, with the engine's run on those titles. */
  function ClusterName(ts: seq<Tab>, namer: Namer): String
    requires |ts| > 0
  {
    NameGroup(Titles(ts), namer(Titles(ts)))
  }

  /** `groupTabs.forEach((tab) => result.push({ tab, topic: groupName }))`. */
  function Labelled(ts: seq<Tab>, name: String): (r: seq<Assignment>)
    ensures TabsOf(r) == ts
    ensures forall p :: 0 <= p < |r| ==> r[p].topic == name
  {
    seq(|ts|, k requires 0 <= k < |ts| => Assignment(ts[k], name))
  }

  /** What the loop over the clusters pushes: every cluster of two tabs or more, its tabs under its name. */
  function ClusterAssignments(clusters: seq<seq<nat>>, vi: seq<nat>, ungrouped: seq<Tab>, namer: Namer): seq<Assignment>
    requires InRange(clusters, |vi|) && Positions(vi, |ungrouped|)
  {
    if clusters == [] then []
    else
      var n := |clusters| - 1;
      var c := clusters[n];
      ClusterAssignments(clusters[..n], vi, ungrouped, namer)
        + if |c| < 2 then [] else var ts := ClusterTabs(c, vi, ungrouped); Labelled(ts, ClusterName(ts, namer))
  }

  /** The positions of the tabs of the clusters of two tabs or more, cluster by cluster. */
  function LargePositions(clusters: seq<seq<nat>>, vi: seq<nat>): (r: seq<nat>)
    requires InRange(clusters, |vi|)
    ensures forall k :: 0 <= k < |r| ==> r[k] in vi
  {
    if clusters == [] then []
    else
      var n := |clusters| - 1;
      var c := clusters[n];
      LargePositions(clusters[..n], vi) + if |c| < 2 then [] else ClusterPositions(c, vi)
  }

  /**
   * The loop at ai-tabs.uc.js:573-581: clusters of fewer than two members
   * are skipped, every other cluster's tabs are pushed under its name.
   */
  method AssignClusters(clusters: seq<seq<nat>>, vi: seq<nat>, ungrouped: seq<Tab>, namer: Namer, start: seq<Assignment>)
    returns (result: seq<Assignment>)
    requires InRange(clusters, |vi|) && Positions(vi, |ungrouped|)
    ensures result == start + ClusterAssignments(clusters, vi, ungrouped, namer)
  {
    result := start;
    for c := 0 to |clusters|
      invariant result == start + ClusterAssignments(clusters[..c], vi, ungrouped, namer)
    {
      assert clusters[..c + 1][..c] == clusters[..c];
      var cluster := clusters[c];
      if |cluster| < 2 {
        continue;
      }
      var groupTabs := ClusterTabs(cluster, vi, ungrouped);
      var groupName := ClusterName(groupTabs, namer);
      ghost var before := result;
      for p := 0 to |groupTabs|
        invariant result == before + Labelled(groupTabs[..p], groupName)
      {
        result := result + [Assignment(groupTabs[p], groupName)];
      }
      assert groupTabs[..|groupTabs|] == groupTabs;
    }
    assert clusters[..|clusters|] == clusters;
  }

  /** The clusters' assignments cover exactly the tabs at the clusters' positions. */
  lemma {:induction false} ClusterAssignmentsTabs(clusters: seq<seq<nat>>, vi: seq<nat>, ungrouped: seq<Tab>, namer: Namer)
    requires InRange(clusters, |vi|) && Positions(vi, |ungrouped|)
    ensures forall k :: 0 <= k < |LargePositions(clusters, vi)| ==> LargePositions(clusters, vi)[k] < |ungrouped|
    ensures TabsOf(ClusterAssignments(clusters, vi, ungrouped, namer)) == Pick(ungrouped, LargePositions(clusters, vi))
  {
    var ps := LargePositions(clusters, vi);
    forall k | 0 <= k < |ps| ensures ps[k] < |ungrouped| {
      var j :| 0 <= j < |vi| && vi[j] == ps[k];
    }
    if clusters != [] {
      var n := |clusters| - 1;
      var c := clusters[n];
      ClusterAssignmentsTabs(clusters[..n], vi, ungrouped, namer);
      var prev := ClusterAssignments(clusters[..n], vi, ungrouped, namer);
      var tail := if |c| < 2 then [] else ClusterPositions(c, vi);
      forall k | 0 <= k < |tail| ensures tail[k] < |ungrouped| {
        assert tail[k] == vi[c[k]];
      }
      PickAppend(ungrouped, LargePositions(clusters[..n], vi), tail);
      if |c| >= 2 {
        var ts := ClusterTabs(c, vi, ungrouped);
        TabsOfAppend(prev, Labelled(ts, ClusterName(ts, namer)));
      } else {
        assert ClusterAssignments(clusters, vi, ungrouped, namer) == prev;
      }
    }
  }

  /** Every position comes from a member of some cluster. */
  lemma {:induction false} LargePositionsFrom(clusters: seq<seq<nat>>, vi: seq<nat>, x: nat)
    requires InRange(clusters, |vi|) && x in LargePositions(clusters, vi)
    ensures exists k, p :: 0 <= k < |clusters| && 0 <= p < |clusters[k]| && x == vi[clusters[k][p]]
  {
    var n := |clusters| - 1;
    var init, c := clusters[..n], clusters[n];
    if x in LargePositions(init, vi) {
      LargePositionsFrom(init, vi, x);
      var k, p :| 0 <= k < |init| && 0 <= p < |init[k]| && x == vi[init[k][p]];
      assert clusters[k] == init[k];
    } else {
      var q :| 0 <= q < |c| && ClusterPositions(c, vi)[q] == x;
      assert x == vi[clusters[n][q]];
    }
  }

  /**
   * Over disjoint ascending clusters and a strictly increasing index map,
   * no tab position is taken twice.
   */
  lemma {:induction false} LargePositionsDistinct(clusters: seq<seq<nat>>, vi: seq<nat>)
    requires Increasing(vi) && InRange(clusters, |vi|)
    requires forall k :: 0 <= k < |clusters| ==> Increasing(clusters[k])
    requires forall k1, k2, x :: 0 <= k1 < k2 < |clusters| && x in clusters[k1] ==> x !in clusters[k2]
    ensures NoDup(LargePositions(clusters, vi))
  {
    if clusters != [] {
      var n := |clusters| - 1;
      var init, c := clusters[..n], clusters[n];
      forall k | 0 <= k < |init| ensures Increasing(init[k]) {
        assert init[k] == clusters[k];
      }
      forall k1, k2, x | 0 <= k1 < k2 < |init| && x in init[k1] ensures x !in init[k2] {
        assert init[k1] == clusters[k1] && init[k2] == clusters[k2];
      }
      LargePositionsDistinct(init, vi);
      if |c| >= 2 {
        var a, b := LargePositions(init, vi), ClusterPositions(c, vi);
        forall p, q | 0 <= p < q < |b| ensures b[p] != b[q] {
          assert c[p] < c[q];
        }
        forall x | x in a ensures x !in b {
          LargePositionsFrom(init, vi, x);
          var k, p :| 0 <= k < |init| && 0 <= p < |init[k]| && x == vi[init[k][p]];
          var y := init[k][p];
          assert y in clusters[k];
          forall q | 0 <= q < |b| ensures b[q] != x {
            assert c[q] in clusters[n];
            assert c[q] != y;
          }
        }
        NoDupAppend(a, b);
      }
    }
  }

  /** Every name the clusters get is left unchanged by title-casing. */
  lemma {:induction false} ClusterAssignmentsNamed(clusters: seq<seq<nat>>, vi: seq<nat>, ungrouped: seq<Tab>, namer: Namer)
    requires InRange(clusters, |vi|) && Positions(vi, |ungrouped|)
    ensures forall p :: 0 <= p < |ClusterAssignments(clusters, vi, ungrouped, namer)| ==>
      TitleCase(ClusterAssignments(clusters, vi, ungrouped, namer)[p].topic) == ClusterAssignments(clusters, vi, ungrouped, namer)[p].topic
  {
    if clusters != [] {
      var n := |clusters| - 1;
      var c := clusters[n];
      ClusterAssignmentsNamed(clusters[..n], vi, ungrouped, namer);
      var prev := ClusterAssignments(clusters[..n], vi, ungrouped, namer);
      if |c| >= 2 {
        var ts := ClusterTabs(c, vi, ungrouped);
        var tail := Labelled(ts, ClusterName(ts, namer));
        NameGroupTitleCase(Titles(ts), namer(Titles(ts)));
        var r := prev + tail;
        forall p | 0 <= p < |r| ensures TitleCase(r[p].topic) == r[p].topic {
          if p >= |prev| {
            assert r[p] == tail[p - |prev|];
          }
        }
      }
    }
  }

  /**
   * The clusters of a greedy clustering of the usable embeddings name each
   * left-over tab at most as often as it was left over.
   */
  lemma ClusteredWithin(clusters: seq<seq<nat>>, sim: Similarity, vi: seq<nat>, ungrouped: seq<Tab>, namer: Namer)
    requires GreedyClusters(|vi|, sim, SimilarityThreshold, clusters)
    requires Increasing(vi) && Positions(vi, |ungrouped|)
    ensures multiset(TabsOf(ClusterAssignments(clusters, vi, ungrouped, namer))) <= multiset(ungrouped)
  {
    ClusterAssignmentsTabs(clusters, vi, ungrouped, namer);
    LargePositionsDistinct(clusters, vi);
    PickWithin(ungrouped, LargePositions(clusters, vi));
  }

  // ------------------------------------------------------------ the local path

  /**
   * What the local path returns: the matched tabs, then, when more than one
   * tab is left over and more than one of those has a usable embedding, the
   * assignments of some greedy clustering of the usable embeddings.
   */
  ghost predicate LocalOutcome(tabs: seq<Tab>, gs: seq<ExistingGroup>, embed: Embedder, cos: Cosine, namer: Namer,
                               result: seq<Assignment>)
  {
    var valid := Connected(tabs);
    var embs := EmbedAll(valid, embed);
    var matched := Matched(valid, embs, gs, cos);
    var ungrouped := Unmatched(valid, embs, gs, cos);
    var ue := EmbedAll(ungrouped, embed);
    var vi := ValidIndices(ue);
    var ve := ValidEmbeddings(ue);
    if |ungrouped| > 1 && |ve| > 1 then
      exists clusters ::
        && GreedyClusters(|ve|, VectorSimilarity(ve, cos), SimilarityThreshold, clusters)
        && result == matched + ClusterAssignments(clusters, vi, ungrouped, namer)
    else
      result == matched
  }

  /** The local path of `askAIForMultipleTopics` (ai-tabs.uc.js:419-585). */
  method LocalTopics(tabs: seq<Tab>, gs: seq<ExistingGroup>, embed: Embedder, cos: Cosine, namer: Namer)
    returns (result: seq<Assignment>)
    ensures Connected(tabs) == [] ==> result == []
    ensures LocalOutcome(tabs, gs, embed, cos, namer, result)
  {
    var validTabs := Connected(tabs);
    if |validTabs| == 0 {
      return [];
    }
    var embeddings := ProcessInBatches(validTabs, embed, BatchSize);
    var ungroupedTabs;
    result, ungroupedTabs := MatchTabs(validTabs, embeddings, gs, cos);
    if |ungroupedTabs| > 1 {
      var ungroupedEmbeddings := ProcessInBatches(ungroupedTabs, embed, BatchSize);
      var validIndices := ValidIndices(ungroupedEmbeddings);
      var validEmbeddings := ValidEmbeddings(ungroupedEmbeddings);
      if |validEmbeddings| > 1 {
        var sim := VectorSimilarity(validEmbeddings, cos);
        var clusters := ClusterEmbeddings(|validEmbeddings|, sim, SimilarityThreshold);
        ghost var matched := result;
        result := AssignClusters(clusters, validIndices, ungroupedTabs, namer, result);
        assert GreedyClusters(|validEmbeddings|, sim, SimilarityThreshold, clusters)
          && result == matched + ClusterAssignments(clusters, validIndices, ungroupedTabs, namer);
      }
    }
  }

  /**
   * The local path gives a topic only to connected tabs of its input, and to
   * none more often than it occurs there; every topic is an existing group's
   * label or a name in title case.
   */
  lemma LocalOutcomeSound(tabs: seq<Tab>, gs: seq<ExistingGroup>, embed: Embedder, cos: Cosine, namer: Namer,
                          result: seq<Assignment>)
    requires LocalOutcome(tabs, gs, embed, cos, namer, result)
    ensures multiset(TabsOf(result)) <= multiset(Connected(tabs))
    ensures forall p :: 0 <= p < |result| ==> result[p].topic in Labels(gs) || TitleCase(result[p].topic) == result[p].topic
  {
    var valid := Connected(tabs);
    var embs := EmbedAll(valid, embed);
    var matched := Matched(valid, embs, gs, cos);
    var ungrouped := Unmatched(valid, embs, gs, cos);
    var ue := EmbedAll(ungrouped, embed);
    var vi := ValidIndices(ue);
    var ve := ValidEmbeddings(ue);
    MatchConserves(valid, embs, gs, cos);
    if |ungrouped| > 1 && |ve| > 1 {
      var clusters :| GreedyClusters(|ve|, VectorSimilarity(ve, cos), SimilarityThreshold, clusters)
        && result == matched + ClusterAssignments(clusters, vi, ungrouped, namer);
      ClusteredSound(matched, clusters, VectorSimilarity(ve, cos), vi, ungrouped, namer, gs, result);
    }
  }

  lemma ClusteredSound(matched: seq<Assignment>, clusters: seq<seq<nat>>, sim: Similarity, vi: seq<nat>,
                       ungrouped: seq<Tab>, namer: Namer, gs: seq<ExistingGroup>, result: seq<Assignment>)
    requires GreedyClusters(|vi|, sim, SimilarityThreshold, clusters)
    requires Increasing(vi) && Positions(vi, |ungrouped|)
    requires forall p :: 0 <= p < |matched| ==> matched[p].topic in Labels(gs)
    requires result == matched + ClusterAssignments(clusters, vi, ungrouped, namer)
    ensures multiset(TabsOf(result)) <= multiset(TabsOf(matched)) + multiset(ungrouped)
    ensures forall p :: 0 <= p < |result| ==> result[p].topic in Labels(gs) || TitleCase(result[p].topic) == result[p].topic
  {
    var clustered := ClusterAssignments(clusters, vi, ungrouped, namer);
    ClusteredWithin(clusters, sim, vi, ungrouped, namer);
    TabsOfAppend(matched, clustered);
    ClusterAssignmentsNamed(clusters, vi, ungrouped, namer);
    forall p | 0 <= p < |result| ensures result[p].topic in Labels(gs) || TitleCase(result[p].topic) == result[p].topic {
      if p >= |matched| {
        assert result[p] == clustered[p - |matched|];
      }
    }
  }

  // ------------------------------------------------------------ the provider switch

  /**
   * What `askAIForMultipleTopics` returns: Gemini's answer when that provider
   * is selected and answers, the local path's otherwise.
   */
  ghost predicate Answered(tabs: seq<Tab>, provider: int, apiKey: String, reply: Option<String>,
                           gs: seq<ExistingGroup>, embed: Embedder, cos: Cosine, namer: Namer, result: seq<Assignment>)
  {
    var remote := GeminiTopics(tabs, apiKey, reply);
    if provider == GeminiProvider && remote.Some? then result == remote.value
    else LocalOutcome(tabs, gs, embed, cos, namer, result)
  }

  /** `askAIForMultipleTopics(tabs)` (ai-tabs.uc.js:330-585). */
  method AskForTopics(tabs: seq<Tab>, provider: int, apiKey: String, reply: Option<String>,
                      gs: seq<ExistingGroup>, embed: Embedder, cos: Cosine, namer: Namer)
    returns (result: seq<Assignment>)
    ensures Answered(tabs, provider, apiKey, reply, gs, embed, cos, namer, result)
  {
    if provider == GeminiProvider {
      var remote := GeminiTopics(tabs, apiKey, reply);
      if remote.Some? {
        return remote.value;
      }
    }
    result := LocalTopics(tabs, gs, embed, cos, namer);
  }

  /** Whichever provider answers, no tab gets a topic more often than it was passed in. */
  lemma AnsweredWithin(tabs: seq<Tab>, provider: int, apiKey: String, reply: Option<String>,
                       gs: seq<ExistingGroup>, embed: Embedder, cos: Cosine, namer: Namer, result: seq<Assignment>)
    requires Answered(tabs, provider, apiKey, reply, gs, embed, cos, namer, result)
    ensures multiset(TabsOf(result)) <= multiset(tabs)
  {
    var connected := (t: Tab) => t.connected;
    FilterCount(tabs, connected);
    assert multiset(Connected(tabs)) <= multiset(tabs);
    var remote := GeminiTopics(tabs, apiKey, reply);
    if !(provider == GeminiProvider && remote.Some?) {
      LocalOutcomeSound(tabs, gs, embed, cos, namer, result);
    }
  }

  // ------------------------------------------------------------ sortTabsByTopic

  /**
   * How a sort ends: it does not start, it shows the failure animation, it
   * ends in the catch at ai-tabs.uc.js:742-743 with nothing applied, or it
   * applies these groups.
   */
  datatype Outcome = NotStarted | Failure | Aborted | Apply(groups: seq<seq<Tab>>)

  /**
   * What the sort does with the assignments it gets back: it aborts when one
   * of them is filed under an inherited name, fails when no list comes out
   * of more than one tab, and applies the lists otherwise.
   */
  function SortDecision(initial: seq<Tab>, topics: seq<Assignment>): Outcome {
    if !NoneThrows(topics) then Aborted
    else if FinalLists(topics) == [] && |initial| > 1 then Failure
    else Apply(FinalLists(topics))
  }

  /**
   * `sortTabsByTopic` (ai-tabs.uc.js:657-705) up to the point where it
   * touches the tab strip. It does not start without an active workspace or
   * without tabs to sort; otherwise it decides on the answer of
   * `askAIForMultipleTopics`. It fails only with more than one tab, and
   * every group it applies is non-empty and holds connected tabs of the
   * workspace, none more often than it was there.
   */
  method SortTabsByTopic(allTabs: seq<Tab>, workspaceId: String, provider: int, apiKey: String, reply: Option<String>,
                         gs: seq<ExistingGroup>, embed: Embedder, cos: Cosine, namer: Namer)
    returns (o: Outcome)
    ensures o.NotStarted? <==> workspaceId == [] || FilteredTabs(allTabs, workspaceId, DefaultOptions) == []
    ensures !o.NotStarted? ==>
      var initial := FilteredTabs(allTabs, workspaceId, DefaultOptions);
      exists topics :: Answered(initial, provider, apiKey, reply, gs, embed, cos, namer, topics)
        && o == SortDecision(initial, topics)
    ensures o.Failure? ==> |FilteredTabs(allTabs, workspaceId, DefaultOptions)| > 1
    ensures o.Apply? && o.groups == [] ==> |FilteredTabs(allTabs, workspaceId, DefaultOptions)| == 1
    ensures o.Apply? ==> forall p :: 0 <= p < |o.groups| ==> o.groups[p] != []
    ensures o.Apply? ==> multiset(Flatten(o.groups)) <= multiset(FilteredTabs(allTabs, workspaceId, DefaultOptions))
    ensures o.Apply? ==> forall t :: t in Flatten(o.groups) ==> t.connected
  {
    if workspaceId == [] {
      return NotStarted;
    }
    var initialTabsToSort := FilteredTabs(allTabs, workspaceId, DefaultOptions);
    if |initialTabsToSort| == 0 {
      return NotStarted;
    }
    var aiTabTopics := AskForTopics(initialTabsToSort, provider, apiKey, reply, gs, embed, cos, namer);
    var ok, entries, multiTabGroups := GroupAndConsolidate(aiTabTopics);
    if !ok {
      o := Aborted;
    } else if |multiTabGroups| == 0 && |initialTabsToSort| > 1 {
      o := Failure;
    } else {
      o := Apply(multiTabGroups);
      AnsweredWithin(initialTabsToSort, provider, apiKey, reply, gs, embed, cos, namer, aiTabTopics);
      GroupedTabsFiled(aiTabTopics);
      FiledWithin(aiTabTopics);
      var filed := FiledTabs(aiTabTopics);
      assert multiset(Flatten(multiTabGroups)) == multiset(filed);
      forall t: Tab | t in Flatten(multiTabGroups) ensures t.connected {
        assert multiset(filed)[t] > 0;
        var k :| 0 <= k < |filed| && filed[k] == t;
      }
    }
    assert Answered(initialTabsToSort, provider, apiKey, reply, gs, embed, cos, namer, aiTabTopics)
      && o == SortDecision(initialTabsToSort, aiTabTopics);
  }
}
