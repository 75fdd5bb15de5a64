/**
 * `clusterEmbeddings` (ai-tabs.uc.js:270-291): greedy single-pass clustering.
 * Each index not yet used opens a group and takes in every still-unused index
 * whose similarity to it is above the threshold. The vectors are abstracted:
 * `sim(i, j)` stands for `cosineSimilarity(vectors[i], vectors[j])`.
 */
module Clustering {
  import opened Common

  type Similarity = (nat, nat) -> real

  /** Index x lies in some group. */
  predicate Covered(groups: seq<seq<nat>>, x: nat) {
    exists k :: 0 <= k < |groups| && x in groups[k]
  }

  /**
   * What the greedy pass produces over n items: a partition of 0 .. n - 1 into
   * non-empty ascending groups, each led by its seed, with the seeds
   * ascending; every member is above the threshold from its seed, and nothing
   * in a later group is above the threshold from an earlier seed.
   */
  ghost predicate GreedyClusters(n: nat, sim: Similarity, threshold: real, groups: seq<seq<nat>>) {
    && (forall k :: 0 <= k < |groups| ==> |groups[k]| >= 1 && Increasing(groups[k]))
    && (forall k, p :: 0 <= k < |groups| && 0 <= p < |groups[k]| ==> groups[k][p] < n)
    && (forall x :: 0 <= x < n ==> Covered(groups, x))
    && (forall k1, k2, x :: 0 <= k1 < k2 < |groups| && x in groups[k1] ==> x !in groups[k2])
    && (forall k1, k2 :: 0 <= k1 < k2 < |groups| ==> groups[k1][0] < groups[k2][0])
    && (forall k, p :: 0 <= k < |groups| && 0 < p < |groups[k]| ==> sim(groups[k][0], groups[k][p]) > threshold)
    && (forall k, l, p :: 0 <= k < l < |groups| && 0 <= p < |groups[l]| ==> sim(groups[k][0], groups[l][p]) <= threshold)
  }

  method ClusterEmbeddings(n: nat, sim: Similarity, threshold: real) returns (groups: seq<seq<nat>>)
    ensures n == 0 ==> groups == []
    ensures GreedyClusters(n, sim, threshold, groups)
  {
    if n == 0 {
      return [];
    }
    groups := [];
    var used := new bool[n](_ => false);
    ghost var owner: seq<int> := seq(n, _ => -1);
    StartOuter(used[..], owner, sim, threshold);
    for i := 0 to n
      invariant Outer(used[..], owner, groups, sim, threshold, i)
    {
      if used[i] {
        OuterSkip(used[..], owner, groups, sim, threshold, i);
      } else {
        var group;
        group, owner := GrowGroup(used, sim, threshold, i, groups, owner);
        groups := groups + [group];
      }
    }
    FinishOuter(used[..], owner, groups, sim, threshold);
  }

  /**
   * One outer iteration on an unused seed i: it opens a group and takes in,
   * in index order, every other unused index above the threshold from i.
   */
  method GrowGroup(used: array<bool>, sim: Similarity, threshold: real, i: nat, groups: seq<seq<nat>>, ghost owner: seq<int>)
    returns (group: seq<nat>, ghost owner': seq<int>)
    requires Outer(used[..], owner, groups, sim, threshold, i) && i < used.Length && !used[i]
    modifies used
    ensures Outer(used[..], owner', groups + [group], sim, threshold, i + 1)
  {
    var n := used.Length;
    group := [i];
    ghost var u := used[..];
    used[i] := true;
    assert used[..] == u[i := true];
    StartInner(u, owner, groups, sim, threshold, i);
    owner' := owner[i := |groups|];
    for j := 0 to n
      invariant Inner(used[..], owner', groups, group, sim, threshold, i, j)
    {
      u := used[..];
      if i != j && !used[j] && sim(i, j) > threshold {
        TakeInner(u, owner', groups, group, sim, threshold, i, j);
        group := group + [j];
        used[j] := true;
        assert used[..] == u[j := true];
        owner' := owner'[j := |groups|];
      } else {
        SkipInner(u, owner', groups, group, sim, threshold, i, j);
      }
    }
    FinishInner(used[..], owner', groups, group, sim, threshold, i);
  }

  /**
   * Only clusters of at least two members become groups
   * (`if (cluster.length < 2) continue;`, ai-tabs.uc.js:574).
   */
  function LargeClusters(groups: seq<seq<nat>>): seq<seq<nat>> {
    Filter(groups, (g: seq<nat>) => |g| >= 2)
  }

  /** LargeClusters drops exactly the clusters of fewer than two members, keeping the rest in order. */
  lemma LargeClustersExact(groups: seq<seq<nat>>, more: seq<seq<nat>>)
    ensures forall g :: g in LargeClusters(groups) <==> g in groups && |g| >= 2
    ensures LargeClusters(groups + more) == LargeClusters(groups) + LargeClusters(more)
  {
    var keep := (g: seq<nat>) => |g| >= 2;
    FilterCount(groups, keep);
    FilterAppend(groups, more, keep);
    forall g ensures g in LargeClusters(groups) <==> g in groups && |g| >= 2 {
      assert g in LargeClusters(groups) <==> multiset(LargeClusters(groups))[g] > 0;
      assert g in groups <==> multiset(groups)[g] > 0;
    }
  }

  /**
   * `cluster.map((idx) => ungroupedTabs[validIndices[idx]])`, as positions in
   * the list of ungrouped tabs: cluster members number the usable embeddings,
   * and validIndices turns them back into tab positions.
   */
  function ClusterPositions(cluster: seq<nat>, validIndices: seq<nat>): (r: seq<nat>)
    requires forall p :: 0 <= p < |cluster| ==> cluster[p] < |validIndices|
    ensures |r| == |cluster|
    ensures forall p :: 0 <= p < |r| ==> r[p] in validIndices
  {
    seq(|cluster|, p requires 0 <= p < |cluster| => validIndices[cluster[p]])
  }

  /**
   * No tab is put into two groups, nor twice into one: over a partition and a
   * strictly increasing index map, distinct cluster slots give distinct tab
   * positions.
   */
  lemma ClusterPositionsDistinct(groups: seq<seq<nat>>, validIndices: seq<nat>, sim: Similarity, threshold: real,
                                 k1: nat, p1: nat, k2: nat, p2: nat)
    requires GreedyClusters(|validIndices|, sim, threshold, groups) && Increasing(validIndices)
    requires k1 < |groups| && p1 < |groups[k1]| && k2 < |groups| && p2 < |groups[k2]|
    requires k1 != k2 || p1 != p2
    ensures ClusterPositions(groups[k1], validIndices)[p1] != ClusterPositions(groups[k2], validIndices)[p2]
  {
    var x1, x2 := groups[k1][p1], groups[k2][p2];
    if k1 == k2 {
      assert x1 != x2;
    } else if k1 < k2 {
      assert x1 in groups[k1];
      assert x2 in groups[k2];
    } else {
      assert x2 in groups[k2];
      assert x1 in groups[k1];
    }
    assert x1 != x2;
  }

  // ------------------------------------------------------ loop invariants

  /** Every group's elements are in range and recorded as owned by it. */
  ghost predicate Owned(n: nat, owner: seq<int>, groups: seq<seq<nat>>) {
    && |owner| == n
    && forall k, p :: 0 <= k < |groups| && 0 <= p < |groups[k]| ==> groups[k][p] < n && owner[groups[k][p]] == k
  }

  /** The closed groups keep the shape and threshold facts of the result. */
  ghost predicate ClosedGroups(sim: Similarity, threshold: real, groups: seq<seq<nat>>, i: nat) {
    && (forall k :: 0 <= k < |groups| ==> |groups[k]| >= 1 && Increasing(groups[k]) && groups[k][0] < i)
    && (forall k1, k2 :: 0 <= k1 < k2 < |groups| ==> groups[k1][0] < groups[k2][0])
    && (forall k, p :: 0 <= k < |groups| && 0 < p < |groups[k]| ==> sim(groups[k][0], groups[k][p]) > threshold)
    && (forall k, l, p :: 0 <= k < l < |groups| && 0 <= p < |groups[l]| ==> sim(groups[k][0], groups[l][p]) <= threshold)
  }

  /** Unused indices are not above the threshold from any closed group's seed. */
  ghost predicate UnusedFar(u: seq<bool>, sim: Similarity, threshold: real, groups: seq<seq<nat>>)
    requires forall k :: 0 <= k < |groups| ==> |groups[k]| >= 1
  {
    forall k, x :: 0 <= k < |groups| && 0 <= x < |u| && !u[x] ==> sim(groups[k][0], x) <= threshold
  }

  /** The state before outer iteration i. */
  ghost predicate Outer(u: seq<bool>, owner: seq<int>, groups: seq<seq<nat>>, sim: Similarity, threshold: real, i: nat) {
    && i <= |u|
    && Owned(|u|, owner, groups)
    && (forall x :: 0 <= x < |u| ==> (u[x] <==> owner[x] >= 0))
    && (forall x :: 0 <= x < i ==> u[x])
    && (forall x :: 0 <= x < |u| && owner[x] >= 0 ==> owner[x] < |groups| && x in groups[owner[x]])
    && ClosedGroups(sim, threshold, groups, i)
    && UnusedFar(u, sim, threshold, groups)
  }

  /** The state before inner iteration j of the group seeded by i. */
  ghost predicate Inner(u: seq<bool>, owner: seq<int>, groups: seq<seq<nat>>, group: seq<nat>,
                        sim: Similarity, threshold: real, i: nat, j: nat) {
    && i < |u| && j <= |u|
    && Owned(|u|, owner, groups)
    && (forall x :: 0 <= x < |u| ==> (u[x] <==> owner[x] >= 0))
    && (forall x :: 0 <= x <= i ==> u[x])
    && (forall x :: 0 <= x < |u| && 0 <= owner[x] < |groups| ==> x in groups[owner[x]])
    && (forall x :: 0 <= x < |u| && owner[x] >= 0 ==> owner[x] <= |groups|)
    && (forall x :: 0 <= x < |u| && owner[x] == |groups| ==> x in group)
    && (forall p :: 0 <= p < |group| ==> group[p] < |u| && owner[group[p]] == |groups|)
    && |group| >= 1 && group[0] == i && Increasing(group)
    && (forall p :: 0 < p < |group| ==> i < group[p] < j && sim(i, group[p]) > threshold)
    && (forall x :: 0 <= x < j && x != i && !u[x] ==> sim(i, x) <= threshold)
    && ClosedGroups(sim, threshold, groups, i)
    && (forall k, p :: 0 <= k < |groups| && 0 <= p < |group| ==> sim(groups[k][0], group[p]) <= threshold)
    && UnusedFar(u, sim, threshold, groups)
  }

  // --------------------------------------------------- invariant lemmas

  lemma StartOuter(u: seq<bool>, owner: seq<int>, sim: Similarity, threshold: real)
    requires |owner| == |u|
    requires forall x :: 0 <= x < |u| ==> !u[x] && owner[x] == -1
    ensures Outer(u, owner, [], sim, threshold, 0)
  {
  }

  lemma OuterSkip(u: seq<bool>, owner: seq<int>, groups: seq<seq<nat>>, sim: Similarity, threshold: real, i: nat)
    requires Outer(u, owner, groups, sim, threshold, i) && i < |u| && u[i]
    ensures Outer(u, owner, groups, sim, threshold, i + 1)
  {
  }

  lemma StartInner(u: seq<bool>, owner: seq<int>, groups: seq<seq<nat>>, sim: Similarity, threshold: real, i: nat)
    requires Outer(u, owner, groups, sim, threshold, i) && i < |u| && !u[i]
    ensures Inner(u[i := true], owner[i := |groups|], groups, [i], sim, threshold, i, 0)
  {
    var u', owner' := u[i := true], owner[i := |groups|];
    forall k, p | 0 <= k < |groups| && 0 <= p < |groups[k]|
      ensures groups[k][p] < |u'| && owner'[groups[k][p]] == k
    {
      assert owner[groups[k][p]] == k;
    }
    forall k | 0 <= k < |groups| ensures sim(groups[k][0], i) <= threshold {
      assert !u[i];
    }
  }

  lemma TakeInner(u: seq<bool>, owner: seq<int>, groups: seq<seq<nat>>, group: seq<nat>,
                  sim: Similarity, threshold: real, i: nat, j: nat)
    requires Inner(u, owner, groups, group, sim, threshold, i, j) && j < |u|
    requires i != j && !u[j] && sim(i, j) > threshold
    ensures Inner(u[j := true], owner[j := |groups|], groups, group + [j], sim, threshold, i, j + 1)
  {
    TakeInnerOwners(u, owner, groups, group, sim, threshold, i, j);
    TakeInnerUsed(u, owner, groups, group, sim, threshold, i, j);
    TakeInnerGroup(u, owner, groups, group, sim, threshold, i, j);
  }

  lemma TakeInnerUsed(u: seq<bool>, owner: seq<int>, groups: seq<seq<nat>>, group: seq<nat>,
                      sim: Similarity, threshold: real, i: nat, j: nat)
    requires Inner(u, owner, groups, group, sim, threshold, i, j) && j < |u|
    requires i != j && !u[j] && sim(i, j) > threshold
    ensures var u', owner' := u[j := true], owner[j := |groups|];
      && (forall x :: 0 <= x < |u'| ==> (u'[x] <==> owner'[x] >= 0))
      && (forall x :: 0 <= x <= i ==> u'[x])
      && (forall x :: 0 <= x < |u'| && 0 <= owner'[x] < |groups| ==> x in groups[owner'[x]])
      && (forall x :: 0 <= x < |u'| && owner'[x] >= 0 ==> owner'[x] <= |groups|)
      && (forall x :: 0 <= x < j + 1 && x != i && !u'[x] ==> sim(i, x) <= threshold)
      && UnusedFar(u', sim, threshold, groups)
  {
  }

  lemma TakeInnerGroup(u: seq<bool>, owner: seq<int>, groups: seq<seq<nat>>, group: seq<nat>,
                       sim: Similarity, threshold: real, i: nat, j: nat)
    requires Inner(u, owner, groups, group, sim, threshold, i, j) && j < |u|
    requires i != j && !u[j] && sim(i, j) > threshold
    ensures var u', owner', group' := u[j := true], owner[j := |groups|], group + [j];
      && (forall x :: 0 <= x < |u'| && owner'[x] == |groups| ==> x in group')
      && (forall p :: 0 <= p < |group'| ==> group'[p] < |u'| && owner'[group'[p]] == |groups|)
      && |group'| >= 1 && group'[0] == i && Increasing(group')
      && (forall p :: 0 < p < |group'| ==> i < group'[p] < j + 1 && sim(i, group'[p]) > threshold)
      && (forall k, p :: 0 <= k < |groups| && 0 <= p < |group'| ==> sim(groups[k][0], group'[p]) <= threshold)
  {
    var u', owner', group' := u[j := true], owner[j := |groups|], group + [j];
    assert j > i;
    forall k, p | 0 <= k < |groups| && 0 <= p < |group'|
      ensures sim(groups[k][0], group'[p]) <= threshold
    {
      if p == |group| {
        assert !u[j];
      }
    }
    forall x | 0 <= x < |u'| && owner'[x] == |groups| ensures x in group' {
      if x != j {
        assert x in group;
      }
    }
  }

  lemma TakeInnerOwners(u: seq<bool>, owner: seq<int>, groups: seq<seq<nat>>, group: seq<nat>,
                        sim: Similarity, threshold: real, i: nat, j: nat)
    requires Inner(u, owner, groups, group, sim, threshold, i, j) && j < |u| && !u[j]
    ensures Owned(|u|, owner[j := |groups|], groups)
  {
    assert owner[j] < 0;
    forall k, p | 0 <= k < |groups| && 0 <= p < |groups[k]|
      ensures groups[k][p] < |u| && owner[j := |groups|][groups[k][p]] == k
    {
      assert owner[groups[k][p]] == k;
    }
  }

  lemma SkipInner(u: seq<bool>, owner: seq<int>, groups: seq<seq<nat>>, group: seq<nat>,
                  sim: Similarity, threshold: real, i: nat, j: nat)
    requires Inner(u, owner, groups, group, sim, threshold, i, j) && j < |u|
    requires !(i != j && !u[j] && sim(i, j) > threshold)
    ensures Inner(u, owner, groups, group, sim, threshold, i, j + 1)
  {
  }

  lemma FinishInner(u: seq<bool>, owner: seq<int>, groups: seq<seq<nat>>, group: seq<nat>,
                    sim: Similarity, threshold: real, i: nat)
    requires Inner(u, owner, groups, group, sim, threshold, i, |u|)
    ensures Outer(u, owner, groups + [group], sim, threshold, i + 1)
  {
    FinishInnerOwners(u, owner, groups, group, sim, threshold, i);
    FinishInnerFar(u, owner, groups, group, sim, threshold, i);
  }

  lemma FinishInnerOwners(u: seq<bool>, owner: seq<int>, groups: seq<seq<nat>>, group: seq<nat>,
                          sim: Similarity, threshold: real, i: nat)
    requires Inner(u, owner, groups, group, sim, threshold, i, |u|)
    ensures Owned(|u|, owner, groups + [group])
    ensures forall x :: 0 <= x < |u| && owner[x] >= 0 ==> owner[x] < |groups + [group]| && x in (groups + [group])[owner[x]]
  {
    var gs := groups + [group];
    assert gs[|groups|] == group;
    forall x | 0 <= x < |u| && owner[x] >= 0 ensures owner[x] < |gs| && x in gs[owner[x]] {
      if owner[x] < |groups| {
        assert gs[owner[x]] == groups[owner[x]];
      }
    }
  }

  lemma FinishInnerFar(u: seq<bool>, owner: seq<int>, groups: seq<seq<nat>>, group: seq<nat>,
                       sim: Similarity, threshold: real, i: nat)
    requires Inner(u, owner, groups, group, sim, threshold, i, |u|)
    ensures ClosedGroups(sim, threshold, groups + [group], i + 1)
    ensures UnusedFar(u, sim, threshold, groups + [group])
  {
    var gs := groups + [group];
    assert gs[|groups|] == group;
    forall k, l, p | 0 <= k < l < |gs| && 0 <= p < |gs[l]|
      ensures sim(gs[k][0], gs[l][p]) <= threshold
    {
      if l == |groups| {
        assert gs[k][0] == groups[k][0];
      } else {
        assert gs[k] == groups[k] && gs[l] == groups[l];
      }
    }
    forall k, x | 0 <= k < |gs| && 0 <= x < |u| && !u[x] ensures sim(gs[k][0], x) <= threshold {
      if k == |groups| {
        assert x != i;
      } else {
        assert gs[k] == groups[k];
      }
    }
  }

  lemma FinishOuter(u: seq<bool>, owner: seq<int>, groups: seq<seq<nat>>, sim: Similarity, threshold: real)
    requires Outer(u, owner, groups, sim, threshold, |u|)
    ensures GreedyClusters(|u|, sim, threshold, groups)
  {
    forall x | 0 <= x < |u| ensures Covered(groups, x) {
      assert x in groups[owner[x]];
    }
    forall k1, k2, x | 0 <= k1 < k2 < |groups| && x in groups[k1]
      ensures x !in groups[k2]
    {
      var p1 :| 0 <= p1 < |groups[k1]| && groups[k1][p1] == x;
      assert owner[x] == k1;
      forall p2 | 0 <= p2 < |groups[k2]| ensures groups[k2][p2] != x {
        assert owner[groups[k2][p2]] == k2;
      }
    }
  }
}
