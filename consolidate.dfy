/**
 * The group-and-consolidate block of `sortTabsByTopic` (ai-tabs.uc.js:674-700):
 * tabs are bucketed by topic in `finalGroups`, then a left-to-right sweep over
 * `Object.keys(finalGroups)` merges every later label within edit distance 2
 * of an earlier surviving label into it.
 *
 * The sweep is specified by which labels survive: label j survives when no
 * surviving label before it is close to it, and otherwise it is absorbed by
 * the first such label. A survivor ends up with its own tabs followed by the
 * tabs of the labels it absorbed, in key order.
 */
module Consolidation {
  import opened Common
  import opened JsText
  import opened JsObject
  import opened Tabs
  import opened EditDistance
  import RemoteClassifier

  /** `CONFIG.CONSOLIDATION_DISTANCE_THRESHOLD` (ai-tabs.uc.js:91). */
  const ConsolidationDistanceThreshold: nat := 2

  // ------------------------------------------------------------ grouping

  /** An assignment that is filed under its topic: a truthy topic other than "Uncategorized", on a connected tab. */
  predicate Grouped(a: Assignment) {
    a.topic != [] && a.topic != RemoteClassifier.Uncategorized && a.tab.connected
  }

  /**
   * Names a plain object inherits from `Object.prototype`: reading one of
   * them on `{}` gives a truthy value that is not an array.
   */
  const InheritedNames: set<String> := {
    "constructor", "hasOwnProperty", "isPrototypeOf", "propertyIsEnumerable", "toLocaleString", "toString",
    "valueOf", "__proto__", "__defineGetter__", "__defineSetter__", "__lookupGetter__", "__lookupSetter__"
  }

  /**
   * Filing under an inherited name throws: `finalGroups[topic]` is truthy, so
   * no list is created for it, and the inherited value has no `push`.
   */
  predicate Throws(a: Assignment) {
    Grouped(a) && a.topic in InheritedNames
  }

  /** No assignment is filed under an inherited name, so `finalGroups` behaves as a map. */
  predicate NoneThrows(assignments: seq<Assignment>) {
    forall p :: 0 <= p < |assignments| ==> !Throws(assignments[p])
  }

  /** The order in which topics are first added to `finalGroups`. */
  function TopicOrder(assignments: seq<Assignment>): seq<String> {
    if assignments == [] then []
    else
      var order, a := TopicOrder(assignments[..|assignments| - 1]), assignments[|assignments| - 1];
      if Grouped(a) && a.topic !in order then order + [a.topic] else order
  }

  /** The tabs filed under `topic`, in assignment order. */
  function Bucket(assignments: seq<Assignment>, topic: String): seq<Tab> {
    if assignments == [] then []
    else
      var a := assignments[|assignments| - 1];
      Bucket(assignments[..|assignments| - 1], topic) + (if Grouped(a) && a.topic == topic then [a.tab] else [])
  }

  /** The key order lists each topic of a grouped assignment once, and nothing else. */
  lemma {:induction false} TopicOrderSpec(assignments: seq<Assignment>)
    ensures NoDup(TopicOrder(assignments))
    ensures forall s :: s in TopicOrder(assignments) <==>
      exists p :: 0 <= p < |assignments| && Grouped(assignments[p]) && assignments[p].topic == s
  {
    if assignments != [] {
      var pre, a := assignments[..|assignments| - 1], assignments[|assignments| - 1];
      TopicOrderSpec(pre);
      var order := TopicOrder(pre);
      if Grouped(a) && a.topic !in order {
        NoDupAppend(order, [a.topic]);
      }
      forall s ensures s in TopicOrder(assignments) <==>
        exists p :: 0 <= p < |assignments| && Grouped(assignments[p]) && assignments[p].topic == s
      {
        if s in order {
          var p :| 0 <= p < |pre| && Grouped(pre[p]) && pre[p].topic == s;
          assert assignments[p] == pre[p];
        }
        if exists p :: 0 <= p < |assignments| && Grouped(assignments[p]) && assignments[p].topic == s {
          var p :| 0 <= p < |assignments| && Grouped(assignments[p]) && assignments[p].topic == s;
          if p < |pre| {
            assert pre[p] == assignments[p];
          }
        }
      }
    }
  }

  /** A bucket is exactly the tabs of the grouped assignments with that topic, in order. */
  lemma {:induction false} BucketIsFilter(assignments: seq<Assignment>, topic: String)
    ensures Bucket(assignments, topic) == TabsOf(Filter(assignments, a => Grouped(a) && a.topic == topic))
  {
    if assignments != [] {
      var pre, a := assignments[..|assignments| - 1], assignments[|assignments| - 1];
      BucketIsFilter(pre, topic);
      var kept := Filter(pre, a => Grouped(a) && a.topic == topic);
      if Grouped(a) && a.topic == topic {
        assert TabsOf(kept + [a]) == TabsOf(kept) + [a.tab];
      }
    }
  }

  /**
   * The `forEach` over the assignments: `finalGroups` maps each topic to its
   * tabs, and `added` records the order in which its keys were created. It
   * throws (`ok` is false) as soon as an assignment is filed under an
   * inherited name.
   */
  method GroupByTopic(assignments: seq<Assignment>)
    returns (ok: bool, finalGroups: map<String, seq<Tab>>, added: seq<String>)
    ensures ok <==> NoneThrows(assignments)
    ensures ok ==> added == TopicOrder(assignments)
    ensures ok ==> forall s :: s in finalGroups <==> s in added
    ensures ok ==> forall s :: s in finalGroups ==> finalGroups[s] == Bucket(assignments, s) && finalGroups[s] != []
  {
    finalGroups, added := map[], [];
    for i := 0 to |assignments|
      invariant Filed(finalGroups, added, assignments[..i])
      invariant NoneThrows(assignments[..i])
    {
      var a := assignments[i];
      assert assignments[..i + 1] == assignments[..i] + [a];
      if Grouped(a) {
        if a.topic in InheritedNames {
          assert Throws(assignments[i]);
          return false, finalGroups, added;
        }
        ghost var before, addedBefore := finalGroups, added;
        if a.topic !in finalGroups {
          finalGroups := finalGroups[a.topic := []];
          added := added + [a.topic];
        }
        FileGrouped(assignments[..i], a, before, addedBefore, finalGroups, added);
        finalGroups := finalGroups[a.topic := finalGroups[a.topic] + [a.tab]];
      } else {
        FileSkipped(assignments[..i], a, finalGroups, added);
      }
    }
    assert assignments[..|assignments|] == assignments;
    ok := true;
  }

  /** `finalGroups` and its key order after the assignments in `prefix`. */
  ghost predicate Filed(finalGroups: map<String, seq<Tab>>, added: seq<String>, prefix: seq<Assignment>) {
    && added == TopicOrder(prefix)
    && (forall s :: s in finalGroups <==> s in added)
    && (forall s :: s in finalGroups ==> finalGroups[s] == Bucket(prefix, s) && finalGroups[s] != [])
    && (forall s :: s !in finalGroups ==> Bucket(prefix, s) == [])
  }

  lemma FileSkipped(pre: seq<Assignment>, a: Assignment, finalGroups: map<String, seq<Tab>>, added: seq<String>)
    requires Filed(finalGroups, added, pre) && !Grouped(a)
    ensures Filed(finalGroups, added, pre + [a])
  {
    GroupSnoc(pre, a);
  }

  lemma FileGrouped(pre: seq<Assignment>, a: Assignment, before: map<String, seq<Tab>>, addedBefore: seq<String>,
                    finalGroups: map<String, seq<Tab>>, added: seq<String>)
    requires Filed(before, addedBefore, pre) && Grouped(a)
    requires a.topic in before ==> finalGroups == before && added == addedBefore
    requires a.topic !in before ==> finalGroups == before[a.topic := []] && added == addedBefore + [a.topic]
    ensures a.topic in finalGroups
    ensures Filed(finalGroups[a.topic := finalGroups[a.topic] + [a.tab]], added, pre + [a])
  {
    if a.topic in before {
      FileExisting(pre, a, before, added);
    } else {
      FileNew(pre, a, before, addedBefore);
      assert finalGroups[a.topic := finalGroups[a.topic] + [a.tab]] == before[a.topic := [a.tab]];
    }
  }

  /** A filed assignment whose topic already has a list appends its tab to that list. */
  lemma FileExisting(pre: seq<Assignment>, a: Assignment, finalGroups: map<String, seq<Tab>>, added: seq<String>)
    requires Filed(finalGroups, added, pre) && Grouped(a) && a.topic in finalGroups
    ensures Filed(finalGroups[a.topic := finalGroups[a.topic] + [a.tab]], added, pre + [a])
  {
    var grown := finalGroups[a.topic := finalGroups[a.topic] + [a.tab]];
    GroupSnoc(pre, a);
    assert a.topic in TopicOrder(pre);
    forall s | s in grown ensures grown[s] == Bucket(pre + [a], s) {
    }
  }

  /** A filed assignment with a new topic opens a list holding its tab and records the key. */
  lemma FileNew(pre: seq<Assignment>, a: Assignment, finalGroups: map<String, seq<Tab>>, added: seq<String>)
    requires Filed(finalGroups, added, pre) && Grouped(a) && a.topic !in finalGroups
    ensures Filed(finalGroups[a.topic := [a.tab]], added + [a.topic], pre + [a])
  {
    var grown := finalGroups[a.topic := [a.tab]];
    GroupSnoc(pre, a);
    assert a.topic !in TopicOrder(pre);
    assert TopicOrder(pre + [a]) == added + [a.topic];
    forall s ensures s in grown <==> s in added + [a.topic] {
      assert s in finalGroups <==> s in added;
    }
    forall s | s in grown ensures grown[s] == Bucket(pre + [a], s) && grown[s] != [] {
      if s == a.topic {
        assert Bucket(pre, s) == [];
      }
    }
    forall s | s !in grown ensures Bucket(pre + [a], s) == [] {
      assert Bucket(pre, s) == [];
    }
  }

  /** One more assignment adds its tab to its own topic's bucket, and its topic to the key order when new. */
  lemma GroupSnoc(pre: seq<Assignment>, a: Assignment)
    ensures forall s :: Bucket(pre + [a], s) == Bucket(pre, s) + (if Grouped(a) && a.topic == s then [a.tab] else [])
    ensures TopicOrder(pre + [a]) == if Grouped(a) && a.topic !in TopicOrder(pre) then TopicOrder(pre) + [a.topic] else TopicOrder(pre)
  {
    assert (pre + [a])[..|pre|] == pre;
  }

  // ------------------------------------------------------------ the sweep, specified

  /** `levenshteinDistance(keys[i], keys[j]) <= CONSOLIDATION_DISTANCE_THRESHOLD`. */
  predicate Close(a: String, b: String) {
    Distance(a, b) <= ConsolidationDistanceThreshold
  }

  /**
   * The first label at or after `from` and before j that survives according
   * to `abs` and is close to label j.
   */
  function FirstClose(keys: seq<String>, abs: seq<Option<nat>>, j: nat, from: nat): (r: Option<nat>)
    requires j < |keys| && |abs| == j && from <= j
    ensures r.Some? ==> from <= r.value < j
    decreases j - from
  {
    if from == j then None
    else if abs[from].None? && Close(keys[from], keys[j]) then Some(from)
    else FirstClose(keys, abs, j, from + 1)
  }

  /**
   * The fate of each of the first k labels: `None` for a label that survives
   * the sweep, `Some(i)` for a label whose tabs label i takes over.
   */
  function Absorbers(keys: seq<String>, k: nat): (abs: seq<Option<nat>>)
    requires k <= |keys|
    ensures |abs| == k
  {
    if k == 0 then []
    else
      var prev := Absorbers(keys, k - 1);
      prev + [FirstClose(keys, prev, k - 1, 0)]
  }

  /**
   * The rule the sweep applies to label j: it survives when no surviving label
   * before it is within the threshold, and otherwise it goes to the first
   * surviving label that is.
   */
  ghost predicate Decided(keys: seq<String>, abs: seq<Option<nat>>, j: nat)
    requires j < |abs| <= |keys|
  {
    match abs[j]
    case None => forall i :: 0 <= i < j && abs[i].None? ==> !Close(keys[i], keys[j])
    case Some(a) =>
      && a < j && abs[a].None? && Close(keys[a], keys[j])
      && forall i :: 0 <= i < a && abs[i].None? ==> !Close(keys[i], keys[j])
  }

  ghost predicate FollowsRule(keys: seq<String>, abs: seq<Option<nat>>) {
    |abs| <= |keys| && forall j :: 0 <= j < |abs| ==> Decided(keys, abs, j)
  }

  /** The tabs of the labels that label i absorbs among labels i + 1 .. m - 1, in key order. */
  function Absorbed(abs: seq<Option<nat>>, b: seq<seq<Tab>>, i: nat, m: nat): seq<Tab>
    requires |b| == |abs| && i < |abs| && m <= |abs|
  {
    if m <= i + 1 then []
    else Absorbed(abs, b, i, m - 1) + (if abs[m - 1] == Some(i) then b[m - 1] else [])
  }

  /** Label i's list once the sweep has reached label m: its own tabs, then what it absorbed. */
  function Merged(abs: seq<Option<nat>>, b: seq<seq<Tab>>, i: nat, m: nat): seq<Tab>
    requires |b| == |abs| && i < |abs| && m <= |abs|
  {
    b[i] + Absorbed(abs, b, i, m)
  }

  datatype TopicGroup = TopicGroup(topic: String, tabs: seq<Tab>)

  /** The surviving labels among the first k, in key order, each with its merged list. */
  function Survivors(keys: seq<String>, abs: seq<Option<nat>>, b: seq<seq<Tab>>, k: nat): (r: seq<TopicGroup>)
    requires |b| == |abs| == |keys| && k <= |keys|
    ensures |r| <= k
  {
    if k == 0 then []
    else
      Survivors(keys, abs, b, k - 1)
      + (if abs[k - 1].None? then [TopicGroup(keys[k - 1], Merged(abs, b, k - 1, |keys|))] else [])
  }

  /** `Object.entries(finalGroups)` after the sweep, for keys whose buckets are b. */
  function Consolidated(keys: seq<String>, b: seq<seq<Tab>>): seq<TopicGroup>
    requires |b| == |keys|
  {
    Survivors(keys, Absorbers(keys, |keys|), b, |keys|)
  }

  // ------------------------------------------------------------ properties of the sweep

  lemma {:induction false} FirstCloseSpec(keys: seq<String>, abs: seq<Option<nat>>, j: nat, from: nat)
    requires j < |keys| && |abs| == j && from <= j
    ensures var r := FirstClose(keys, abs, j, from);
      && (r.Some? ==> abs[r.value].None? && Close(keys[r.value], keys[j]))
      && (r.Some? ==> forall i :: from <= i < r.value && abs[i].None? ==> !Close(keys[i], keys[j]))
      && (r.None? ==> forall i :: from <= i < j && abs[i].None? ==> !Close(keys[i], keys[j]))
    decreases j - from
  {
    if from < j {
      FirstCloseSpec(keys, abs, j, from + 1);
    }
  }

  /** The computed fates follow the sweep's rule, label by label. */
  lemma {:induction false} AbsorbersFollowRule(keys: seq<String>, k: nat)
    requires k <= |keys|
    ensures FollowsRule(keys, Absorbers(keys, k))
  {
    if k > 0 {
      AbsorbersFollowRule(keys, k - 1);
      var prev, abs := Absorbers(keys, k - 1), Absorbers(keys, k);
      assert forall i :: 0 <= i < k - 1 ==> abs[i] == prev[i];
      forall j | 0 <= j < k ensures Decided(keys, abs, j) {
        if j < k - 1 {
          assert Decided(keys, prev, j);
        } else {
          FirstCloseSpec(keys, prev, k - 1, 0);
        }
      }
    }
  }

  /** The rule leaves no choice: two fate sequences that follow it agree. */
  lemma {:induction false} RuleDetermines(keys: seq<String>, abs: seq<Option<nat>>, abs': seq<Option<nat>>, k: nat)
    requires FollowsRule(keys, abs) && FollowsRule(keys, abs') && |abs| == |abs'| && k <= |abs|
    ensures abs[..k] == abs'[..k]
  {
    if k > 0 {
      RuleDetermines(keys, abs, abs', k - 1);
      var j := k - 1;
      assert forall i :: 0 <= i < j ==> abs[i] == abs'[i] by {
        forall i | 0 <= i < j ensures abs[i] == abs'[i] {
          assert abs[..j][i] == abs'[..j][i];
        }
      }
      assert Decided(keys, abs, j) && Decided(keys, abs', j);
      assert abs[j] == abs'[j];
      assert abs[..k] == abs[..j] + [abs[j]] && abs'[..k] == abs'[..j] + [abs'[j]];
    }
  }

  /** The first label always survives. */
  lemma FirstSurvives(keys: seq<String>)
    requires |keys| > 0
    ensures Absorbers(keys, |keys|)[0].None?
  {
    AbsorbersFollowRule(keys, |keys|);
    RuleAbsorbersSurvive(keys, Absorbers(keys, |keys|));
  }

  /** Any two surviving labels are more than the threshold apart. */
  lemma SurvivorsApart(keys: seq<String>, i: nat, j: nat)
    requires i < j < |keys|
    requires Absorbers(keys, |keys|)[i].None? && Absorbers(keys, |keys|)[j].None?
    ensures Distance(keys[i], keys[j]) > ConsolidationDistanceThreshold
  {
    AbsorbersFollowRule(keys, |keys|);
    assert Decided(keys, Absorbers(keys, |keys|), j);
  }

  /** A label absorbed by i goes to a surviving label before it, within the threshold. */
  lemma AbsorbedByEarlierSurvivor(keys: seq<String>, j: nat)
    requires j < |keys| && Absorbers(keys, |keys|)[j].Some?
    ensures var a := Absorbers(keys, |keys|)[j].value;
      a < j && Absorbers(keys, |keys|)[a].None? && Distance(keys[a], keys[j]) <= ConsolidationDistanceThreshold
  {
    AbsorbersFollowRule(keys, |keys|);
    assert Decided(keys, Absorbers(keys, |keys|), j);
  }

  /** Every absorbed label goes to an earlier label that survives. */
  ghost predicate AbsorbersSurvive(abs: seq<Option<nat>>) {
    forall j :: 0 <= j < |abs| && abs[j].Some? ==> abs[j].value < j && abs[abs[j].value].None?
  }

  lemma RuleAbsorbersSurvive(keys: seq<String>, abs: seq<Option<nat>>)
    requires FollowsRule(keys, abs)
    ensures AbsorbersSurvive(abs)
  {
    forall j | 0 <= j < |abs| && abs[j].Some? ensures abs[j].value < j && abs[abs[j].value].None? {
      assert Decided(keys, abs, j);
    }
  }

  /** Only survivors absorb. */
  lemma {:induction false} NonSurvivorAbsorbsNothing(abs: seq<Option<nat>>, b: seq<seq<Tab>>, i: nat, m: nat)
    requires AbsorbersSurvive(abs) && |b| == |abs| && i < |abs| && m <= |abs| && abs[i].Some?
    ensures Absorbed(abs, b, i, m) == []
  {
    if m > i + 1 {
      NonSurvivorAbsorbsNothing(abs, b, i, m - 1);
    }
  }

  /** The positions of the surviving labels among the first k, in key order. */
  function SurvivorIndices(abs: seq<Option<nat>>, k: nat): (r: seq<nat>)
    requires k <= |abs|
    ensures Increasing(r)
    ensures forall p :: 0 <= p < |r| ==> r[p] < k && abs[r[p]].None?
  {
    if k == 0 then []
    else SurvivorIndices(abs, k - 1) + (if abs[k - 1].None? then [k - 1] else [])
  }

  /** Every surviving label is listed. */
  lemma {:induction false} SurvivorIndicesComplete(abs: seq<Option<nat>>, k: nat, t: nat)
    requires t < k <= |abs| && abs[t].None?
    ensures t in SurvivorIndices(abs, k)
  {
    if t < k - 1 {
      SurvivorIndicesComplete(abs, k - 1, t);
    }
  }

  /**
   * The consolidated entries are the surviving labels in key order, each
   * holding its own tabs followed by the tabs of the labels it absorbed.
   */
  lemma {:induction false} SurvivorsAt(keys: seq<String>, abs: seq<Option<nat>>, b: seq<seq<Tab>>, k: nat)
    requires |b| == |abs| == |keys| && k <= |keys|
    ensures var r, idx := Survivors(keys, abs, b, k), SurvivorIndices(abs, k);
      && |r| == |idx|
      && (forall p :: 0 <= p < |r| ==> r[p] == TopicGroup(keys[idx[p]], Merged(abs, b, idx[p], |keys|)))
  {
    if k > 0 {
      SurvivorsAt(keys, abs, b, k - 1);
    }
  }

  /**
   * `Object.entries` after the sweep lists the surviving keys in their
   * original order, each with its merged list, starting with the first key.
   */
  lemma ConsolidatedShape(keys: seq<String>, b: seq<seq<Tab>>)
    requires |b| == |keys|
    ensures var abs, r, idx := Absorbers(keys, |keys|), Consolidated(keys, b), SurvivorIndices(Absorbers(keys, |keys|), |keys|);
      && |r| == |idx| && Increasing(idx)
      && (forall t :: 0 <= t < |keys| ==> (t in idx <==> abs[t].None?))
      && (forall p :: 0 <= p < |r| ==> r[p] == TopicGroup(keys[idx[p]], b[idx[p]] + Absorbed(abs, b, idx[p], |keys|)))
      && (|keys| > 0 ==> |r| > 0 && r[0].topic == keys[0])
  {
    var abs := Absorbers(keys, |keys|);
    var idx := SurvivorIndices(abs, |keys|);
    SurvivorsAt(keys, abs, b, |keys|);
    forall t | 0 <= t < |keys| && abs[t].None? ensures t in idx {
      SurvivorIndicesComplete(abs, |keys|, t);
    }
    if |keys| > 0 {
      FirstSurvives(keys);
      SurvivorIndicesComplete(abs, |keys|, 0);
    }
  }

  // ------------------------------------------------------------ conservation of tabs

  /** Which label ends up holding label j's tabs. */
  function Owners(abs: seq<Option<nat>>): (o: seq<nat>)
    ensures |o| == |abs| && forall j :: 0 <= j < |abs| ==> o[j] == if abs[j].None? then j else abs[j].value
  {
    seq(|abs|, j requires 0 <= j < |abs| => if abs[j].None? then j else abs[j].value)
  }

  /** The lists among b[0 .. m - 1] whose owner is i, concatenated in order. */
  function Portion<T>(b: seq<seq<T>>, o: seq<nat>, i: nat, m: nat): seq<T>
    requires m <= |b| == |o|
  {
    if m == 0 then [] else Portion(b, o, i, m - 1) + (if o[m - 1] == i then b[m - 1] else [])
  }

  /** How often x occurs in each list. */
  function Counts<T(==)>(b: seq<seq<T>>, x: T): (c: seq<nat>)
    ensures |c| == |b| && forall j :: 0 <= j < |b| ==> c[j] == multiset(b[j])[x]
  {
    seq(|b|, j requires 0 <= j < |b| => multiset(b[j])[x])
  }

  /** The sum of c[j] over the j < m whose owner is i. */
  function PortionSum(c: seq<nat>, o: seq<nat>, i: nat, m: nat): nat
    requires m <= |c| == |o|
  {
    if m == 0 then 0 else PortionSum(c, o, i, m - 1) + (if o[m - 1] == i then c[m - 1] else 0)
  }

  /** The portion sums of owners 0 .. k - 1, added up. */
  function GatheredSum(c: seq<nat>, o: seq<nat>, k: nat, m: nat): nat
    requires m <= |c| == |o|
  {
    if k == 0 then 0 else GatheredSum(c, o, k - 1, m) + PortionSum(c, o, k - 1, m)
  }

  /** The sum of c[0 .. m - 1]. */
  function PrefixSum(c: seq<nat>, m: nat): nat
    requires m <= |c|
  {
    if m == 0 then 0 else PrefixSum(c, m - 1) + c[m - 1]
  }

  /** Taking in entry m adds it once to the gathered sums when its owner is below k, and not at all otherwise. */
  lemma {:induction false} GatheredSumStep(c: seq<nat>, o: seq<nat>, k: nat, m: nat)
    requires m < |c| == |o|
    ensures GatheredSum(c, o, k, m + 1) == GatheredSum(c, o, k, m) + (if o[m] < k then c[m] else 0)
  {
    if k > 0 {
      GatheredSumStep(c, o, k - 1, m);
    }
  }

  lemma {:induction false} GatheredSumEmpty(c: seq<nat>, o: seq<nat>, k: nat)
    requires |c| == |o|
    ensures GatheredSum(c, o, k, 0) == 0
  {
    if k > 0 {
      GatheredSumEmpty(c, o, k - 1);
    }
  }

  /** When every entry has an owner below k, the portion sums of owners below k count each entry exactly once. */
  lemma {:induction false} GatheredSumAll(c: seq<nat>, o: seq<nat>, k: nat, m: nat)
    requires m <= |c| == |o|
    requires forall j :: 0 <= j < |o| ==> o[j] < k
    ensures GatheredSum(c, o, k, m) == PrefixSum(c, m)
  {
    if m == 0 {
      GatheredSumEmpty(c, o, k);
    } else {
      GatheredSumAll(c, o, k, m - 1);
      GatheredSumStep(c, o, k, m - 1);
    }
  }

  lemma CountSplit<T>(s: seq<T>, r: seq<T>, p: seq<T>, x: T)
    requires s == r + p
    ensures multiset(s)[x] == multiset(r)[x] + multiset(p)[x]
  {
  }

  /** x occurs in the portion of owner i as often as the portion sum of its counts says. */
  lemma {:induction false} PortionCount<T>(b: seq<seq<T>>, o: seq<nat>, i: nat, m: nat, x: T)
    requires m <= |b| == |o|
    ensures multiset(Portion(b, o, i, m))[x] == PortionSum(Counts(b, x), o, i, m)
  {
    if m > 0 {
      PortionCount(b, o, i, m - 1, x);
      CountSplit(Portion(b, o, i, m), Portion(b, o, i, m - 1), if o[m - 1] == i then b[m - 1] else [], x);
    }
  }

  lemma {:induction false} FlattenCount<T>(b: seq<seq<T>>, m: nat, x: T)
    requires m <= |b|
    ensures multiset(Flatten(b[..m]))[x] == PrefixSum(Counts(b, x), m)
  {
    if m > 0 {
      FlattenCount(b, m - 1, x);
      FlattenPrefixStep(b, m);
      CountSplit(Flatten(b[..m]), Flatten(b[..m - 1]), b[m - 1], x);
    }
  }

  lemma FlattenPrefixStep<T>(b: seq<seq<T>>, m: nat)
    requires 0 < m <= |b|
    ensures Flatten(b[..m]) == Flatten(b[..m - 1]) + b[m - 1]
  {
    assert b[..m] == b[..m - 1] + [b[m - 1]];
    FlattenAppend(b[..m - 1], b[m - 1]);
  }

  /** A surviving label's merged list is its portion; a label that does not survive owns nothing. */
  lemma {:induction false} MergedIsPortion(abs: seq<Option<nat>>, b: seq<seq<Tab>>, i: nat, m: nat)
    requires AbsorbersSurvive(abs) && |b| == |abs| && i < |abs| && m <= |abs|
    ensures abs[i].None? && i < m ==> Merged(abs, b, i, m) == Portion(b, Owners(abs), i, m)
    ensures abs[i].Some? || m <= i ==> Portion(b, Owners(abs), i, m) == []
  {
    if m > 0 {
      MergedIsPortion(abs, b, i, m - 1);
      var j := m - 1;
      if j == i {
        assert Merged(abs, b, i, m) == b[i];
      }
    }
  }

  /** The tabs of a list of entries, in order. */
  function AllTabs(gs: seq<TopicGroup>): seq<Tab> {
    if gs == [] then [] else AllTabs(gs[..|gs| - 1]) + gs[|gs| - 1].tabs
  }

  lemma {:induction false} AllTabsAppend(gs: seq<TopicGroup>, g: TopicGroup)
    ensures AllTabs(gs + [g]) == AllTabs(gs) + g.tabs
  {
    assert (gs + [g])[..|gs|] == gs;
  }

  /** Every label's tabs go to a label of the list. */
  lemma OwnersInRange(abs: seq<Option<nat>>)
    requires AbsorbersSurvive(abs)
    ensures forall j :: 0 <= j < |abs| ==> Owners(abs)[j] < |abs|
  {
  }

  /** Adding label k - 1's entry, if it survives, adds its portion to the tabs. */
  lemma SurvivorsTabsStep(keys: seq<String>, abs: seq<Option<nat>>, b: seq<seq<Tab>>, k: nat)
    requires AbsorbersSurvive(abs) && |b| == |abs| == |keys| && 0 < k <= |keys|
    ensures AllTabs(Survivors(keys, abs, b, k)) == AllTabs(Survivors(keys, abs, b, k - 1)) + Portion(b, Owners(abs), k - 1, |keys|)
  {
    var i := k - 1;
    MergedIsPortion(abs, b, i, |keys|);
    if abs[i].None? {
      AllTabsAppend(Survivors(keys, abs, b, i), TopicGroup(keys[i], Merged(abs, b, i, |keys|)));
    } else {
      assert Survivors(keys, abs, b, k) == Survivors(keys, abs, b, i);
    }
  }

  lemma SurvivorsCountStep(keys: seq<String>, abs: seq<Option<nat>>, b: seq<seq<Tab>>, k: nat, x: Tab)
    requires AbsorbersSurvive(abs) && |b| == |abs| == |keys| && 0 < k <= |keys|
    ensures multiset(AllTabs(Survivors(keys, abs, b, k)))[x]
         == multiset(AllTabs(Survivors(keys, abs, b, k - 1)))[x] + multiset(Portion(b, Owners(abs), k - 1, |keys|))[x]
  {
    SurvivorsTabsStep(keys, abs, b, k);
    CountSplit(AllTabs(Survivors(keys, abs, b, k)), AllTabs(Survivors(keys, abs, b, k - 1)), Portion(b, Owners(abs), k - 1, |keys|), x);
  }

  /** x occurs in the surviving entries among the first k labels as often as in the portions of those labels. */
  ghost predicate CountsAgree(keys: seq<String>, abs: seq<Option<nat>>, b: seq<seq<Tab>>, k: nat, x: Tab)
    requires |b| == |abs| == |keys| && k <= |keys|
  {
    multiset(AllTabs(Survivors(keys, abs, b, k)))[x] == GatheredSum(Counts(b, x), Owners(abs), k, |keys|)
  }

  lemma {:induction false} SurvivorsCount(keys: seq<String>, abs: seq<Option<nat>>, b: seq<seq<Tab>>, k: nat, x: Tab)
    requires AbsorbersSurvive(abs) && |b| == |abs| == |keys| && k <= |keys|
    ensures CountsAgree(keys, abs, b, k, x)
  {
    if k == 0 {
      assert Survivors(keys, abs, b, k) == [];
    } else {
      SurvivorsCount(keys, abs, b, k - 1, x);
      SurvivorsCountSucc(keys, abs, b, k, x);
    }
  }

  lemma SurvivorsCountSucc(keys: seq<String>, abs: seq<Option<nat>>, b: seq<seq<Tab>>, k: nat, x: Tab)
    requires AbsorbersSurvive(abs) && |b| == |abs| == |keys| && 0 < k <= |keys|
    requires CountsAgree(keys, abs, b, k - 1, x)
    ensures CountsAgree(keys, abs, b, k, x)
  {
    SurvivorsCountStep(keys, abs, b, k, x);
    PortionCount(b, Owners(abs), k - 1, |keys|, x);
  }

  /** Consolidation neither loses nor duplicates a tab: the entries hold exactly the buckets' tabs. */
  lemma ConsolidationConserves(keys: seq<String>, b: seq<seq<Tab>>)
    requires |b| == |keys|
    ensures multiset(AllTabs(Consolidated(keys, b))) == multiset(Flatten(b))
  {
    var abs := Absorbers(keys, |keys|);
    AbsorbersFollowRule(keys, |keys|);
    RuleAbsorbersSurvive(keys, abs);
    OwnersInRange(abs);
    assert b[..|keys|] == b;
    forall x ensures multiset(AllTabs(Consolidated(keys, b)))[x] == multiset(Flatten(b))[x] {
      SurvivorsCount(keys, abs, b, |keys|, x);
      assert CountsAgree(keys, abs, b, |keys|, x);
      GatheredSumAll(Counts(b, x), Owners(abs), |keys|, |keys|);
      FlattenCount(b, |keys|, x);
    }
  }

  /** With non-empty buckets every consolidated entry is non-empty, so the `length > 0` filter keeps them all. */
  lemma ConsolidatedNonEmpty(keys: seq<String>, b: seq<seq<Tab>>)
    requires |b| == |keys|
    requires forall t :: 0 <= t < |b| ==> b[t] != []
    ensures forall p :: 0 <= p < |Consolidated(keys, b)| ==> Consolidated(keys, b)[p].tabs != []
  {
    SurvivorsAt(keys, Absorbers(keys, |keys|), b, |keys|);
  }

  // ------------------------------------------------------------ the sweep, as written

  /** The bucket of each key, in key order. */
  function BucketsOf(keys: seq<String>, groups: map<String, seq<Tab>>): (b: seq<seq<Tab>>)
    requires forall t :: 0 <= t < |keys| ==> keys[t] in groups
    ensures |b| == |keys| && forall t :: 0 <= t < |keys| ==> b[t] == groups[keys[t]]
  {
    seq(|keys|, t requires 0 <= t < |keys| => groups[keys[t]])
  }

  /** Label t has been merged away by the time the sweep reaches outer label i and inner label j. */
  ghost predicate Gone(abs: seq<Option<nat>>, t: nat, i: nat, j: nat)
    requires t < |abs|
  {
    abs[t].Some? && (abs[t].value < i || (abs[t].value == i && t < j))
  }

  /** What `finalGroups[keys[t]]` holds while the sweep is at outer label i and inner label j. */
  function Expected(abs: seq<Option<nat>>, b: seq<seq<Tab>>, t: nat, i: nat, j: nat): seq<Tab>
    requires |b| == |abs| && t < |abs| && j <= |abs|
  {
    if t < i then Merged(abs, b, t, |abs|) else if t == i then Merged(abs, b, t, j) else b[t]
  }

  /** The state of the sweep at outer label i and inner label j. */
  ghost predicate Sweep(keys: seq<String>, abs: seq<Option<nat>>, b: seq<seq<Tab>>,
                        groups: map<String, seq<Tab>>, merged: set<String>, i: nat, j: nat) {
    && FollowsRule(keys, abs) && |b| == |abs| == |keys| && NoDup(keys) && i <= j <= |keys|
    && (forall s :: s in groups ==> s in keys)
    && (forall t :: 0 <= t < |keys| ==> (keys[t] in groups <==> keys[t] !in merged))
    && (forall t :: 0 <= t < |keys| ==> (keys[t] in merged <==> Gone(abs, t, i, j)))
    && (forall t :: 0 <= t < |keys| && keys[t] in groups ==> groups[keys[t]] == Expected(abs, b, t, i, j))
  }

  lemma StartSweep(keys: seq<String>, abs: seq<Option<nat>>, groups: map<String, seq<Tab>>)
    requires FollowsRule(keys, abs) && |abs| == |keys|
    requires NoDup(keys) && forall s :: s in groups <==> s in keys
    ensures Sweep(keys, abs, BucketsOf(keys, groups), groups, {}, 0, 0)
  {
  }

  /** A label merged before its own turn is skipped. */
  lemma SkipOuter(keys: seq<String>, abs: seq<Option<nat>>, b: seq<seq<Tab>>,
                  groups: map<String, seq<Tab>>, merged: set<String>, i: nat)
    requires Sweep(keys, abs, b, groups, merged, i, i) && i < |keys| && keys[i] in merged
    ensures Sweep(keys, abs, b, groups, merged, i + 1, i + 1)
  {
    assert abs[i].Some?;
    forall t | 0 <= t < |keys| ensures Gone(abs, t, i, i) <==> Gone(abs, t, i + 1, i + 1) {
      assert Decided(keys, abs, t);
    }
    if i + 1 < |keys| {
      assert Merged(abs, b, i + 1, i + 1) == b[i + 1];
    }
  }

  /** A label not yet merged when its turn comes is a survivor, and starts its inner sweep. */
  lemma StartInner(keys: seq<String>, abs: seq<Option<nat>>, b: seq<seq<Tab>>,
                   groups: map<String, seq<Tab>>, merged: set<String>, i: nat)
    requires Sweep(keys, abs, b, groups, merged, i, i) && i < |keys| && keys[i] !in merged
    ensures abs[i].None? && Sweep(keys, abs, b, groups, merged, i, i + 1)
  {
    assert !Gone(abs, i, i, i);
    assert Decided(keys, abs, i);
  }

  /** An inner label that is already merged is skipped. */
  lemma SkipInner(keys: seq<String>, abs: seq<Option<nat>>, b: seq<seq<Tab>>,
                  groups: map<String, seq<Tab>>, merged: set<String>, i: nat, j: nat)
    requires Sweep(keys, abs, b, groups, merged, i, j) && i < j < |keys| && keys[j] in merged
    ensures Sweep(keys, abs, b, groups, merged, i, j + 1)
  {
    assert Gone(abs, j, i, j);
    assert Merged(abs, b, i, j + 1) == Merged(abs, b, i, j);
    forall t | 0 <= t < |keys|
      ensures Gone(abs, t, i, j + 1) == Gone(abs, t, i, j) && Expected(abs, b, t, i, j + 1) == Expected(abs, b, t, i, j)
    {
    }
  }

  /** An unmerged inner label that is too far from label i stays. */
  lemma KeepInner(keys: seq<String>, abs: seq<Option<nat>>, b: seq<seq<Tab>>,
                  groups: map<String, seq<Tab>>, merged: set<String>, i: nat, j: nat)
    requires Sweep(keys, abs, b, groups, merged, i, j) && i < j < |keys| && keys[j] !in merged
    requires !Close(keys[i], keys[j])
    ensures Sweep(keys, abs, b, groups, merged, i, j + 1)
  {
    assert Decided(keys, abs, j);
    assert abs[j] != Some(i);
    assert Merged(abs, b, i, j + 1) == Merged(abs, b, i, j);
  }

  /**
   * A label that is neither absorbed by a label before i nor a survivor
   * before it, and is close to the survivor i, is absorbed by i.
   */
  lemma AbsorbedBySurvivor(keys: seq<String>, abs: seq<Option<nat>>, i: nat, j: nat)
    requires FollowsRule(keys, abs) && i < j < |abs|
    requires abs[i].None? && Close(keys[i], keys[j])
    requires abs[j].None? || abs[j].value >= i
    ensures abs[j] == Some(i)
  {
    assert Decided(keys, abs, j);
  }

  /** An unmerged inner label close to label i is absorbed by it. */
  lemma AbsorbInner(keys: seq<String>, abs: seq<Option<nat>>, b: seq<seq<Tab>>,
                    groups: map<String, seq<Tab>>, merged: set<String>, i: nat, j: nat)
    requires Sweep(keys, abs, b, groups, merged, i, j) && i < j < |keys| && keys[j] !in merged
    requires abs[i].None? && keys[i] !in merged && Close(keys[i], keys[j])
    ensures keys[i] in groups && keys[j] in groups
    ensures Sweep(keys, abs, b, groups[keys[i] := groups[keys[i]] + groups[keys[j]]] - {keys[j]}, merged + {keys[j]}, i, j + 1)
  {
    assert !Gone(abs, j, i, j);
    AbsorbedBySurvivor(keys, abs, i, j);
    assert Merged(abs, b, i, j + 1) == Merged(abs, b, i, j) + b[j];
    var groups' := groups[keys[i] := groups[keys[i]] + groups[keys[j]]] - {keys[j]};
    forall t | 0 <= t < |keys| && keys[t] in groups' ensures groups'[keys[t]] == Expected(abs, b, t, i, j + 1) {
      if t != i {
        assert keys[t] != keys[i];
      }
    }
  }

  /** The inner loop of label i has run to the end of the keys. */
  lemma FinishInner(keys: seq<String>, abs: seq<Option<nat>>, b: seq<seq<Tab>>,
                    groups: map<String, seq<Tab>>, merged: set<String>, i: nat)
    requires Sweep(keys, abs, b, groups, merged, i, |keys|) && i < |keys| && abs[i].None?
    ensures Sweep(keys, abs, b, groups, merged, i + 1, i + 1)
  {
    forall t | 0 <= t < |keys| ensures Gone(abs, t, i, |keys|) <==> Gone(abs, t, i + 1, i + 1) {
      assert Decided(keys, abs, t);
    }
    if i + 1 < |keys| {
      assert Merged(abs, b, i + 1, i + 1) == b[i + 1];
    }
  }

  lemma FinishSweep(keys: seq<String>, abs: seq<Option<nat>>, b: seq<seq<Tab>>,
                    groups: map<String, seq<Tab>>, merged: set<String>)
    requires Sweep(keys, abs, b, groups, merged, |keys|, |keys|)
    ensures forall t :: 0 <= t < |keys| ==> (keys[t] in groups <==> abs[t].None?)
    ensures forall t :: 0 <= t < |keys| && abs[t].None? ==> groups[keys[t]] == Merged(abs, b, t, |keys|)
  {
    forall t | 0 <= t < |keys| ensures keys[t] in groups <==> abs[t].None? {
      assert Decided(keys, abs, t);
    }
  }

  /**
   * The nested loops over `keys` with the `merged` set: afterwards exactly the
   * surviving labels remain, each holding its own tabs followed by those of
   * the labels it absorbed.
   */
  method Consolidate(keys: seq<String>, finalGroups: map<String, seq<Tab>>) returns (groups: map<String, seq<Tab>>)
    requires NoDup(keys)
    requires forall s :: s in finalGroups <==> s in keys
    ensures forall s :: s in groups ==> s in keys
    ensures var abs := Absorbers(keys, |keys|);
      && (forall t :: 0 <= t < |keys| ==> (keys[t] in groups <==> abs[t].None?))
      && (forall t :: 0 <= t < |keys| && abs[t].None? ==>
            groups[keys[t]] == finalGroups[keys[t]] + Absorbed(abs, BucketsOf(keys, finalGroups), t, |keys|))
  {
    ghost var abs := Absorbers(keys, |keys|);
    ghost var b := BucketsOf(keys, finalGroups);
    AbsorbersFollowRule(keys, |keys|);
    groups := finalGroups;
    var merged: set<String> := {};
    StartSweep(keys, abs, finalGroups);
    for i := 0 to |keys|
      invariant Sweep(keys, abs, b, groups, merged, i, i)
    {
      if keys[i] in merged {
        SkipOuter(keys, abs, b, groups, merged, i);
      } else {
        StartInner(keys, abs, b, groups, merged, i);
        groups, merged := AbsorbLater(keys, i, groups, merged, abs, b);
        FinishInner(keys, abs, b, groups, merged, i);
      }
    }
    FinishSweep(keys, abs, b, groups, merged);
  }

  /**
   * The inner loop for a surviving label i: every later label not yet merged
   * that is within the threshold of label i is moved into it and marked as
   * merged.
   */
  method AbsorbLater(keys: seq<String>, i: nat, groups: map<String, seq<Tab>>, merged: set<String>,
                     ghost abs: seq<Option<nat>>, ghost b: seq<seq<Tab>>)
    returns (groups': map<String, seq<Tab>>, merged': set<String>)
    requires InnerSweep(keys, abs, b, groups, merged, i, i + 1)
    ensures keys[i] !in merged'
    ensures Sweep(keys, abs, b, groups', merged', i, |keys|)
  {
    groups', merged' := groups, merged;
    for j := i + 1 to |keys|
      invariant InnerSweep(keys, abs, b, groups', merged', i, j)
    {
      groups', merged' := InnerStep(keys, i, j, groups', merged', abs, b);
    }
  }

  /** The state of the inner loop of a surviving label i. */
  ghost predicate InnerSweep(keys: seq<String>, abs: seq<Option<nat>>, b: seq<seq<Tab>>,
                             groups: map<String, seq<Tab>>, merged: set<String>, i: nat, j: nat) {
    i < |abs| && i < |keys| && abs[i].None? && keys[i] !in merged && Sweep(keys, abs, b, groups, merged, i, j)
  }

  /** One pass of the inner loop, on the pair of labels i and j. */
  method InnerStep(keys: seq<String>, i: nat, j: nat, groups: map<String, seq<Tab>>, merged: set<String>,
                   ghost abs: seq<Option<nat>>, ghost b: seq<seq<Tab>>)
    returns (groups': map<String, seq<Tab>>, merged': set<String>)
    requires InnerSweep(keys, abs, b, groups, merged, i, j) && i < j < |keys|
    ensures InnerSweep(keys, abs, b, groups', merged', i, j + 1)
  {
    groups', merged' := groups, merged;
    if keys[j] in merged {
      SkipInner(keys, abs, b, groups, merged, i, j);
    } else {
      var d := LevenshteinDistance(keys[i], keys[j]);
      if d <= ConsolidationDistanceThreshold {
        AbsorbInner(keys, abs, b, groups, merged, i, j);
        groups' := groups[keys[i] := groups[keys[i]] + groups[keys[j]]] - {keys[j]};
        merged' := merged + {keys[j]};
      } else {
        KeepInner(keys, abs, b, groups, merged, i, j);
      }
    }
  }

  // ------------------------------------------------------------ after the sweep

  /**
   * `Object.entries(finalGroups)` once the sweep is done: deleting keys keeps
   * the relative order of the others, so the remaining keys come in the order
   * of `keys`.
   */
  function EntriesInOrder(keys: seq<String>, groups: map<String, seq<Tab>>, k: nat): seq<TopicGroup>
    requires k <= |keys|
  {
    if k == 0 then []
    else
      EntriesInOrder(keys, groups, k - 1)
      + (if keys[k - 1] in groups then [TopicGroup(keys[k - 1], groups[keys[k - 1]])] else [])
  }

  /** The entries the sweep leaves behind are exactly the consolidated ones. */
  lemma {:induction false} EntriesAfterSweep(keys: seq<String>, abs: seq<Option<nat>>, b: seq<seq<Tab>>,
                                             groups: map<String, seq<Tab>>, k: nat)
    requires |b| == |abs| == |keys| && k <= |keys|
    requires forall t :: 0 <= t < |keys| ==> (keys[t] in groups <==> abs[t].None?)
    requires forall t :: 0 <= t < |keys| && abs[t].None? ==> groups[keys[t]] == b[t] + Absorbed(abs, b, t, |keys|)
    ensures EntriesInOrder(keys, groups, k) == Survivors(keys, abs, b, k)
  {
    if k > 0 {
      EntriesAfterSweep(keys, abs, b, groups, k - 1);
    }
  }

  /** `Object.values(...).filter((t) => t.length > 0)`. */
  function NonEmptyLists(gs: seq<TopicGroup>): seq<seq<Tab>> {
    if gs == [] then []
    else
      var last := gs[|gs| - 1];
      NonEmptyLists(gs[..|gs| - 1]) + (if |last.tabs| > 0 then [last.tabs] else [])
  }

  /** The filter drops no tab. */
  lemma {:induction false} NonEmptyListsKeepTabs(gs: seq<TopicGroup>)
    ensures Flatten(NonEmptyLists(gs)) == AllTabs(gs)
  {
    if gs != [] {
      var pre, last := gs[..|gs| - 1], gs[|gs| - 1];
      NonEmptyListsKeepTabs(pre);
      assert gs == pre + [last];
      AllTabsAppend(pre, last);
      if |last.tabs| > 0 {
        FlattenAppend(NonEmptyLists(pre), last.tabs);
      } else {
        assert AllTabs(pre) + last.tabs == AllTabs(pre);
        assert NonEmptyLists(gs) == NonEmptyLists(pre);
      }
    }
  }

  /** Every list the filter keeps is non-empty, and it keeps every entry when none is empty. */
  lemma {:induction false} NonEmptyListsShape(gs: seq<TopicGroup>)
    ensures forall p :: 0 <= p < |NonEmptyLists(gs)| ==> NonEmptyLists(gs)[p] != []
    ensures (forall p :: 0 <= p < |gs| ==> gs[p].tabs != []) ==>
      |NonEmptyLists(gs)| == |gs| && forall p :: 0 <= p < |gs| ==> NonEmptyLists(gs)[p] == gs[p].tabs
  {
    if gs != [] {
      NonEmptyListsShape(gs[..|gs| - 1]);
    }
  }

  /**
   * `Object.keys(finalGroups)`: each topic of a grouped assignment once, in
   * the object's own key order.
   */
  function Keys(assignments: seq<Assignment>): (keys: seq<String>)
    ensures NoDup(keys)
    ensures forall s :: s in keys <==> s in TopicOrder(assignments)
  {
    TopicOrderSpec(assignments);
    var keys := OwnKeyOrder(TopicOrder(assignments));
    OwnKeyOrderPermutes(TopicOrder(assignments));
    assert forall s :: s in keys <==> s in multiset(keys);
    keys
  }

  /** The buckets of the keys, in key order. */
  function KeyBuckets(assignments: seq<Assignment>, keys: seq<String>): (b: seq<seq<Tab>>)
    ensures |b| == |keys| && forall t :: 0 <= t < |keys| ==> b[t] == Bucket(assignments, keys[t])
  {
    seq(|keys|, t requires 0 <= t < |keys| => Bucket(assignments, keys[t]))
  }

  /** The lists `Object.values(finalGroups).filter((t) => t.length > 0)` gives when nothing throws. */
  function FinalLists(assignments: seq<Assignment>): seq<seq<Tab>> {
    var keys := Keys(assignments);
    NonEmptyLists(Consolidated(keys, KeyBuckets(assignments, keys)))
  }

  /**
   * Lines 674-700 end to end: group the assignments, sweep
   * `Object.keys(finalGroups)`, and keep the non-empty lists. It throws
   * exactly when an assignment is filed under an inherited name. Otherwise
   * the entries are the consolidated buckets; every list is non-empty and no
   * bucketed tab is lost or duplicated; the result is empty exactly when no
   * assignment was filed under a topic, which is when the sorter gives up.
   */
  method GroupAndConsolidate(assignments: seq<Assignment>)
    returns (ok: bool, entries: seq<TopicGroup>, multiTabGroups: seq<seq<Tab>>)
    ensures ok <==> NoneThrows(assignments)
    ensures ok ==> entries == Consolidated(Keys(assignments), KeyBuckets(assignments, Keys(assignments)))
    ensures ok ==> multiTabGroups == FinalLists(assignments)
    ensures ok ==> |multiTabGroups| == |entries|
    ensures ok ==> forall p :: 0 <= p < |multiTabGroups| ==> multiTabGroups[p] == entries[p].tabs && multiTabGroups[p] != []
    ensures ok ==> multiset(Flatten(multiTabGroups)) == multiset(AllTabs(entries))
    ensures ok ==> (multiTabGroups == [] <==> forall p :: 0 <= p < |assignments| ==> !Grouped(assignments[p]))
  {
    var finalGroups, added;
    ok, finalGroups, added := GroupByTopic(assignments);
    if !ok {
      return false, [], [];
    }
    TopicOrderSpec(assignments);
    OwnKeyOrderPermutes(added);
    var keys := OwnKeyOrder(added);
    assert keys == Keys(assignments);
    var groups := Consolidate(keys, finalGroups);
    BucketsAreFiled(assignments, keys, finalGroups);
    EntriesAfterSweep(keys, Absorbers(keys, |keys|), BucketsOf(keys, finalGroups), groups, |keys|);
    entries := EntriesInOrder(keys, groups, |keys|);
    multiTabGroups := NonEmptyLists(entries);
    ConsolidatedLists(keys, KeyBuckets(assignments, keys));
    KeysEmpty(assignments);
  }

  /** There is no key exactly when no assignment is filed under a topic. */
  lemma KeysEmpty(assignments: seq<Assignment>)
    ensures Keys(assignments) == [] <==> forall p :: 0 <= p < |assignments| ==> !Grouped(assignments[p])
  {
    TopicOrderSpec(assignments);
    var keys := Keys(assignments);
    if keys != [] {
      assert keys[0] in TopicOrder(assignments);
    }
    forall p | 0 <= p < |assignments| && Grouped(assignments[p]) ensures keys != [] {
      assert assignments[p].topic in TopicOrder(assignments);
    }
  }

  /** The lists `finalGroups` holds for the keys are the non-empty buckets. */
  lemma BucketsAreFiled(assignments: seq<Assignment>, keys: seq<String>, finalGroups: map<String, seq<Tab>>)
    requires forall t :: 0 <= t < |keys| ==> keys[t] in finalGroups
    requires forall s :: s in finalGroups ==> finalGroups[s] == Bucket(assignments, s) && finalGroups[s] != []
    ensures BucketsOf(keys, finalGroups) == KeyBuckets(assignments, keys)
    ensures forall t :: 0 <= t < |keys| ==> KeyBuckets(assignments, keys)[t] != []
  {
  }

  /** Over non-empty buckets the filter keeps every consolidated entry, and there is one whenever there is a key. */
  lemma ConsolidatedLists(keys: seq<String>, b: seq<seq<Tab>>)
    requires |b| == |keys| && forall t :: 0 <= t < |b| ==> b[t] != []
    ensures var r := Consolidated(keys, b);
      var m := NonEmptyLists(r);
      && |m| == |r|
      && (forall p :: 0 <= p < |m| ==> m[p] == r[p].tabs && m[p] != [])
      && Flatten(m) == AllTabs(r)
      && (m == [] <==> keys == [])
  {
    ConsolidatedNonEmpty(keys, b);
    NonEmptyListsKeepTabs(Consolidated(keys, b));
    NonEmptyListsShape(Consolidated(keys, b));
    ConsolidatedShape(keys, b);
  }

  // ------------------------------------------------------------ what ends up in the groups

  /** The tabs of the assignments filed under a topic, in assignment order. */
  function FiledTabs(assignments: seq<Assignment>): (r: seq<Tab>)
    ensures forall k :: 0 <= k < |r| ==> r[k].connected
  {
    TabsOf(Filter(assignments, Grouped))
  }

  /** One more assignment adds its tab to the filed tabs exactly when it is filed. */
  lemma FiledSnoc(pre: seq<Assignment>, a: Assignment)
    ensures FiledTabs(pre + [a]) == FiledTabs(pre) + if Grouped(a) then [a.tab] else []
  {
    assert (pre + [a])[..|pre|] == pre;
    var kept := Filter(pre, Grouped);
    if Grouped(a) {
      assert TabsOf(kept + [a]) == TabsOf(kept) + [a.tab];
    }
  }

  /** Filing takes each tab at most as often as the assignments name it. */
  lemma {:induction false} FiledWithin(assignments: seq<Assignment>)
    ensures multiset(FiledTabs(assignments)) <= multiset(TabsOf(assignments))
  {
    if assignments != [] {
      var n := |assignments| - 1;
      var pre, a := assignments[..n], assignments[n];
      FiledWithin(pre);
      assert assignments == pre + [a];
      assert TabsOf(assignments) == TabsOf(pre) + [a.tab];
      FiledSnoc(pre, a);
    }
  }

  /** The buckets of distinct keys that cover every filed topic hold exactly the filed tabs. */
  lemma {:induction false} BucketsHoldFiled(assignments: seq<Assignment>, keys: seq<String>)
    requires NoDup(keys)
    requires forall p :: 0 <= p < |assignments| && Grouped(assignments[p]) ==> assignments[p].topic in keys
    ensures multiset(Flatten(KeyBuckets(assignments, keys))) == multiset(FiledTabs(assignments))
  {
    if assignments == [] {
      FlattenEmpties(KeyBuckets(assignments, keys));
    } else {
      var n := |assignments| - 1;
      var pre, a := assignments[..n], assignments[n];
      assert assignments == pre + [a];
      forall p | 0 <= p < |pre| && Grouped(pre[p]) ensures pre[p].topic in keys {
        assert pre[p] == assignments[p];
      }
      BucketsHoldFiled(pre, keys);
      if Grouped(a) {
        var t :| 0 <= t < |keys| && keys[t] == a.topic;
        BucketsSnocFiled(pre, a, keys, t);
        FlattenUpdate(KeyBuckets(pre, keys), t, a.tab);
      } else {
        BucketsSnocSkipped(pre, a, keys);
      }
      FiledSnoc(pre, a);
    }
  }

  /** A filed assignment adds its tab to the bucket of its own key only. */
  lemma BucketsSnocFiled(pre: seq<Assignment>, a: Assignment, keys: seq<String>, t: nat)
    requires NoDup(keys) && Grouped(a) && t < |keys| && keys[t] == a.topic
    ensures KeyBuckets(pre + [a], keys) == KeyBuckets(pre, keys)[t := KeyBuckets(pre, keys)[t] + [a.tab]]
  {
    GroupSnoc(pre, a);
    forall u | 0 <= u < |keys| && u != t ensures keys[u] != a.topic {
      if u < t { assert keys[u] != keys[t]; } else { assert keys[t] != keys[u]; }
    }
    var b, b' := KeyBuckets(pre, keys), KeyBuckets(pre + [a], keys);
    forall u | 0 <= u < |keys| ensures b'[u] == b[t := b[t] + [a.tab]][u] {
      assert b'[u] == Bucket(pre + [a], keys[u]);
    }
  }

  /** An assignment that is not filed leaves every bucket as it is. */
  lemma BucketsSnocSkipped(pre: seq<Assignment>, a: Assignment, keys: seq<String>)
    requires !Grouped(a)
    ensures KeyBuckets(pre + [a], keys) == KeyBuckets(pre, keys)
  {
    GroupSnoc(pre, a);
    var b, b' := KeyBuckets(pre, keys), KeyBuckets(pre + [a], keys);
    forall u | 0 <= u < |keys| ensures b'[u] == b[u] {
      assert b'[u] == Bucket(pre + [a], keys[u]);
    }
  }

  /** The consolidated groups hold exactly the tabs of the assignments filed under a topic. */
  lemma GroupedTabsFiled(assignments: seq<Assignment>)
    ensures var keys := Keys(assignments);
      multiset(AllTabs(Consolidated(keys, KeyBuckets(assignments, keys)))) == multiset(FiledTabs(assignments))
  {
    var keys := Keys(assignments);
    TopicOrderSpec(assignments);
    forall p | 0 <= p < |assignments| && Grouped(assignments[p]) ensures assignments[p].topic in keys {
      assert assignments[p].topic in TopicOrder(assignments);
    }
    BucketsHoldFiled(assignments, keys);
    ConsolidationConserves(keys, KeyBuckets(assignments, keys));
  }
}
