/**
 * The order in which a plain JavaScript object lists its own string keys
 * (`Object.keys`, `Object.values`, `Object.entries`, `for … in`): keys that
 * are array indices come first in ascending numeric order, all other keys
 * follow in the order they were first added. The sorter relies on this order
 * for its topic buckets (ai-tabs.uc.js:674-700) and its keyword counts
 * (ai-tabs.uc.js:543-547).
 */
module JsObject {
  import opened Common
  import opened JsText

  predicate IsDigit(c: char) { '0' <= c <= '9' }

  /** The number a string of decimal digits denotes. */
  function DigitsValue(s: String): nat
    requires forall k :: 0 <= k < |s| ==> IsDigit(s[k])
  {
    if s == [] then 0
    else
      assert IsDigit(s[|s| - 1]);
      DigitsValue(s[..|s| - 1]) * 10 + (s[|s| - 1] as int - '0' as int)
  }

  /** The largest array index plus one: 2^32 - 1. */
  const ArrayIndexLimit: nat := 0xFFFF_FFFF

  /** A canonical array index: decimal digits without a leading zero, below 2^32 - 1. */
  predicate IsArrayIndex(k: String) {
    && |k| > 0
    && (forall i :: 0 <= i < |k| ==> IsDigit(k[i]))
    && (k[0] == '0' ==> |k| == 1)
    && DigitsValue(k) < ArrayIndexLimit
  }

  function IndexValue(k: String): nat
    requires IsArrayIndex(k)
  {
    DigitsValue(k)
  }

  /** Two canonical digit strings with the same value are the same string. */
  lemma DigitsValueInjective(a: String, b: String)
    requires IsArrayIndex(a) && IsArrayIndex(b) && IndexValue(a) == IndexValue(b)
    ensures a == b
  {
    if |a| < |b| {
      ShorterIsSmaller(a, b);
    } else if |b| < |a| {
      ShorterIsSmaller(b, a);
    } else {
      DigitsInjectiveSameLength(a, b);
    }
  }

  /** A canonical index with fewer digits has a smaller value. */
  lemma ShorterIsSmaller(a: String, b: String)
    requires IsArrayIndex(a) && IsArrayIndex(b) && |a| < |b|
    ensures IndexValue(a) < IndexValue(b)
  {
    DigitsRange(a);
    LeadingDigit(b);
    Pow10Monotone(|a|, |b| - 1);
  }

  lemma {:induction false} Pow10Monotone(m: nat, n: nat)
    requires m <= n
    ensures Pow10(m) <= Pow10(n)
    decreases n
  {
    if m < n {
      Pow10Monotone(m, n - 1);
    }
  }

  /** Digit strings of the same length with the same value are equal. */
  lemma {:induction false} DigitsInjectiveSameLength(a: String, b: String)
    requires forall k :: 0 <= k < |a| ==> IsDigit(a[k])
    requires forall k :: 0 <= k < |b| ==> IsDigit(b[k])
    requires |a| == |b| && DigitsValue(a) == DigitsValue(b)
    ensures a == b
  {
    if a != [] {
      var a', b' := a[..|a| - 1], b[..|b| - 1];
      var da, db := a[|a| - 1] as int - '0' as int, b[|b| - 1] as int - '0' as int;
      assert DigitsValue(a) == DigitsValue(a') * 10 + da;
      assert DigitsValue(b) == DigitsValue(b') * 10 + db;
      assert da == db;
      DigitsInjectiveSameLength(a', b');
      assert a == a' + [a[|a| - 1]] && b == b' + [b[|b| - 1]];
    }
  }

  function Pow10(n: nat): nat { if n == 0 then 1 else 10 * Pow10(n - 1) }

  lemma {:induction false} DigitsRange(s: String)
    requires forall k :: 0 <= k < |s| ==> IsDigit(s[k])
    ensures DigitsValue(s) < Pow10(|s|)
  {
    if s != [] {
      DigitsRange(s[..|s| - 1]);
    }
  }

  /** A digit string that starts with a non-zero digit is worth at least 10^(n-1). */
  lemma {:induction false} LeadingDigit(s: String)
    requires |s| > 0 && (forall k :: 0 <= k < |s| ==> IsDigit(s[k])) && s[0] != '0'
    ensures DigitsValue(s) >= Pow10(|s| - 1)
  {
    if |s| > 1 {
      var s' := s[..|s| - 1];
      assert s'[0] == s[0];
      LeadingDigit(s');
    }
  }

  /** Array-index keys ordered by their numeric value. */
  predicate AscendingIndices(ks: seq<String>) {
    && (forall k :: 0 <= k < |ks| ==> IsArrayIndex(ks[k]))
    && (forall p, q :: 0 <= p < q < |ks| ==> IndexValue(ks[p]) < IndexValue(ks[q]))
  }

  /** Every key in ks is worth more than v. */
  predicate AllAbove(v: int, ks: seq<String>)
    requires forall k :: 0 <= k < |ks| ==> IsArrayIndex(ks[k])
  {
    forall k :: 0 <= k < |ks| ==> IndexValue(ks[k]) > v
  }

  /** Places an array-index key among ascending ones. */
  function InsertIndex(x: String, ks: seq<String>): (r: seq<String>)
    requires IsArrayIndex(x) && AscendingIndices(ks) && x !in ks
    ensures AscendingIndices(r)
    ensures |r| == |ks| + 1
    ensures forall y :: y in r <==> y == x || y in ks
    ensures forall v :: IndexValue(x) > v && AllAbove(v, ks) ==> AllAbove(v, r)
  {
    if ks == [] then [x]
    else if IndexValue(x) < IndexValue(ks[0]) then
      ConsAscending(x, ks);
      [x] + ks
    else
      assert IndexValue(ks[0]) < IndexValue(x) by {
        if IndexValue(x) == IndexValue(ks[0]) {
          DigitsValueInjective(x, ks[0]);
        }
      }
      var rest := InsertIndex(x, ks[1..]);
      assert forall y :: y in ks <==> y == ks[0] || y in ks[1..] by {
        assert ks == [ks[0]] + ks[1..];
      }
      assert AllAbove(IndexValue(ks[0]), ks[1..]);
      ConsAscending(ks[0], rest);
      [ks[0]] + rest
  }

  /** A key below every key of an ascending sequence can go in front of it. */
  lemma ConsAscending(h: String, t: seq<String>)
    requires IsArrayIndex(h) && AscendingIndices(t) && AllAbove(IndexValue(h), t)
    ensures AscendingIndices([h] + t)
    ensures forall v :: IndexValue(h) > v && AllAbove(v, t) ==> AllAbove(v, [h] + t)
  {
    var r := [h] + t;
    assert forall k :: 0 < k < |r| ==> r[k] == t[k - 1];
  }

  /** Inserting adds exactly one occurrence of x and keeps every other key. */
  lemma {:induction false} InsertIndexCount(x: String, ks: seq<String>)
    requires IsArrayIndex(x) && AscendingIndices(ks) && x !in ks
    ensures multiset(InsertIndex(x, ks)) == multiset(ks) + multiset{x}
  {
    if ks != [] && IndexValue(x) >= IndexValue(ks[0]) {
      InsertIndexCount(x, ks[1..]);
      InsertIndexCountStep(x, ks);
    }
  }

  lemma InsertIndexCountStep(x: String, ks: seq<String>)
    requires IsArrayIndex(x) && AscendingIndices(ks) && x !in ks
    requires ks != [] && IndexValue(x) >= IndexValue(ks[0])
    requires multiset(InsertIndex(x, ks[1..])) == multiset(ks[1..]) + multiset{x}
    ensures multiset(InsertIndex(x, ks)) == multiset(ks) + multiset{x}
  {
    assert InsertIndex(x, ks) == [ks[0]] + InsertIndex(x, ks[1..]);
    assert ks == [ks[0]] + ks[1..];
  }

  /** Sorts distinct array-index keys by value. */
  function SortIndices(ks: seq<String>): (r: seq<String>)
    requires forall k :: 0 <= k < |ks| ==> IsArrayIndex(ks[k])
    requires NoDup(ks)
    ensures AscendingIndices(r)
    ensures |r| == |ks|
    ensures forall y :: y in r <==> y in ks
  {
    if ks == [] then []
    else
      var init, last := ks[..|ks| - 1], ks[|ks| - 1];
      assert last !in init by {
        forall k | 0 <= k < |init| ensures init[k] != last {
          assert init[k] == ks[k];
        }
      }
      assert forall y :: y in ks <==> y == last || y in init by {
        assert ks == init + [last];
      }
      InsertIndex(last, SortIndices(init))
  }

  lemma {:induction false} SortIndicesCount(ks: seq<String>)
    requires forall k :: 0 <= k < |ks| ==> IsArrayIndex(ks[k])
    requires NoDup(ks)
    ensures multiset(SortIndices(ks)) == multiset(ks)
  {
    if ks != [] {
      var init, last := ks[..|ks| - 1], ks[|ks| - 1];
      assert last !in init by {
        forall k | 0 <= k < |init| ensures init[k] != last {
          assert init[k] == ks[k];
        }
      }
      SortIndicesCount(init);
      InsertIndexCount(last, SortIndices(init));
      assert ks == init + [last];
    }
  }

  /**
   * The own-key order of an object whose keys were first added in the order
   * `inserted`.
   */
  function OwnKeyOrder(inserted: seq<String>): (r: seq<String>)
    requires NoDup(inserted)
  {
    var indices := Filter(inserted, IsArrayIndex);
    FilterNoDup(inserted, IsArrayIndex);
    SortIndices(indices) + Filter(inserted, k => !IsArrayIndex(k))
  }

  // ------------------------------------------------------------ properties

  /** The listed keys are exactly the added keys, each once. */
  lemma OwnKeyOrderPermutes(inserted: seq<String>)
    requires NoDup(inserted)
    ensures multiset(OwnKeyOrder(inserted)) == multiset(inserted)
    ensures NoDup(OwnKeyOrder(inserted))
  {
    var a, b := Filter(inserted, IsArrayIndex), Filter(inserted, k => !IsArrayIndex(k));
    FilterNoDup(inserted, IsArrayIndex);
    FilterNoDup(inserted, k => !IsArrayIndex(k));
    var sorted := SortIndices(a);
    SortIndicesCount(a);
    FilterCount(inserted, IsArrayIndex);
    FilterCount(inserted, k => !IsArrayIndex(k));
    assert multiset(sorted) + multiset(b) == multiset(inserted) by {
      forall x ensures (multiset(a) + multiset(b))[x] == multiset(inserted)[x] {
      }
    }
    AscendingNoDup(sorted);
    assert forall x :: x in sorted ==> x !in b;
    NoDupAppend(sorted, b);
  }

  lemma AscendingNoDup(ks: seq<String>)
    requires AscendingIndices(ks)
    ensures NoDup(ks)
  {
  }

  /**
   * Array-index keys come first, in ascending numeric order; the other keys
   * follow in the order they were added.
   */
  lemma OwnKeyOrderShape(inserted: seq<String>)
    requires NoDup(inserted)
    ensures var r := OwnKeyOrder(inserted);
      var n := |Filter(inserted, IsArrayIndex)|;
      && n <= |r|
      && AscendingIndices(r[..n])
      && r[n..] == Filter(inserted, k => !IsArrayIndex(k))
  {
    var indices := Filter(inserted, IsArrayIndex);
    FilterNoDup(inserted, IsArrayIndex);
    var sorted := SortIndices(indices);
    assert |sorted| == |indices| by {
      assert |multiset(sorted)| == |multiset(indices)|;
    }
    var r := OwnKeyOrder(inserted);
    assert r[..|indices|] == sorted;
  }

  /** An object without array-index keys lists its keys in insertion order. */
  lemma OwnKeyOrderNoIndices(inserted: seq<String>)
    requires NoDup(inserted)
    requires forall k :: 0 <= k < |inserted| ==> !IsArrayIndex(inserted[k])
    ensures OwnKeyOrder(inserted) == inserted
  {
    FilterAll(inserted, k => !IsArrayIndex(k));
    FilterNone(inserted, IsArrayIndex);
  }
}
