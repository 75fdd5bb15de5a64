/** Small value types and sequence helpers shared by every component. */
module Common {

  /** JavaScript's `null`/`undefined` next to a present value. */
  datatype Option<T> = None | Some(value: T)

  /** No element occurs twice. */
  predicate NoDup<T(==)>(s: seq<T>) {
    forall p, q :: 0 <= p < q < |s| ==> s[p] != s[q]
  }

  /** Strictly increasing sequence of indices. */
  predicate Increasing(s: seq<nat>) {
    forall p, q :: 0 <= p < q < |s| ==> s[p] < s[q]
  }

  /** The distinct elements of `s`, in order of first occurrence. */
  function Dedup<T(==)>(s: seq<T>): (r: seq<T>)
    ensures NoDup(r)
    ensures forall i :: 0 <= i < |r| ==> r[i] in s
    ensures forall i :: 0 <= i < |s| ==> s[i] in r
    ensures |r| <= |s|
  {
    if s == [] then []
    else
      var d := Dedup(s[..|s| - 1]);
      if s[|s| - 1] in d then d else d + [s[|s| - 1]]
  }

  /** `Array.prototype.filter`: the elements satisfying p, in order. */
  function Filter<T>(s: seq<T>, p: T -> bool): (r: seq<T>)
    ensures |r| <= |s|
    ensures forall k :: 0 <= k < |r| ==> p(r[k])
  {
    if s == [] then [] else Filter(s[..|s| - 1], p) + (if p(s[|s| - 1]) then [s[|s| - 1]] else [])
  }

  /** Each element is kept as often as it occurs, when it satisfies p, and dropped otherwise. */
  lemma {:induction false} FilterCount<T(!new)>(s: seq<T>, p: T -> bool)
    ensures forall x :: multiset(Filter(s, p))[x] == if p(x) then multiset(s)[x] else 0
  {
    if s != [] {
      var s', last := s[..|s| - 1], s[|s| - 1];
      FilterCount(s', p);
      assert s == s' + [last];
    }
  }

  /** Filtering distributes over concatenation, so it keeps the relative order of what it keeps. */
  lemma {:induction false} FilterAppend<T>(a: seq<T>, b: seq<T>, p: T -> bool)
    ensures Filter(a + b, p) == Filter(a, p) + Filter(b, p)
    decreases |b|
  {
    if b != [] {
      var b', last := b[..|b| - 1], b[|b| - 1];
      FilterAppend(a, b', p);
      var ab := a + b;
      assert ab[|ab| - 1] == last;
      assert ab[..|ab| - 1] == a + b';
    } else {
      assert a + b == a;
    }
  }

  /** A kept element put in front stays in front of the filtered rest. */
  lemma FilterConsKeep<T>(h: T, t: seq<T>, p: T -> bool)
    requires p(h)
    ensures Filter([h] + t, p) == [h] + Filter(t, p)
  {
    FilterAppend([h], t, p);
    assert Filter([h], p) == Filter([], p) + [h];
  }

  /** A dropped element put in front changes nothing. */
  lemma FilterConsDrop<T>(h: T, t: seq<T>, p: T -> bool)
    requires !p(h)
    ensures Filter([h] + t, p) == Filter(t, p)
  {
    FilterAppend([h], t, p);
    assert Filter([h], p) == Filter([], p);
  }

  /** Putting the same element in front of two sequences keeps what their filters differ by. */
  lemma FilterConsShift<T>(h: T, r: seq<T>, t: seq<T>, added: seq<T>, p: T -> bool)
    requires Filter(r, p) == Filter(t, p) + added
    ensures Filter([h] + r, p) == Filter([h] + t, p) + added
  {
    if p(h) {
      FilterConsKeep(h, r, p);
      FilterConsKeep(h, t, p);
    } else {
      FilterConsDrop(h, r, p);
      FilterConsDrop(h, t, p);
    }
  }

  /** Nothing is dropped when every element satisfies p. */
  lemma {:induction false} FilterAll<T>(s: seq<T>, p: T -> bool)
    requires forall k :: 0 <= k < |s| ==> p(s[k])
    ensures Filter(s, p) == s
  {
    if s != [] {
      FilterAll(s[..|s| - 1], p);
    }
  }

  /** Everything is dropped when no element satisfies p. */
  lemma {:induction false} FilterNone<T>(s: seq<T>, p: T -> bool)
    requires forall k :: 0 <= k < |s| ==> !p(s[k])
    ensures Filter(s, p) == []
  {
    if s != [] {
      FilterNone(s[..|s| - 1], p);
    }
  }
  /** Filtering keeps only elements of its input. */
  lemma {:induction false} FilterSubset<T>(s: seq<T>, p: T -> bool, x: T)
    requires x in Filter(s, p)
    ensures x in s && p(x)
  {
    var s', last := s[..|s| - 1], s[|s| - 1];
    if x != last || !p(last) {
      FilterSubset(s', p, x);
    }
  }

  /** Filtering keeps only elements of the input, so it keeps distinctness. */
  lemma {:induction false} FilterNoDup<T>(s: seq<T>, p: T -> bool)
    requires NoDup(s)
    ensures NoDup(Filter(s, p))
    ensures forall x :: x in Filter(s, p) ==> x in s
  {
    if s != [] {
      var s', last := s[..|s| - 1], s[|s| - 1];
      assert NoDup(s') by {
        forall i, j | 0 <= i < j < |s'| ensures s'[i] != s'[j] {
          assert s'[i] == s[i] && s'[j] == s[j];
        }
      }
      FilterNoDup(s', p);
      assert last !in s' by {
        forall k | 0 <= k < |s'| ensures s'[k] != last {
          assert s'[k] == s[k];
        }
      }
      if p(last) {
        NoDupAppend(Filter(s', p), [last]);
      }
    }
  }

  lemma MultisetSnoc<T>(s: seq<T>)
    requires s != []
    ensures multiset(s) == multiset(s[..|s| - 1]) + multiset{s[|s| - 1]}
  {
    assert s == s[..|s| - 1] + [s[|s| - 1]];
  }

  /** Concatenation of a sequence of sequences, in order. */
  function Flatten<T>(ss: seq<seq<T>>): seq<T> {
    if ss == [] then [] else Flatten(ss[..|ss| - 1]) + ss[|ss| - 1]
  }

  lemma {:induction false} FlattenAppend<T>(ss: seq<seq<T>>, t: seq<T>)
    ensures Flatten(ss + [t]) == Flatten(ss) + t
  {
    assert (ss + [t])[..|ss|] == ss;
  }

  /** Flattening sequences that are all empty gives the empty sequence. */
  lemma {:induction false} FlattenEmpties<T>(ss: seq<seq<T>>)
    requires forall k :: 0 <= k < |ss| ==> ss[k] == []
    ensures Flatten(ss) == []
  {
    if ss != [] {
      FlattenEmpties(ss[..|ss| - 1]);
    }
  }

  /** Appending y to one of the inner sequences adds y once to the flattening. */
  lemma {:induction false} FlattenUpdate<T>(ss: seq<seq<T>>, t: nat, y: T)
    requires t < |ss|
    ensures multiset(Flatten(ss[t := ss[t] + [y]])) == multiset(Flatten(ss)) + multiset{y}
  {
    var n := |ss| - 1;
    var grown := ss[t := ss[t] + [y]];
    assert Flatten(grown) == Flatten(grown[..n]) + grown[n];
    assert Flatten(ss) == Flatten(ss[..n]) + ss[n];
    if t == n {
      assert grown[..n] == ss[..n];
    } else {
      assert grown[..n] == ss[..n][t := ss[..n][t] + [y]];
      FlattenUpdate(ss[..n], t, y);
    }
  }

  lemma {:induction false} NoDupAppend<T>(a: seq<T>, b: seq<T>)
    requires NoDup(a) && NoDup(b)
    requires forall x :: x in a ==> x !in b
    ensures NoDup(a + b)
  {
    forall p, q | 0 <= p < q < |a + b|
      ensures (a + b)[p] != (a + b)[q]
    {
      if q < |a| {
      } else if p < |a| {
        assert (a + b)[p] in a && (a + b)[q] in b;
      } else {
      }
    }
  }
}
