/**
 * `levenshteinDistance` (ai-tabs.uc.js:221-241), modelled as written.
 *
 * The table has one row per character of `b` and one column per character of
 * `a`, but the substitution cost of cell (i, j) compares `a[i-1]` with
 * `b[j-1]`. When the lengths differ this reads past the end of one string;
 * JavaScript gives `undefined` there, which equals no character. The result is
 * the textbook edit distance only for strings of equal length.
 */
module EditDistance {
  import opened Common
  import opened JsText

  function Min3(x: nat, y: nat, z: nat): nat {
    if x <= y && x <= z then x else if y <= z then y else z
  }

  function Max(x: nat, y: nat): nat { if x >= y then x else y }

  /** `s[k]` in JavaScript: `undefined` outside the string. */
  function CharAt(s: String, k: int): Option<char> {
    if 0 <= k < |s| then Some(s[k]) else None
  }

  /** The cost term of cell (i, j): `a[i - 1] === b[j - 1] ? 0 : 1`. */
  function Cost(a: String, b: String, i: nat, j: nat): nat {
    if CharAt(a, i - 1) == CharAt(b, j - 1) then 0 else 1
  }

  /** `matrix[i][j]` after the loops have filled it: the first row and column hold their index. */
  function Table(a: String, b: String, i: nat, j: nat): nat
    requires i <= |b| && j <= |a|
    decreases i + j, 1
  {
    if i == 0 then j
    else if j == 0 then i
    else Inner(a, b, i, j)
  }

  /** An inner cell: the cheapest of deletion, insertion and substitution. */
  function Inner(a: String, b: String, i: nat, j: nat): nat
    requires 0 < i <= |b| && 0 < j <= |a|
    decreases i + j, 0
  {
    Min3(Table(a, b, i - 1, j) + 1, Table(a, b, i, j - 1) + 1, Table(a, b, i - 1, j - 1) + Cost(a, b, i, j))
  }

  /** The value `levenshteinDistance(a, b)` returns. */
  function Distance(a: String, b: String): nat {
    if |a| == 0 || |b| == 0 then Max(|a|, |b|)
    else Table(ToLower(a), ToLower(b), |b|, |a|)
  }

  /** The dynamic-programming computation, filling the table row by row. */
  method LevenshteinDistance(a: String, b: String) returns (d: nat)
    ensures d == Distance(a, b)
  {
    if |a| == 0 || |b| == 0 {
      return Max(|a|, |b|);
    }
    var la := ToLower(a);
    var lb := ToLower(b);
    var matrix := new nat[|lb| + 1, |la| + 1];
    for i := 0 to |lb| + 1
      invariant forall r :: 0 <= r < i ==> matrix[r, 0] == r
    {
      matrix[i, 0] := i;
    }
    for j := 0 to |la| + 1
      invariant forall c :: 0 <= c < j ==> matrix[0, c] == c
      invariant forall r :: 1 <= r <= |lb| ==> matrix[r, 0] == r
    {
      matrix[0, j] := j;
    }
    for i := 1 to |lb| + 1
      invariant RowsFilled(matrix, la, lb, i)
      invariant forall r :: i <= r <= |lb| ==> matrix[r, 0] == r
    {
      FillRow(matrix, la, lb, i);
    }
    d := matrix[|lb|, |la|];
  }

  /** Rows 0 .. n - 1 of the matrix hold the table. */
  ghost predicate RowsFilled(matrix: array2<nat>, la: String, lb: String, n: nat)
    reads matrix
  {
    && matrix.Length0 == |lb| + 1 && matrix.Length1 == |la| + 1 && n <= |lb| + 1
    && forall r, c {:trigger matrix[r, c]} :: 0 <= r < n && 0 <= c <= |la| ==> matrix[r, c] == Table(la, lb, r, c)
  }

  /** One pass of the inner loop: fills row i from row i - 1. */
  method FillRow(matrix: array2<nat>, la: String, lb: String, i: nat)
    requires 1 <= i <= |lb| && RowsFilled(matrix, la, lb, i) && matrix[i, 0] == i
    modifies matrix
    ensures RowsFilled(matrix, la, lb, i + 1)
    ensures forall r, c :: 0 <= r < matrix.Length0 && r != i && 0 <= c < matrix.Length1 ==> matrix[r, c] == old(matrix[r, c])
  {
    for j := 1 to |la| + 1
      invariant RowsFilled(matrix, la, lb, i)
      invariant forall c {:trigger matrix[i, c]} :: 0 <= c < j ==> matrix[i, c] == Table(la, lb, i, c)
      invariant forall r, c :: 0 <= r < matrix.Length0 && r != i && 0 <= c < matrix.Length1 ==> matrix[r, c] == old(matrix[r, c])
    {
      var cost := if CharAt(la, i - 1) == CharAt(lb, j - 1) then 0 else 1;
      ghost var up, left, diag := Table(la, lb, i - 1, j), Table(la, lb, i, j - 1), Table(la, lb, i - 1, j - 1);
      assert Table(la, lb, i, j) == Min3(up + 1, left + 1, diag + cost);
      assert matrix[i - 1, j] == up && matrix[i, j - 1] == left && matrix[i - 1, j - 1] == diag;
      matrix[i, j] := Min3(matrix[i - 1, j] + 1, matrix[i, j - 1] + 1, matrix[i - 1, j - 1] + cost);
    }
  }

  // ------------------------------------------------------------ properties

  lemma {:induction false} TableBounds(a: String, b: String, i: nat, j: nat)
    requires i <= |b| && j <= |a|
    ensures Table(a, b, i, j) <= Max(i, j)
    ensures Table(a, b, i, j) >= i - j && Table(a, b, i, j) >= j - i
    decreases i + j
  {
    if i > 0 && j > 0 {
      TableBounds(a, b, i - 1, j);
      TableBounds(a, b, i, j - 1);
      TableBounds(a, b, i - 1, j - 1);
    }
  }

  /** The result lies between the difference of the lengths and the longer length. */
  lemma DistanceBounds(a: String, b: String)
    ensures Distance(a, b) <= Max(|a|, |b|)
    ensures Distance(a, b) >= |a| - |b| && Distance(a, b) >= |b| - |a|
  {
    if |a| > 0 && |b| > 0 {
      TableBounds(ToLower(a), ToLower(b), |b|, |a|);
    }
  }

  /** An empty string is as far from `s` as `s` is long. */
  lemma DistanceFromEmpty(s: String)
    ensures Distance([], s) == |s| && Distance(s, []) == |s|
  {
  }

  lemma {:induction false} TableDiagonalZero(a: String, i: nat)
    requires i <= |a|
    ensures Table(a, a, i, i) == 0
  {
    if i > 0 {
      TableDiagonalZero(a, i - 1);
    }
  }

  /** The comparison ignores ASCII case. */
  lemma DistanceIgnoresCase(a: String, b: String)
    ensures Distance(a, b) == Distance(ToLower(a), ToLower(b))
  {
    ToLowerIdempotent(a);
    ToLowerIdempotent(b);
  }

  /** Transposing the table swaps the roles of the two strings, so the result is symmetric. */
  lemma {:induction false} TableTranspose(a: String, b: String, i: nat, j: nat)
    requires i <= |b| && j <= |a|
    ensures Table(a, b, i, j) == Table(b, a, j, i)
    decreases i + j
  {
    if i > 0 && j > 0 {
      TableTranspose(a, b, i - 1, j);
      TableTranspose(a, b, i, j - 1);
      TableTranspose(a, b, i - 1, j - 1);
      var up, left, diag, c := Table(a, b, i - 1, j), Table(a, b, i, j - 1), Table(a, b, i - 1, j - 1), Cost(a, b, i, j);
      assert Table(a, b, i, j) == Min3(up + 1, left + 1, diag + c);
      assert Table(b, a, j, i) == Min3(left + 1, up + 1, diag + c);
    }
  }

  lemma DistanceSymmetric(a: String, b: String)
    ensures Distance(a, b) == Distance(b, a)
  {
    if |a| > 0 && |b| > 0 {
      TableTranspose(ToLower(a), ToLower(b), |b|, |a|);
    }
  }

  // ------------------------------------------- comparison with the textbook

  /** The textbook edit distance: insertions, deletions and substitutions cost 1. */
  function Levenshtein(x: String, y: String): nat
    decreases |x| + |y|, 1
  {
    if |x| == 0 then |y|
    else if |y| == 0 then |x|
    else LevenshteinInner(x, y)
  }

  /** The recurrence on the last characters of two non-empty strings. */
  function LevenshteinInner(x: String, y: String): nat
    requires |x| > 0 && |y| > 0
    decreases |x| + |y|, 0
  {
    Min3(Levenshtein(x[..|x| - 1], y) + 1,
         Levenshtein(x, y[..|y| - 1]) + 1,
         Levenshtein(x[..|x| - 1], y[..|y| - 1]) + (if x[|x| - 1] == y[|y| - 1] then 0 else 1))
  }

  lemma {:induction false} TableIsLevenshtein(a: String, b: String, i: nat, j: nat)
    requires |a| == |b| && i <= |b| && j <= |a|
    ensures Table(a, b, i, j) == Levenshtein(a[..i], b[..j])
    decreases i + j
  {
    if i > 0 && j > 0 {
      TableIsLevenshtein(a, b, i - 1, j);
      TableIsLevenshtein(a, b, i, j - 1);
      TableIsLevenshtein(a, b, i - 1, j - 1);
      var x, y := a[..i], b[..j];
      assert x[..i - 1] == a[..i - 1] && y[..j - 1] == b[..j - 1];
      assert Cost(a, b, i, j) == (if x[i - 1] == y[j - 1] then 0 else 1);
    }
  }

  /** On strings of equal length the script computes the textbook edit distance of the lower-cased strings. */
  lemma EqualLengthIsLevenshtein(a: String, b: String)
    requires |a| == |b|
    ensures Distance(a, b) == Levenshtein(ToLower(a), ToLower(b))
  {
    if |a| > 0 {
      var la, lb := ToLower(a), ToLower(b);
      TableIsLevenshtein(la, lb, |lb|, |la|);
      assert la[..|la|] == la && lb[..|lb|] == lb;
    }
  }

  /** On strings of different lengths it may not: "a" and "ba" are one insertion apart, yet the result is 2. */
  lemma UnequalLengthCounterexample(a: String, b: String)
    requires a == "a" && b == "ba"
    ensures Levenshtein(a, b) == 1
    ensures Distance(a, b) == 2
  {
    assert Levenshtein(a, b) == 1 by {
      var e, b0 := a[..0], b[..1];
      assert e == [] && b0 == ['b'] && b0[..0] == [];
      assert Levenshtein(a, b0) == LevenshteinInner(a, b0) == 1;
      assert Levenshtein(e, b) == 2;
      assert Levenshtein(a, b) == LevenshteinInner(a, b);
    }
    assert Distance(a, b) == 2 by {
      assert ToLower(a) == a && ToLower(b) == b;
      // row 1 compares a[0] with b[0]: 'a' against 'b'
      assert Cost(a, b, 1, 1) == 1;
      assert Table(a, b, 1, 1) == 1;
      // row 2 compares a[1], which does not exist, with b[0]
      assert Cost(a, b, 2, 1) == 1;
      assert Table(a, b, 2, 1) == 2;
    }
  }

  lemma {:induction false} LevenshteinZeroOnlyWhenEqual(x: String, y: String)
    requires Levenshtein(x, y) == 0
    ensures x == y
    decreases |x| + |y|
  {
    if |x| > 0 && |y| > 0 {
      LevenshteinZeroOnlyWhenEqual(x[..|x| - 1], y[..|y| - 1]);
      assert x == x[..|x| - 1] + [x[|x| - 1]];
      assert y == y[..|y| - 1] + [y[|y| - 1]];
    }
  }

  /** The distance is zero exactly when the strings are equal up to ASCII case. */
  lemma DistanceZeroIff(a: String, b: String)
    ensures Distance(a, b) == 0 <==> ToLower(a) == ToLower(b)
  {
    var la, lb := ToLower(a), ToLower(b);
    DistanceBounds(a, b);
    if la == lb {
      if |a| > 0 {
        TableDiagonalZero(la, |la|);
      }
    } else if Distance(a, b) == 0 {
      assert |a| == |b|;
      EqualLengthIsLevenshtein(a, b);
      LevenshteinZeroOnlyWhenEqual(la, lb);
    }
  }
}
