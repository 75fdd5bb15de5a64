/**
 * The JavaScript string operations the topic pipeline relies on: case mapping,
 * the regular-expression classes `\w` and `\s`, `trim`, `split`, `join` and the
 * script's own `toTitleCase` (ai-tabs.uc.js:212-219).
 *
 * Case mapping is restricted to ASCII letters; every other character is left
 * as it is.
 */
module JsText {
  import opened Common

  type String = seq<char>

  predicate IsAsciiUpper(c: char) { 'A' <= c <= 'Z' }
  predicate IsAsciiLower(c: char) { 'a' <= c <= 'z' }

  /** `toLowerCase` on one character. */
  function LowerChar(c: char): char {
    if IsAsciiUpper(c) then (c as int + 32) as char else c
  }

  /** `toUpperCase` on one character. */
  function UpperChar(c: char): char {
    if IsAsciiLower(c) then (c as int - 32) as char else c
  }

  function ToLower(s: String): String {
    seq(|s|, i requires 0 <= i < |s| => LowerChar(s[i]))
  }

  /** The class `\w` of a regular expression without the `u` flag. */
  predicate IsWordChar(c: char) {
    IsAsciiUpper(c) || IsAsciiLower(c) || '0' <= c <= '9' || c == '_'
  }

  /** The class `\s`; `trim` strips exactly these characters. */
  predicate IsSpace(c: char) {
    || c == '\t' || c == '\n' || c == '\U{000B}' || c == '\U{000C}' || c == '\r'
    || c == ' ' || c == '\U{00A0}' || c == '\U{1680}' || '\U{2000}' <= c <= '\U{200A}'
    || c == '\U{2028}' || c == '\U{2029}' || c == '\U{202F}' || c == '\U{205F}'
    || c == '\U{3000}' || c == '\U{FEFF}'
  }

  predicate NoSpace(w: String) {
    forall i :: 0 <= i < |w| ==> !IsSpace(w[i])
  }

  lemma CaseCharFacts(c: char)
    ensures LowerChar(LowerChar(c)) == LowerChar(c)
    ensures UpperChar(LowerChar(UpperChar(LowerChar(c)))) == UpperChar(LowerChar(c))
    ensures LowerChar(UpperChar(LowerChar(c))) == LowerChar(c)
    ensures LowerChar(c) == ' ' <==> c == ' '
    ensures UpperChar(c) == ' ' <==> c == ' '
    ensures IsWordChar(LowerChar(c)) == IsWordChar(c) && IsWordChar(UpperChar(c)) == IsWordChar(c)
    ensures IsSpace(LowerChar(c)) == IsSpace(c) && IsSpace(UpperChar(c)) == IsSpace(c)
    ensures LowerChar(c) == '\n' <==> c == '\n'
    ensures UpperChar(c) == '\n' <==> c == '\n'
  {
  }

  lemma ToLowerIdempotent(s: String)
    ensures ToLower(ToLower(s)) == ToLower(s)
  {
    forall i | 0 <= i < |s| ensures ToLower(ToLower(s))[i] == ToLower(s)[i] {
      CaseCharFacts(s[i]);
    }
  }

  // ---------------------------------------------------------------- trim

  function TrimStart(s: String): (r: String)
    ensures |r| <= |s| && r == s[|s| - |r|..]
    ensures r == [] || !IsSpace(r[0])
    ensures forall i :: 0 <= i < |s| - |r| ==> IsSpace(s[i])
  {
    if |s| > 0 && IsSpace(s[0]) then TrimStart(s[1..]) else s
  }

  function TrimEnd(s: String): (r: String)
    ensures |r| <= |s| && r == s[..|r|]
    ensures r == [] || !IsSpace(r[|r| - 1])
    ensures forall i :: |r| <= i < |s| ==> IsSpace(s[i])
  {
    if |s| > 0 && IsSpace(s[|s| - 1]) then TrimEnd(s[..|s| - 1]) else s
  }

  /** `String.prototype.trim`. */
  function Trim(s: String): String {
    TrimEnd(TrimStart(s))
  }

  lemma TrimShape(s: String)
    ensures Trim(s) == [] || (!IsSpace(Trim(s)[0]) && !IsSpace(Trim(s)[|Trim(s)| - 1]))
    ensures |Trim(s)| <= |s|
  {
    var t := TrimStart(s);
    var r := TrimEnd(t);
    if r != [] {
      assert r[0] == t[0];
    }
  }

  /** Trim only cuts characters off the ends. */
  lemma TrimKeepsChars(s: String)
    ensures forall c :: c in Trim(s) ==> c in s
  {
    var t := TrimStart(s);
    assert forall c :: c in t ==> c in s;
  }

  // ------------------------------------------------------- split and join

  /** `s.split(d)` for a one-character separator. */
  function Split(s: String, d: char): (r: seq<String>)
    ensures |r| >= 1
    ensures forall k :: 0 <= k < |r| ==> d !in r[k]
  {
    if s == [] then [[]]
    else
      var rest := Split(s[1..], d);
      if s[0] == d then [[]] + rest else [[s[0]] + rest[0]] + rest[1..]
  }

  /** `words.join(d)` for a one-character separator. */
  function Join(ws: seq<String>, d: char): String {
    if |ws| == 0 then []
    else if |ws| == 1 then ws[0]
    else ws[0] + [d] + Join(ws[1..], d)
  }

  lemma {:induction false} JoinSplit(s: String, d: char)
    ensures Join(Split(s, d), d) == s
  {
    if s != [] {
      var rest := Split(s[1..], d);
      JoinSplit(s[1..], d);
      if s[0] == d {
        assert ([[]] + rest)[1..] == rest;
      } else if |rest| > 1 {
        assert ([[s[0]] + rest[0]] + rest[1..])[1..] == rest[1..];
      }
    }
  }

  /**
   * Two strings of equal length with the separator at the same positions split
   * into the same number of pieces, piece by piece of the same length.
   */
  lemma {:induction false} SplitSameShape(a: String, b: String, d: char)
    requires |a| == |b|
    requires forall i :: 0 <= i < |a| ==> (a[i] == d <==> b[i] == d)
    ensures |Split(a, d)| == |Split(b, d)|
    ensures forall k :: 0 <= k < |Split(a, d)| ==> |Split(a, d)[k]| == |Split(b, d)[k]|
  {
    if a != [] {
      var ra, rb := Split(a[1..], d), Split(b[1..], d);
      SplitSameShape(a[1..], b[1..], d);
      if a[0] == d {
        assert b[0] == d;
        assert Split(a, d) == [[]] + ra && Split(b, d) == [[]] + rb;
      } else {
        assert b[0] != d;
        assert Split(a, d) == [[a[0]] + ra[0]] + ra[1..] && Split(b, d) == [[b[0]] + rb[0]] + rb[1..];
      }
    }
  }

  /** `split(/\s+/)`: pieces between maximal runs of white space. */
  function SplitOnSpaceRuns(s: String): (r: seq<String>)
    ensures |r| >= 1
    ensures forall k :: 0 <= k < |r| ==> NoSpace(r[k])
    decreases |s|
  {
    if s == [] then [[]]
    else if IsSpace(s[0]) then [[]] + SplitOnSpaceRuns(TrimStart(s))
    else
      var rest := SplitOnSpaceRuns(s[1..]);
      [[s[0]] + rest[0]] + rest[1..]
  }

  // ------------------------------------------------------------ title case

  function CapitalizeFirst(w: String): String {
    if w == [] then [] else [UpperChar(w[0])] + w[1..]
  }

  function MapCapitalize(ws: seq<String>): seq<String> {
    seq(|ws|, k requires 0 <= k < |ws| => CapitalizeFirst(ws[k]))
  }

  /** `toTitleCase` (ai-tabs.uc.js:212-219); the empty string is falsy and gives "". */
  function TitleCase(s: String): String {
    if s == [] then [] else Join(MapCapitalize(Split(ToLower(s), ' ')), ' ')
  }

  /** What TitleCase puts at position i: upper case at the start of a word, lower case elsewhere. */
  function TitleCaseAt(s: String, i: nat): char
    requires i < |s|
  {
    if i == 0 || s[i - 1] == ' ' then UpperChar(LowerChar(s[i])) else LowerChar(s[i])
  }

  /** r is t with the first letter of every space-separated word made upper case. */
  predicate CapitalizedFrom(r: String, t: String) {
    && |r| == |t|
    && forall i {:trigger r[i]} :: 0 <= i < |t| ==> r[i] == (if i == 0 || t[i - 1] == ' ' then UpperChar(t[i]) else t[i])
  }

  lemma CapitalizeWord(w: String)
    requires ' ' !in w
    ensures CapitalizedFrom(CapitalizeFirst(w), w)
  {
    var c := CapitalizeFirst(w);
    forall i | 0 <= i < |w|
      ensures c[i] == (if i == 0 || w[i - 1] == ' ' then UpperChar(w[i]) else w[i])
    {
      if i > 0 {
        assert w[i - 1] in w;
        assert c[i] == w[i];
      }
    }
  }

  /** Capitalising is local to words, so it distributes over text that ends a word with a space. */
  lemma CapitalizedAppend(r1: String, t1: String, r: String, t: String)
    requires CapitalizedFrom(r1, t1) && CapitalizedFrom(r, t)
    requires |t1| > 0 && t1[|t1| - 1] == ' '
    ensures CapitalizedFrom(r1 + r, t1 + t)
  {
    var t2, r2 := t1 + t, r1 + r;
    forall i | 0 <= i < |t2|
      ensures r2[i] == (if i == 0 || t2[i - 1] == ' ' then UpperChar(t2[i]) else t2[i])
    {
      if i < |t1| {
        assert t2[i] == t1[i] && r2[i] == r1[i];
        if i > 0 {
          assert t2[i - 1] == t1[i - 1];
        }
      } else {
        var k := i - |t1|;
        assert t2[i] == t[k] && r2[i] == r[k];
        assert t2[i - 1] == if k == 0 then t1[|t1| - 1] else t[k - 1];
      }
    }
  }

  lemma CapitalizeWordThen(w: String, t: String, r: String)
    requires ' ' !in w && CapitalizedFrom(r, t)
    ensures CapitalizedFrom(CapitalizeFirst(w) + [' '] + r, w + [' '] + t)
  {
    CapitalizeWord(w);
    var c := CapitalizeFirst(w);
    var t1, r1 := w + [' '], c + [' '];
    forall i | 0 <= i < |t1|
      ensures r1[i] == (if i == 0 || t1[i - 1] == ' ' then UpperChar(t1[i]) else t1[i])
    {
      if i < |w| {
        assert t1[i] == w[i] && r1[i] == c[i];
        if i > 0 {
          assert t1[i - 1] == w[i - 1];
        }
      } else {
        assert t1[i] == ' ' && r1[i] == ' ' && UpperChar(' ') == ' ';
      }
    }
    CapitalizedAppend(r1, t1, r, t);
  }

  lemma {:induction false} JoinCapitalizeAt(ws: seq<String>)
    requires forall k :: 0 <= k < |ws| ==> ' ' !in ws[k]
    ensures CapitalizedFrom(Join(MapCapitalize(ws), ' '), Join(ws, ' '))
  {
    if |ws| == 1 {
      assert MapCapitalize(ws) == [CapitalizeFirst(ws[0])];
      CapitalizeWord(ws[0]);
    } else if |ws| > 1 {
      JoinCapitalizeAt(ws[1..]);
      assert MapCapitalize(ws)[1..] == MapCapitalize(ws[1..]);
      CapitalizeWordThen(ws[0], Join(ws[1..], ' '), Join(MapCapitalize(ws[1..]), ' '));
    }
  }

  /** TitleCase keeps the length and decides each character from its left neighbour. */
  lemma TitleCasePointwise(s: String)
    ensures |TitleCase(s)| == |s|
    ensures forall i :: 0 <= i < |s| ==> TitleCase(s)[i] == TitleCaseAt(s, i)
  {
    if s != [] {
      var l := ToLower(s);
      var ws := Split(l, ' ');
      JoinSplit(l, ' ');
      JoinCapitalizeAt(ws);
      assert TitleCase(s) == Join(MapCapitalize(ws), ' ');
      forall i | 0 <= i < |s| ensures TitleCase(s)[i] == TitleCaseAt(s, i) {
        assert l[i] == LowerChar(s[i]);
        if i > 0 {
          CaseCharFacts(s[i - 1]);
          assert l[i - 1] == LowerChar(s[i - 1]);
        }
      }
    }
  }

  /** Title-casing a title-cased string changes nothing. */
  lemma TitleCaseIdempotent(s: String)
    ensures TitleCase(TitleCase(s)) == TitleCase(s)
  {
    var t := TitleCase(s);
    TitleCasePointwise(s);
    TitleCasePointwise(t);
    forall i | 0 <= i < |s| ensures TitleCase(t)[i] == t[i] {
      CaseCharFacts(s[i]);
      if i > 0 {
        CaseCharFacts(s[i - 1]);
        assert TitleCaseAt(s, i - 1) == ' ' <==> s[i - 1] == ' ';
      }
    }
  }

  /** TitleCase changes only the case of letters: lower-cased, it is its input lower-cased. */
  lemma TitleCaseSameLower(s: String)
    ensures ToLower(TitleCase(s)) == ToLower(s)
  {
    TitleCasePointwise(s);
    forall i | 0 <= i < |s| ensures ToLower(TitleCase(s))[i] == ToLower(s)[i] {
      CaseCharFacts(s[i]);
    }
  }

  /** TitleCase changes only the case of letters: spaces, word characters and line breaks stay put. */
  lemma TitleCaseKeepsClasses(s: String)
    ensures |TitleCase(s)| == |s|
    ensures forall i :: 0 <= i < |s| ==>
      && (TitleCase(s)[i] == ' ' <==> s[i] == ' ')
      && (TitleCase(s)[i] == '\n' <==> s[i] == '\n')
      && IsWordChar(TitleCase(s)[i]) == IsWordChar(s[i])
      && IsSpace(TitleCase(s)[i]) == IsSpace(s[i])
  {
    TitleCasePointwise(s);
    forall i | 0 <= i < |s|
      ensures (TitleCase(s)[i] == ' ' <==> s[i] == ' ')
      ensures (TitleCase(s)[i] == '\n' <==> s[i] == '\n')
      ensures IsWordChar(TitleCase(s)[i]) == IsWordChar(s[i])
      ensures IsSpace(TitleCase(s)[i]) == IsSpace(s[i])
    {
      CaseCharFacts(s[i]);
      CaseCharFacts(LowerChar(s[i]));
    }
  }

  /** TitleCase keeps the number of space-separated words and the length of each. */
  lemma TitleCaseKeepsWords(s: String)
    ensures |Split(TitleCase(s), ' ')| == |Split(s, ' ')|
    ensures forall k :: 0 <= k < |Split(s, ' ')| ==> |Split(TitleCase(s), ' ')[k]| == |Split(s, ' ')[k]|
  {
    TitleCaseKeepsClasses(s);
    SplitSameShape(s, TitleCase(s), ' ');
  }

  // -------------------------------------------------- regular-expression replaces

  /** `s.replace(/[^\w\s]/g, "")`. */
  function RemoveNonWord(s: String): (r: String)
    ensures forall i :: 0 <= i < |r| ==> IsWordChar(r[i]) || IsSpace(r[i])
    ensures |r| <= |s|
  {
    if s == [] then []
    else (if IsWordChar(s[0]) || IsSpace(s[0]) then [s[0]] else []) + RemoveNonWord(s[1..])
  }

  /** RemoveNonWord leaves a string of word characters and white space as it is. */
  lemma {:induction false} RemoveNonWordKeeps(s: String)
    requires forall c :: c in s ==> IsWordChar(c) || IsSpace(c)
    ensures RemoveNonWord(s) == s
  {
    if s != [] {
      assert s[0] in s;
      forall c | c in s[1..] ensures IsWordChar(c) || IsSpace(c) {
        assert c in s;
      }
      RemoveNonWordKeeps(s[1..]);
      assert s == [s[0]] + s[1..];
    }
  }

  /** `s.replace(/[^\w\s]/g, " ")`. */
  function BlankNonWord(s: String): String {
    seq(|s|, i requires 0 <= i < |s| => if IsWordChar(s[i]) || IsSpace(s[i]) then s[i] else ' ')
  }
}
