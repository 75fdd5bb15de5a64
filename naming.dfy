/**
 * The string logic of `nameGroup` (ai-tabs.uc.js:537-548, 564-569): the
 * keywords offered to the topic model, the clean-up of the text it generates,
 * and the fallback name used when the model fails.
 *
 * The topic model itself is not modelled; its outcome is a parameter.
 */
module ClusterNamer {
  import opened Common
  import opened JsText
  import opened JsObject

  // ------------------------------------------------------------- keywords

  /**
   * `titles.join(" ").toLowerCase().replace(/[^\w\s]/g, " ").split(/\s+/)
   * .filter((w) => w.length > 2)`.
   */
  function Tokens(titles: seq<String>): (r: seq<String>)
    ensures forall k :: 0 <= k < |r| ==> |r[k]| > 2 && NoSpace(r[k])
  {
    var words := SplitOnSpaceRuns(BlankNonWord(ToLower(Join(titles, ' '))));
    var r := Filter(words, (w: String) => |w| > 2);
    assert forall k :: 0 <= k < |r| ==> NoSpace(r[k]) by {
      forall k | 0 <= k < |r| ensures NoSpace(r[k]) {
        FilterSubset(words, (w: String) => |w| > 2, r[k]);
      }
    }
    r
  }

  /**
   * `allWords.forEach((w) => (wordCount[w] = (wordCount[w] || 0) + 1))`:
   * the count of every word, and the order in which the words were first
   * added as keys.
   */
  method CountWords(words: seq<String>) returns (wordCount: map<String, nat>, added: seq<String>)
    ensures added == Dedup(words)
    ensures forall w :: w in wordCount <==> w in words
    ensures forall w :: w in wordCount ==> wordCount[w] == multiset(words)[w]
  {
    wordCount, added := map[], [];
    for i := 0 to |words|
      invariant CountedUpTo(wordCount, added, words, i)
    {
      var w := words[i];
      if w in wordCount {
        CountHit(wordCount, added, words, i);
        wordCount := wordCount[w := wordCount[w] + 1];
      } else {
        CountNew(wordCount, added, words, i);
        wordCount := wordCount[w := 1];
        added := added + [w];
      }
    }
    assert words[..|words|] == words;
  }

  ghost predicate CountedUpTo(wordCount: map<String, nat>, added: seq<String>, words: seq<String>, i: nat) {
    i <= |words| && Counted(wordCount, added, words[..i])
  }

  lemma CountHit(wordCount: map<String, nat>, added: seq<String>, words: seq<String>, i: nat)
    requires CountedUpTo(wordCount, added, words, i) && i < |words| && words[i] in wordCount
    ensures CountedUpTo(wordCount[words[i] := wordCount[words[i]] + 1], added, words, i + 1)
  {
    assert words[..i + 1] == words[..i] + [words[i]];
    CountStepHit(wordCount, added, words[..i], words[i]);
  }

  lemma CountNew(wordCount: map<String, nat>, added: seq<String>, words: seq<String>, i: nat)
    requires CountedUpTo(wordCount, added, words, i) && i < |words| && words[i] !in wordCount
    ensures CountedUpTo(wordCount[words[i] := 1], added + [words[i]], words, i + 1)
  {
    assert words[..i + 1] == words[..i] + [words[i]];
    CountStepNew(wordCount, added, words[..i], words[i]);
  }

  /** The state of `wordCount` after the words `seen`, and the order its keys were added in. */
  ghost predicate Counted(wordCount: map<String, nat>, added: seq<String>, seen: seq<String>) {
    && added == Dedup(seen)
    && (forall w :: w in wordCount <==> w in seen)
    && (forall w :: w in wordCount ==> wordCount[w] == multiset(seen)[w])
  }

  /** Counting a word already in the map bumps its count and adds no key. */
  lemma CountStepHit(wordCount: map<String, nat>, added: seq<String>, seen: seq<String>, x: String)
    requires Counted(wordCount, added, seen) && x in wordCount
    ensures Counted(wordCount[x := wordCount[x] + 1], added, seen + [x])
  {
    var seen' := seen + [x];
    assert seen'[..|seen|] == seen;
    assert x in Dedup(seen);
    CountKeys(wordCount, seen, x, wordCount[x := wordCount[x] + 1]);
    CountValues(wordCount, seen, x, wordCount[x := wordCount[x] + 1]);
  }

  /** Counting a new word adds its key, with count 1, at the end of the key order. */
  lemma CountStepNew(wordCount: map<String, nat>, added: seq<String>, seen: seq<String>, x: String)
    requires Counted(wordCount, added, seen) && x !in wordCount
    ensures Counted(wordCount[x := 1], added + [x], seen + [x])
  {
    var seen' := seen + [x];
    assert seen'[..|seen|] == seen;
    assert x !in Dedup(seen);
    CountKeys(wordCount, seen, x, wordCount[x := 1]);
    CountValues(wordCount, seen, x, wordCount[x := 1]);
  }

  lemma CountKeys(wordCount: map<String, nat>, seen: seq<String>, x: String, wc: map<String, nat>)
    requires forall y :: y in wordCount <==> y in seen
    requires wc.Keys == wordCount.Keys + {x}
    ensures forall y :: y in wc <==> y in seen + [x]
  {
  }

  lemma CountValues(wordCount: map<String, nat>, seen: seq<String>, x: String, wc: map<String, nat>)
    requires forall y :: y in wordCount ==> wordCount[y] == multiset(seen)[y]
    requires forall y :: y in wordCount <==> y in seen
    requires wc == if x in wordCount then wordCount[x := wordCount[x] + 1] else wordCount[x := 1]
    ensures forall y :: y in wc ==> wc[y] == multiset(seen + [x])[y]
  {
    assert multiset(seen + [x]) == multiset(seen) + multiset{x};
  }

  /** One entry of `Object.entries(wordCount)`. */
  datatype Entry = Entry(word: String, count: nat)

  /** `Object.entries(wordCount)` once every word is counted. */
  function WordEntries(words: seq<String>): (r: seq<Entry>)
    ensures forall k :: 0 <= k < |r| ==> r[k].word in words && r[k].count == multiset(words)[r[k].word]
  {
    var keys := OwnKeyOrder(Dedup(words));
    OwnKeyOrderPermutes(Dedup(words));
    assert forall k :: 0 <= k < |keys| ==> keys[k] in words by {
      forall k | 0 <= k < |keys| ensures keys[k] in words {
        assert keys[k] in multiset(keys);
      }
    }
    seq(|keys|, k requires 0 <= k < |keys| => Entry(keys[k], multiset(words)[keys[k]]))
  }

  /** Every distinct word has exactly one entry. */
  lemma WordEntriesComplete(words: seq<String>)
    ensures NoDup(WordEntries(words))
    ensures forall w :: w in words ==> Entry(w, multiset(words)[w]) in WordEntries(words)
    ensures |WordEntries(words)| == |Dedup(words)|
  {
    var d := Dedup(words);
    var keys := OwnKeyOrder(d);
    var r := WordEntries(words);
    OwnKeyOrderPermutes(d);
    assert |keys| == |d| by {
      assert |multiset(keys)| == |multiset(d)|;
    }
    forall p, q | 0 <= p < q < |r| ensures r[p] != r[q] {
      assert r[p].word == keys[p] && r[q].word == keys[q];
    }
    forall w | w in words ensures Entry(w, multiset(words)[w]) in r {
      assert w in d;
      assert w in multiset(keys);
      var k :| 0 <= k < |keys| && keys[k] == w;
      assert r[k] == Entry(w, multiset(words)[w]);
    }
  }

  predicate NonIncreasing(s: seq<Entry>) {
    forall p, q :: 0 <= p < q < |s| ==> s[p].count >= s[q].count
  }

  /** No entry counts more than v. */
  predicate AtMost(s: seq<Entry>, v: nat) {
    forall k :: 0 <= k < |s| ==> s[k].count <= v
  }

  /** Places x after every entry whose count is at least x's. */
  function InsertByCount(x: Entry, s: seq<Entry>): (r: seq<Entry>)
    requires NonIncreasing(s)
    ensures NonIncreasing(r)
    ensures |r| == |s| + 1
    ensures forall e :: e in r <==> e == x || e in s
    ensures forall v :: x.count <= v && AtMost(s, v) ==> AtMost(r, v)
  {
    if s == [] then [x]
    else if s[0].count >= x.count then
      var rest := InsertByCount(x, s[1..]);
      assert forall e :: e in s <==> e == s[0] || e in s[1..] by {
        assert s == [s[0]] + s[1..];
      }
      assert AtMost(s[1..], s[0].count);
      var r := [s[0]] + rest;
      assert forall k :: 0 < k < |r| ==> r[k] == rest[k - 1];
      r
    else [x] + s
  }

  /**
   * `entries.sort((a, b) => b[1] - a[1])`: `Array.prototype.sort` is stable,
   * so this is an insertion sort by descending count.
   */
  function SortByCount(s: seq<Entry>): (r: seq<Entry>)
    ensures NonIncreasing(r)
    ensures |r| == |s|
    ensures forall e :: e in r <==> e in s
  {
    if s == [] then []
    else
      var init, last := s[..|s| - 1], s[|s| - 1];
      assert forall e :: e in s <==> e == last || e in init by {
        assert s == init + [last];
      }
      InsertByCount(last, SortByCount(init))
  }

  /** Whether an entry has count c. */
  function CountIs(c: nat): Entry -> bool {
    (e: Entry) => e.count == c
  }

  /** The entries of one count keep their relative order: inserting x adds it after the others of its count. */
  lemma {:induction false} InsertByCountStable(x: Entry, s: seq<Entry>, c: nat)
    requires NonIncreasing(s)
    ensures Filter(InsertByCount(x, s), CountIs(c)) == Filter(s, CountIs(c)) + (if x.count == c then [x] else [])
  {
    if s == [] {
      assert Filter([x], CountIs(c)) == Filter([], CountIs(c)) + (if CountIs(c)(x) then [x] else []);
    } else if s[0].count >= x.count {
      InsertByCountStable(x, s[1..], c);
      InsertAfterHead(x, s, c);
    } else {
      InsertAtFront(x, s, c);
    }
  }

  lemma InsertAfterHead(x: Entry, s: seq<Entry>, c: nat)
    requires NonIncreasing(s) && s != [] && s[0].count >= x.count
    requires Filter(InsertByCount(x, s[1..]), CountIs(c)) == Filter(s[1..], CountIs(c)) + (if x.count == c then [x] else [])
    ensures Filter(InsertByCount(x, s), CountIs(c)) == Filter(s, CountIs(c)) + (if x.count == c then [x] else [])
  {
    var rest := InsertByCount(x, s[1..]);
    assert InsertByCount(x, s) == [s[0]] + rest;
    assert s == [s[0]] + s[1..];
    FilterConsShift(s[0], rest, s[1..], if x.count == c then [x] else [], CountIs(c));
  }

  lemma InsertAtFront(x: Entry, s: seq<Entry>, c: nat)
    requires NonIncreasing(s) && s != [] && s[0].count < x.count
    ensures Filter(InsertByCount(x, s), CountIs(c)) == Filter(s, CountIs(c)) + (if x.count == c then [x] else [])
  {
    var p := CountIs(c);
    FilterAppend([x], s, p);
    assert Filter([x], p) == Filter([], p) + (if p(x) then [x] else []);
    if x.count == c {
      forall k | 0 <= k < |s| ensures !p(s[k]) {
        assert s[k].count <= s[0].count;
      }
      FilterNone(s, p);
    }
  }

  /** Sorting by count keeps the entries of each count in their original order. */
  lemma {:induction false} SortByCountStable(s: seq<Entry>, c: nat)
    ensures Filter(SortByCount(s), CountIs(c)) == Filter(s, CountIs(c))
  {
    if s != [] {
      var init, last := s[..|s| - 1], s[|s| - 1];
      SortByCountStable(init, c);
      InsertByCountStable(last, SortByCount(init), c);
      assert s == init + [last];
      FilterAppend(init, [last], CountIs(c));
      assert Filter([last], CountIs(c)) == Filter([], CountIs(c)) + (if CountIs(c)(last) then [last] else []);
    }
  }

  lemma {:induction false} SortByCountPermutes(s: seq<Entry>)
    ensures multiset(SortByCount(s)) == multiset(s)
  {
    if s != [] {
      var init, last := s[..|s| - 1], s[|s| - 1];
      SortByCountPermutes(init);
      InsertByCountCount(last, SortByCount(init));
      MultisetSnoc(s);
    }
  }

  lemma {:induction false} InsertByCountCount(x: Entry, s: seq<Entry>)
    requires NonIncreasing(s)
    ensures multiset(InsertByCount(x, s)) == multiset(s) + multiset{x}
  {
    if s != [] && s[0].count >= x.count {
      InsertByCountCount(x, s[1..]);
      assert s == [s[0]] + s[1..];
    }
  }

  lemma {:induction false} InsertByCountNoDup(x: Entry, s: seq<Entry>)
    requires NonIncreasing(s) && NoDup(s) && x !in s
    ensures NoDup(InsertByCount(x, s))
  {
    if s != [] {
      if s[0].count >= x.count {
        assert NoDup(s[1..]) by {
          forall p, q | 0 <= p < q < |s| - 1 ensures s[1..][p] != s[1..][q] {
            assert s[1..][p] == s[p + 1] && s[1..][q] == s[q + 1];
          }
        }
        assert s[0] !in s[1..] by {
          forall k | 0 <= k < |s| - 1 ensures s[1..][k] != s[0] {
            assert s[1..][k] == s[k + 1];
          }
        }
        InsertByCountNoDup(x, s[1..]);
        NoDupAppend([s[0]], InsertByCount(x, s[1..]));
      } else {
        NoDupAppend([x], s);
      }
    }
  }

  lemma {:induction false} SortByCountNoDup(s: seq<Entry>)
    requires NoDup(s)
    ensures NoDup(SortByCount(s))
  {
    if s != [] {
      var init, last := s[..|s| - 1], s[|s| - 1];
      assert NoDup(init) && last !in init by {
        forall p | 0 <= p < |init| ensures init[p] == s[p] {
        }
      }
      SortByCountNoDup(init);
      InsertByCountNoDup(last, SortByCount(init));
    }
  }

  /** `.slice(0, 5).map((x) => x[0])`. */
  function TopWords(sorted: seq<Entry>): (r: seq<String>)
    ensures |r| == if |sorted| < 5 then |sorted| else 5
  {
    var top := if |sorted| <= 5 then sorted else sorted[..5];
    seq(|top|, k requires 0 <= k < |top| => top[k].word)
  }

  /**
   * The keywords `nameGroup` offers to the topic model. They only feed the
   * prompt (ai-tabs.uc.js:550); the naming run, which takes the titles
   * themselves, stands for everything the model makes of them.
   */
  function Keywords(titles: seq<String>): seq<String> {
    KeywordsOf(Tokens(titles))
  }

  /** The five most frequent tokens, ties in `Object.entries` order. */
  function KeywordsOf(tokens: seq<String>): seq<String> {
    TopWords(SortByCount(WordEntries(tokens)))
  }

  /**
   * r lists distinct tokens in order of non-increasing frequency, and a token
   * left out is no more frequent than any token chosen.
   */
  ghost predicate TopByFrequency(r: seq<String>, tokens: seq<String>) {
    && NoDup(r)
    && (forall k :: 0 <= k < |r| ==> r[k] in tokens)
    && (forall p, q :: 0 <= p < q < |r| ==> multiset(tokens)[r[p]] >= multiset(tokens)[r[q]])
    && (forall w, k :: w in tokens && w !in r && 0 <= k < |r| ==> multiset(tokens)[w] <= multiset(tokens)[r[k]])
  }

  /** The keywords are five of the tokens (all of them when there are fewer), each longer than two characters. */
  ghost predicate ChosenKeywords(r: seq<String>, tokens: seq<String>) {
    && |r| == (if |Dedup(tokens)| < 5 then |Dedup(tokens)| else 5)
    && (forall k :: 0 <= k < |r| ==> |r[k]| > 2)
    && TopByFrequency(r, tokens)
  }

  /**
   * At most five distinct words, each longer than two characters and taken
   * from the titles, in order of non-increasing frequency; a word left out is
   * no more frequent than any word chosen.
   */
  lemma KeywordsSpec(titles: seq<String>)
    ensures ChosenKeywords(Keywords(titles), Tokens(titles))
  {
    KeywordsOfSpec(Tokens(titles));
  }

  lemma KeywordsOfSpec(tokens: seq<String>)
    requires forall k :: 0 <= k < |tokens| ==> |tokens[k]| > 2
    ensures ChosenKeywords(KeywordsOf(tokens), tokens)
  {
    var sorted := SortByCount(WordEntries(tokens));
    SortedEntries(tokens);
    TopWordsSpec(sorted, tokens);
    KeywordsLong(TopWords(sorted), tokens);
  }

  lemma KeywordsLong(r: seq<String>, tokens: seq<String>)
    requires forall k :: 0 <= k < |tokens| ==> |tokens[k]| > 2
    requires forall k :: 0 <= k < |r| ==> r[k] in tokens
    ensures forall k :: 0 <= k < |r| ==> |r[k]| > 2
  {
    forall k | 0 <= k < |r| ensures |r[k]| > 2 {
      var i :| 0 <= i < |tokens| && tokens[i] == r[k];
    }
  }

  /** The first five words of entries sorted by their counts among the tokens. */
  lemma TopWordsSpec(sorted: seq<Entry>, tokens: seq<String>)
    requires NoDup(sorted) && NonIncreasing(sorted)
    requires forall k :: 0 <= k < |sorted| ==> sorted[k].word in tokens && sorted[k].count == multiset(tokens)[sorted[k].word]
    requires forall w :: w in tokens ==> Entry(w, multiset(tokens)[w]) in sorted
    ensures TopByFrequency(TopWords(sorted), tokens)
  {
    var r := TopWords(sorted);
    assert forall k :: 0 <= k < |r| ==> r[k] == sorted[k].word;
    TopWordsDistinct(sorted, tokens);
    TopWordsMaximal(sorted, tokens);
  }

  lemma TopWordsDistinct(sorted: seq<Entry>, tokens: seq<String>)
    requires NoDup(sorted)
    requires forall k :: 0 <= k < |sorted| ==> sorted[k].count == multiset(tokens)[sorted[k].word]
    ensures NoDup(TopWords(sorted))
  {
    var r := TopWords(sorted);
    forall p, q | 0 <= p < q < |r| ensures r[p] != r[q] {
      assert r[p] == sorted[p].word && r[q] == sorted[q].word;
      assert sorted[p] != sorted[q];
    }
  }

  lemma TopWordsMaximal(sorted: seq<Entry>, tokens: seq<String>)
    requires NonIncreasing(sorted)
    requires forall k :: 0 <= k < |sorted| ==> sorted[k].count == multiset(tokens)[sorted[k].word]
    requires forall w :: w in tokens ==> Entry(w, multiset(tokens)[w]) in sorted
    ensures var r := TopWords(sorted);
      forall w, k :: w in tokens && w !in r && 0 <= k < |r| ==> multiset(tokens)[w] <= multiset(tokens)[r[k]]
  {
    var r := TopWords(sorted);
    assert forall k :: 0 <= k < |r| ==> r[k] == sorted[k].word;
    forall w, k | w in tokens && w !in r && 0 <= k < |r|
      ensures multiset(tokens)[w] <= multiset(tokens)[r[k]]
    {
      var j :| 0 <= j < |sorted| && sorted[j] == Entry(w, multiset(tokens)[w]);
      assert forall i :: 0 <= i < |r| ==> sorted[i].word != w;
    }
  }

  /** The sorted entries list every distinct token once, with its number of occurrences. */
  lemma SortedEntries(tokens: seq<String>)
    ensures var sorted := SortByCount(WordEntries(tokens));
      && NoDup(sorted)
      && |sorted| == |Dedup(tokens)|
      && (forall k :: 0 <= k < |sorted| ==> sorted[k].word in tokens && sorted[k].count == multiset(tokens)[sorted[k].word])
      && (forall w :: w in tokens ==> Entry(w, multiset(tokens)[w]) in sorted)
  {
    var entries := WordEntries(tokens);
    var sorted := SortByCount(entries);
    WordEntriesComplete(tokens);
    SortByCountNoDup(entries);
    forall k | 0 <= k < |sorted|
      ensures sorted[k].word in tokens && sorted[k].count == multiset(tokens)[sorted[k].word]
    {
      assert sorted[k] in entries;
    }
  }

  // ------------------------------------------------------- generated name

  predicate IsQuote(c: char) { c == '\'' || c == '"' }

  /**
   * `s.replace(/^['"]|['"]$/g, "")`: one leading and one trailing quote go; a
   * lone quote is removed once.
   */
  function StripQuotes(s: String): (r: String)
    ensures |s| >= 2 && IsQuote(s[0]) && IsQuote(s[|s| - 1]) ==> r == s[1..|s| - 1]
    ensures (s == [] || !IsQuote(s[0])) && (s == [] || !IsQuote(s[|s| - 1])) ==> r == s
    ensures |s| - 2 <= |r| <= |s|
  {
    var t := if |s| > 0 && IsQuote(s[0]) then s[1..] else s;
    if |t| > 0 && IsQuote(t[|t| - 1]) then t[..|t| - 1] else t
  }

  /** What the topic model run gives: a failure (caught), or `aiResult[0]?.generated_text`. */
  datatype Generation = Failed | Generated(text: Option<String>)

  const DefaultName: String := "Group"

  /** `.split("\n")[0].trim()`. */
  function FirstLine(raw: String): String {
    Trim(Split(raw, '\n')[0])
  }

  /** `toTitleCase(name.replace(/^['"]|['"]$/g, ""))`. */
  function Tidy(name: String): String {
    TitleCase(StripQuotes(name))
  }

  /** The name cleaned from a successful run (ai-tabs.uc.js:564-567). */
  function CleanName(generated: Option<String>): String {
    var raw := if generated.None? || generated.value == [] then DefaultName else generated.value;
    var titled := Tidy(FirstLine(raw));
    if titled == [] then DefaultName else titled
  }

  /** The name taken when the run fails: the first word of the first title, title-cased. */
  function FallbackName(titles: seq<String>): String
    requires |titles| > 0
  {
    TitleCase(Split(titles[0], ' ')[0])
  }

  /** `nameGroup(titles)`; the local path calls it only with two titles or more. */
  function NameGroup(titles: seq<String>, run: Generation): String
    requires |titles| > 0
  {
    match run
    case Failed => FallbackName(titles)
    case Generated(text) => CleanName(text)
  }

  /** Whichever way the run ends, the group's name is left unchanged by title-casing. */
  lemma NameGroupTitleCase(titles: seq<String>, run: Generation)
    requires |titles| > 0
    ensures TitleCase(NameGroup(titles, run)) == NameGroup(titles, run)
  {
    match run
    case Failed => FallbackNameSpec(titles);
    case Generated(text) => CleanNameSpec(text);
  }

  /** "Group" is already in title case. */
  lemma DefaultNameTitleCase(s: String)
    requires s == DefaultName
    ensures TitleCase(s) == s
  {
    TitleCasePointwise(s);
    forall i | 0 <= i < |s| ensures TitleCase(s)[i] == s[i] {
      CaseCharFacts(s[i]);
    }
  }

  /** A cleaned name is never empty, is one line, and is left unchanged by title-casing. */
  lemma CleanNameSpec(generated: Option<String>)
    ensures CleanName(generated) != []
    ensures '\n' !in CleanName(generated)
    ensures TitleCase(CleanName(generated)) == CleanName(generated)
  {
    var raw := if generated.None? || generated.value == [] then DefaultName else generated.value;
    var titled := Tidy(FirstLine(raw));
    if titled == [] {
      DefaultNameTitleCase(DefaultName);
    } else {
      FirstLineSpec(raw);
      TidySpec(FirstLine(raw));
    }
  }

  lemma FirstLineSpec(raw: String)
    ensures '\n' !in FirstLine(raw)
  {
    TrimKeepsChars(Split(raw, '\n')[0]);
  }

  /** Tidying keeps a name on one line and leaves it in title case. */
  lemma TidySpec(name: String)
    requires '\n' !in name
    ensures '\n' !in Tidy(name)
    ensures TitleCase(Tidy(name)) == Tidy(name)
  {
    var stripped := StripQuotes(name);
    var titled := TitleCase(stripped);
    TitleCaseIdempotent(stripped);
    TitleCaseKeepsClasses(stripped);
    forall i | 0 <= i < |titled| ensures titled[i] != '\n' {
      assert stripped[i] in name;
    }
  }

  /**
   * The fallback name is the first space-separated word of the first title in
   * title case; it is empty when that title starts with a space.
   */
  lemma FallbackNameSpec(titles: seq<String>)
    requires |titles| > 0
    ensures ' ' !in FallbackName(titles)
    ensures TitleCase(FallbackName(titles)) == FallbackName(titles)
    ensures (titles[0] == [] || titles[0][0] == ' ') <==> FallbackName(titles) == []
  {
    var w := Split(titles[0], ' ')[0];
    TitleCaseKeepsClasses(w);
    TitleCaseIdempotent(w);
    FirstPiece(titles[0]);
  }

  /** The first piece of a split is empty exactly when the string is empty or starts with the separator. */
  lemma FirstPiece(s: String)
    ensures Split(s, ' ')[0] == [] <==> s == [] || s[0] == ' '
  {
  }
}
