/**
 * The Gemini provider of `askAIForMultipleTopics` (ai-tabs.uc.js:339-419),
 * from the API key and the reply text to topic assignments.
 *
 * The HTTP request, the JSON decoding and the prompt are not modelled: the
 * reply is the text the script extracts from the response, or `None` when the
 * request fails, the status is not ok, or the response carries no text. Every
 * such failure is caught and the sorter falls through to the local path.
 */
module RemoteClassifier {
  import opened Common
  import opened JsText
  import opened Tabs

  const MissingApiKey: String := "Missing API Key"
  const Uncategorized: String := "Uncategorized"

  function TrimAll(ls: seq<String>): (r: seq<String>)
    ensures |r| == |ls|
  {
    seq(|ls|, k requires 0 <= k < |ls| => Trim(ls[k]))
  }

  /** `text.split("\n").map((l) => l.trim()).filter((l) => l)`. */
  function ResponseLines(text: String): seq<String> {
    Filter(TrimAll(Split(text, '\n')), (l: String) => l != [])
  }

  /** Every response line is non-empty, trimmed at both ends, and a single line. */
  lemma ResponseLinesShape(text: String)
    ensures forall k :: 0 <= k < |ResponseLines(text)| ==>
      var l := ResponseLines(text)[k];
      && l != [] && '\n' !in l
      && !IsSpace(l[0]) && !IsSpace(l[|l| - 1])
  {
    var pieces := Split(text, '\n');
    var lines := ResponseLines(text);
    forall k | 0 <= k < |lines|
      ensures lines[k] != [] && '\n' !in lines[k] && !IsSpace(lines[k][0]) && !IsSpace(lines[k][|lines[k]| - 1])
    {
      FilterSubset(TrimAll(pieces), (l: String) => l != [], lines[k]);
      var p :| 0 <= p < |pieces| && TrimAll(pieces)[p] == lines[k];
      TrimmedPiece(pieces[p]);
    }
  }

  lemma TrimmedPiece(piece: String)
    requires '\n' !in piece && Trim(piece) != []
    ensures '\n' !in Trim(piece) && !IsSpace(Trim(piece)[0]) && !IsSpace(Trim(piece)[|Trim(piece)| - 1])
  {
    TrimShape(piece);
    TrimKeepsChars(piece);
  }

  /** The topic of the tab at position i: its line without non-word characters, title-cased. */
  function TopicAt(lines: seq<String>, i: nat): String {
    if i < |lines| then TitleCase(RemoveNonWord(lines[i])) else Uncategorized
  }

  /**
   * The Gemini path: `None` when it falls through to the local path; with no
   * API key every tab, connected or not, gets "Missing API Key".
   */
  function GeminiTopics(tabs: seq<Tab>, apiKey: String, reply: Option<String>): (r: Option<seq<Assignment>>)
    ensures apiKey == [] ==> r.Some? && TabsOf(r.value) == tabs
    ensures apiKey == [] ==> forall p :: 0 <= p < |r.value| ==> r.value[p].topic == MissingApiKey
    ensures apiKey != [] ==> (r.None? <==> reply.None? || Trim(reply.value) == [])
    ensures apiKey != [] && r.Some? ==> TabsOf(r.value) == Connected(tabs)
  {
    if apiKey == [] then
      Some(seq(|tabs|, k requires 0 <= k < |tabs| => Assignment(tabs[k], MissingApiKey)))
    else if reply.None? then None
    else
      var text := Trim(reply.value);
      if text == [] then None
      else
        var validTabs := Connected(tabs);
        var lines := ResponseLines(text);
        Some(seq(|validTabs|, i requires 0 <= i < |validTabs| => Assignment(validTabs[i], TopicAt(lines, i))))
  }

  /**
   * With a key and a reply, tab i gets "Uncategorized" when the reply has
   * fewer than i + 1 non-empty lines; otherwise its topic is a single line of
   * word characters and white space that title-casing leaves unchanged.
   */
  lemma GeminiTopicShape(tabs: seq<Tab>, apiKey: String, reply: String, i: nat)
    requires apiKey != [] && Trim(reply) != []
    requires i < |Connected(tabs)|
    ensures var r := GeminiTopics(tabs, apiKey, Some(reply)).value;
      var lines := ResponseLines(Trim(reply));
      && (i >= |lines| ==> r[i].topic == Uncategorized)
      && (i < |lines| ==>
            && (forall c :: c in r[i].topic ==> IsWordChar(c) || IsSpace(c))
            && '\n' !in r[i].topic
            && TitleCase(r[i].topic) == r[i].topic
            && ToLower(r[i].topic) == ToLower(RemoveNonWord(lines[i])))
  {
    var lines := ResponseLines(Trim(reply));
    var r := GeminiTopics(tabs, apiKey, Some(reply)).value;
    assert r[i].topic == TopicAt(lines, i);
    if i < |lines| {
      ResponseLinesShape(Trim(reply));
      var stripped := RemoveNonWord(lines[i]);
      RemoveNonWordSubset(lines[i]);
      TitleCaseKeepsClasses(stripped);
      TitleCaseIdempotent(stripped);
      TitleCaseSameLower(stripped);
      var t := TitleCase(stripped);
      forall c | c in t ensures (IsWordChar(c) || IsSpace(c)) && c != '\n' {
        var p :| 0 <= p < |t| && t[p] == c;
        assert stripped[p] in stripped;
      }
    }
  }

  /**
   * A line of the answer that is already a title made of word characters
   * and white space becomes the topic of its tab unchanged.
   */
  lemma GeminiTopicVerbatim(tabs: seq<Tab>, apiKey: String, reply: String, i: nat)
    requires apiKey != [] && Trim(reply) != []
    requires i < |Connected(tabs)| && i < |ResponseLines(Trim(reply))|
    requires forall c :: c in ResponseLines(Trim(reply))[i] ==> IsWordChar(c) || IsSpace(c)
    requires TitleCase(ResponseLines(Trim(reply))[i]) == ResponseLines(Trim(reply))[i]
    ensures GeminiTopics(tabs, apiKey, Some(reply)).value[i].topic == ResponseLines(Trim(reply))[i]
  {
    var lines := ResponseLines(Trim(reply));
    assert GeminiTopics(tabs, apiKey, Some(reply)).value[i].topic == TopicAt(lines, i);
    RemoveNonWordKeeps(lines[i]);
  }

  /** RemoveNonWord keeps only characters of its input. */
  lemma {:induction false} RemoveNonWordSubset(s: String)
    ensures forall c :: c in RemoveNonWord(s) ==> c in s
  {
    if s != [] {
      RemoveNonWordSubset(s[1..]);
    }
  }
}
