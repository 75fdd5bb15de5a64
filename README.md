# Zen AI Tabs: the topic-sorting core, in Dafny

This project models the decision logic of the Zen AI Tabs user script
(`ai-tabs.uc.js`). The script sorts the tabs of a Zen browser workspace into
tab groups by topic. Given tab titles, embedding vectors and the replies of
language models, the model covers every step that decides which tab ends up
in which group:

- **`getFilteredTabs`**: which tabs are eligible for sorting (`Tabs`).
- **JavaScript string operations**: ASCII case mapping, the `\w`/`\s`
  classes, `trim`, `split`, and the script's `toTitleCase` (`JsText`).
- **Key order of plain objects**: `Object.keys`/`entries`/`values`, with
  integer-like keys first (`JsObject`).
- **`levenshteinDistance`**: modelled as written, including its index
  mix-up (`EditDistance`).
- **`processTabsInBatches` and the `validIndices` mapping** (`Embeddings`).
- **`clusterEmbeddings`**: greedy seed clustering over an abstract
  similarity (`Clustering`).
- **Matching tabs against existing tab groups**: an embedding pass, then a
  fuzzy title pass (`GroupMatcher`).
- **The Gemini path of `askAIForMultipleTopics`**, from the reply text to
  one topic per tab (`RemoteClassifier`).
- **The string logic of `nameGroup`**: keyword extraction, clean-up of the
  generated name, and the fallback name (`ClusterNamer`).
- **The group-and-consolidate block of `sortTabsByTopic`**: bucketing tabs
  by topic, the merge sweep over labels within edit distance 2, and the
  non-empty filter (`Consolidation`).
- **The local path of `askAIForMultipleTopics`, the provider switch, and
  what `sortTabsByTopic` decides from the answer** (`TopicAssigner`):
  matching, clustering of the tabs left over, naming of every cluster of two
  tabs or more, and the choice between doing nothing, the failure animation
  and applying groups.

Where the script loops and mutates (the distance matrix, the `used` array,
`results`, `bestMatch`, `wordCount`, `finalGroups` and `merged`), the model
is a method with a loop. Each such method is proved against a function or
predicate that states the result. The pure parts are functions with lemmas.
Similarity between vectors is an abstract function, and so are the embedding
engine and the topic model.

Behaviour of the code that is easy to miss, and that the model follows:

- A tab without an embedding skips the fuzzy title pass too
  (ai-tabs.uc.js:476-479).
- A failing Gemini request falls through to the local path
  (ai-tabs.uc.js:413-419); it does not yield a sentinel topic.
- The final filter keeps groups of one tab (ai-tabs.uc.js:698-700).
- `levenshteinDistance` is the textbook edit distance only on strings of
  equal length (`EditDistance.UnequalLengthCounterexample`).

## Model

| member | source | states |
|---|---|---|
| Tabs.FilteredTabs | ai-tabs.uc.js:126-153 | an empty workspace id gives no tabs; every tab returned is connected, in the workspace and allowed by each option |
| Tabs.FilteredTabsCount | ai-tabs.uc.js:138-152 | every eligible tab is kept as often as it occurs and nothing else is; filtering distributes over concatenation, so input order is kept |
| Tabs.DefaultFilter | ai-tabs.uc.js:130-136 | with the default options a tab is sorted exactly when it is connected, in the workspace, not pinned, not grouped, not empty, not a glance tab; selected tabs are included |
| JsText.TitleCasePointwise | ai-tabs.uc.js:212-219 | title-casing keeps the length and puts upper case at the start of every space-separated word and lower case everywhere else |
| JsText.TitleCaseIdempotent | ai-tabs.uc.js:212-219 | title-casing a title-cased string changes nothing |
| JsText.TitleCaseKeepsClasses | ai-tabs.uc.js:212-219 | title-casing keeps the length, the position of every space and newline, and whether each character is a word or white-space character |
| JsText.TitleCaseSameLower | ai-tabs.uc.js:212-219 | title-casing changes only letter case: lower-cased, the result is the input lower-cased |
| JsText.RemoveNonWordKeeps | ai-tabs.uc.js:409 | removing non-word characters leaves a string of word and white-space characters as it is |
| JsText.TitleCaseKeepsWords | ai-tabs.uc.js:212-219 | title-casing keeps the number of space-separated words and the length of each |
| JsText.ToLowerIdempotent | ai-tabs.uc.js:214 | lower-casing twice is lower-casing once |
| JsText.TrimStart | ai-tabs.uc.js:404 | the result is a suffix of the input; it is empty or starts with a non-space; everything removed is white space |
| JsText.TrimEnd | ai-tabs.uc.js:404 | the result is a prefix of the input; it is empty or ends with a non-space; everything removed is white space |
| JsText.TrimShape | ai-tabs.uc.js:404 | a trimmed string is empty or starts and ends with a non-space, and is no longer than its input |
| JsText.TrimKeepsChars | ai-tabs.uc.js:404 | trimming introduces no character |
| JsText.Split | ai-tabs.uc.js:402-403 | a split has at least one piece and no piece holds the separator |
| JsText.JoinSplit | ai-tabs.uc.js:215-218 | joining the pieces of a split with the same separator gives back the string |
| JsText.SplitSameShape | ai-tabs.uc.js:215-218 | two strings with the separator at the same positions split into the same number of pieces of the same lengths |
| JsText.SplitOnSpaceRuns | ai-tabs.uc.js:541 | splitting on white-space runs gives at least one piece and no piece holds white space |
| JsText.RemoveNonWord | ai-tabs.uc.js:409 | removing non-word characters leaves only word and white-space characters and never lengthens the string |
| JsObject.DigitsValueInjective | ai-tabs.uc.js:681 | two canonical array-index keys with the same numeric value are the same key, so numeric order on index keys is strict |
| JsObject.InsertIndex | ai-tabs.uc.js:681 | inserting an index key into ascending index keys keeps them ascending, adds one key and no other |
| JsObject.InsertIndexCount | ai-tabs.uc.js:681 | inserting adds exactly one occurrence of the new key and keeps every other |
| JsObject.SortIndices | ai-tabs.uc.js:681 | sorting index keys gives ascending keys, the same number of them, and the same keys |
| JsObject.SortIndicesCount | ai-tabs.uc.js:681 | sorting index keys is a permutation |
| JsObject.OwnKeyOrderPermutes | ai-tabs.uc.js:681 | an object lists each of its keys exactly once |
| JsObject.OwnKeyOrderShape | ai-tabs.uc.js:681 | array-index keys come first in ascending numeric order; the other keys follow in insertion order |
| JsObject.OwnKeyOrderNoIndices | ai-tabs.uc.js:698 | without integer-like keys, an object lists its keys in insertion order |
| EditDistance.LevenshteinDistance | ai-tabs.uc.js:221-241 | filling the matrix row by row returns the value the recurrence defines, including the early returns for empty strings |
| EditDistance.FillRow | ai-tabs.uc.js:230-238 | one pass of the inner loop fills row i from row i - 1 and changes no other row |
| EditDistance.TableBounds | ai-tabs.uc.js:228-238 | each matrix cell lies between the difference of its indices and the larger index |
| EditDistance.DistanceBounds | ai-tabs.uc.js:221-241 | the result lies between the difference of the lengths and the longer length |
| EditDistance.DistanceFromEmpty | ai-tabs.uc.js:222-226 | an empty string is as far from any string as that string is long, on both sides |
| EditDistance.TableDiagonalZero | ai-tabs.uc.js:228-238 | comparing a string with itself leaves zeros on the diagonal |
| EditDistance.DistanceIgnoresCase | ai-tabs.uc.js:223-224 | the result depends only on the lower-cased strings |
| EditDistance.TableTranspose | ai-tabs.uc.js:228-238 | swapping the two strings transposes the matrix |
| EditDistance.DistanceSymmetric | ai-tabs.uc.js:221-241 | the distance from a to b equals the distance from b to a |
| EditDistance.TableIsLevenshtein | ai-tabs.uc.js:228-238 | on strings of equal length each cell is the textbook edit distance of the two prefixes |
| EditDistance.EqualLengthIsLevenshtein | ai-tabs.uc.js:221-241 | on strings of equal length the result is the textbook edit distance of the lower-cased strings |
| EditDistance.UnequalLengthCounterexample | ai-tabs.uc.js:232 | "a" and "ba" are one insertion apart, yet the script returns 2 |
| EditDistance.LevenshteinZeroOnlyWhenEqual | ai-tabs.uc.js:221-241 | the textbook edit distance is zero only between equal strings |
| EditDistance.DistanceZeroIff | ai-tabs.uc.js:221-241 | the result is zero exactly when the strings are equal up to ASCII case |
| Embeddings.EmbedAll | ai-tabs.uc.js:317-327 | one embedding result per tab |
| Embeddings.ProcessInBatches | ai-tabs.uc.js:317-327 | embedding five at a time and appending each batch gives the embedding of every tab, in tab order |
| Embeddings.ValidIndices | ai-tabs.uc.js:524-526 | the kept positions are strictly increasing, in range, and hold usable embeddings |
| Embeddings.ValidIndicesComplete | ai-tabs.uc.js:524-526 | every position with a usable embedding is kept |
| Embeddings.ValidEmbeddings | ai-tabs.uc.js:527 | one vector per kept position |
| Clustering.ClusterEmbeddings | ai-tabs.uc.js:270-291 | no vectors give no groups; the groups partition 0 .. n - 1; each group is ascending and led by its seed; the seeds ascend; every member is above the threshold from its seed; nothing in a later group is above the threshold from an earlier seed |
| Clustering.GrowGroup | ai-tabs.uc.js:275-287 | one outer iteration on an unused seed keeps the loop invariant: the group takes every still-unused index above the threshold, which becomes used |
| Clustering.LargeClustersExact | ai-tabs.uc.js:574 | the cluster loop skips exactly the clusters of fewer than two members and keeps the rest in order |
| Clustering.ClusterPositions | ai-tabs.uc.js:575-577 | a cluster maps to one tab position per member, each a kept position |
| Clustering.ClusterPositionsDistinct | ai-tabs.uc.js:573-577 | distinct cluster slots map to distinct tab positions, so no tab goes into two groups or twice into one |
| GroupMatcher.EmbeddingBest | ai-tabs.uc.js:484-499 | a chosen group has a centroid and a boosted score above 0.65 |
| GroupMatcher.EmbeddingBestSpec | ai-tabs.uc.js:484-499 | the embedding pass matches exactly when some group scores above 0.65; it picks a highest score, and the first group with that score |
| GroupMatcher.EmbeddingPass | ai-tabs.uc.js:484-499 | the loop that updates `bestMatch` and `bestSimilarity` ends with the choice EmbeddingBest describes |
| GroupMatcher.TitleSimilarityFacts | ai-tabs.uc.js:505-507 | the title similarity lies in [0, 1], and it exceeds 0.7 exactly when the integer test `10*(m-d) > 7*m` holds |
| GroupMatcher.MaxSimilarityHit | ai-tabs.uc.js:503-510 | the maximum over a group's titles exceeds 0.7 exactly when one title does |
| GroupMatcher.EmptyTitleNeverHits | ai-tabs.uc.js:503-510 | an empty tab title matches no group by name |
| GroupMatcher.FuzzyGroupHit | ai-tabs.uc.js:503-510 | the per-group test is true exactly when some member title is close enough, with no titles and NaN terms counting as misses |
| GroupMatcher.FuzzyChoiceSpec | ai-tabs.uc.js:501-513 | the fuzzy pass matches exactly when some group hits, and then picks the last group that hits |
| GroupMatcher.FuzzyPass | ai-tabs.uc.js:501-513 | the loop ends with the choice FuzzyChoice describes |
| GroupMatcher.DecideSpec | ai-tabs.uc.js:481-513 | when some group is an embedding candidate the embedding pass decides; otherwise the fuzzy pass does |
| GroupMatcher.Matched | ai-tabs.uc.js:515-517 | at most one assignment per tab, each to the label of an existing group |
| GroupMatcher.MatchConserves | ai-tabs.uc.js:471-520 | every tab ends up exactly once, either matched to a group or ungrouped |
| GroupMatcher.NoEmbeddingIsUngrouped | ai-tabs.uc.js:476-479 | a tab without an embedding is always passed on as ungrouped |
| GroupMatcher.MatchTabs | ai-tabs.uc.js:471-520 | the loop over the tabs pushes exactly the matched assignments to `result` and the other tabs to `ungroupedTabs`, in order |
| RemoteClassifier.ResponseLinesShape | ai-tabs.uc.js:402-406 | every response line is non-empty, a single line, and trimmed at both ends |
| RemoteClassifier.GeminiTopics | ai-tabs.uc.js:339-412 | without a key every tab gets "Missing API Key"; with a key the path falls through exactly when there is no reply text; otherwise there is one assignment per connected tab, in order |
| RemoteClassifier.GeminiTopicShape | ai-tabs.uc.js:408-412 | tab i gets "Uncategorized" when the reply has fewer than i + 1 lines; otherwise a one-line topic of word and space characters, in title case, that equals line i without its other characters up to letter case |
| RemoteClassifier.GeminiTopicVerbatim | ai-tabs.uc.js:408-411 | a line that is already a title of word and space characters comes back unchanged as tab i's topic |
| RemoteClassifier.RemoveNonWordSubset | ai-tabs.uc.js:409 | removing non-word characters introduces no character |
| ClusterNamer.Tokens | ai-tabs.uc.js:537-542 | every token is longer than two characters and holds no white space |
| ClusterNamer.CountWords | ai-tabs.uc.js:543-544 | the counting loop gives each word its number of occurrences, has a key for exactly the words seen, and adds the keys in order of first occurrence |
| ClusterNamer.WordEntries | ai-tabs.uc.js:545 | each entry pairs a word with its number of occurrences |
| ClusterNamer.WordEntriesComplete | ai-tabs.uc.js:545 | there is exactly one entry per distinct word |
| ClusterNamer.InsertByCount | ai-tabs.uc.js:546 | inserting into a list sorted by descending count keeps it sorted, adds one entry and no other |
| ClusterNamer.SortByCount | ai-tabs.uc.js:546 | sorting gives descending counts with the same entries |
| ClusterNamer.InsertByCountStable | ai-tabs.uc.js:546 | the inserted entry goes after every entry of its count, and the others of each count keep their order |
| ClusterNamer.SortByCountStable | ai-tabs.uc.js:546 | the sort is stable: entries of one count keep their original relative order |
| ClusterNamer.SortByCountPermutes | ai-tabs.uc.js:546 | the sort is a permutation |
| ClusterNamer.SortByCountNoDup | ai-tabs.uc.js:546 | sorting distinct entries gives distinct entries |
| ClusterNamer.TopWords | ai-tabs.uc.js:547-548 | the slice has five words, or all of them when there are fewer |
| ClusterNamer.TopWordsSpec | ai-tabs.uc.js:546-548 | the first five words of the sorted entries are distinct, drawn from the tokens, ordered by non-increasing frequency, and no word left out is more frequent than a word chosen |
| ClusterNamer.KeywordsSpec | ai-tabs.uc.js:537-548 | the keywords are min(5, number of distinct tokens) distinct tokens, each longer than two characters, ordered by non-increasing frequency, and no token left out is more frequent than a keyword |
| ClusterNamer.StripQuotes | ai-tabs.uc.js:567 | one leading and one trailing quote are removed; a name without quotes at its ends is unchanged; at most two characters go |
| ClusterNamer.FirstLineSpec | ai-tabs.uc.js:564-566 | the first line holds no newline |
| ClusterNamer.TidySpec | ai-tabs.uc.js:567 | stripping quotes and title-casing keeps a name on one line and leaves it in title case |
| ClusterNamer.NameGroupTitleCase | ai-tabs.uc.js:535-571 | whichever way the naming run ends, the group's name is left unchanged by title-casing |
| ClusterNamer.CleanNameSpec | ai-tabs.uc.js:564-567 | the name taken from a run is never empty, is one line, and is in title case |
| ClusterNamer.DefaultNameTitleCase | ai-tabs.uc.js:564-567 | the default name "Group" is already in title case |
| ClusterNamer.FallbackNameSpec | ai-tabs.uc.js:569 | the fallback name is one space-free word in title case; it is empty exactly when the first title is empty or starts with a space |
| Consolidation.TopicOrderSpec | ai-tabs.uc.js:674-679 | the key order lists each topic of a filed assignment exactly once, and nothing else |
| Consolidation.BucketIsFilter | ai-tabs.uc.js:674-679 | a bucket is exactly the tabs of the filed assignments with its topic, in order |
| Consolidation.GroupByTopic | ai-tabs.uc.js:674-679 | the `forEach` throws exactly when a tab is filed under a name a plain object inherits; otherwise it gives a key for exactly the topics filed, each holding its non-empty bucket, with the keys created in order of first occurrence |
| Consolidation.Keys | ai-tabs.uc.js:681 | `Object.keys(finalGroups)` lists each filed topic exactly once |
| Consolidation.AbsorbersFollowRule | ai-tabs.uc.js:682-696 | each label survives when no earlier survivor is within distance 2, and otherwise goes to the first such survivor |
| Consolidation.RuleDetermines | ai-tabs.uc.js:682-696 | that rule determines the fate of every label |
| Consolidation.FirstSurvives | ai-tabs.uc.js:683-684 | the first key always survives |
| Consolidation.SurvivorsApart | ai-tabs.uc.js:682-696 | any two surviving labels are more than distance 2 apart |
| Consolidation.AbsorbedByEarlierSurvivor | ai-tabs.uc.js:686-694 | an absorbed label goes to an earlier surviving label within distance 2 |
| Consolidation.ConsolidatedShape | ai-tabs.uc.js:681-698 | the entries are the surviving labels in key order, starting with the first key, each holding its own tabs and then the tabs of the labels it absorbed, in key order |
| Consolidation.ConsolidationConserves | ai-tabs.uc.js:681-696 | consolidation neither loses nor duplicates a tab: the entries hold exactly the tabs of the buckets |
| Consolidation.ConsolidatedNonEmpty | ai-tabs.uc.js:698-700 | over non-empty buckets every consolidated entry is non-empty |
| Consolidation.Consolidate | ai-tabs.uc.js:681-696 | the nested loops over the keys leave exactly the surviving labels, each holding its own tabs followed by the tabs it absorbed |
| Consolidation.AbsorbLater | ai-tabs.uc.js:686-695 | the inner loop of a surviving label moves in every later unmerged label within distance 2 and keeps the sweep invariant |
| Consolidation.InnerStep | ai-tabs.uc.js:687-694 | one pass of the inner loop keeps the sweep invariant |
| Consolidation.EntriesAfterSweep | ai-tabs.uc.js:698 | `Object.values` after the sweep lists exactly the consolidated entries |
| Consolidation.NonEmptyListsKeepTabs | ai-tabs.uc.js:698-700 | the `length > 0` filter drops no tab |
| Consolidation.NonEmptyListsShape | ai-tabs.uc.js:698-700 | the filter keeps only non-empty lists, and keeps every entry when none is empty |
| Consolidation.GroupAndConsolidate | ai-tabs.uc.js:674-700 | it throws exactly when a tab is filed under an inherited name; otherwise the lists are the consolidated buckets, all non-empty, with no tab lost or duplicated, and there are none exactly when no assignment was filed under a topic |
| Consolidation.KeysEmpty | ai-tabs.uc.js:674-681 | there is no key exactly when no assignment is filed under a topic |
| Consolidation.ConsolidatedLists | ai-tabs.uc.js:681-700 | over non-empty buckets the filter keeps every consolidated entry, and there is at least one whenever there is a key |
| Consolidation.FiledTabs | ai-tabs.uc.js:674-678 | every tab filed under a topic is connected |
| Consolidation.FiledWithin | ai-tabs.uc.js:674-678 | filing takes each tab at most as often as the assignments name it |
| Consolidation.BucketsHoldFiled | ai-tabs.uc.js:674-681 | the buckets of distinct keys that cover every filed topic hold exactly the filed tabs |
| Consolidation.GroupedTabsFiled | ai-tabs.uc.js:674-696 | the consolidated groups hold exactly the tabs of the assignments filed under a topic |
| TopicAssigner.PickWithin | ai-tabs.uc.js:575-577 | picking tabs at distinct positions takes no tab more often than it occurs |
| TopicAssigner.Labelled | ai-tabs.uc.js:580 | every tab of a cluster is pushed, in order, under the cluster's name |
| TopicAssigner.AssignClusters | ai-tabs.uc.js:573-581 | the loop appends, after what the matcher pushed, every cluster of two tabs or more, its tabs under its name, and skips the smaller clusters |
| TopicAssigner.ClusterAssignmentsTabs | ai-tabs.uc.js:573-581 | the clusters' assignments cover exactly the ungrouped tabs at the positions of the clusters of two tabs or more, in order |
| TopicAssigner.LargePositionsFrom | ai-tabs.uc.js:575-577 | every such position comes from a member of some cluster through `validIndices` |
| TopicAssigner.LargePositionsDistinct | ai-tabs.uc.js:522-581 | over disjoint ascending clusters and the increasing `validIndices`, no ungrouped tab is taken twice |
| TopicAssigner.ClusterAssignmentsNamed | ai-tabs.uc.js:578-580 | every name given to a cluster is in title case |
| TopicAssigner.ClusteredWithin | ai-tabs.uc.js:522-581 | the clusters of a greedy clustering name each ungrouped tab at most as often as it was left over |
| TopicAssigner.ClusteredSound | ai-tabs.uc.js:471-581 | matched tabs and clustered tabs together are at most the matched and ungrouped tabs; every topic is a group's name or in title case |
| TopicAssigner.LocalTopics | ai-tabs.uc.js:419-585 | no connected tab gives no topics; otherwise the matched tabs, followed, when more than one tab is left over and more than one of those has a usable embedding, by the assignments of a greedy clustering at threshold 0.45 |
| TopicAssigner.LocalOutcomeSound | ai-tabs.uc.js:419-585 | the local path gives topics only to connected tabs of its input, none more often than it occurs there, and every topic is an existing group's name or in title case |
| TopicAssigner.AskForTopics | ai-tabs.uc.js:330-419 | provider 1 gives Gemini's answer when there is one; every other provider value, and a Gemini failure, gives the local path's |
| TopicAssigner.AnsweredWithin | ai-tabs.uc.js:330-585 | whichever provider answers, no tab gets a topic more often than it was passed in |
| TopicAssigner.SortTabsByTopic | ai-tabs.uc.js:657-705 | the sort does not start exactly when there is no active workspace or no tab to sort; otherwise, for an answer of the topic assignment, it aborts when a tab is filed under an inherited name, fails when no list comes out of more than one tab, and applies the consolidated lists otherwise; the groups it applies are non-empty, hold only connected tabs, and take no tab more often than the workspace's filtered tabs hold it |

## Left out

- DOM access, preferences, styles, animations, the sort button, event wiring and the apply step that moves tabs into `tab-group` elements (ai-tabs.uc.js:707-762) are host plumbing, not decision logic.
- The `isSorting` guard and its delayed reset are asynchronous timing.
- `getTabTitle` and URL extraction read the DOM. A tab's `title` field stands for what `getTabTitle` returns.
- `cosineSimilarity`, `averageEmbedding` and the normalisation in `generateEmbedding` are floating-point arithmetic with `sqrt` and NaN.
  - Clustering takes an abstract `sim(i, j)`.
  - The matcher takes an abstract cosine function and a precomputed group centroid.
- The embedding engine and the topic model are foreign calls. They are parameters: an embedder from title to optional vector, and the outcome of a naming run.
- The Gemini request (prompt, `fetch`, JSON decoding) is I/O. The model takes the reply text, or its absence.
- `Promise.all` concurrency in `processTabsInBatches`: the results are gathered in order, which is all the model keeps.
- Case mapping covers ASCII letters only. JavaScript's full Unicode case mapping, which can change a string's length, is not modelled.
- Grouping by topic reads `finalGroups[topic]` on a plain `{}`. A topic equal to a name inherited from `Object.prototype` (`constructor`, `toString`, `valueOf`, `hasOwnProperty`, `__proto__` and the rest of `Consolidation.InheritedNames`) is modelled: the `push` throws, and the sort ends in the catch with nothing applied (`Consolidation.GroupByTopic`, `Consolidation.GroupAndConsolidate`, `TopicAssigner.SortTabsByTopic`).
- ClusterNamer.CountWords: the tokens `constructor` and `__proto__` read an inherited member of `wordCount` (ai-tabs.uc.js:543-544), so their count is not a number and the sort compares NaN. This is not modelled, and `ClusterNamer.KeywordsSpec` assumes plain counts. The keywords only feed the prompt (ai-tabs.uc.js:550), and the naming run stands for what the model makes of it.
- The 0.7 fuzzy threshold is compared exactly. `GroupMatcher.TitleSimilarityFacts` relates it to the integer test; floating-point rounding of `1 - dist/max` is not modelled.
- The collection of existing groups from the DOM (ai-tabs.uc.js:425-454) is host plumbing. The matcher takes the groups as a list.
- TopicAssigner.LocalTopics: the embeddings of the left-over tabs (ai-tabs.uc.js:523) come from a second call to the engine. The embedder is a function, so that call returns what the first pass returned for the same title; an engine whose answer changes between the two calls is not modelled.
