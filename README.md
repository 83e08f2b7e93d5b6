# Relevance feedback with Rocchio's method, in Dafny

This project models the relevance-feedback engine of a small query-expansion tool (package `adb`). The
engine holds its state in `RelevanceFeedback`, which keeps the following across search rounds:

- the query of the round;
- a URL history used to drop documents seen before;
- one `Term` per stored document: its relevance flag, its token count and the frequency of each non-stop word;
- a dense word index, kept as two maps (word to index and index to word);
- the document frequency of each indexed word;
- the relevant and non-relevant document counts of the round;
- the precision of the last round;
- a penalty table keyed by word.

A round (`queryExpansion`) works in four steps:

1. It takes in the judged results of the round (`preProcession`).
2. It builds the TF-IDF vector of the query.
3. It moves that vector towards the centroid of the relevant documents and away from the centroid of the
   non-relevant ones, with α = 1.0, β = 0.75 and γ = 0.15, and drops negative weights (`rocchio`).
4. It builds the next query (`expand`). The query words and the one or two heaviest other words are
   weighed, the new words by a penalty derived from the round's precision. The words are sorted
   heaviest first, ties kept in order, and joined with one space after each.

Modules, one per concern:

- `Terms` (term.dfy): the `Term` bean, as a class with its getters and setters.
- `Results` (single_result.dfy): the `SingleResult` bean, with `toString` and a read-back of its text.
- `Wrappers` (wrappers.dfy): `Option`, for the values Java returns as a possibly null reference.
- `Text` (text.dfy): reading delimited fields back out of a string.
- `Tokenizer` (tokenizer.dfy): the lower-casing and the regex split of a result's title and summary.
- `TermCounts` (tf_counts.dfy): the word-frequency counting of documents and of the query.
- `Vocabulary` (vocabulary.dfy): the invariants `preProcession` keeps, as specification functions and lemmas.
  - The index is a dense bijection, and existing indices never move.
  - Documents are deduplicated by URL.
  - The document frequency of each word is the number of stored documents holding it, plus one for a word
    that entered from a query.
- `Vectors` (vectors.dfy): TF-IDF vectors, centroids and Rocchio's update, as functions on sequences of reals.
- `Ranking` (ranking.dfy): `compareTo` and the stable sort, the top-two selection, the candidates, the
  penalties and the joined next query.
- `Feedback` (relevance_feedback.dfy): the `RelevanceFeedback` class.
  - Every loop of the Java code is a method with its invariants.
  - Every vector is an `array<real>` updated in place.
  - Each method is proved against the functions above.
  - The class invariant `Valid()` holds between calls: the stored Terms hold the profiles, and the
    vocabulary is consistent.

Three things that the Java code computes or reads are parameters of the model:

- the stop-word set;
- the TF-IDF weight of a word, from its frequency, its document frequency and the number of stored
  documents;
- the caller's choice of `number`.

## Model

| member | source | states |
|---|---|---|
| Terms.Term.constructor | adb/Term.java:10-20 | a new Term has an empty frequency map, length 0 and is not relevant |
| Terms.Term.SetLength | adb/Term.java:22-31 | getLength returns the value set; only the length changes |
| Terms.Term.SetIsRelevant | adb/Term.java:33-39 | getIsRelevant returns the value set; only the flag changes |
| Terms.Term.SetTf | adb/Term.java:44-53 | getTf returns the map set; only the map changes |
| Results.SingleResult.constructor | adb/SingleResult.java:16-20 | the getters return url, title and summary as given, and the result starts out not relevant |
| Results.SingleResult.SetIsRelevant | adb/SingleResult.java:43-45 | getIsRelevant returns the value set; url, title and summary stay as they were |
| Results.SingleResult.ToString | adb/SingleResult.java:34-37 | the text is 30 characters longer than the three fields together, opens with the URL label and the URL, and ends with the closing line |
| Results.TailReadsBack | adb/SingleResult.java:34-37 | the title and the summary are read back from the text after the URL line when neither holds a line break |
| Results.ToStringReadsBack | adb/SingleResult.java:34-37 | when no field holds a line break, parsing toString's text gives back url, title and summary exactly |
| Text.FieldReadBack | adb/SingleResult.java:34-37 | a field free of the delimiter and followed by it is read back exactly, and so is the rest after it |
| Tokenizer.LowerCaseKeepsSeparators | adb/RelevanceFeedback.java:144 | lower-casing leaves no capital letter and keeps every separator in place |
| Tokenizer.SplitSound | adb/RelevanceFeedback.java:143-144 | the split keeps every non-separator character, in order, and nothing else; no token holds a separator, and only the first token may be empty |
| Tokenizer.SplitJoin | adb/RelevanceFeedback.java:143-144 | the split undoes writing clean tokens out with single spaces between them, so it cuts at every separator run and nowhere else |
| Tokenizer.TokensJoin | adb/RelevanceFeedback.java:143-144 | tokenizing clean lower-case tokens written out with spaces gives those tokens back |
| Tokenizer.TokensClean | adb/RelevanceFeedback.java:143-144 | every token of a title and summary is lower-case and separator-free, and only the first may be empty |
| TermCounts.CountTfCounts | adb/RelevanceFeedback.java:158-168 | a word is counted if and only if it is a non-stop token, and its count is its number of occurrences, at least 1 |
| TermCounts.CountTfPositive | adb/RelevanceFeedback.java:158-168 | every count is at least 1 and no stop word is counted |
| TermCounts.CountTfSum | adb/RelevanceFeedback.java:146-168 | the counts add up to the number of non-stop tokens, so never to more than the stored length |
| Vocabulary.AppendWord | adb/RelevanceFeedback.java:176-181 | a new word takes index termToIdx.size(); the index stays a dense bijection, grows by one, and no earlier index moves |
| Vocabulary.FreshIsUnseen | adb/RelevanceFeedback.java:139-142 | every kept document has a URL not in history, and comes from the round |
| Vocabulary.FreshIsDistinct | adb/RelevanceFeedback.java:139-142 | the kept documents have pairwise distinct URLs |
| Vocabulary.FreshCoversUnseen | adb/RelevanceFeedback.java:139-142 | the URLs kept are exactly the round's URLs not in history |
| Vocabulary.FreshKeepsFirst | adb/RelevanceFeedback.java:139-142 | a kept document is the first of its URL in the round; later copies are dropped whatever their flag |
| Vocabulary.FreshOfSeen | adb/RelevanceFeedback.java:139-142 | documents whose URLs are all in history add nothing |
| Vocabulary.IngestTwiceKeepsNothing | adb/RelevanceFeedback.java:139-142 | taking in the same documents a second time keeps none of them |
| Vocabulary.ProfileOf | adb/RelevanceFeedback.java:143-150 | the Term of a document carries its relevance flag and the number of tokens of its title and summary |
| Vocabulary.ProfileOfWellFormed | adb/RelevanceFeedback.java:146-168 | the Term of a document counts only non-stop words, each at least once, in total at most its length |
| Vocabulary.AbsorbedStart | adb/RelevanceFeedback.java:139 | before the document loop, history, Terms and counts are as they were |
| Vocabulary.AbsorbedStep | adb/RelevanceFeedback.java:139-186 | a document whose URL is in history changes nothing; a new one adds its URL and its Term, and one to the relevant or to the non-relevant count |
| Vocabulary.CountOne | adb/RelevanceFeedback.java:173-177 | counting one document for a word adds 1 to a known word's document frequency, starts a new word at 1, and changes no other entry |
| Vocabulary.AddDocumentStep | adb/RelevanceFeedback.java:172-182 | counting a document's words one at a time, in any order, adds one to the frequency of each distinct word |
| Vocabulary.IndexStart | adb/RelevanceFeedback.java:172 | before the loop over a document's words nothing is counted yet |
| Vocabulary.IndexKnownWord | adb/RelevanceFeedback.java:173-175 | a known word's document frequency goes up by one and the index does not change |
| Vocabulary.IndexNewWord | adb/RelevanceFeedback.java:176-181 | an unknown word starts at 1 and takes the next free index; the index stays dense and no earlier index moves |
| Vocabulary.AddDocumentCounts | adb/RelevanceFeedback.java:172-185 | after a new document, each word's document frequency is still the number of stored documents holding it (plus one for a word seeded from a query) |
| Vocabulary.ConsistentEmpty | adb/RelevanceFeedback.java:68-93 | an empty vocabulary with no Term satisfies the invariant |
| Vocabulary.ConsistentAdd | adb/RelevanceFeedback.java:172-185 | indexing a new well-formed document keeps the invariant: dense bijection, docFreq keys equal termToIdx keys, frequencies are counts; the vocabulary grows by exactly the document's words |
| Vocabulary.ConsistentSeed | adb/RelevanceFeedback.java:188-194 | a query word missing from the vocabulary takes the next index with frequency 1, the invariant holds, and no earlier index moves |
| Vocabulary.SeedUpToHolds | adb/RelevanceFeedback.java:188-195 | after the query loop has passed j words, every one of them is indexed |
| Vocabulary.SeedUpToOnly | adb/RelevanceFeedback.java:188-195 | the query loop indexes no word besides the words already indexed and the query words it has passed |
| Vocabulary.SeedUpToKeeps | adb/RelevanceFeedback.java:188-195 | the query loop moves no word that was indexed before it |
| Vocabulary.SeedUpToFreq | adb/RelevanceFeedback.java:188-195 | after the query loop the frequency table has exactly the indexed words as keys; each new word has frequency 1 and every other frequency is unchanged |
| Vocabulary.SeedUpToDense | adb/RelevanceFeedback.java:188-195 | the query loop keeps the index a dense bijection between words and 0 .. size - 1 |
| Vocabulary.SeedUpToOrder | adb/RelevanceFeedback.java:188-195 | new query words take their indices in query order: a word met for the first time, and not indexed before the loop, lies above every query word before it |
| Vocabulary.SeedInOrder | adb/RelevanceFeedback.java:188-195 | the query loop run on an index that grew in document order leaves it Preprocessed: its new words lie above every document word and follow query order |
| Vocabulary.PreprocessedKeys | adb/RelevanceFeedback.java:139-195 | the words of the index preProcession leaves are the old ones, those of the Terms and those of the query, so its size is known before the call |
| Vocabulary.InOrderStart | adb/RelevanceFeedback.java:139-186 | before the document loop every word of the stored Terms is indexed and no word is new |
| Vocabulary.GrewInOrderStep | adb/RelevanceFeedback.java:170-182 | one more stored Term whose new words take the next indices keeps the vocabulary grown by the Terms' words in the order the Terms bring them |
| Vocabulary.IndexedInOrderStep | adb/RelevanceFeedback.java:170-182 | the new words of one more Term lie above every word an earlier Term brought |
| Vocabulary.NewAbove | adb/RelevanceFeedback.java:176-181 | a word added to a dense index without moving the others lies at or above the old size |
| Vocabulary.SeededWords | adb/RelevanceFeedback.java:188-195 | after the query loop a word counts as seeded exactly when it was seeded before, or when it is a query word that no stored Term holds |
| Vocabulary.ProfileWordsIndexed | adb/RelevanceFeedback.java:172-185 | every word of every stored Term is indexed and has a document frequency, so docVector's lookups never miss |
| Vocabulary.QueryTfIndexed | adb/RelevanceFeedback.java:188-195 | once the query words are indexed, every word the query's frequencies count is indexed and has a document frequency |
| Vocabulary.DocFreqPositive | adb/RelevanceFeedback.java:172-194 | every document frequency is at least 1 |
| Vectors.TfIdfAtWord | adb/RelevanceFeedback.java:225-235 | the component at a word's index is its weight when the Term counts it, and 0 otherwise |
| Vectors.PartialTfIdfStep | adb/RelevanceFeedback.java:229-233 | filling in one more word writes its weight at its index and changes no other component |
| Vectors.PartialTfIdfEnds | adb/RelevanceFeedback.java:228-233 | a new vector is all zeros, and once every word is filled in it is the TF-IDF vector |
| Vectors.VectorsOfShape | adb/RelevanceFeedback.java:242-257 | every vector of a group has getVectorSize() components, and a group is empty exactly when no Term carries its flag |
| Vectors.GroupedEnds | adb/RelevanceFeedback.java:248-256 | both groups start empty, and after the last Term they are the groups of all Terms |
| Vectors.GroupedStep | adb/RelevanceFeedback.java:250-255 | the next Term's vector joins the group its flag names, and the other group stays as it was |
| Vectors.SumsSnoc | adb/RelevanceFeedback.java:281-285 | adding one more vector adds it to every component sum |
| Vectors.CentroidOfSums | adb/RelevanceFeedback.java:287-289 | the centroid is the component sums divided by the number of vectors |
| Vectors.CentroidBounds | adb/RelevanceFeedback.java:277-292 | each component of a centroid lies within the bounds of the vectors it averages |
| Vectors.RocchioUpdate | adb/RelevanceFeedback.java:299-314 | every component of the result is α·q0 + β·cr − γ·cn when that is non-negative and 0 otherwise, so never negative; the result has q0's length |
| Vectors.RocchioUpdateSteps | adb/RelevanceFeedback.java:305-314 | scaling the query and the two centroids, then adding and clamping, is Rocchio's update |
| Vectors.ScaleLaws | adb/RelevanceFeedback.java:265-269 | scaling by α = 1 leaves a vector as it is, and scaling twice is scaling by the product |
| Vectors.RocchioMonotone | adb/RelevanceFeedback.java:306-313 | a word weighing more in the relevant centroid never weighs less in the new query |
| Ranking.CompareToIsComparator | adb/RelevanceFeedback.java:53-62 | compareTo is antisymmetric and transitive, equal candidates compare alike, and it puts a heavier candidate first |
| Ranking.SortByWeight | adb/RelevanceFeedback.java:385 | sorting keeps the length and the candidates exactly, as a multiset |
| Ranking.SortByWeightSorted | adb/RelevanceFeedback.java:385 | the sorted candidates have non-increasing weights |
| Ranking.SortByWeightStable | adb/RelevanceFeedback.java:385 | candidates of equal weight keep the order in which they were added |
| Ranking.JoinReadsBack | adb/RelevanceFeedback.java:388-391 | splitting the joined string at its spaces gives back each candidate's word in order, when no word holds a space |
| Ranking.TopTwoUnique | adb/RelevanceFeedback.java:358-370 | the two selected indices are determined by the vector alone |
| Ranking.TopTwoIsTopTwo | adb/RelevanceFeedback.java:358-370 | fst ≠ snd; fst holds the maximum at the lowest index attaining it; snd holds the largest other component, at the lowest other index attaining it |
| Ranking.WithDefaultPenalty | adb/RelevanceFeedback.java:349-353 | after the query loop, the penalty table holds its old entries and every query word; a word that had no entry has 1.0 |
| Ranking.ZeroQueryWords | adb/RelevanceFeedback.java:355 | zeroing the query words keeps the vector's length |
| Ranking.QueryCandidates | adb/RelevanceFeedback.java:346-356 | there is one candidate per query word, in query order, each carrying its word |
| Ranking.Chosen | adb/RelevanceFeedback.java:376-383 | two new words are chosen when number is 2, one otherwise |
| Ranking.ChosenPenalty | adb/RelevanceFeedback.java:376-383 | the chosen words map to the penalty factor, and every other entry stays as it was |
| Ranking.ZeroQueryWordsSnoc | adb/RelevanceFeedback.java:354-355 | one more query word reads its component before it is zeroed (0 if an earlier occurrence zeroed it), then zeroes it |
| Ranking.QueryCandidatesSnoc | adb/RelevanceFeedback.java:354 | one more query word adds its candidate at the end, weighed by its component times its penalty |
| Ranking.WithDefaultPenaltySnoc | adb/RelevanceFeedback.java:349-353 | one more query word gets penalty 1.0 unless it already has an entry |
| Ranking.ScoreWordStep | adb/RelevanceFeedback.java:347-356 | one turn of the query loop extends the candidates, the zeroing and the penalty table by that word |
| Ranking.ScoredStep | adb/RelevanceFeedback.java:347-356 | one turn of the query loop takes the loop's state for the words before it to the state including it |
| Ranking.Precision | adb/RelevanceFeedback.java:372 | the precision lies in [0, 1], and is 1 exactly when no document of the round was non-relevant |
| Ranking.PenaltyFactorBounds | adb/RelevanceFeedback.java:374 | the factor is non-negative; it is at most the precision when the round is no more precise than the last, and at least the precision when it is more precise |
| Ranking.ExpandCandidates | adb/RelevanceFeedback.java:346-383 | there are query length + 1 candidates, or + 2 when number is 2 |
| Ranking.ExpandOfParts | adb/RelevanceFeedback.java:343-391 | the next query joins the sorted query-word and chosen candidates, and the new table is the defaulted table with the chosen words' factor |
| Ranking.ExpandPicksTop | adb/RelevanceFeedback.java:346-383 | the candidates are the query words' followed by those of the top-two indices of the zeroed vector, the second only when number is 2 |
| Ranking.ExpandReadsBack | adb/RelevanceFeedback.java:385-391 | read back at its spaces, the next query lists every candidate once, heaviest first: the sorted sequence is ordered and a permutation of the candidates |
| Ranking.ExpandAddsNewWord | adb/RelevanceFeedback.java:355-378 | when some word outside the query has a positive weight, the first new word is not a query word |
| Feedback.RelevanceFeedback.constructor | adb/RelevanceFeedback.java:82-93 | the engine starts with empty collections, zero counts and last precision 1, and satisfies its invariant |
| Feedback.RelevanceFeedback.AllClear | adb/RelevanceFeedback.java:68-80 | the query is cleared; history, Terms, both index maps, docFreq, dr, dnr and the penalty table are emptied; the counts are 0; the last precision is kept |
| Feedback.RelevanceFeedback.ClearDocuments | adb/RelevanceFeedback.java:70-76 | history, the stored Terms and both vector groups are emptied |
| Feedback.RelevanceFeedback.ClearVocabulary | adb/RelevanceFeedback.java:72-74 | both index maps and docFreq are emptied |
| Feedback.RelevanceFeedback.VectorSize | adb/RelevanceFeedback.java:203-205 | the indices in use are exactly 0 to the size − 1, and every word's index is below the size |
| Feedback.RelevanceFeedback.CountWords | adb/RelevanceFeedback.java:158-168 | the loop builds the frequency map of the non-stop tokens |
| Feedback.RelevanceFeedback.IndexWords | adb/RelevanceFeedback.java:172-182 | each distinct word of a document adds one to its document frequency, new words take the next indices, the index stays dense, and no earlier index moves |
| Feedback.RelevanceFeedback.IndexWord | adb/RelevanceFeedback.java:173-181 | one more word of the document, in any order, is counted and indexed as above |
| Feedback.RelevanceFeedback.ReadResult | adb/RelevanceFeedback.java:143-168 | a new Term with the result's flag, its token count and its non-stop word frequencies |
| Feedback.RelevanceFeedback.CountJudged | adb/RelevanceFeedback.java:153-156 | exactly one of the two counts goes up by one, as the flag says |
| Feedback.RelevanceFeedback.Ingest | adb/RelevanceFeedback.java:139-185 | a result whose URL is in history changes nothing; otherwise its URL, its Term and one count are added, the vocabulary grows by its words, and no index moves |
| Feedback.RelevanceFeedback.Admit | adb/RelevanceFeedback.java:141-185 | a new document's URL joins history, it is counted by its flag, and its Term is stored last |
| Feedback.RelevanceFeedback.StoreTerm | adb/RelevanceFeedback.java:172-185 | the Term is appended after its words are counted into the vocabulary; the invariant holds |
| Feedback.RelevanceFeedback.AppendTerm | adb/RelevanceFeedback.java:185 | the Term is appended to the stored ones |
| Feedback.RelevanceFeedback.IngestAll | adb/RelevanceFeedback.java:139-186 | after the document loop: history gains the round's URLs, the Terms of the first copy of each new URL follow in order, the counts grow by their flags, no index moves, the vocabulary grows by exactly the words of the stored Terms, and a new word first held by an earlier Term has a lower index than one first held by a later Term |
| Feedback.RelevanceFeedback.IngestStep | adb/RelevanceFeedback.java:139-186 | one turn of the document loop keeps the loop's state, including the order in which the documents' new words were indexed |
| Feedback.RelevanceFeedback.SeedQueryWords | adb/RelevanceFeedback.java:188-195 | the three tables after the query loop are exactly SeedUpTo of the tables before it over the whole query; the seeded words grow by exactly the query words that were not indexed, and a word is then seeded exactly when it was before or it is a query word no stored Term holds; the vocabulary grows by exactly the query words; no index moves |
| Feedback.RelevanceFeedback.SeedWords | adb/RelevanceFeedback.java:188-195 | the query loop over the tables: the result is SeedUpTo of the tables over the whole query, the invariant holds, the seeded words grow by exactly the query words that were not indexed, and no index moves |
| Feedback.RelevanceFeedback.SeedWord | adb/RelevanceFeedback.java:189-194 | an unknown query word takes index size and document frequency 1 and joins the seeded words; a known one changes no table; the tables stay SeedUpTo of the loop's start over the words passed |
| Feedback.RelevanceFeedback.SetQuery | adb/RelevanceFeedback.java:138 | the query of the round is recorded |
| Feedback.RelevanceFeedback.PreProcession | adb/RelevanceFeedback.java:133-196 | the query is recorded; the documents are taken in as IngestAll states; every query word is indexed; no index moves; a word is seeded exactly when it was before or it is a query word no stored Term holds, so the invariant fixes every document frequency; the invariant holds; the index is Preprocessed: the words indexed are the old ones, the Terms' and the query's, the Terms' new words come in the order the documents bring them, and the query's remaining words after all of them, in query order |
| Feedback.RelevanceFeedback.IndexQuery | adb/RelevanceFeedback.java:188-195 | after the documents, the query loop leaves a Preprocessed index: the remaining query words after every document word, in query order; the seeded words as SeedQueryWords gives them; no index moves; the query is recorded |
| Feedback.RelevanceFeedback.QueryToTerm | adb/RelevanceFeedback.java:207-223 | a new Term, not relevant, whose length is the number of query words and whose frequencies are those of the non-stop query words |
| Feedback.RelevanceFeedback.DocVector | adb/RelevanceFeedback.java:225-235 | a new vector of getVectorSize() components: the weight at the index of each word the Term counts, 0 elsewhere |
| Feedback.RelevanceFeedback.GroupVector | adb/RelevanceFeedback.java:242-257 | dr holds the new vectors of the relevant Terms and dnr those of the others, each in arrival order |
| Feedback.RelevanceFeedback.GroupTerm | adb/RelevanceFeedback.java:250-255 | one turn of the grouping loop adds the next Term's vector to its group |
| Feedback.RelevanceFeedback.AddToGroup | adb/RelevanceFeedback.java:251-255 | the vector is appended to dr when relevant and to dnr otherwise |
| Feedback.RelevanceFeedback.VectorMulConst | adb/RelevanceFeedback.java:265-269 | every component is multiplied by the factor, in place |
| Feedback.RelevanceFeedback.Centroid | adb/RelevanceFeedback.java:277-292 | a new vector of getVectorSize() components holding the component-wise mean of the group |
| Feedback.RelevanceFeedback.AddInto | adb/RelevanceFeedback.java:282-284 | the vector is added component-wise into the sums |
| Feedback.RelevanceFeedback.DivideBy | adb/RelevanceFeedback.java:287-289 | every component is divided by the number of vectors |
| Feedback.RelevanceFeedback.Rocchio | adb/RelevanceFeedback.java:299-318 | q0 is overwritten by Rocchio's update of itself with the two groups' centroids and returned |
| Feedback.RelevanceFeedback.Update | adb/RelevanceFeedback.java:305-314 | scaling by α, β, γ and then combining gives Rocchio's update |
| Feedback.RelevanceFeedback.Centroids | adb/RelevanceFeedback.java:301-303 | the groups are rebuilt and their two centroids returned in new arrays |
| Feedback.RelevanceFeedback.Combine | adb/RelevanceFeedback.java:309-314 | each component becomes q0 + cr − cn, or 0 when that is negative |
| Feedback.RelevanceFeedback.ScoreQueryWords | adb/RelevanceFeedback.java:346-356 | the query candidates, the vector with the query words zeroed, and the table with a default penalty for each query word |
| Feedback.RelevanceFeedback.ScoreStep | adb/RelevanceFeedback.java:347-356 | one turn of the query loop keeps the loop's state |
| Feedback.RelevanceFeedback.ScoreWord | adb/RelevanceFeedback.java:349-355 | the word's candidate weighs its component times its penalty; the word gets 1.0 when it had no penalty; its component becomes 0 |
| Feedback.RelevanceFeedback.TopTwoIndices | adb/RelevanceFeedback.java:358-370 | the indices are the top two of the vector as TopTwoIsTopTwo states |
| Feedback.RelevanceFeedback.Concatenate | adb/RelevanceFeedback.java:388-391 | the next query is the candidates' words, each followed by one space |
| Feedback.RelevanceFeedback.Choose | adb/RelevanceFeedback.java:376-383 | the chosen candidates weigh their components times the factor, which becomes their penalty |
| Feedback.RelevanceFeedback.Expand | adb/RelevanceFeedback.java:343-398 | for fewer than two components: the word of index 0 (None for an empty vocabulary) and no state change. Otherwise: the next query of ExpandOf, the new penalty table, the precision of the round as the last precision, zero counts, and the query words zeroed in qm |
| Feedback.RelevanceFeedback.EndRound | adb/RelevanceFeedback.java:393-396 | the round's precision becomes the last one and both counts are reset to 0 |
| Feedback.RelevanceFeedback.ExpandVector | adb/RelevanceFeedback.java:346-391 | the precision of the round, the next query and penalty table of ExpandOf, and the zeroed vector |
| Feedback.RelevanceFeedback.QueryExpansion | adb/RelevanceFeedback.java:417-420 | the documents and the query are taken in as PreProcession states (no index moves, the seeded words as PreProcession gives them, the new words Preprocessed in arrival order), and the next query is expand applied to rocchio of the query's TF-IDF vector, with the resulting penalties, precision and zero counts; with fewer than two words the penalties and the last precision are unchanged |
| Feedback.RelevanceFeedback.Prepare | adb/RelevanceFeedback.java:418 | preProcession, with PreProcession's guarantees on indices, their order and seeded words, after which every word the query and the Terms count is indexed and has a document frequency; the penalties and the last precision are unchanged |
| Feedback.RelevanceFeedback.ExpandOptimised | adb/RelevanceFeedback.java:419 | expand of the optimised query vector, with the vocabulary, the seeded words and the taken-in documents unchanged; with fewer than two words the penalties and the last precision are unchanged, and the counts and the last precision are required non-zero only with two words or more |
| Feedback.RelevanceFeedback.ExpandIndexed | adb/RelevanceFeedback.java:419 | expand of the optimised query vector, once every counted word is indexed; with fewer than two words the penalties and the last precision are unchanged, and the counts and the last precision are required non-zero only with two words or more |
| Feedback.RelevanceFeedback.Optimise | adb/RelevanceFeedback.java:419 | a new vector holding Rocchio's update of the query's TF-IDF vector |

## Left out

- adb/QueryCLI.java is not part of this model: the HTTP request, XML parsing, console prompts and
  transcript writing. Its only contract with the engine is to call queryExpansion when the round has a
  relevant result; that becomes the preconditions of QueryExpansion.
- getStopSet reads stop.txt (adb/RelevanceFeedback.java:108-125); the stop set is a constructor parameter instead.
- Feedback.RelevanceFeedback.DocVector: the weight (1 + ln tf) · log10(1 + N / df) at line 232 is an
  abstract `weight` function given to the constructor; no numeric property of the logarithms is stated.
- Java `double` is modelled as `real`: no rounding, and no NaN or infinity.
- Feedback.RelevanceFeedback.Centroid requires a non-empty group. In Java an empty group gives NaN
  components through 0/0 (lines 287-289).
- Feedback.RelevanceFeedback.Expand requires a round with at least one judged document and a non-zero
  last precision when the vector has two components or more. In Java the precision is 0/0 (line 372) or
  the factor divides by 0 (line 374).
- Feedback.RelevanceFeedback.QueryExpansion requires that the stored and the newly taken-in Terms include
  a relevant and a non-relevant one. rocchio (lines 299-303, called at line 419) runs whatever the
  vocabulary size, and in Java an empty group gives NaN centroid components (lines 287-289). Only when
  the vocabulary after preProcession holds two words or more (IndexedAfter) does it also require that
  the round counts a document and that the last precision is not 0; with fewer words expand returns at
  lines 344-345 before any precision division.
- Tokenizer.IsPunct: `\p{Punct}` under UNICODE_CHARACTER_CLASS matches every Unicode punctuation
  character; the model treats only the ASCII ones as separators.
- Tokenizer.LowerCase: `toLowerCase` is modelled for the ASCII letters only; other characters are left as they are.
- HashMap iteration order (lines 170-172 and 229): the words of one document are visited in an arbitrary
  order (`:|`), so the model does not say which of the new words first held by the same document gets
  which index. Across documents and the query the order is stated (IngestAll, PreProcession): a word first
  held by an earlier document lies below one first held by a later document, and the query's remaining
  words come after all of them, in query order. Ties in TopTwo between two words of the same document can
  therefore go either way in the model.
- Java `int` overflow of counts, lengths and document frequencies is not modelled (`int` is unbounded).
- Feedback.RelevanceFeedback.QueryToTerm fills the Term's own frequency map. The map object shared with
  the caller of getTf (line 211) is not modelled as a separate object, because a Dafny map is a value.
- Feedback.RelevanceFeedback.PreProcession records the query after the documents and the query words are
  taken in, not first as line 138 does; nothing in between reads the field.
- Feedback.RelevanceFeedback.GroupVector: the null check with System.exit (lines 243-246) is left out,
  because the Term list is never null.
- Debug output is left out: debugQm, debugSortOrder and the System.err line of expand (lines 326-335, 375, 400-407).
- The plain getters getQuery and getTerms (lines 95-100) are left out, because they return a field as it is.
- Ranking.SortByWeight: Collections.sort is modelled as a stable insertion sort. The model states
  sortedness, permutation and stability, the properties Collections.sort guarantees, not its merge order.
