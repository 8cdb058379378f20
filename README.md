# Retrieval, shopping and parsing bookkeeping, in Dafny

This project models the computational core of three small Python programs and proves
properties of the model.

- **questions.py** is a question answerer over a corpus of text files. It tokenizes
  documents, computes inverse document frequencies, ranks files by summed tf-idf, and
  ranks the sentences of the best files by summed IDF. When the top scores tie, it
  re-sorts the top sentences by query term density.
- **shopping.py** prepares a spreadsheet of shopping sessions for a nearest-neighbour
  classifier. It maps month names to indices and encodes each row into 17 evidence
  values and a revenue label. It also evaluates predictions by sensitivity and
  specificity.
- **parser.py** preprocesses a sentence's words for a chart parser. It collects the
  noun-phrase chunks of the tree the parser returns.

Python dictionaries keep insertion order, so a dictionary from names to token lists is a
sequence of `Entry` values with pairwise distinct keys (`Corpus.UniqueKeys`).

`sorted(d, key=d.get, reverse=True)` is a stable descending sort. It is modelled by
`Ranking.Ranked`, a permutation of the positions in which each position is `Ahead` of
every later one: a higher score, or an equal score and an earlier position. Python's
`s[:n]` is `Seqs.Take`, negative `n` included.

The natural logarithm is a parameter `ln`. The lemmas that need its properties require
`IdfIndex.IsLog`: `ln(1) = 0`, and `ln` is strictly increasing on the positive reals.
`int()` and `float()` are parameters `toInt` and `toFloat` that return `None` where
Python raises `ValueError`. The dictionary lookup on `months`, a short row and the
divisions in `evaluate` fail with a `Result` error, not a precondition.

Imperative code stays imperative:

- the loops that fill `idfs`, `new_dict`, `temp_dict`, `qtd_dict`, `evidence`, `labels`
  and `np_chunks`, and the loop over the four counters of `evaluate`, are methods with
  loop invariants;
- `temp_list` is filled by straight-line appends, one column at a time, so each group of
  appends is a method without a loop (`AppendPageCounts`, `AppendRates`, `AppendSession`);
- each method is proved equal to a specification function (`IdfTable`, `FileScores`,
  `TopSentencePositions`, `Encoded`, `Rates`, `Sweep`, `NpSubtrees`);
- the lemmas state what the programs promise about those functions.

Where the code and its documentation differ, the model follows the code:

- `top_sentences` re-sorts by density only the first `n` sentences of the IDF ranking,
  and only when two of their scores are equal. It then sorts all of those `n` by
  density, not only the tied ones, so a sentence whose score is clearly best can drop to
  last (`SentenceRanker.TieDemotesLeader`).
- The punctuation filter of `tokenize` is a substring test on `string.punctuation`.
  So `","` is dropped but `"--"` is kept (`Tokenizer.PunctuationIsASubstringTest`).
- `preprocess` removes words from the list it is iterating over. `remove` takes the
  first occurrence, which may lie before the visited word. After each removal the word
  after the visited one slides into its slot and is never visited, so letterless words
  can survive (see Findings).

## Model

| member | source | states |
|---|---|---|
| Tokenizer.Tokenize | questions.py:66-82 | The result is an order-preserving subsequence of the lowercased tokens. Every word in it is lower case, is no stopword and is no substring of the punctuation string. Each word occurs in it as often as in the lowercased input if it passes both filters, and not at all otherwise. |
| Tokenizer.TokenizeIdempotent | questions.py:75-82 | Tokenizing an already tokenized list gives it back unchanged. |
| Tokenizer.LetterIsNotPunctuation | questions.py:81 | A token with an alphabetic character is never a substring of the punctuation string, so the punctuation filter never drops it. |
| Tokenizer.PunctuationIsAsciiSymbols | questions.py:81 | `string.punctuation` holds 32 characters in strictly increasing code order. A character is in it exactly when it is printable ASCII, not the space, and neither a letter nor a digit. |
| Tokenizer.PunctuationIsASubstringTest | questions.py:81 | Because `in` on a string is a substring test, "," is dropped but "--" is kept. |
| Corpus.WordSet | questions.py:90-91 | A word is in the set exactly when some entry's token list contains it. |
| Corpus.DocFreq | questions.py:99 | The number of entries containing the word is at most the number of entries, and at least 1 exactly when the word occurs somewhere. |
| IdfIndex.ComputeIdfs | questions.py:85-105 | The table's keys are exactly the words of the corpus, each with document frequency between 1 and the number of entries. The table equals `IdfTable`, whose entry for `w` is `ln(N / df(w))`. |
| IdfIndex.StoreIdfs | questions.py:97-103 | The inner loop adds exactly the words of one entry as keys. Every stored value, including one written for a word seen before, is `ln(N / df(w))`, so an overwrite stores the same value again. |
| IdfIndex.Ratio | questions.py:99-102 | The ratio `N / df` is at least 1, and exactly 1 when the word occurs in every entry. The division never divides by zero. |
| IdfIndex.IdfRange | questions.py:102 | Every IDF is non-negative, and it is zero exactly for a word found in every entry. |
| IdfIndex.IdfMonotonic | questions.py:99-102 | A word in fewer entries has a strictly larger IDF. |
| IdfIndex.IdfTableCovers | questions.py:24-30 | A table computed from a corpus has an IDF for every query word that some entry of that corpus contains, so ranking files or sentences against that corpus never fails a lookup. |
| FileRanker.TopFiles | questions.py:107-139 | The returned names are the keys, in dictionary order, at the first `n` positions of the stable descending ranking of the file scores. |
| FileRanker.ScoreFile | questions.py:118-135 | One pass of the outer loop sets `new_dict[file]` to the file's tf-idf score and changes no other key. |
| FileRanker.FileScoreStep | questions.py:121-135 | Each query word adds its count times its IDF when the file contains it, and 0 otherwise. |
| FileRanker.TfIdf | questions.py:123-135 | A query word the file does not contain adds 0, and its IDF is never looked up. |
| FileRanker.FileScoreNonNegative | questions.py:121-135 | With non-negative IDFs every file score is at least 0. |
| FileRanker.TopFilesShape | questions.py:118-139 | The result has min(n, number of files) names for `n >= 0`. They are pairwise distinct, and each is a key of `files`. |
| FileRanker.TopFilesOrdered | questions.py:137 | The result is ordered by non-increasing score, and files with equal scores keep their dictionary order. |
| FileRanker.TopFilesAreTop | questions.py:137-139 | No file left out scores more than any file returned. |
| FileRanker.FileScoreAppend | questions.py:121-135 | The score for a concatenation of queries is the sum of the scores for its parts. |
| FileRanker.UnseenQueryWord | questions.py:121-129 | Inserting a query word that no file contains, at any place in the query, leaves every file score and the returned ranking unchanged. This holds whether or not the word has an IDF. |
| FileRanker.CatAndMatExample | questions.py:107-139 | With the documents "The cat sat." and "The cat sat on the mat." and the query {cat, mat}, the single best file is the second. |
| SentenceRanker.SentenceScoreNonNegative | questions.py:153-164 | With non-negative IDFs every sentence score is at least 0. |
| SentenceRanker.ScoreSentences | questions.py:150-164 | The keys of `new_dict` are exactly the sentences. Each maps to the sum of the IDFs of the query words it contains, each counted once. |
| SentenceRanker.ScoreSentence | questions.py:153-164 | One pass of the scoring loop sets that sentence's entry to its score and changes no other entry. |
| SentenceRanker.CopyScores | questions.py:169-173 | The keys of `temp_dict` are exactly the top `n` sentences. Each maps to its score in `new_dict`. |
| SentenceRanker.DensityTable | questions.py:181-185 | The keys of `qtd_dict` are exactly the keys of `temp_dict`. Each maps to its query term density. |
| SentenceRanker.RankByScore | questions.py:150-171 | The top `n` positions are the prefix of the stable descending score ranking. They are pairwise distinct and name pairwise distinct sentences, and the scoring table holds their scores. |
| SentenceRanker.ByDensity | questions.py:181-190 | On a tie, the result is the top `n` keys, stably sorted by density, cut to `n`. |
| SentenceRanker.TopSentences | questions.py:142-190 | The returned sentences are the keys at `TopSentencePositions`. That is the first `n` of the score ranking when the top scores are distinct, and those same sentences sorted by density otherwise. |
| SentenceRanker.TopSentencesShape | questions.py:166-190 | The result has min(n, number of sentences) positions for `n >= 0`. It names pairwise distinct sentences of the input. |
| SentenceRanker.NoTieKeepsRanking | questions.py:175-177 | With pairwise distinct top-`n` scores, the primary ranking prefix is returned unchanged, in strictly decreasing score order. |
| SentenceRanker.TieReorders | questions.py:179-190 | On a tie, the result is a permutation of the same top-`n` sentences. They are ordered by non-increasing density, and equal densities keep their order in the score ranking. |
| SentenceRanker.ReorderRanked | questions.py:187 | Re-sorting a ranked list by a second stable ranking keeps its members. It orders them by the second key, and by the first among equal second keys. |
| SentenceRanker.TopSentencesAreTop | questions.py:166-190 | In both branches, no sentence left out scores more than any sentence returned. |
| SentenceRanker.DensityRange | questions.py:183-184 | Density, computed for a non-empty token list (the guard at questions.py line 38), lies in [0, 1]. It is 1 exactly when every token is a query word, and 0 exactly when none is. |
| SentenceRanker.MatchesAll | questions.py:183 | Matches cover all tokens exactly when every token is a query word. |
| SentenceRanker.MatchesNone | questions.py:183 | There are no matches exactly when no token is a query word. |
| SentenceRanker.TieDemotesLeader | questions.py:175-190 | With scores 9, 5, 5 and densities 1/4, 1, 1/2, the tie triggers the density sort, and the sentence with the clearly best score is returned last. |
| Ranking.Ranked | questions.py:137 | The ranking is a permutation of the positions in which each position is ahead of every later one by score, then by dictionary order. |
| Ranking.RankingUnique | questions.py:137 | Two rankings of the same positions by the same scores are equal, so the stable sort is fully determined. |
| Ranking.TakeIsTop | questions.py:137-139 | Every position in the first `n` of the ranking is ahead of every position left out. |
| Seqs.Count | questions.py:126 | `s.count(x)` is at most the length of `s`, and positive exactly when `x` occurs in `s`. |
| Text.Lower | questions.py:75 | `w.lower()` has the length of `w`, lowers each character in place, and holds no upper-case letter. |
| Text.LowerAll | parser.py:89 | `[x.lower() for x in words]` lowers each word in place and keeps the length of the list. Every word of the result is lower case. |
| Seqs.Take | questions.py:139 | `s[:n]` is a prefix of `s`. Its length is min(n, len(s)) for `n >= 0`, and len(s) + n, but at least 0, for negative `n`. |
| Shopping.MonthsInCalendarOrder | shopping.py:30 | The keys of `months` are the twelve names, and each maps to its place in the calendar. |
| Shopping.MonthsInjective | shopping.py:30 | No two months share an index, every index is in 0..11, and "Jun" is not a key (the table spells "June"). |
| Shopping.Indicator | shopping.py:115-123 | An encoded flag is 0 or 1, and 1 exactly when the field equals the given text. |
| Shopping.MonthField | shopping.py:106 | The month lookup succeeds exactly for the twelve keys of `months`. Any other field is a KeyError naming it. |
| Shopping.AppendInt | shopping.py:94-112 | Appending `int(row[c])` for an integer column extends the encoded prefix by column `c`. Otherwise it raises the error of column `c`, the first unreadable one. |
| Shopping.AppendFloat | shopping.py:95-103 | Appending `float(row[c])` for a floating-point column extends the encoded prefix by column `c`. Otherwise it raises the error of column `c`, the first unreadable one. |
| Shopping.AppendMonth | shopping.py:105-107 | Appending the month index extends the encoded prefix by the month column. Otherwise it raises the KeyError or IndexError of that column. |
| Shopping.AppendPageCounts | shopping.py:94-98 | Appends the encoded columns 0..4, or raises the error of the first of them that is missing or does not convert. |
| Shopping.AppendRates | shopping.py:99-103 | Appends the encoded columns 5..9, or raises the error of the first of them that is missing or does not convert. |
| Shopping.AppendSession | shopping.py:105-112 | Appends the month index and columns 11..14, or raises the error of the first of them that is missing or does not convert. |
| Shopping.EncodeRow | shopping.py:91-123 | A row encodes exactly when all 18 columns exist and convert. The 17 evidence values then follow the documented layout (`KindOf`) in column order, and the label is 1 exactly for "TRUE". Otherwise the error is the one of the first unreadable column. |
| Shopping.EncodedColumns | shopping.py:91-120 | Every evidence value is its own column's field, converted as that column's kind prescribes. |
| Shopping.EncodedIndicator | shopping.py:114-120 | The encoded visitor type and weekend flag are the indicators of their fields. |
| Shopping.RowErrorMeansUnreadable | shopping.py:91-123 | A reported row error means the row as a whole does not encode. |
| Shopping.EncodedMonth | shopping.py:106-107 | The encoded month is the index `months` gives the field, so it lies in 0..11. |
| Shopping.EncodedFlags | shopping.py:114-120 | The visitor and weekend values are 0 or 1. They are 1 exactly for "Returning_Visitor" and "TRUE". |
| Shopping.LoadData | shopping.py:84-130 | A file without a header line fails. Otherwise loading succeeds exactly when every data row encodes, and then evidence and labels have one element per data row, in lockstep. On failure, the error names the first bad row and the first unreadable column of that row. |
| Shopping.Evaluate | shopping.py:143-183 | The result equals `Rates`: the sensitivity and specificity of the four counters, or the IndexError or ZeroDivisionError the function raises first. |
| Shopping.TallyCounts | shopping.py:158-177 | The four counters sum to `len(labels)`, and the two positive counters sum to the number of labels equal to 1. |
| Shopping.TallyMisses | shopping.py:163-177 | No positive is missed exactly when every label 1 is predicted 1. No negative is missed exactly when every other label is predicted as itself. |
| Shopping.RatesMeaning | shopping.py:150-180 | Sensitivity and specificity lie in [0, 1], and each is 1 exactly when no label of its class is mispredicted. |
| Shopping.RatesErrors | shopping.py:163-180 | Evaluation fails when there are fewer predictions than labels, and then when some class has no labels. With no label 1 the sensitivity divides by zero. With every label 1 the specificity divides by zero. |
| Shopping.PerfectPredictions | shopping.py:143-183 | Predictions equal to the labels give sensitivity and specificity 1 when both classes occur. |
| Parser.FirstIndex | parser.py:85 | The position `list.remove` acts on holds `w`, and no earlier position does. |
| Parser.RemoveFirst | parser.py:85 | `words.remove(w)` is the list with its first occurrence of `w` cut out. It is one shorter, and the rest keep their order. |
| Parser.RemoveFirstCount | parser.py:85 | Removing `w` lowers the count of `w` by one and leaves every other count unchanged. |
| Parser.Sweep | parser.py:77-85 | The loop never lengthens the list. A result as long as the input is the input itself. When every word from the iterator's position on has a letter, the list comes back unchanged. |
| Parser.RemoveTakesEarliest | parser.py:77-85 | `remove` takes the earliest occurrence, one the loop may already have passed: the tokens `[",", ",", "a", ","]` give `["a", ","]`. |
| Parser.AlphaCount | parser.py:78-84 | The count of alphabetic characters is 0 exactly when the word has no letter. |
| Parser.CountAlphabetChars | parser.py:78-82 | The inner loop counts exactly the alphabetic characters of the word. |
| Parser.Preprocess | parser.py:66-91 | The result is the lowercased outcome of the removal loop, modelled with the list shrinking under its iterator (`Sweep`). Every returned word is lower case. |
| Parser.SweepSubsequence | parser.py:77-85 | The removal loop only removes, so its result is a subsequence of its input. |
| Parser.PreprocessSubsequence | parser.py:77-91 | The result is a subsequence of the lowercased input and no longer than it. |
| Parser.SweepKeepsAlpha | parser.py:77-85 | The removal loop keeps every word with a letter, in order: it only ever removes letterless words. |
| Parser.PreprocessKeepsWords | parser.py:77-91 | Every input word with a letter survives, lowercased, in its original relative order. |
| Parser.AdjacentPunctuationSurvives | parser.py:77-85 | For the tokens [",", ","] the removal loop leaves [","], a word with no letter. |
| Parser.PreprocessIntended | parser.py:67-71 | What the docstring describes: every returned word has a letter and is lower case. |
| Parser.IntendedFiltersAsWritten | parser.py:67-91 | The intended result is the as-written result with its letterless words dropped. The two agree whenever the loop happens to remove every letterless word. |
| Parser.Subtrees | parser.py:106-110 | `t.subtrees()` is a preorder listing of nodes only. A node comes first, and a word contributes nothing. |
| Parser.Forest | parser.py:110 | The subtrees of a sequence of trees are nodes only, and every node of the sequence is among them. |
| Parser.NpSubtrees | parser.py:106 | A tree is yielded by the NP filter exactly when it is a subtree labelled NP. |
| Parser.NpChunk | parser.py:94-113 | The chunks returned are the NP subtrees, in preorder, whose own NP subtrees are only themselves. |
| Parser.OneNpIffChunk | parser.py:109-111 | An NP has exactly one NP subtree exactly when it is a chunk, that is, when none of its proper subtrees is an NP. |
| Parser.ChunksExactly | parser.py:95-113 | A tree is returned exactly when it is a subtree and a chunk. The result is a subsequence of the preorder, and no returned chunk lies inside another. |
| Parser.ChunkBelow | parser.py:95-99 | Every NP contains a chunk among its subtrees. |
| Parser.SomeChunk | parser.py:106-113 | A tree with an NP subtree has at least one chunk. |

## Left out

- The `main` functions: argument checks, `input`, `print` and `pretty_print` are I/O. The progress `print` calls inside `load_data`, `train_model` and `evaluate` are I/O too.
- `load_files`, and the opening and CSV reading of the spreadsheet, are filesystem access. `LoadData` receives the file's rows as already split fields. It reads nothing from the header line.
- `nltk.word_tokenize`, `nltk.sent_tokenize`, the English stopword list and the chart parser with its grammar are foreign library calls. `Tokenize` and `Preprocess` receive the splitter's tokens, `Tokenize` receives the stopwords as a set, and `NpChunk` receives the parse tree.
- The extraction of sentences from the best files in `main` is not modelled. Only its guard `if tokens:` is kept, as `SentenceRanker.NonEmptyTokens`, the precondition of density.
- `math.log` and floating-point arithmetic: scores and rates are exact reals, and `ln` is a parameter constrained by `IsLog` where needed.
- `int()` and `float()` string parsing: the parameters `toInt` and `toFloat` decide which fields convert.
- `train_model`, `KNeighborsClassifier` and `train_test_split` wrap sklearn and random splitting.
- Text.IsAlpha: covers only ASCII letters, and Text.Lower lowers only ASCII letters; Python's `str.isalpha` and `str.lower` follow Unicode.
- FileRanker.TopFiles, SentenceRanker.TopSentences, FileRanker.FileScore and SentenceRanker.SentenceScore: require that every query word an entry contains has an IDF (`IdfsCover`, or its form for one entry). The `KeyError` that `idfs[word]` raises at questions.py:129 and questions.py:161, for a query word some entry contains but the table lacks, is therefore not modelled. Both calls in `main` pass a table computed from the very dictionary they rank, and such a table covers every such word (`IdfIndex.IdfTableCovers`).
- The query set of `top_files` and `top_sentences` is given as the sequence its iteration visits. A Python set has no repeated words; the model does not exclude them, and its contracts hold either way.
- Evaluate: treats every label other than 1 as negative, as the code does. It compares labels and predictions as integers and assumes nothing about their values.
- The list `noun_phrases` in `np_chunk` is filled but never read. `NpChunk` fills it to match the code, and no contract speaks of it.

## Findings

| source | as written | input that shows it | evidently intended | confidence | as-written member | corrected member |
|---|---|---|---|---|---|---|
| parser.py:77-85 | `words.remove(w)` inside `for w in words` shifts the next word into the current slot, and the loop then skips it. | the tokens `[",", ","]` give `[","]` | every word without an alphabetic character is removed, as the docstring at parser.py:67-71 says | not executed | Parser.AdjacentPunctuationSurvives | Parser.PreprocessIntended |
