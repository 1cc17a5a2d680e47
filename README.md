# Contract analysis core: segmentation, summaries, entities, rules and TF-IDF search

This project is a Dafny model of the text-processing core of a contract-analysis backend:

- **`backend/pipeline.py`** (module `Pipeline`):
  - splits a contract into clauses at heading lines (`Article 1`, `Clause IV`, `Section 2.1`, any case);
  - builds an extractive summary from the four longest paragraphs;
  - locates money and date mentions;
  - evaluates keyword rules into MEDIUM ("missing clause") and HIGH ("red flag") findings;
  - guesses French or English;
  - chains these steps in `analyze`.
- **`backend/search.py`** (module `Search`):
  - the tokenizer;
  - the `ClauseIndex` class, which builds document frequencies, smoothed IDF weights, augmented-TF vectors and norms over a clause corpus;
  - cosine ranking of a query against that corpus.
- **`backend/app.py`** (module `App`):
  - coercion of a stored risk level;
  - the mapping of clause rows to the search corpus in `rebuild_index`.

The shared modules are:

- `Strings`: Python's `strip`, `lower`/`upper`, `split`, `join`, `splitlines`, `find`, `in` and slicing, on `seq<char>`;
- `Sorting`: a stable insertion sort standing in for `sorted`/`list.sort`;
- `Wrappers`: `Option` and `Result`.

How the model is built:

- Loops of the source are methods with loop invariants, proved equal to specification functions. Examples: `SplitClauses`, `ExtractEntities`, `ApplyRules`, `CountTerms`, `WeighTerms`, `DotIterating` and the phases of `ClauseIndex.Build`.
- The properties are lemmas about those functions.
- `ClauseIndex` is a class. `Build` replaces its fields, and each phase method names only the field it writes.
- Python dictionaries are Dafny maps. A sum over a dictionary is an order-independent ghost sum over its key set (`Search.Sum`), and each loop that iterates keys in any order is proved to compute it.

Behaviour of the code worth knowing:

- `split_clauses` numbers clauses by boundary pair (`order_index` is the position of the pair in the boundary list), not by kept clause. Gaps appear where an empty chunk was dropped.
- A text whose first line is a heading therefore starts with the empty pair (0, 0). Its first clause has `order_index` 1.
- That first clause is also titled "Préambule", even though it starts with a heading: the title test is `a != 0`, not "line 0 is not a heading". `Pipeline.HeadingOnFirstLine` proves both facts.
- The preamble title is the French "Préambule".
- `_coerce_level` falls back to `DBRiskLevel.LOW` for `None` (backend/app.py:37) and as the default of the value lookup (backend/app.py:42), which shows that LOW is the intended default. The enum has no member named `LOW`, so both fallbacks raise instead (see Findings).

## Model

| member | source | states |
|---|---|---|
| Strings.Strip | backend/pipeline.py:63 | `str.strip`: the result is no longer than the input and neither starts nor ends with whitespace |
| Strings.StripTrims | backend/pipeline.py:63 | the stripped text is a slice `s[i:j]` of the input with only whitespace before `i` and after `j` |
| Strings.StripBlank | backend/pipeline.py:64 | a string strips to empty exactly when it is all whitespace (the `if not chunk` / `if p.strip()` tests) |
| Strings.StripAppendSpace | backend/pipeline.py:63 | a trailing whitespace character does not change the stripped text |
| Strings.Lower | backend/search.py:8 | `str.lower` keeps the length |
| Strings.UpperString | backend/pipeline.py:111 | one character upper-cases to at least one character ('ß' to "SS") |
| Strings.Upper | backend/pipeline.py:111 | `str.upper` never shortens the text |
| Strings.UpperLength | backend/pipeline.py:111 | without 'ß' the text is upper-cased character by character at the same length; "straße" gives "STRASSE" |
| Strings.UpperAscii | backend/app.py:38 | an ASCII word upper-cases letter by letter: small letters become capitals, capitals stay |
| Strings.LowerIsIdempotent | backend/pipeline.py:106 | lower-casing twice is lower-casing once |
| Strings.Split | backend/pipeline.py:73 | `str.split(sep)` gives at least one piece, and no piece contains the separator |
| Strings.SplitJoin | backend/pipeline.py:73 | joining the pieces of a split with the separator gives back the string |
| Strings.JoinSnoc | backend/pipeline.py:77 | `sep.join(parts + [x])` is `sep.join(parts) + sep + x` |
| Strings.Lines | backend/pipeline.py:58 | `splitlines` gives lines without line breaks |
| Strings.LinesJoin | backend/pipeline.py:58 | re-joining the lines gives the text minus its final line break |
| Strings.StripLines | backend/pipeline.py:63 | the stripped join of all lines is the stripped text |
| Strings.FindFrom | backend/pipeline.py:86 | the first occurrence at or after a position, or -1 when there is none |
| Strings.Find | backend/pipeline.py:86 | `str.find`: -1 iff the pattern occurs nowhere, else the lowest offset where it occurs |
| Strings.Contains | backend/pipeline.py:107 | `k in s` holds iff the pattern occurs at some offset |
| Strings.SliceTo | backend/pipeline.py:72 | `s[:k]` is a prefix of `s` of length `min(k, len(s))` for non-negative `k` |
| Sorting.Insert | backend/pipeline.py:76 | insertion adds exactly one element (multiset) |
| Sorting.Sort | backend/pipeline.py:76 | the sort is a permutation of its input |
| Sorting.InsertSorted | backend/search.py:98 | inserting into a sorted list under a total, transitive order keeps it sorted |
| Sorting.SortSorted | backend/search.py:98 | sorting distinct values under an order total on them yields an ordered list |
| Pipeline.HeadingLength | backend/pipeline.py:27 | a line matching the heading pattern has at least 8 characters (the shortest keyword, one space, one number character) |
| Pipeline.HeadingForm | backend/pipeline.py:27 | every line made of a keyword in any case, a whitespace character and a number character, followed by anything, is a heading |
| Pipeline.StartsByChars | backend/pipeline.py:27 | a line starts with a keyword, ignoring case, when its first characters lower-case to the keyword |
| Pipeline.IsHeadingNeedsNumber | backend/pipeline.py:27 | "Article premier" is not a heading: a number must follow the keyword |
| Pipeline.IsHeadingNeedsSpace | backend/pipeline.py:27 | "Article1" is not a heading: whitespace must separate keyword and number |
| Pipeline.IsHeadingNotIndented | backend/pipeline.py:27 | " Article 1" is not a heading: the keyword must start the line |
| Pipeline.HeadingsFrom | backend/pipeline.py:59 | the heading indices are in range and strictly ascending |
| Pipeline.HeadingsFromExact | backend/pipeline.py:59 | an index is listed iff its line matches the clause-heading pattern |
| Pipeline.Boundaries | backend/pipeline.py:60 | `[0] + idxs + [len(lines)]` tiles the lines: starts at 0, ends at the line count, never decreases |
| Pipeline.PairList | backend/pipeline.py:62-67 | one candidate list per consecutive boundary pair |
| Pipeline.FlattenSnoc | backend/pipeline.py:67 | appending the clauses of one more pair extends the output |
| Pipeline.SplitClauses | backend/pipeline.py:57-68 | the loop over boundary pairs returns exactly the specified clause list `Clauses(text or "")` |
| Pipeline.PairClausesDescribe | backend/pipeline.py:63-67 | a pair gives at most one clause, iff its stripped chunk is non-empty, numbered by the pair, with the chunk as text and the stripped head line (or "Préambule" at line 0) as title |
| Pipeline.FlattenMembers | backend/pipeline.py:62-67 | a clause is in the output iff some pair produced it |
| Pipeline.FlattenIncreasing | backend/pipeline.py:62 | output clauses have in-range, strictly increasing `order_index` |
| Pipeline.FlattenComplete | backend/pipeline.py:64-67 | every pair that produced a clause is represented in the output |
| Pipeline.PairListDescribe | backend/pipeline.py:62-67 | every pair's candidates are numbered by the pair and describe its chunk; a pair yields one iff its chunk is non-empty |
| Pipeline.BoundariesAreHeadings | backend/pipeline.py:59-60 | the inner boundaries are exactly the heading lines, strictly ascending |
| Pipeline.ClausesDescribePairs | backend/pipeline.py:57-68 | each clause is its pair's non-empty stripped chunk with the right title; `order_index` is at most the heading count and strictly increasing |
| Pipeline.ClausesComplete | backend/pipeline.py:63-67 | no non-empty chunk is dropped |
| Pipeline.NoClausesInEmptyText | backend/pipeline.py:58 | `None` or empty text has no clauses |
| Pipeline.NoHeadingsFrom | backend/pipeline.py:59 | with no heading lines the index list is empty |
| Pipeline.ClausesWithoutHeadings | backend/pipeline.py:57-68 | without headings the result is one "Préambule" clause holding the stripped text, or nothing for blank text |
| Pipeline.HeadingOnFirstLinePairs | backend/pipeline.py:60 | a heading on line 0 gives the boundaries `0, 0, …`, and the second pair's chunk is non-empty |
| Pipeline.HeadingOnFirstLine | backend/pipeline.py:62-66 | a heading on line 0 yields a first clause numbered 1 and titled "Préambule" |
| Pipeline.Paragraphs | backend/pipeline.py:73 | kept paragraphs are stripped and non-empty; none are kept iff every piece is blank |
| Pipeline.ParagraphsAppend | backend/pipeline.py:73 | the paragraphs of two runs of lines are those of the first followed by those of the second (input order is kept) |
| Pipeline.ParagraphOfPiece | backend/pipeline.py:73 | one line gives its stripped text when that is non-empty, and nothing otherwise |
| Pipeline.ParagraphsMembers | backend/pipeline.py:73 | a text is a paragraph iff it is non-empty and is the stripped form of some line |
| Pipeline.LongestFirst | backend/pipeline.py:76 | the sorted order is a permutation of the paragraph indices |
| Pipeline.LongestFirstSorted | backend/pipeline.py:76 | that order is longest first, ties in text order (a stable descending sort by length) |
| Pipeline.TopParagraphs | backend/pipeline.py:76 | the chosen indices are valid paragraph indices |
| Pipeline.TopParagraphsAreLongest | backend/pipeline.py:76 | exactly `min(4, n)` paragraphs are kept, longest first, and each is at least as long as every paragraph left out |
| Pipeline.Summarize | backend/pipeline.py:70-77 | the summary is empty iff the truncated text `t` is empty |
| Pipeline.SummaryShape | backend/pipeline.py:70-77 | blank input falls back to the first 300 characters of the truncated text; otherwise the summary joins between one and four chosen paragraphs with spaces |
| Pipeline.Span | backend/pipeline.py:86-87 | an entity carries its match and label, spans the match's length, and has offset -1 iff the match text does not occur |
| Pipeline.Spans | backend/pipeline.py:85-90 | one entity per match |
| Pipeline.Extract | backend/pipeline.py:79-91 | the amounts and dates are the matchers' results, with one entity per amount and per date |
| Pipeline.ExtractEntities | backend/pipeline.py:79-91 | the two loops return the specified extraction of `text or ""` |
| Pipeline.EntityOrder | backend/pipeline.py:84-91 | all money entities come first, in match order, then all date entities, each carrying its match text and label |
| Pipeline.SpanIsFirstOccurrence | backend/pipeline.py:86 | an entity's offsets delimit its text, at its first occurrence |
| Pipeline.RepeatedAmountGetsFirstOffset | backend/pipeline.py:86 | a repeated amount is reported at the offset of its first occurrence, not its own |
| Pipeline.ApplyRules | backend/pipeline.py:93-119 | the two loops return all must-have findings and then all red-flag findings |
| Pipeline.HasAny | backend/pipeline.py:105-107 | an empty keyword string is in every text, so a rule listing `""` always matches |
| Pipeline.MissingFindings | backend/pipeline.py:109-113 | at most one MEDIUM finding per must-have rule |
| Pipeline.FlagFindings | backend/pipeline.py:114-118 | at most one HIGH finding per red-flag rule |
| Pipeline.Findings | backend/pipeline.py:109-119 | at most one finding per rule |
| Pipeline.MissingRiskInjective | backend/pipeline.py:111-113 | different rule codes give different MEDIUM findings |
| Pipeline.FlagRiskInjective | backend/pipeline.py:116-118 | different rule codes give different HIGH findings |
| Pipeline.MissingIff | backend/pipeline.py:109-113 | `MISSING_<CODE>` is reported iff some must-have rule with that code matches no keyword (case-insensitively) |
| Pipeline.FlagIff | backend/pipeline.py:114-118 | `<CODE>` is reported iff some red-flag rule with that code matches a keyword |
| Pipeline.MissingFindingsAreMedium | backend/pipeline.py:111-113 | must-have findings are MEDIUM and come from a rule |
| Pipeline.FlagFindingsAreHigh | backend/pipeline.py:116-118 | red-flag findings are HIGH and come from a rule |
| Pipeline.FindingsGrouped | backend/pipeline.py:109-119 | all MEDIUM findings precede all HIGH ones; no rules, no findings |
| Pipeline.EmptyKeywordList | backend/pipeline.py:107 | an empty keyword list always counts as missing and never as a red flag |
| Pipeline.HasFrenchWord | backend/pipeline.py:55 | a text holding a French marker word has at least 2 characters |
| Pipeline.DetectLanguage | backend/pipeline.py:54-55 | the guess is "fr" or "en" |
| Pipeline.DetectLanguageIgnoresCase | backend/pipeline.py:55 | the language guess does not depend on letter case |
| Pipeline.DetectLanguageExamples | backend/pipeline.py:55 | "Le contrat" is French; "delay" (which contains "la", but not as a word) is English |
| Pipeline.WithSummaries | backend/pipeline.py:128-129 | setting the summaries keeps the number of clauses |
| Pipeline.SummarizeFirstClauses | backend/pipeline.py:128-129 | the loop gives the clauses with summaries specified by `WithSummaries` |
| Pipeline.Analyze | backend/pipeline.py:121-131 | the language, summary, clauses, entities and findings are those of the specified stages |
| Pipeline.SummariesOnFirstTwelve | backend/pipeline.py:128-129 | exactly the first 12 clauses get a summary, that of their own text, and nothing else changes |
| Search.RunLength | backend/search.py:5 | the longest prefix of token characters |
| Search.Runs | backend/search.py:8 | every match of `TOKEN_RE` is a non-empty run of token characters |
| Search.RunStarts | backend/search.py:8 | one start offset per match |
| Search.RunsAreMaximal | backend/search.py:5-8 | each match is the text at its offset, is not preceded or followed by a token character, and matches come left to right without overlap |
| Search.MaximalInSuffix | backend/search.py:8 | a maximal run of a suffix that does not continue a run before it is a maximal run of the whole text |
| Search.TokenChars | backend/search.py:5 | keeping the token characters never lengthens the text |
| Search.TokenCharsAppend | backend/search.py:5 | the token characters of a concatenation are the concatenation of the token characters |
| Search.TokenCharsOfWord | backend/search.py:5 | a word is its own token characters |
| Search.RunsCoverTokenChars | backend/search.py:8 | the matches together are exactly the token characters, in order; there are none iff the text has no token character |
| Search.Tokenize | backend/search.py:7-8 | one token per match |
| Search.TokensAreLowerWords | backend/search.py:7-8 | tokens are lower-case words; a text has no tokens iff it has no token character |
| Search.SumRemove | backend/search.py:57 | a sum over a dictionary can take any key first |
| Search.SumAgree | backend/search.py:57 | sums of functions agreeing on the keys are equal |
| Search.SumZero | backend/search.py:57 | a sum of zeros is zero |
| Search.SumNonNegative | backend/search.py:57 | a sum of non-negatives is non-negative |
| Search.DotSymmetric | backend/search.py:67-74 | the dot product does not depend on which dictionary is iterated |
| Search.SumSquaresNonNegative | backend/search.py:57 | the squared norm is non-negative |
| Search.SumOfSquares | backend/search.py:57 | the loop computes `sum(w * w for w in vec.values())` |
| Search.MaxOf | backend/search.py:52 | `max` bounds every value and is attained |
| Search.MaxCountBounds | backend/search.py:49-52 | every token's count is between 1 and `max_tf`, and some token reaches it |
| Search.TfFactorRange | backend/search.py:54 | the augmented term frequency lies in (0.5, 1], and is 1 iff the term is a most frequent one |
| Search.Weights | backend/search.py:53-55 | a vector has exactly the distinct tokens as keys |
| Search.WeightsShape | backend/search.py:53-55 | each weight is the augmented term frequency (in (0.5, 1]) times `idf.get(t, 0.0)` |
| Search.CountTerms | backend/search.py:49-51 | the counting loop builds the count of every distinct token |
| Search.WeighTerms | backend/search.py:53-55 | the weighting loop builds the specified vector |
| Search.DocVector | backend/search.py:44-55 | a clause's vector has exactly its distinct tokens as keys (none for a clause without tokens) |
| Search.DocNorm | backend/search.py:44-57 | a clause without tokens has norm 0, and a norm is never negative when `sqrt` is not |
| Search.VocabularyMembers | backend/search.py:31-34 | the indexed terms are exactly the tokens of the clauses |
| Search.DfMap | backend/search.py:30-34 | every document frequency lies between 1 and the number of clauses |
| Search.DocFreqBounds | backend/search.py:31-34 | `1 <= df[t] <= N` for every indexed term; a term is indexed iff some clause contains it |
| Search.DocFreqSnoc | backend/search.py:31-34 | one more clause adds one to the frequency of each of its distinct tokens and nothing else |
| Search.IdfWeightAntitone | backend/search.py:37-39 | a rarer term never weighs less, and every indexed term weighs at least 1 |
| Search.IdfMap | backend/search.py:36-39 | the IDF table has exactly the DF table's terms |
| Search.IdfMapBounds | backend/search.py:37-39 | the IDF keys are the DF keys, every weight is at least 1, and weights fall as document frequency rises |
| Search.CosineScore | backend/search.py:61-75 | a zero norm on either side gives 0.0, and so does a query that shares no term with the document |
| Search.CosineSymmetric | backend/search.py:61-75 | the cosine score is symmetric in query and document |
| Search.DotIterating | backend/search.py:65-74 | the accumulation loop computes the dot product over shared terms |
| Search.Positives | backend/search.py:93-97 | the kept scores are positive and in corpus order |
| Search.PositivesMembers | backend/search.py:94-97 | a clause is kept iff its cosine score is positive |
| Search.PositivesScores | backend/search.py:95-97 | a kept clause is kept with its own cosine score |
| Search.Ranking | backend/search.py:98 | the ranking is a permutation of the positive scores, in descending (score, index) order, with no more entries than clauses |
| Search.Snippet | backend/search.py:105 | the snippet is the first 300 characters with line breaks replaced by spaces |
| Search.SnippetHasNoNewline | backend/search.py:105 | a snippet has no line break |
| Search.HitsOf | backend/search.py:102-113 | one hit per kept score |
| Search.Results | backend/search.py:77-113 | at most `k` hits (for `k >= 0`) and at most one per clause, every one with a positive score |
| Search.ResultsAreTopRanked | backend/search.py:77-113 | the hits are the first `k` ranked clauses, each with its ids, title, snippet and positive score |
| Search.UnknownQueryHasZeroNorm | backend/search.py:86-90 | a query with no indexed term has norm 0 |
| Search.NoPositivesAtZeroNorm | backend/search.py:62-63 | at query norm 0 no clause scores |
| Search.NoResults | backend/search.py:79-99 | no tokens, an empty corpus, or a query of unindexed terms gives no hits |
| Search.ClauseIndex.constructor | backend/search.py:11-17 | a new index is empty |
| Search.ClauseIndex.Build | backend/search.py:23-59 | after `build(meta)` the index holds `meta`, its DF and IDF tables and one vector and norm per clause |
| Search.ClauseIndex.CountDocumentFrequencies | backend/search.py:30-34 | the DF pass leaves the document frequency of every term |
| Search.ClauseIndex.CountTokens | backend/search.py:33-34 | adding one clause's token set increments exactly those terms |
| Search.ClauseIndex.ComputeIdf | backend/search.py:36-39 | the IDF pass gives `log((N+1)/(df+1)) + 1` per term |
| Search.ClauseIndex.ComputeVectors | backend/search.py:41-59 | the vector pass stores each clause's weights and norm (0 without tokens) |
| Search.ClauseIndex.Cosine | backend/search.py:61-75 | `_cosine` returns the cosine score whichever dictionary it iterates |
| Search.ClauseIndex.ScoreClauses | backend/search.py:93-97 | the scoring loop keeps exactly the positive scores, in corpus order |
| Search.ClauseIndex.FormatHits | backend/search.py:102-113 | the formatting loop builds one hit per kept score |
| Search.ClauseIndex.Search | backend/search.py:77-113 | `search(q, k)` returns the specified top-`k` hits |
| App.LookupTables | backend/app.py:39-41 | the name and value tables map each upper-cased member name to its member, and they are equal |
| App.CoerceLevel | backend/app.py:35-42 | as written: success iff the upper-cased input names a member, then that member; otherwise it raises |
| App.CoerceLevelExamples | backend/app.py:38-40 | any casing of a level name coerces ("low", "High") |
| App.CoerceFindingLevels | backend/app.py:38-40 | the rule levels "MEDIUM" and "HIGH" coerce to `medium` and `high` |
| App.CoerceLevelDefaultFails | backend/app.py:36-37 | as written, `None` and an unknown level raise instead of giving LOW |
| App.CoerceLevelIntended | backend/app.py:35-42 | corrected: `None` gives LOW; otherwise the member whose upper-cased name is the upper-cased input, or LOW when there is none |
| App.CoerceLevelIntendedAgrees | backend/app.py:35-42 | the corrected coercion never fails, agrees with the code where the code succeeds, and gives LOW where it raises |
| App.StoredLevels | backend/app.py:59-60 | as written: the upload succeeds iff every finding's level coerces, and then stores each finding's coerced level in order |
| App.StoredLevelsOfFindings | backend/app.py:59-60 | the findings of the rule engine always store: MEDIUM as `medium`, HIGH as `high` |
| App.OrElse | backend/app.py:29 | `x or d` keeps a non-empty string, and gives the default for `None` or the empty string |
| App.RowDoc | backend/app.py:29 | a row's entry keeps its ids, has a non-empty title (its own when non-empty), and its text or the empty string |
| App.Corpus | backend/app.py:29 | one corpus entry per row |
| App.CorpusEntries | backend/app.py:29 | entries keep row order, ids and text; a title is never empty, and is "Clause" for a missing or empty one |
| App.RebuildIndex | backend/app.py:27-31 | without rows the index is unchanged; otherwise it is built from the rows' corpus |

## Left out

- Reading files is not modelled: `_read_text_any`, PDF extraction and OCR are I/O. `Analyze` takes the decoded text.
- Loading `rules.yaml` is not modelled. The parsed rules are the parameter `config`; a missing or broken file corresponds to an empty `RuleConfig`.
- Regular-expression matching for `MONEY_RE` and `DATE_RE` is not modelled. The two matchers are function parameters (`Matcher`), so the entity lemmas hold for whatever they return.
- Pipeline.IsHeading and Pipeline.HasFrenchWord implement the heading pattern and the word-boundary search over ASCII and Latin-1. Other Unicode whitespace, digits and word characters are not modelled.
- Strings.Lower and Strings.Upper map ASCII and Latin-1 only, with 'ß' upper-casing to "SS". Other scripts keep their case, and other multi-character capitals are not modelled.
- Strings.Lines splits on `\n` only. `splitlines` also splits on `\r`, `\r\n`, `\v`, `\f`, `\x1c`–`\x1e`, `\x85`, U+2028 and U+2029.
- Floating point is not modelled: scores and weights are exact reals. `round(score, 6)` is left out.
- The order of float summation over dictionaries is not modelled: sums are order-independent.
- `math.log` and `math.sqrt` are the index's `ln` and `sqrt` parameters. The lemmas that need them assume only `Laws`: ln(1) = 0, ln monotone, sqrt(0) = 0 and sqrt non-negative.
- Pipeline.Analyze returns a new clause sequence with summaries. The source writes the summaries into the clause dictionaries in place, and that aliasing is not modelled.
- `ClauseIndex.load` and `index_dir` do nothing in the source and are not modelled.
- The FastAPI routes, the database session, `crud.py` and `schemas.py` are not part of this model. `rebuild_index` receives the clause rows and the index as parameters. Of `upload`, only the coercion of the finding levels is modelled (App.StoredLevels); a raised error aborts the request before `db.commit()`.
- App.CoerceLevel takes an optional string. `str(x)` of a non-string value is not modelled.
- Rule codes are strings. `str(code)` of another key type is not modelled.

## Findings

| source | as written | input that shows it | evidently intended | confidence | as-written member | corrected member |
|---|---|---|---|---|---|---|
| backend/app.py:35-42 | `_coerce_level` returns `DBRiskLevel.LOW` for `None` and passes it as the default of `by_value.get`. The enum's members are `low`, `medium`, `high`, so the attribute `LOW` does not exist and raises, and it is evaluated before `get` runs. | `None`, or `"critical"` | `None` and unmatched values give the LOW member | not executed | App.CoerceLevelDefaultFails | App.CoerceLevelIntendedAgrees |
