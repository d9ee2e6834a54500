# Extractive summariser of helper.py, modelled in Dafny

The helper module of this news-summarisation app turns an article into a
summary in four steps:

1. **Counting** (`word_frequency`): every token of the document whose
   lower-case text is neither a stopword nor a substring of the punctuation
   string is counted, under its ORIGINAL-case text.
2. **Normalising** (`get_summary`): every count is divided, in place, by the
   largest count (`max` fails on an empty map).
3. **Scoring** (`sentence_score`): every sentence gets the sum of the weights
   found for the LOWER-case texts of its tokens; a sentence with no match gets
   no entry at all.
4. **Selecting and joining** (`get_summary`): `heapq.nlargest` picks the top
   `int(N * ratio)` scored sentences (N = number of sentences) by descending
   score, and their surface texts are joined with single spaces in that order.

The model takes the document as it comes out of the language pipeline: a
sequence of `Sentence(text, tokens)`, each token carrying its surface text;
the document's tokens are the concatenation of its sentences' tokens. The
stopword list and the punctuation string are a `Config`
(`HelperConfig(stopwords)` uses `string.punctuation + "\n"`); `lower` is ASCII
lower-casing. Weights, score sums, the ratio and all divisions are exact `real`s;
`int()` is truncation toward zero. The case asymmetry of the source is kept
on purpose: counting keys on original-case text, scoring looks up lower-case
text, so a capitalised word contributes only if its lower-case form also
occurs as a token of its own (`TokenContributes`; worked through on the
document "India votes." in `CapitalisedWordIgnored`).

Files, one module each: `text.dfy` (lower-casing, substring test, join),
`document.dfy` (tokens, sentences, configuration, exclusion, the error),
`word_frequency.dfy` (`Frequency`), `normalise.dfy`, `sentence_score.dfy`,
`selection.dfy` (truncation, stable ranking, `nlargest`) and `summary.dfy`
(`Summariser`: the whole of `get_summary`). The three loops of the source
(counting, normalising, scoring) are methods with loop invariants, each
proved equal to a specification function; the expressions of the source
(selection length, `nlargest`, the join) are functions with lemmas.

The code behaves as follows in points a reader might expect otherwise:

- Exclusion tests whether the lower-case text is a SUBSTRING of the
  punctuation string, not whether it equals one punctuation character; so the
  empty token and runs such as `"()"` are excluded too (`DefaultPunctuation`).
- A document where every token is excluded (including one with no sentences)
  makes `max` fail; it does not produce an empty summary. The model returns
  `Failure(NoScorableContent)` (`SummaryFails`).
- After normalising, EVERY key that held the largest count maps to 1, not
  exactly one key (`NormalisedRange`).
- A ratio of 1 or more selects every SCORED sentence, not every sentence:
  unscored sentences are absent from the score map (`SelectFromGrows`).
- The number selected is `min(max(int(N * ratio), 0), S)` with S the number of
  scored sentences (`SelectFromMeaning`); `int` truncates toward zero.
- Ties are not arbitrary: `nlargest` behaves as a stable descending sort, and
  the score map lists sentences in document order, so equal scores come out
  in document order. Scores here are exact sums; float sums that should be
  equal can differ by rounding in the program, and then do not tie.

## Model

| member | source | states |
|---|---|---|
| Text.Lower | helper.py:39 | the lower-cased text has the same length, turns each upper-case ASCII letter into its lower-case partner, and keeps every other character |
| Text.ContainsIff | helper.py:39 | the substring test `needle in hay` holds exactly when `needle` occurs at some position of `hay` |
| Text.JoinLength | helper.py:108 | joining no pieces gives the empty string; otherwise the joined length is the pieces' total length plus one space between neighbours |
| Text.JoinPiece | helper.py:108 | the k-th piece sits at its offset in the joined string, followed by a single space unless it is the last |
| Document.HelperConfig | helper.py:16-18 | the default configuration keeps the given stopword list and a 33-character punctuation string ending in a newline |
| Document.ExcludedCases | helper.py:39 | exclusion depends only on the lower-case form; any run of characters found in the punctuation string, and the empty token, are excluded |
| Document.DefaultPunctuation | helper.py:18 | with `string.punctuation + "\n"`, the newline token and the two-character token "()" are excluded |
| Document.Tokens | helper.py:38 | defines the tokens `for word in doc` walks: the sentences' tokens concatenated in document order (stated by `TokenOfSentence`) |
| Document.TokenOfSentence | helper.py:101 | every token of every sentence is a token of the document |
| Frequency.Occurrences | helper.py:40 | defines the count `word_frequencies[word.text]` reaches: the number of tokens whose text is exactly the key (stated by `OccurrencesPositive`, `FrequenciesMeaning`) |
| Frequency.OccurrencesPositive | helper.py:40 | a text is counted at least once exactly when some token carries it |
| Frequency.FrequenciesMeaning | helper.py:38-40 | a text is a key exactly when some token has exactly that text and it is not excluded; its value is the number of tokens with exactly that text, at least 1; case variants are separate keys |
| Frequency.FrequenciesPositive | helper.py:40 | every count is at least 1 |
| Frequency.FrequenciesEmpty | helper.py:38-40 | the frequency map is empty exactly when every token is excluded |
| Frequency.FrequenciesStep | helper.py:39-40 | one more token leaves the map unchanged if excluded, otherwise adds one under its original-case text, starting from 0 |
| Frequency.WordFrequency | helper.py:35-41 | the loop builds exactly the frequency map of the document's tokens |
| Normalise.MaxCount | helper.py:97 | the maximum of a non-empty map's counts is one of its counts and at least every count |
| Normalise.NormalisedRange | helper.py:97-99 | normalising keeps the keys, puts every weight in (0, 1], gives 1 to every key with the largest count (at least one), and keeps the order of the counts |
| Normalise.NormaliseFrequencies | helper.py:96-99 | fails with NoScorableContent exactly on an empty map, otherwise the in-place loop yields every count divided by the largest |
| SentenceScore.Weight | helper.py:48-49 | defines what one token adds to its sentence: the weight stored under its LOWER-case text, or nothing when that text is not a key; this lookup is where the case asymmetry lives (stated by `TokenContributes`, `IndiaScores`) |
| SentenceScore.Score | helper.py:47-49 | defines the sum `sentence_scores.get(sent, 0) + ...` reaches: the weights of a sentence's tokens added in order (stated by `ScoreUnscored`, `ScorePositive`, `ScoreAppend`) |
| SentenceScore.Scored | helper.py:48 | defines when a sentence gets an entry: some token's lower-case text is a key (stated by `ScoreMapMeaning`, `ScoredStep`) |
| SentenceScore.ScoreUnscored | helper.py:46-49 | a sentence none of whose lower-case tokens is a key sums to zero |
| SentenceScore.ScorePositive | helper.py:46-49 | with positive weights, a sentence's sum is positive exactly when one of its lower-case tokens is a key |
| SentenceScore.ScoreAppend | helper.py:47-49 | the score of a concatenation of tokens is the sum of the parts' scores |
| SentenceScore.ScoreMapMeaning | helper.py:43-50 | a sentence has an entry exactly when one of its tokens' lower-case text is a key, and the entry is the positive sum of the weights of those tokens; unscored sentences are absent |
| SentenceScore.ScoreMapStep | helper.py:46-49 | one more sentence adds its entry exactly when it is scored and changes nothing else |
| SentenceScore.ScoredStep | helper.py:47-48 | a sentence prefix is scored once any of its tokens so far matched |
| SentenceScore.SentenceScores | helper.py:43-50 | the nested loops build exactly the score map of the sentences, and the keys, recorded in the order the loop first inserts them, are the ascending list `ScoredIds` that `nlargest` then iterates |
| SentenceScore.TokenStep | helper.py:47-49 | one more token makes the sentence scored once it matches, adds its weight to the score, and an unscored prefix sums to zero |
| SentenceScore.SentenceDone | helper.py:45-49 | after walking sentence i the scores are those of the first i + 1 sentences, all keys below i + 1 |
| SentenceScore.OrderDone | helper.py:48-49 | recording i at the sentence's first insertion keeps the recorded order equal to the ascending key list |
| Selection.Trunc | helper.py:105 | `int()` of a real truncates toward zero: never further from zero than the real and less than 1 away from it |
| Selection.SelectLengthRange | helper.py:105 | a ratio in [0, 1] selects between 0 and N sentences, at most `N * ratio`, and none for ratio 0 |
| Selection.SelectLengthAtLeast | helper.py:105 | a ratio of 1 or more asks for at least N sentences |
| Selection.SelectLengthMonotone | helper.py:105 | a larger ratio never asks for fewer sentences |
| Selection.Insert | helper.py:106 | stable insertion adds exactly the one element to the ranked list |
| Selection.Ranked | helper.py:106 | the stable descending sort is a permutation of its input |
| Selection.Before | helper.py:106 | defines the ranking order `nlargest` with `key=sentence_scores.get` uses: higher score first, and on equal scores the earlier position first (stated by `RankedSorted`, `NLargestMeaning`) |
| Selection.InsertRanked | helper.py:106 | inserting an element smaller than all others keeps the list ranked by descending score, ties by position |
| Selection.RankedSorted | helper.py:106 | sorting positions listed in ascending order ranks them by descending score, ties in document order |
| Selection.NLargest | helper.py:106 | `nlargest(n, ...)` returns min(max(n, 0), number of candidates) candidates |
| Selection.NLargestMeaning | helper.py:106 | the result contains only candidates, ranked by descending score with ties in document order, every candidate left out ranks below every one taken, and asking for all takes all |
| Selection.NLargestPrefix | helper.py:106 | asking for fewer returns a prefix of asking for more |
| Selection.ScoredIds | helper.py:45-49 | exactly the score map's keys below n, in ascending order, which `SentenceScores` proves is the order its loop inserts them |
| Selection.ScoredIdsBelow | helper.py:45-49 | the ascending key list below n depends only on which positions below n are keys |
| Selection.ScoredIdsStep | helper.py:48-49 | giving position i an entry appends i to the ascending key list, and not giving one appends nothing |
| Selection.AscendingSize | helper.py:106 | an ascending list of the score map's keys is as long as the map is large |
| Summariser.Weights | helper.py:94-99 | weighting fails with NoScorableContent exactly when every token is excluded |
| Summariser.SelectFrom | helper.py:101-106 | the picked sentences are positions of the document |
| Summariser.Selected | helper.py:91-106 | the selected sentences are positions of the document |
| Summariser.Texts | helper.py:108 | the list comprehension yields each selected sentence's surface text, in selection order |
| Summariser.GetSummary | helper.py:91-109 | counting, in-place normalising, scoring, selecting and joining, run step by step with the ratio defaulting to 0.10, give the specified summary |
| Summariser.SummaryFails | helper.py:97 | the summariser fails, with NoScorableContent, exactly when every token of the document is excluded |
| Summariser.TokenContributes | helper.py:38-49 | a token finds a weight, which is then positive, exactly when its lower-case text is itself the exact text of some token and is not excluded |
| Summariser.SelectFromMeaning | helper.py:105-106 | exactly min(max(int(N * ratio), 0), S) scored sentences are selected, at most N, each once, in descending score with ties in document order, and every left-out scored sentence ranks below every selected one (lower score, or equal score and later position) |
| Summariser.SelectFromGrows | helper.py:105-106 | a larger ratio selects a prefix extension; a ratio of 1 or more selects exactly the scored sentences |
| Summariser.SelectedGrows | helper.py:105-106 | the summariser fails for both ratios or for neither, and a larger ratio's selection extends the smaller one's |
| Summariser.SummaryIsJoin | helper.py:108 | the summary holds each selected sentence's text at its offset, in selection order, with a single space after every text but the last; it is as long as the texts plus the separating spaces, and empty when nothing is selected |
| Text.FirstCharAbsent | helper.py:39 | a non-empty text whose first character is not in the punctuation string is not a substring of it |
| Summariser.WeightsOfCounts | helper.py:96-99 | whenever some token was counted, weighting succeeds with the counts divided by the largest |
| Summariser.NormalisedOnes | helper.py:97-99 | two texts counted once each both weigh exactly 1 |
| Summariser.ScoreOfThree | helper.py:46-49 | a sentence of three tokens scores the sum of the three tokens' weights |
| Summariser.IndiaCounts | helper.py:35-41 | the document "India votes." counts "India" and "votes" once each under their original case, and nothing else |
| Summariser.IndiaScores | helper.py:43-50 | with those weights the token "India" finds no weight and the sentence scores 1 |
| Summariser.CapitalisedWordIgnored | helper.py:38-49 | in "India votes.", both words are counted with weight 1, yet the sentence scores 1 rather than 2, because the lookup of "india" misses |
| Text.Contains | helper.py:39 | defines Python's `needle in hay` on strings recursively: `needle` is a prefix of `hay` or of one of its suffixes (meaning stated by `ContainsIff`) |
| Text.JoinWithSpace | helper.py:108 | defines `" ".join(pieces)`: nothing for no pieces, else the pieces with one space between neighbours (layout stated by `JoinLayout`) |
| Text.JoinLayout | helper.py:108 | the joined string is laid out as its pieces: empty for none, each piece at its offset, one space after every piece but the last, and length plus one equal to the offset past the last piece |
| Document.Excluded | helper.py:39 | defines the exclusion test: the lower-case text is in the stopword list or is a substring of the punctuation string (consequences stated by `ExcludedCases`) |
| Frequency.Frequencies | helper.py:35-41 | defines the map `word_frequency` builds: one key per distinct non-excluded original-case token text, mapped to its number of occurrences (stated by `FrequenciesMeaning`) |
| Normalise.Normalised | helper.py:97-99 | defines the normalised weights: every count divided by the largest count (stated by `NormalisedRange`) |
| SentenceScore.ScoreMap | helper.py:43-50 | defines the map `sentence_score` builds: an entry per sentence position with a matching lower-case token, holding the sum of the weights found (stated by `ScoreMapMeaning`) |
| Selection.SelectLength | helper.py:105 | defines `int(len(sentence_tokens) * summary_length_ratio)` as truncation toward zero (bounds stated by `SelectLengthRange`, `SelectLengthAtLeast`, `SelectLengthMonotone`) |
| Summariser.Summary | helper.py:91-109 | defines the result of `get_summary`: the failure of `max`, or the selected texts joined by spaces (stated by `SummaryFails`, `SummaryIsJoin`, `SelectFromMeaning`) |
| Summariser.DefaultRatio | helper.py:91 | defines the default `summary_length_ratio`, 0.10, which `GetSummary` takes when no ratio is given (used by `DefaultRatioShortDocument`) |
| Summariser.DefaultRatioShortDocument | helper.py:91-108 | at the default ratio 0.10, a document of fewer than ten sentences gets the empty summary |
| Summariser.SummaryTooShort | helper.py:105-108 | three sentences at ratio 0.33 give the empty summary |

## Left out

- Loading and calling the spaCy pipeline (tokenisation, sentence splitting,
  named entities): the document arrives already split; its tokens are assumed
  to be the concatenation of its sentences' tokens.
- `spacy_render`: user-interface rendering with random widget keys.
- `fetch_news_links` and `fetch_news`: HTTP requests, JSON and HTML parsing,
  caching decorators.
- Reading `config.ini` for the API key: file I/O.
- The content of spaCy's stopword list: a parameter of the model.
- Floating-point rounding in the division, in the score sums (helper.py:49) and in `N * ratio`: exact reals; sentences whose float scores differ only by rounding tie in the model and are ordered by position.
- `int()` raising `OverflowError` on an infinite `N * ratio` and `ValueError` on a NaN one: a real ratio is always finite, so these failures of a float ratio cannot arise in the model.
- Text.Lower: ASCII lower-casing only; Unicode case mapping of `str.lower` is not modelled.
- The heap algorithm inside `heapq.nlargest`: only its result, the first n of a
  stable descending sort, is modelled.
- Sentence identity: a sentence is its position in the document, standing for
  the span object the source uses as a dictionary key.
- Running the scorer twice gives the same map: every specification here is a
  function, so this holds by construction and has no lemma of its own.
