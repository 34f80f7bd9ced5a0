# FinWiseAI core, modelled in Dafny

FinWiseAI is a FastAPI backend. It answers three requests. `financial_advice` turns a
user's finance profile into advice text. `market_sentiment` reduces news and tweets about a
sector to one sentiment label. `investment_recommendations` re-ranks similarity-search
results by the user's risk tolerance. Almost all of the work is done by foreign code: a
text generator, a sentiment classifier, an embedding model, a FAISS index and HTTP APIs.
This project models the pure computations of `app/main.py` that sit between those calls.
It also proves what they promise.

- `Sentiment` (sentiment.dfy) is the majority vote, written once and used for both
  batches. Empty texts are filtered out first. The result is `POSITIVE` only on a strict
  majority, `NEGATIVE` for any other non-empty batch, and `NEUTRAL` when no text is left.
- `Ranking` (ranking.dfy) is the recommendation ranker. It converts each distance to the
  similarity `1/(1+d)` and multiplies it by a fixed 3×3 risk-affinity table (0.5 for
  unknown keys, `"Moderate"` for unlabelled documents). It then stable-sorts by descending
  score, keeps the top K (the endpoint uses K = 2) and min-max normalises the kept scores,
  with the `1e-6` guard for equal scores. Scores are `real`s.
- `Advice` (advice.dfy) is the deterministic part of the advice: disposable income, the
  10% savings amount, and the profile summary put in front of the generated text.
  Everything from the first `"Additionally,"` on is cut off. The rest is stripped and one
  of three fixed tips is appended.
- `Text` (text.dfy) models the Python string operations the advice tail uses: `split(sep)[0]`,
  `strip()` and substring occurrence. `Profile` (profile.dfy) mirrors the request record.
  `Wrappers` (wrappers.dfy) holds the `Option` type.

The foreign pieces are parameters:
- the sentiment classifier is a function from text to `Positive | Negative`;
- the regular-expression cleanup of generated text is a function from string to string;
- the `:,.0f` currency formatter is a function from real to string that prints only numerals
  (digits, `,`, `.`, `-`);
- the generated advice text and the similarity-search results are plain inputs.

Three behaviours of app/main.py are easy to miss. The model keeps each of them.
- An empty search result, or K = 0, gives an empty recommendation list and no error:
  `max` and `min` fall back to 1.0 and 0.0 on an empty list (app/main.py:318-319).
- When all kept scores are equal, every relevance is exactly 0: the maximum is raised by
  `1e-6` and every score equals the minimum (app/main.py:320-325).
- The advice quotes the savings amount only when the generated text holds the `$[amount]`
  placeholder (app/main.py:203). The profile summary does not mention savings.

## Model

| member | source | states |
|---|---|---|
| Sentiment.Vote | app/main.py:267-273 | NEUTRAL exactly for an empty label list; POSITIVE exactly when 2·count(POSITIVE) > length; NEGATIVE exactly for a non-empty list with at most half positive (so a tie is NEGATIVE) |
| Sentiment.NonEmptyCount | app/main.py:267 | the number of texts the `if text` filter lets through: at most the number of texts, and 0 exactly when every text is empty |
| Sentiment.PositiveTextCount | app/main.py:267-268 | the number of non-empty texts the classifier reads as positive, never more than the non-empty texts |
| Sentiment.ClassifyAll | app/main.py:267 | the `if text` filter: exactly one label per non-empty text, and exactly one POSITIVE label per non-empty text the classifier reads as positive |
| Sentiment.BatchSentiment | app/main.py:271-273 | over the texts themselves: NEUTRAL exactly when every text is empty; POSITIVE exactly when twice the positive non-empty texts exceed the non-empty texts; NEGATIVE exactly when some text is non-empty and at most half of those are positive |
| Sentiment.MarketSentiment | app/main.py:267-280 | the response echoes both text lists; the news and the social aggregate are each the batch vote over their own texts, NEUTRAL exactly when that batch has no non-empty text |
| Sentiment.MockTweets | app/main.py:256-265 | the fallback is two tweets, both non-empty |
| Sentiment.CountPositiveIsMultiplicity | app/main.py:268 | `count("POSITIVE")` equals the multiplicity of POSITIVE in the label multiset |
| Sentiment.VoteIgnoresOrder | app/main.py:267-273 | two label lists with the same multiset get the same aggregate |
| Sentiment.VoteIsStrictMajority | app/main.py:268-269 | on a non-empty list, POSITIVE iff positives outnumber negatives, NEGATIVE iff they do not |
| Sentiment.VoteExamples | app/main.py:268-269 | [+,+,−] is POSITIVE, [+,−] is NEGATIVE, [] is NEUTRAL |
| Sentiment.MockTweetsSplitVoteIsNegative | app/main.py:262-273 | the fallback tweets classified one positive and one negative give NEGATIVE |
| Ranking.Similarity | app/main.py:304 | for d ≥ 0 the similarity is in (0, 1], equals 1 iff d = 0, and times (1 + d) gives 1 |
| Ranking.DistanceOf | app/main.py:304 | every similarity in (0, 1] is the similarity of a non-negative distance, and this function finds that distance |
| Ranking.SimilarityRoundTrip | app/main.py:304 | the distance can be recovered from its similarity |
| Ranking.SimilarityStrictlyDecreasing | app/main.py:303-304 | a larger distance gives a strictly smaller similarity |
| Ranking.DocumentRisk | app/main.py:306 | a document without a risk label reads as "Moderate"; a labelled one reads as its label |
| Ranking.Affinity | app/main.py:307 | every multiplier lies in [0, 2] |
| Ranking.AffinityTable | app/main.py:295-300 | the nine entries of the table |
| Ranking.AffinityDefaults | app/main.py:307 | 0.5 for any tolerance outside the table and for any label outside the table |
| Ranking.UnlabelledIsModerate | app/main.py:306-307 | an unlabelled document is weighted exactly like a "Moderate" one |
| Ranking.ScoreHit | app/main.py:302-309 | the adjusted score keeps the document, lies in [0, 2], is 0 exactly when the affinity is 0, and times (1 + distance) gives the affinity |
| Ranking.ScoreFallsWithDistance | app/main.py:303-308 | for one document with a positive affinity, a farther hit scores strictly lower |
| Ranking.ScoreAll | app/main.py:301-309 | one adjusted score per hit, in search order |
| Ranking.RiskPreference | app/main.py:295-308 | at equal distance an Aggressive user scores an Aggressive document strictly above a Conservative one, and a Conservative user the reverse |
| Ranking.Insert | app/main.py:312 | inserting into a descending list keeps it descending and is a permutation of the element plus the list |
| Ranking.InsertStable | app/main.py:312 | insertion leaves every equal-score subsequence of the element plus the list unchanged |
| Ranking.SortDesc | app/main.py:312 | the sorted list is non-increasing in score and a permutation of its input |
| Ranking.SortDescStable | app/main.py:312 | stability: for every score, the subsequence with that score is the same before and after the sort |
| Ranking.SortedStableUnique | app/main.py:312 | two descending lists with equal equal-score subsequences are identical |
| Ranking.SortDescIsTheStableSort | app/main.py:312 | any descending arrangement that keeps equal scores in input order is the sort's output |
| Ranking.TopK | app/main.py:315 | the slice `[:k]` has length min(k, n) and is a prefix |
| Ranking.SortedPrefix | app/main.py:312-315 | cutting a descending list to its first k keeps it descending |
| Ranking.TopKIsBest | app/main.py:312-315 | the first k of a descending list are drawn from it without repetition, and nothing left out scores above any of them |
| Ranking.MaxScore | app/main.py:318 | the maximum is a score of the list and bounds all of them from above |
| Ranking.MinScore | app/main.py:319 | the minimum is a score of the list and bounds all of them from below |
| Ranking.Rescale | app/main.py:325 | for lo ≤ x ≤ hi with lo < hi, the result r is in [0, 1] with r·(hi − lo) = x − lo; it is 0 iff x = lo and 1 iff x = hi |
| Ranking.RescaleMonotonic | app/main.py:325 | rescaling preserves ≤ and < |
| Ranking.Normalise | app/main.py:317-328 | one entry per kept result with its description; every relevance is in [0, 1]; a higher score never gets a lower relevance; all equal scores give all 0; otherwise relevance is 1 exactly at the maximum and 0 exactly at the minimum, and each relevance times (max − min) is the score minus the minimum |
| Ranking.Ceiling | app/main.py:318-321 | the value used as the maximum: above the minimum, at or above every score, and the true maximum whenever the scores are not all equal |
| Ranking.Relevances | app/main.py:322-328 | for lo < hi bounding every score: one entry per kept result with its description; each relevance r lies in [0, 1], satisfies r·(hi − lo) = score − lo, is 0 iff the score is lo and 1 iff it is hi |
| Ranking.SpreadIffUnequal | app/main.py:318-321 | the maximum equals the minimum exactly when all kept scores are equal, and then every score is the minimum |
| Ranking.NormalisedMinMax | app/main.py:320-325 | with unequal kept scores, each relevance times (max − min) is its score minus the minimum |
| Ranking.NormaliseThree | app/main.py:317-328 | kept scores 3, 2.9 and 1 get relevances 1, 0.95 and 0 |
| Ranking.NormaliseSorted | app/main.py:317-328 | on a descending list, the entries describe the kept results in order; relevances lie in [0, 1] and do not increase; the last is exactly 0; the first is 1 exactly when the kept scores are not all equal; all are 0 when they are equal; otherwise each relevance times (max − min) is its score minus the minimum |
| Ranking.NormaliseFromHits | app/main.py:322-328 | every description comes from a document among the hits |
| Ranking.KeptFromHits | app/main.py:312 | a permutation of the scored hits holds only documents from the hits |
| Ranking.Kept | app/main.py:301-315 | the kept list has length min(k, n), is descending, and is a prefix of the stable sort of the scored hits |
| Ranking.KeptDocsFromHits | app/main.py:301-315 | every kept result is the document of one of the hits |
| Ranking.KeptIsTopK | app/main.py:301-315 | top-K: the kept results are drawn from the scored hits without repetition, and every scored hit left out scores no higher than any kept one |
| Ranking.Recommend | app/main.py:294-329 | length min(k, n), so an empty search gives no recommendations; entry i describes the i-th kept result (so the order is the top-K order); relevances lie in [0, 1] and do not increase; the last is 0; the first is 1 exactly when the kept scores are not all equal, and all are 0 when they are equal; otherwise each relevance is the min-max position of its kept score; every description is one of the hits' |
| Ranking.InvestmentRecommendations | app/main.py:315 | with K = 2: two recommendations from two or more hits, otherwise one per hit; entry i describes the i-th of the top two kept results; relevances tied to the two kept scores as in Recommend |
| Ranking.SortTwo | app/main.py:312 | two results are swapped only when the second scores strictly higher |
| Ranking.NormaliseTwo | app/main.py:317-328 | two results with different scores get relevance 1 and 0 |
| Ranking.AggressiveUserRanksAggressiveFirst | app/main.py:295-328 | at equal distance an Aggressive user gets the Aggressive document (relevance 1) before the Conservative one (relevance 0), even when the search listed the Conservative one first |
| Ranking.ConservativeUserRanksConservativeFirst | app/main.py:295-328 | at equal distance a Conservative user gets the Conservative document (relevance 1) before the Aggressive one (relevance 0) |
| Ranking.RecommendationsFromCorpus | app/main.py:291-328 | when every hit comes from a corpus, every recommendation describes a document of that corpus |
| Ranking.MockCorpusYieldsTwo | app/main.py:92-102 | a search over the three fallback documents yields exactly two recommendations, each describing a fallback document |
| Text.FindFrom | app/main.py:219 | the first occurrence at or after a position, or none when there is no occurrence from there on |
| Text.SplitHead | app/main.py:219 | `split(sep)[0]` is a prefix with no separator starting inside it; it is cut exactly at a separator; it is the whole string iff the separator is absent |
| Text.SplitHeadHasNoSeparator | app/main.py:219 | the part kept by the split contains no separator |
| Text.StripLeading | app/main.py:219 | `lstrip`: a suffix that removed only whitespace and does not start with whitespace |
| Text.StripTrailing | app/main.py:219 | `rstrip`: a prefix that removed only whitespace and does not end with whitespace |
| Text.Strip | app/main.py:219 | `strip`: the input is whitespace, then the result, then whitespace; the result neither starts nor ends with whitespace |
| Text.StripIsInfix | app/main.py:219 | the stripped text occurs in the original |
| Text.AbsentFromInfix | app/main.py:219 | a pattern absent from a string is absent from every infix of it |
| Advice.DisposableIncome | app/main.py:178 | disposable income plus expenses is income; it is negative exactly when expenses exceed income (not clamped) |
| Advice.SavingsAmount | app/main.py:179-180 | ten times the savings amount is the income; for non-negative income it is between 0 and the income |
| Advice.SummaryFigures | app/main.py:213-214 | the summary up to the goal's opening quote: it opens with the income label, the formatted income and the expenses label; the formatted expenses sit between the expenses label and the disposable-income label; the formatted disposable income sits between that label and the goal label, which ends the text |
| Advice.FiguresLabelled | app/main.py:213-214 | in the figures text, the expenses label follows the income, and each later figure sits between its own label and the next one |
| Advice.ProfileSummary | app/main.py:212-215 | the summary is built from the profile alone: it opens with the income label, the formatted income and the expenses label; the formatted expenses, the formatted disposable income, the goal and the risk tolerance each sit between their own label and the following literal (the last one " risk tolerance. ") |
| Advice.SummaryTail | app/main.py:214 | after figures ending in the goal label, the goal sits between that label and `", and `, and the tolerance sits between `", and ` and " risk tolerance. " |
| Advice.FiguresCarryOver | app/main.py:212-215 | every labelled figure of the figures text is still labelled the same way in any text that starts with it |
| Advice.FiguresHaveNoMarker | app/main.py:213-214 | with a numerals-only formatter, the figures part holds no "Additionally," |
| Advice.SummaryShape | app/main.py:212-215 | with a numerals-only formatter and a goal and tolerance free of "Additionally,", the summary holds no marker, opens with "A" and ends with ". " |
| Advice.NoCapitalNoMarker | app/main.py:219 | text without a capital A holds no "Additionally," |
| Advice.NoMarkerJoin | app/main.py:216-219 | gluing two marker-free texts at a character the marker does not use creates no marker |
| Advice.TipShape | app/main.py:220-225 | with a formatter that prints only numerals, every tip is " Additionally," followed by text with no capital A |
| Advice.TipSelection | app/main.py:220-225 | every tolerance other than "Conservative" and "Aggressive" gets the Moderate tip; the Conservative and Aggressive tips do not depend on the income or the formatter; the Moderate tip quotes the formatted half disposable income and the formatted disposable income |
| Advice.TipsDiffer | app/main.py:220-225 | the Conservative, Aggressive and Moderate tips are pairwise different |
| Advice.NoMarkerLaterInTip | app/main.py:219-225 | inside an appended tip the marker can start only right after the tip's opening space |
| Advice.MarkerOnceAfter | app/main.py:219-225 | a head without the marker followed by such a tip contains the marker exactly once, where the tip opens |
| Advice.ReplaceTail | app/main.py:219-225 | the advice is the stripped text before the first "Additionally," followed by the tip (all of the stripped text when there is no marker); it contains the marker exactly once, where the tip opens |
| Advice.CutKeepsPrefix | app/main.py:216-219 | the cut at the first marker keeps a marker-free prefix that ends in a character the marker does not use |
| Advice.StripKeepsPrefix | app/main.py:219 | stripping keeps all of a prefix but its final space when it starts with a non-space and has one just before its end |
| Advice.PrefixSurvivesCut | app/main.py:216-219 | a marker-free prefix ending in ". " survives the cut and the strip, less its final space |
| Advice.SummaryKept | app/main.py:212-219 | when the goal and the tolerance hold no "Additionally,", the summary less its final space is at the front of the cut and stripped text |
| Advice.FinancialAdvice | app/main.py:211-225 | whatever the generator and the cleanup produce: the advice is the stripped text of summary plus cleaned text before the first "Additionally,", then the tip for the user's tolerance; the marker occurs exactly once, where the tip opens; and when the goal and the tolerance hold no marker, the advice starts with the summary less its final space |
| Advice.ModerateScenario | app/main.py:178-225 | income 60000 and expenses 54000 give 6000 disposable, 6000 saved, and an emergency fund of 3000 to 6000 |

## Left out

- FastAPI setup, CORS, route decorators and the `__main__` runner (app/main.py:19-30, 335-338): framework plumbing with no logic.
- Model loading and inference (app/main.py:33-52): the generator, the classifier and the embedding adapter are foreign ML libraries. Their outputs are inputs or function parameters here.
- `load_market_data`, the FAISS index and `similarity_search_with_score` (app/main.py:72-169, 291): HTTP and library calls. Only the fallback documents are modelled, as `Ranking.MockMarketDocuments`. The search result is an input, and its distances are required to be non-negative, as L2 distances are.
- Fetching news and tweets (app/main.py:232-265): HTTP I/O. The fetched texts are inputs; the fallback tweets are `Sentiment.MockTweets`.
- The `$[amount]` replacement and the two regular-expression cleanups (app/main.py:203-209): regular-expression semantics are not modelled. They are one abstract `clean` function.
- Currency formatting `:,.0f` (rounding and thousands separators): an abstract formatter that is only assumed to print numerals.
- Floating point: every amount and score is an exact `real`. `savings_percentage / 100` is exactly 0.1, and `1e-6` is exactly 0.000001.
- Advice.SavingsAmount: states the exact tenth of the income, not the binary-float product the source computes.
- Persistence (app/db.py) and the React UI (frontend/src/App.js): outside the computational core. The profile record of app/models.py is mirrored as `Profile.UserFinanceProfile`.
- The HTTP 500 mapping of exceptions in `investment_recommendations` (app/main.py:330-332): once distances are non-negative, the modelled ranking cannot raise.
