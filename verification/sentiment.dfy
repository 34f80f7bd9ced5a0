/** The majority vote of the market-sentiment endpoint (app/main.py,
    `market_sentiment`): the same rule reduces the news summaries and the
    tweets of a sector to one aggregate label. */
module Sentiment {

  /** What the binary classifier may say about one text. */
  datatype Label = Positive | Negative

  /** The aggregate reported for a batch of texts; `Neutral` only for an empty batch. */
  datatype Aggregate = POSITIVE | NEGATIVE | NEUTRAL

  /** The classifier is a foreign model; the model takes it as a function. */
  type Classifier = string -> Label

  /** Python's `labels.count("POSITIVE")`. */
  function CountPositive(labels: seq<Label>): (n: nat)
    ensures n <= |labels|
  {
    if |labels| == 0 then 0
    else (if labels[0] == Positive then 1 else 0) + CountPositive(labels[1..])
  }

  /** The number of negative labels, the complement of the positive ones. */
  function CountNegative(labels: seq<Label>): (n: nat)
    ensures n + CountPositive(labels) == |labels|
  {
    if |labels| == 0 then 0
    else (if labels[0] == Negative then 1 else 0) + CountNegative(labels[1..])
  }

  /** The vote as the source writes it: positive when the positive count
      exceeds half the length under true division, negative for any other
      non-empty list, neutral for the empty list. */
  function Vote(labels: seq<Label>): (r: Aggregate)
    ensures r == NEUTRAL <==> |labels| == 0
    ensures r == POSITIVE <==> 2 * CountPositive(labels) > |labels|
    ensures r == NEGATIVE <==> 0 < |labels| && 2 * CountPositive(labels) <= |labels|
  {
    if CountPositive(labels) as real > |labels| as real / 2.0 then POSITIVE
    else if |labels| > 0 then NEGATIVE
    else NEUTRAL
  }

  /** How many of the texts are non-empty. */
  function NonEmptyCount(texts: seq<string>): (n: nat)
    ensures n <= |texts|
    ensures n == 0 <==> forall i :: 0 <= i < |texts| ==> texts[i] == []
  {
    if |texts| == 0 then 0
    else (if texts[0] != [] then 1 else 0) + NonEmptyCount(texts[1..])
  }

  /** How many of the texts are non-empty and read as positive by `classify`. */
  function PositiveTextCount(texts: seq<string>, classify: Classifier): (n: nat)
    ensures n <= NonEmptyCount(texts)
  {
    if |texts| == 0 then 0
    else
      var here := if texts[0] != [] && classify(texts[0]) == Positive then 1 else 0;
      here + PositiveTextCount(texts[1..], classify)
  }

  /** The list comprehension `[classify(text) for text in texts if text]`:
      empty texts are skipped, every other text is classified in order, so
      there is one label per non-empty text and one positive label per
      non-empty text the classifier reads as positive. */
  function ClassifyAll(texts: seq<string>, classify: Classifier): (labels: seq<Label>)
    ensures |labels| == NonEmptyCount(texts)
    ensures CountPositive(labels) == PositiveTextCount(texts, classify)
  {
    if |texts| == 0 then []
    else if texts[0] == [] then ClassifyAll(texts[1..], classify)
    else [classify(texts[0])] + ClassifyAll(texts[1..], classify)
  }

  /** The aggregate sentiment of one batch of texts: a strict majority of
      the non-empty texts must read as positive for POSITIVE. */
  function BatchSentiment(texts: seq<string>, classify: Classifier): (r: Aggregate)
    ensures r == NEUTRAL <==> forall i :: 0 <= i < |texts| ==> texts[i] == []
    ensures r == POSITIVE <==> 2 * PositiveTextCount(texts, classify) > NonEmptyCount(texts)
    ensures r == NEGATIVE <==> 0 < NonEmptyCount(texts) && 2 * PositiveTextCount(texts, classify) <= NonEmptyCount(texts)
  {
    Vote(ClassifyAll(texts, classify))
  }

  /** The tweets the endpoint falls back to when the social API is missing or fails. */
  function MockTweets(sector: string): (tweets: seq<string>)
    ensures |tweets| == 2 && tweets[0] != [] && tweets[1] != []
  {
    ["The " + sector + " sector is booming right now! #invest",
     "Not sure about " + sector + ", seems risky. #finance"]
  }

  /** The response of `market_sentiment`: the two aggregates and the two
      text lists they were computed from. */
  datatype SentimentReport = SentimentReport(
    newsSentiment: Aggregate,
    socialSentiment: Aggregate,
    newsArticles: seq<string>,
    tweets: seq<string>)

  /** The endpoint once fetching is done: both batches go through the same vote. */
  function MarketSentiment(newsTexts: seq<string>, tweetTexts: seq<string>, classify: Classifier): (r: SentimentReport)
    ensures r.newsArticles == newsTexts && r.tweets == tweetTexts
    ensures r.newsSentiment == BatchSentiment(newsTexts, classify)
    ensures r.socialSentiment == BatchSentiment(tweetTexts, classify)
    ensures r.newsSentiment == NEUTRAL <==> forall i :: 0 <= i < |newsTexts| ==> newsTexts[i] == []
    ensures r.socialSentiment == NEUTRAL <==> forall i :: 0 <= i < |tweetTexts| ==> tweetTexts[i] == []
  {
    SentimentReport(BatchSentiment(newsTexts, classify), BatchSentiment(tweetTexts, classify), newsTexts, tweetTexts)
  }

  /** The positive count is the multiplicity of `Positive`. */
  lemma {:induction false} CountPositiveIsMultiplicity(labels: seq<Label>)
    ensures CountPositive(labels) == multiset(labels)[Positive]
  {
    if |labels| > 0 {
      CountPositiveIsMultiplicity(labels[1..]);
      assert labels == [labels[0]] + labels[1..];
    }
  }

  /** The vote does not depend on the order in which texts were classified. */
  lemma VoteIgnoresOrder(a: seq<Label>, b: seq<Label>)
    requires multiset(a) == multiset(b)
    ensures Vote(a) == Vote(b)
  {
    CountPositiveIsMultiplicity(a);
    CountPositiveIsMultiplicity(b);
    assert |a| == |multiset(a)| == |multiset(b)| == |b|;
  }

  /** Positive wins exactly when it outnumbers negative; a tie goes to negative. */
  lemma VoteIsStrictMajority(labels: seq<Label>)
    requires |labels| > 0
    ensures Vote(labels) == POSITIVE <==> CountPositive(labels) > CountNegative(labels)
    ensures Vote(labels) == NEGATIVE <==> CountPositive(labels) <= CountNegative(labels)
  {
  }

  /** Two positives and one negative give a positive vote; one of each gives
      a negative vote; no labels give a neutral one. */
  lemma VoteExamples()
    ensures Vote([Positive, Positive, Negative]) == POSITIVE
    ensures Vote([Positive, Negative]) == NEGATIVE
    ensures Vote([]) == NEUTRAL
  {
    assert CountPositive([Positive, Positive, Negative]) == 2 by {
      assert [Positive, Positive, Negative][1..] == [Positive, Negative];
      assert [Positive, Negative][1..] == [Negative];
    }
    assert CountPositive([Positive, Negative]) == 1 by {
      assert [Positive, Negative][1..] == [Negative];
    }
  }

  /** With the fallback tweets the social sentiment is never neutral, and a
      classifier that reads one tweet as positive and the other as negative
      yields a negative aggregate. */
  lemma MockTweetsSplitVoteIsNegative(sector: string, classify: Classifier)
    requires classify(MockTweets(sector)[0]) != classify(MockTweets(sector)[1])
    ensures BatchSentiment(MockTweets(sector), classify) == NEGATIVE
  {
    var t := MockTweets(sector);
    assert t[1..][1..] == [];
    var labels := [classify(t[0]), classify(t[1])];
    assert ClassifyAll(t, classify) == labels;
    assert labels[1..][1..] == [];
    assert CountPositive(labels) == 1;
  }
}
