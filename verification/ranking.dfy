/** The risk-adjusted re-ranking of `investment_recommendations`
    (app/main.py): similarity-search hits are turned into similarities,
    weighted by a fixed risk-affinity table, stably sorted by descending
    score, cut to the top K and min-max normalised into relevance scores. */
module Ranking {
  import opened Wrappers

  /** A market document: its text and the optional `risk` metadata entry. */
  datatype Document = Document(pageContent: string, risk: Option<string>)

  /** One `(document, distance)` pair returned by the similarity search. */
  datatype SearchHit = SearchHit(doc: Document, distance: real)

  /** A document with its risk-adjusted score. */
  datatype Scored = Scored(doc: Document, score: real)

  /** One entry of the response: `{description, relevance_score}`. */
  datatype Recommendation = Recommendation(description: string, relevanceScore: real)

  /** The search returns L2 distances, which are never negative. */
  predicate ValidHits(hits: seq<SearchHit>)
  {
    forall i :: 0 <= i < |hits| ==> hits[i].distance >= 0.0
  }

  // ---------------------------------------------------------------------------
  // Similarity
  // ---------------------------------------------------------------------------

  /** `1.0 / (1.0 + distance)`. */
  function Similarity(d: real): (r: real)
    requires d >= 0.0
    ensures 0.0 < r <= 1.0
    ensures r == 1.0 <==> d == 0.0
    ensures r * (1.0 + d) == 1.0
  {
    1.0 / (1.0 + d)
  }

  /** The distance a similarity came from. */
  function DistanceOf(sim: real): (d: real)
    requires 0.0 < sim <= 1.0
    ensures d >= 0.0
    ensures Similarity(d) == sim
  {
    var d := 1.0 / sim - 1.0;
    assert sim * (1.0 + d) == 1.0;
    d
  }

  /** Converting a distance to a similarity loses nothing. */
  lemma SimilarityRoundTrip(d: real)
    requires d >= 0.0
    ensures DistanceOf(Similarity(d)) == d
  {
    var s := Similarity(d);
    assert s * (1.0 + d) == 1.0;
    assert 1.0 / s == 1.0 + d;
  }

  /** A farther document is strictly less similar. */
  lemma SimilarityStrictlyDecreasing(d1: real, d2: real)
    requires 0.0 <= d1 < d2
    ensures Similarity(d2) < Similarity(d1)
  {
    var s1, s2 := Similarity(d1), Similarity(d2);
    assert s1 * (1.0 + d1) == 1.0 && s2 * (1.0 + d2) == 1.0;
    assert s2 * (1.0 + d1) < s2 * (1.0 + d2) == s1 * (1.0 + d1);
    assert (s1 - s2) * (1.0 + d1) > 0.0;
  }

  // ---------------------------------------------------------------------------
  // Risk affinity
  // ---------------------------------------------------------------------------

  /** `risk_mapping`: user risk tolerance -> document risk label -> multiplier. */
  const RiskMapping: map<string, map<string, real>> := map[
    "Conservative" := map["Conservative" := 1.0, "Moderate" := 0.5, "Aggressive" := 0.0],
    "Moderate" := map["Conservative" := 0.4, "Moderate" := 1.0, "Aggressive" := 0.6],
    "Aggressive" := map["Conservative" := 0.0, "Moderate" := 0.5, "Aggressive" := 2.0]
  ]

  /** The multiplier for a tolerance or label the table does not know. */
  const DefaultAffinity: real := 0.5

  /** The label assumed for a document without `risk` metadata. */
  const DefaultRisk: string := "Moderate"

  /** `doc.metadata.get("risk", "Moderate")`. */
  function DocumentRisk(doc: Document): (r: string)
    ensures doc.risk.None? ==> r == DefaultRisk
    ensures doc.risk.Some? ==> r == doc.risk.value
  {
    doc.risk.GetOr(DefaultRisk)
  }

  /** `risk_mapping.get(tolerance, {}).get(label, 0.5)`. */
  function Affinity(tolerance: string, docRisk: string): (r: real)
    ensures 0.0 <= r <= 2.0
  {
    if tolerance in RiskMapping && docRisk in RiskMapping[tolerance] then RiskMapping[tolerance][docRisk]
    else DefaultAffinity
  }

  /** The nine entries of the table. */
  lemma AffinityTable()
    ensures Affinity("Conservative", "Conservative") == 1.0
    ensures Affinity("Conservative", "Moderate") == 0.5
    ensures Affinity("Conservative", "Aggressive") == 0.0
    ensures Affinity("Moderate", "Conservative") == 0.4
    ensures Affinity("Moderate", "Moderate") == 1.0
    ensures Affinity("Moderate", "Aggressive") == 0.6
    ensures Affinity("Aggressive", "Conservative") == 0.0
    ensures Affinity("Aggressive", "Moderate") == 0.5
    ensures Affinity("Aggressive", "Aggressive") == 2.0
  {
  }

  /** The 0.5 default for a tolerance or a label the table does not know. */
  lemma AffinityDefaults(tolerance: string, docRisk: string)
    ensures (tolerance != "Conservative" && tolerance != "Moderate" && tolerance != "Aggressive")
      ==> Affinity(tolerance, docRisk) == 0.5
    ensures (docRisk != "Conservative" && docRisk != "Moderate" && docRisk != "Aggressive")
      ==> Affinity(tolerance, docRisk) == 0.5
  {
  }

  /** An unlabelled document is weighted exactly like a "Moderate" one. */
  lemma UnlabelledIsModerate(tolerance: string, content: string)
    ensures Affinity(tolerance, DocumentRisk(Document(content, None)))
         == Affinity(tolerance, DocumentRisk(Document(content, Some("Moderate"))))
  {
  }

  // ---------------------------------------------------------------------------
  // Scoring
  // ---------------------------------------------------------------------------

  /** `similarity * risk_adjustment` for one hit. */
  function ScoreHit(hit: SearchHit, tolerance: string): (s: Scored)
    requires hit.distance >= 0.0
    ensures s.doc == hit.doc
    ensures 0.0 <= s.score <= 2.0
    ensures s.score == 0.0 <==> Affinity(tolerance, DocumentRisk(hit.doc)) == 0.0
    ensures s.score * (1.0 + hit.distance) == Affinity(tolerance, DocumentRisk(hit.doc))
  {
    var sim, a := Similarity(hit.distance), Affinity(tolerance, DocumentRisk(hit.doc));
    assert sim * a * (1.0 + hit.distance) == (sim * (1.0 + hit.distance)) * a;
    Scored(hit.doc, sim * a)
  }

  /** For one document and a positive affinity, a farther hit scores strictly lower. */
  lemma ScoreFallsWithDistance(doc: Document, d1: real, d2: real, tolerance: string)
    requires 0.0 <= d1 < d2
    requires Affinity(tolerance, DocumentRisk(doc)) > 0.0
    ensures ScoreHit(SearchHit(doc, d2), tolerance).score < ScoreHit(SearchHit(doc, d1), tolerance).score
  {
    var a := Affinity(tolerance, DocumentRisk(doc));
    var s1, s2 := Similarity(d1), Similarity(d2);
    SimilarityStrictlyDecreasing(d1, d2);
    assert s2 * a < s1 * a;
  }

  /** The scoring loop over all hits, in search order. */
  function ScoreAll(hits: seq<SearchHit>, tolerance: string): (r: seq<Scored>)
    requires ValidHits(hits)
    ensures |r| == |hits|
    ensures forall i :: 0 <= i < |r| ==> r[i] == ScoreHit(hits[i], tolerance)
  {
    seq(|hits|, i requires 0 <= i < |hits| && ValidHits(hits) => ScoreHit(hits[i], tolerance))
  }

  /** With equal distances an Aggressive user scores an Aggressive document
      strictly above a Conservative one, and a Conservative user the reverse. */
  lemma RiskPreference(a: Document, c: Document, d: real)
    requires a.risk == Some("Aggressive") && c.risk == Some("Conservative")
    requires d >= 0.0
    ensures ScoreHit(SearchHit(a, d), "Aggressive").score > ScoreHit(SearchHit(c, d), "Aggressive").score
    ensures ScoreHit(SearchHit(c, d), "Conservative").score > ScoreHit(SearchHit(a, d), "Conservative").score
  {
    AffinityTable();
  }

  // ---------------------------------------------------------------------------
  // Stable descending sort
  // ---------------------------------------------------------------------------

  /** Scores never increase along `s`. */
  predicate SortedDesc(s: seq<Scored>)
  {
    forall i, j :: 0 <= i < j < |s| ==> s[i].score >= s[j].score
  }

  /** The subsequence of `s` whose score is `k`, in order. A sort is stable
      exactly when it leaves every such subsequence unchanged. */
  function WithScore(s: seq<Scored>, k: real): (r: seq<Scored>)
    ensures forall i :: 0 <= i < |r| ==> r[i].score == k
    ensures |r| == 0 <==> forall j :: 0 <= j < |s| ==> s[j].score != k
  {
    if |s| == 0 then []
    else if s[0].score == k then [s[0]] + WithScore(s[1..], k)
    else WithScore(s[1..], k)
  }

  lemma {:induction false} WithScoreAppend(a: seq<Scored>, b: seq<Scored>, k: real)
    ensures WithScore(a + b, k) == WithScore(a, k) + WithScore(b, k)
  {
    if |a| > 0 {
      assert (a + b)[0] == a[0] && (a + b)[1..] == a[1..] + b;
      WithScoreAppend(a[1..], b, k);
    } else {
      assert a + b == b;
    }
  }

  /** Prepending an element no smaller than the head keeps a list descending. */
  lemma SortedCons(h: Scored, t: seq<Scored>)
    requires SortedDesc(t)
    requires |t| == 0 || h.score >= t[0].score
    ensures SortedDesc([h] + t)
  {
    forall i, j | 0 <= i < j < |t| + 1 ensures ([h] + t)[i].score >= ([h] + t)[j].score {
      if i == 0 && j > 1 {
        assert t[0].score >= t[j - 1].score;
      }
    }
  }

  /** Two neighbours with different scores can trade places without
      changing any equal-score subsequence. */
  lemma SwapDistinct(x: Scored, y: Scored, t: seq<Scored>, k: real)
    requires x.score != y.score
    ensures WithScore([y, x] + t, k) == WithScore([x, y] + t, k)
  {
    WithScoreAppend([y, x], t, k);
    WithScoreAppend([x, y], t, k);
    assert [y, x][1..] == [x] && [x, y][1..] == [y];
    assert [x][1..] == [] && [y][1..] == [];
  }

  /** Inserts `x` into a descending list before every element whose score is
      not above its own, so that `x` precedes the equal scores after it. */
  function Insert(x: Scored, s: seq<Scored>): (r: seq<Scored>)
    requires SortedDesc(s)
    ensures SortedDesc(r)
    ensures |r| == |s| + 1 && (r[0] == x || (|s| > 0 && r[0] == s[0]))
    ensures multiset(r) == multiset([x] + s)
  {
    if |s| == 0 || x.score >= s[0].score then
      SortedCons(x, s);
      [x] + s
    else
      var rest := Insert(x, s[1..]);
      assert [x] + s == [x, s[0]] + s[1..];
      SortedCons(s[0], rest);
      [s[0]] + rest
  }

  /** Insertion keeps every equal-score subsequence of `[x] + s`. */
  lemma {:induction false} InsertStable(x: Scored, s: seq<Scored>, k: real)
    requires SortedDesc(s)
    ensures WithScore(Insert(x, s), k) == WithScore([x] + s, k)
  {
    if |s| > 0 && x.score < s[0].score {
      var h, t := s[0], s[1..];
      SortedTail(s);
      var rest := Insert(x, t);
      calc {
        WithScore(Insert(x, s), k);
        WithScore([h] + rest, k);
        { WithScoreAppend([h], rest, k); }
        WithScore([h], k) + WithScore(rest, k);
        { InsertStable(x, t, k); }
        WithScore([h], k) + WithScore([x] + t, k);
        { WithScoreAppend([h], [x] + t, k); }
        WithScore([h] + ([x] + t), k);
        { assert [h] + ([x] + t) == [h, x] + t; }
        WithScore([h, x] + t, k);
        { SwapDistinct(x, h, t, k); }
        WithScore([x, h] + t, k);
        { assert [x] + s == [x, h] + t; }
        WithScore([x] + s, k);
      }
    }
  }

  /** Python's `list.sort(key=score, reverse=True)`: a stable insertion sort
      by descending score. */
  function SortDesc(s: seq<Scored>): (r: seq<Scored>)
    ensures SortedDesc(r)
    ensures multiset(r) == multiset(s)
  {
    if |s| == 0 then []
    else
      assert s == [s[0]] + s[1..];
      Insert(s[0], SortDesc(s[1..]))
  }

  /** The sort is stable: every equal-score subsequence comes out as it went in. */
  lemma {:induction false} SortDescStable(s: seq<Scored>, k: real)
    ensures WithScore(SortDesc(s), k) == WithScore(s, k)
  {
    if |s| > 0 {
      var rest := SortDesc(s[1..]);
      SortDescStable(s[1..], k);
      InsertStable(s[0], rest, k);
      WithScoreAppend([s[0]], rest, k);
      WithScoreAppend([s[0]], s[1..], k);
      assert s == [s[0]] + s[1..];
    }
  }

  /** Every score present in a list has a non-empty subsequence. */
  lemma WithScoreNonEmpty(s: seq<Scored>, i: int)
    requires 0 <= i < |s|
    ensures |WithScore(s, s[i].score)| > 0
  {
  }

  /** Both lists hold the same elements of every score, in the same order. */
  ghost predicate SameGroups(a: seq<Scored>, b: seq<Scored>)
  {
    forall k :: WithScore(a, k) == WithScore(b, k)
  }

  /** Being sorted and keeping each equal-score subsequence pins a list down:
      `SortDesc` is the only such arrangement of its input. */
  lemma {:induction false} SortedStableUnique(a: seq<Scored>, b: seq<Scored>)
    requires SortedDesc(a) && SortedDesc(b)
    requires SameGroups(a, b)
    ensures a == b
    decreases |a|
  {
    if |a| == 0 || |b| == 0 {
      EmptyGroups(a, b);
    } else {
      SameHead(a, b);
      SameTails(a, b);
      SortedTail(a);
      SortedTail(b);
      SortedStableUnique(a[1..], b[1..]);
      SameHeadAndTail(a, b);
    }
  }

  /** Dropping the first element keeps a list descending. */
  lemma SortedTail(s: seq<Scored>)
    requires |s| > 0 && SortedDesc(s)
    ensures SortedDesc(s[1..])
  {
    var t := s[1..];
    assert forall i :: 0 <= i < |t| ==> t[i] == s[i + 1];
  }

  /** A list shares its groups with an empty list only when it is empty itself. */
  lemma EmptyGroups(a: seq<Scored>, b: seq<Scored>)
    requires |a| == 0 || |b| == 0
    requires SameGroups(a, b)
    ensures a == b
  {
    if |a| > 0 {
      WithScoreNonEmpty(a, 0);
    } else if |b| > 0 {
      WithScoreNonEmpty(b, 0);
    }
  }

  /** Lists that agree on the first element and on the rest are equal. */
  lemma SameHeadAndTail(a: seq<Scored>, b: seq<Scored>)
    requires |a| > 0 && |b| > 0
    requires a[0] == b[0] && a[1..] == b[1..]
    ensures a == b
  {
    assert a == [a[0]] + a[1..] && b == [b[0]] + b[1..];
  }

  /** Two sorted lists with the same equal-score subsequences start alike. */
  lemma SameHead(a: seq<Scored>, b: seq<Scored>)
    requires |a| > 0 && |b| > 0
    requires SortedDesc(a) && SortedDesc(b)
    requires SameGroups(a, b)
    ensures a[0] == b[0]
  {
    WithScoreNonEmpty(a, 0);
    WithScoreNonEmpty(b, 0);
    assert WithScore(a, b[0].score) == WithScore(b, b[0].score);
    assert WithScore(b, a[0].score) == WithScore(a, a[0].score);
    ScoreBelowHead(a, b[0].score);
    ScoreBelowHead(b, a[0].score);
    HeadOpensItsScore(a);
    HeadOpensItsScore(b);
  }

  /** In a descending list, no score present exceeds the first one. */
  lemma ScoreBelowHead(s: seq<Scored>, k: real)
    requires |s| > 0 && SortedDesc(s)
    requires |WithScore(s, k)| > 0
    ensures k <= s[0].score
  {
    var j :| 0 <= j < |s| && s[j].score == k;
  }

  /** The first element opens the subsequence of its own score. */
  lemma HeadOpensItsScore(s: seq<Scored>)
    requires |s| > 0
    ensures WithScore(s, s[0].score)[0] == s[0]
  {
  }

  /** Removing a common head keeps the equal-score subsequences equal. */
  lemma SameTails(a: seq<Scored>, b: seq<Scored>)
    requires |a| > 0 && |b| > 0 && a[0] == b[0]
    requires SameGroups(a, b)
    ensures SameGroups(a[1..], b[1..])
  {
    assert a == [a[0]] + a[1..] && b == [b[0]] + b[1..];
    forall k ensures WithScore(a[1..], k) == WithScore(b[1..], k) {
      WithScoreAppend([a[0]], a[1..], k);
      WithScoreAppend([b[0]], b[1..], k);
      var p := WithScore([a[0]], k);
      assert WithScore(a[1..], k) == (p + WithScore(a[1..], k))[|p|..];
      assert WithScore(b[1..], k) == (p + WithScore(b[1..], k))[|p|..];
    }
  }

  /** Any descending arrangement that keeps equal scores in input order is the sort's output. */
  lemma SortDescIsTheStableSort(s: seq<Scored>, r: seq<Scored>)
    requires SortedDesc(r)
    requires forall k :: WithScore(r, k) == WithScore(s, k)
    ensures r == SortDesc(s)
  {
    forall k ensures WithScore(r, k) == WithScore(SortDesc(s), k) {
      SortDescStable(s, k);
    }
    SortedStableUnique(r, SortDesc(s));
  }

  // ---------------------------------------------------------------------------
  // Truncation and normalisation
  // ---------------------------------------------------------------------------

  /** Python's `s[:k]`. */
  function TopK(s: seq<Scored>, k: nat): (r: seq<Scored>)
    ensures |r| == if k < |s| then k else |s|
    ensures r <= s
  {
    if k < |s| then s[..k] else s
  }

  /** The largest score, Python's `max(score for _, score in s)`. */
  function MaxScore(s: seq<Scored>): (m: real)
    requires |s| > 0
    ensures exists i :: 0 <= i < |s| && s[i].score == m
    ensures forall i :: 0 <= i < |s| ==> s[i].score <= m
  {
    if |s| == 1 then s[0].score
    else
      var m := MaxScore(s[1..]);
      assert forall i :: 1 <= i < |s| ==> s[i] == s[1..][i - 1];
      if s[0].score >= m then s[0].score else m
  }

  /** The smallest score, Python's `min(score for _, score in s)`. */
  function MinScore(s: seq<Scored>): (m: real)
    requires |s| > 0
    ensures exists i :: 0 <= i < |s| && s[i].score == m
    ensures forall i :: 0 <= i < |s| ==> m <= s[i].score
  {
    if |s| == 1 then s[0].score
    else
      var m := MinScore(s[1..]);
      assert forall i :: 1 <= i < |s| ==> s[i] == s[1..][i - 1];
      if s[0].score <= m then s[0].score else m
  }

  /** Every kept score is the same. */
  predicate AllEqual(s: seq<Scored>)
  {
    forall i, j :: 0 <= i < |s| && 0 <= j < |s| ==> s[i].score == s[j].score
  }

  /** `s[i]` has the largest score of `s`. */
  predicate IsTop(s: seq<Scored>, i: int)
    requires 0 <= i < |s|
  {
    forall j :: 0 <= j < |s| ==> s[j].score <= s[i].score
  }

  /** `s[i]` has the smallest score of `s`. */
  predicate IsBottom(s: seq<Scored>, i: int)
    requires 0 <= i < |s|
  {
    forall j :: 0 <= j < |s| ==> s[i].score <= s[j].score
  }

  /** The guard added to the maximum when all kept scores are equal. */
  const Epsilon: real := 0.000001

  /** `(x - lo) / (hi - lo)` for `lo <= x <= hi`: the position of `x` in the
      interval, 0 at the bottom and 1 at the top. */
  function Rescale(x: real, lo: real, hi: real): (r: real)
    requires lo <= x <= hi && lo < hi
    ensures 0.0 <= r <= 1.0
    ensures r * (hi - lo) == x - lo
    ensures r == 0.0 <==> x == lo
    ensures r == 1.0 <==> x == hi
  {
    var r := (x - lo) / (hi - lo);
    assert r * (hi - lo) == x - lo;
    r
  }

  /** Rescaling keeps the order of the values. */
  lemma RescaleMonotonic(x: real, y: real, lo: real, hi: real)
    requires lo <= x <= hi && lo <= y <= hi && lo < hi
    ensures x <= y ==> Rescale(x, lo, hi) <= Rescale(y, lo, hi)
    ensures x < y ==> Rescale(x, lo, hi) < Rescale(y, lo, hi)
  {
    var rx, ry := Rescale(x, lo, hi), Rescale(y, lo, hi);
    assert (ry - rx) * (hi - lo) == y - x;
    SignOfScaled(ry - rx, hi - lo);
  }

  /** A positive factor does not change the sign of a product. */
  lemma SignOfScaled(a: real, w: real)
    requires w > 0.0
    ensures a * w >= 0.0 ==> a >= 0.0
    ensures a * w > 0.0 ==> a > 0.0
  {
    if a < 0.0 {
      assert a * w < 0.0 * w;
    }
  }

  /** Away from the equal-scores case, every relevance is the position of
      its score between the minimum and the maximum:
      `relevance * (max - min) == score - min`. */
  predicate MinMax(r: seq<Recommendation>, kept: seq<Scored>)
  {
    |r| == |kept| && (|kept| > 0 && !AllEqual(kept) ==>
      forall i :: 0 <= i < |r| ==>
        r[i].relevanceScore * (MaxScore(kept) - MinScore(kept)) == kept[i].score - MinScore(kept))
  }

  /** The min-max normalisation of the kept results into `{description,
      relevance_score}` entries, with the maximum raised by `Epsilon` when all
      scores are equal. */
  function Normalise(kept: seq<Scored>): (r: seq<Recommendation>)
    ensures |r| == |kept|
    ensures forall i :: 0 <= i < |r| ==> r[i].description == kept[i].doc.pageContent
    ensures forall i :: 0 <= i < |r| ==> 0.0 <= r[i].relevanceScore <= 1.0
    ensures forall i, j :: 0 <= i < |r| && 0 <= j < |r| && kept[i].score <= kept[j].score
              ==> r[i].relevanceScore <= r[j].relevanceScore
    ensures AllEqual(kept) ==> forall i :: 0 <= i < |r| ==> r[i].relevanceScore == 0.0
    ensures !AllEqual(kept) ==> forall i :: 0 <= i < |r| ==> (r[i].relevanceScore == 1.0 <==> IsTop(kept, i))
    ensures forall i :: 0 <= i < |r| ==> (r[i].relevanceScore == 0.0 <==> IsBottom(kept, i) || AllEqual(kept))
    ensures MinMax(r, kept)
  {
    if |kept| == 0 then []
    else
      NormalisedOrder(kept);
      NormalisedEqual(kept);
      NormalisedTop(kept);
      NormalisedBottom(kept);
      NormalisedMinMax(kept);
      Relevances(kept, MinScore(kept), Ceiling(kept))
  }

  /** The top of the rescaling interval: the maximum, raised by `Epsilon`
      when it equals the minimum. */
  function Ceiling(kept: seq<Scored>): (hi: real)
    requires |kept| > 0
    ensures MinScore(kept) < hi
    ensures forall i :: 0 <= i < |kept| ==> MinScore(kept) <= kept[i].score <= hi
    ensures MaxScore(kept) != MinScore(kept) ==> hi == MaxScore(kept)
  {
    if MaxScore(kept) == MinScore(kept) then MaxScore(kept) + Epsilon else MaxScore(kept)
  }

  /** Normalisation keeps the order of the scores. */
  lemma NormalisedOrder(kept: seq<Scored>)
    requires |kept| > 0
    ensures var r := Relevances(kept, MinScore(kept), Ceiling(kept));
      forall i, j :: 0 <= i < |r| && 0 <= j < |r| && kept[i].score <= kept[j].score
        ==> r[i].relevanceScore <= r[j].relevanceScore
  {
    RelevancesOrdered(kept, MinScore(kept), Ceiling(kept));
  }

  /** Equal scores all normalise to 0. */
  lemma NormalisedEqual(kept: seq<Scored>)
    requires |kept| > 0
    ensures var r := Relevances(kept, MinScore(kept), Ceiling(kept));
      AllEqual(kept) ==> forall i :: 0 <= i < |r| ==> r[i].relevanceScore == 0.0
  {
    SpreadIffUnequal(kept);
  }

  /** Unequal scores normalise to 1 exactly at the maximum. */
  lemma NormalisedTop(kept: seq<Scored>)
    requires |kept| > 0
    ensures var r := Relevances(kept, MinScore(kept), Ceiling(kept));
      !AllEqual(kept) ==> forall i :: 0 <= i < |r| ==> (r[i].relevanceScore == 1.0 <==> IsTop(kept, i))
  {
    SpreadIffUnequal(kept);
    ExtremesAreTopAndBottom(kept);
  }

  /** A relevance is 0 exactly at the minimum, or everywhere when all scores are equal. */
  lemma NormalisedBottom(kept: seq<Scored>)
    requires |kept| > 0
    ensures var r := Relevances(kept, MinScore(kept), Ceiling(kept));
      forall i :: 0 <= i < |r| ==> (r[i].relevanceScore == 0.0 <==> IsBottom(kept, i) || AllEqual(kept))
  {
    SpreadIffUnequal(kept);
    ExtremesAreTopAndBottom(kept);
  }

  /** Unequal scores normalise to their min-max position. */
  lemma NormalisedMinMax(kept: seq<Scored>)
    requires |kept| > 0
    ensures MinMax(Relevances(kept, MinScore(kept), Ceiling(kept)), kept)
  {
    if !AllEqual(kept) {
      SpreadIffUnequal(kept);
      MinMaxAt(kept, MinScore(kept), MaxScore(kept));
    }
  }

  /** Rescaling between the minimum and the maximum gives the min-max positions. */
  lemma MinMaxAt(kept: seq<Scored>, lo: real, hi: real)
    requires |kept| > 0 && lo < hi
    requires forall i :: 0 <= i < |kept| ==> lo <= kept[i].score <= hi
    requires lo == MinScore(kept) && hi == MaxScore(kept)
    ensures MinMax(Relevances(kept, lo, hi), kept)
  {
  }

  /** Each kept result rescaled between `lo` and `hi`. */
  function Relevances(kept: seq<Scored>, lo: real, hi: real): (r: seq<Recommendation>)
    requires lo < hi
    requires forall i :: 0 <= i < |kept| ==> lo <= kept[i].score <= hi
    ensures |r| == |kept|
    ensures forall i :: 0 <= i < |r| ==> r[i].description == kept[i].doc.pageContent
    ensures forall i :: 0 <= i < |r| ==> 0.0 <= r[i].relevanceScore <= 1.0
    ensures forall i :: 0 <= i < |r| ==> r[i].relevanceScore * (hi - lo) == kept[i].score - lo
    ensures forall i :: 0 <= i < |r| ==> (r[i].relevanceScore == 0.0 <==> kept[i].score == lo)
    ensures forall i :: 0 <= i < |r| ==> (r[i].relevanceScore == 1.0 <==> kept[i].score == hi)
  {
    seq(|kept|, i requires 0 <= i < |kept| && lo < hi && lo <= kept[i].score <= hi =>
      Recommendation(kept[i].doc.pageContent, Rescale(kept[i].score, lo, hi)))
  }

  /** Rescaling keeps the order of the scores. */
  lemma RelevancesOrdered(kept: seq<Scored>, lo: real, hi: real)
    requires lo < hi
    requires forall i :: 0 <= i < |kept| ==> lo <= kept[i].score <= hi
    ensures var r := Relevances(kept, lo, hi);
      forall i, j :: 0 <= i < |r| && 0 <= j < |r| && kept[i].score <= kept[j].score
        ==> r[i].relevanceScore <= r[j].relevanceScore
  {
    var r := Relevances(kept, lo, hi);
    forall i, j | 0 <= i < |r| && 0 <= j < |r| && kept[i].score <= kept[j].score
      ensures r[i].relevanceScore <= r[j].relevanceScore
    {
      RescaleMonotonic(kept[i].score, kept[j].score, lo, hi);
    }
  }

  /** The scores are all equal exactly when the maximum is the minimum, and
      then every score is the minimum. */
  lemma SpreadIffUnequal(kept: seq<Scored>)
    requires |kept| > 0
    ensures AllEqual(kept) <==> MaxScore(kept) == MinScore(kept)
    ensures AllEqual(kept) ==> forall i :: 0 <= i < |kept| ==> kept[i].score == MinScore(kept)
  {
    var max, min := MaxScore(kept), MinScore(kept);
    if max == min {
      assert forall i :: 0 <= i < |kept| ==> kept[i].score == max;
    }
    if AllEqual(kept) {
      var j :| 0 <= j < |kept| && kept[j].score == min;
      assert forall i :: 0 <= i < |kept| ==> kept[i].score == kept[j].score;
    }
  }

  /** The top results are those scoring the maximum, the bottom ones those
      scoring the minimum. */
  lemma ExtremesAreTopAndBottom(kept: seq<Scored>)
    requires |kept| > 0
    ensures forall i :: 0 <= i < |kept| ==> (IsTop(kept, i) <==> kept[i].score == MaxScore(kept))
    ensures forall i :: 0 <= i < |kept| ==> (IsBottom(kept, i) <==> kept[i].score == MinScore(kept))
  {
    var max, min := MaxScore(kept), MinScore(kept);
    forall i | 0 <= i < |kept| ensures IsTop(kept, i) <==> kept[i].score == max {
      if IsTop(kept, i) {
        var j :| 0 <= j < |kept| && kept[j].score == max;
        assert kept[j].score <= kept[i].score;
      }
    }
    forall i | 0 <= i < |kept| ensures IsBottom(kept, i) <==> kept[i].score == min {
      if IsBottom(kept, i) {
        var j :| 0 <= j < |kept| && kept[j].score == min;
        assert kept[i].score <= kept[j].score;
      }
    }
  }

  // ---------------------------------------------------------------------------
  // The whole ranking
  // ---------------------------------------------------------------------------

  /** `doc` is the document of one of the hits. */
  predicate FromHits(doc: Document, hits: seq<SearchHit>)
  {
    exists j :: 0 <= j < |hits| && hits[j].doc == doc
  }

  /** `description` is the text of one of the hits' documents. */
  predicate DescribesHit(description: string, hits: seq<SearchHit>)
  {
    exists j :: 0 <= j < |hits| && hits[j].doc.pageContent == description
  }

  /** Normalisation describes exactly the documents it was given. */
  lemma NormaliseFromHits(kept: seq<Scored>, hits: seq<SearchHit>)
    requires forall i :: 0 <= i < |kept| ==> FromHits(kept[i].doc, hits)
    ensures forall i :: 0 <= i < |Normalise(kept)| ==> DescribesHit(Normalise(kept)[i].description, hits)
  {
    var r := Normalise(kept);
    forall i | 0 <= i < |r| ensures DescribesHit(r[i].description, hits) {
      assert FromHits(kept[i].doc, hits);
      var j :| 0 <= j < |hits| && hits[j].doc == kept[i].doc;
      assert hits[j].doc.pageContent == r[i].description;
    }
  }

  /** The scored hits in ranking order, cut to the top `k`: a prefix of the
      stable descending sort of the scored hits. */
  function Kept(hits: seq<SearchHit>, tolerance: string, k: nat): (kept: seq<Scored>)
    requires ValidHits(hits)
    ensures |kept| == if k < |hits| then k else |hits|
    ensures SortedDesc(kept)
    ensures kept <= SortDesc(ScoreAll(hits, tolerance))
  {
    var sorted := SortDesc(ScoreAll(hits, tolerance));
    SortedPrefix(sorted, k);
    TopK(sorted, k)
  }

  /** A prefix of a descending list is descending. */
  lemma SortedPrefix(s: seq<Scored>, k: nat)
    requires SortedDesc(s)
    ensures SortedDesc(TopK(s, k))
  {
    var r := TopK(s, k);
    assert forall i :: 0 <= i < |r| ==> r[i] == s[i];
  }

  /** Every kept result is the document of one of the hits. */
  lemma KeptDocsFromHits(hits: seq<SearchHit>, tolerance: string, k: nat)
    requires ValidHits(hits)
    ensures var kept := Kept(hits, tolerance, k);
      forall i :: 0 <= i < |kept| ==> FromHits(kept[i].doc, hits)
  {
    var scored := ScoreAll(hits, tolerance);
    var sorted := SortDesc(scored);
    KeptFromHits(scored, sorted, hits);
    var kept := Kept(hits, tolerance, k);
    assert forall i :: 0 <= i < |kept| ==> kept[i] == sorted[i];
  }

  /** The kept results are the best ones: they are drawn from the scored hits
      without repetition, and every scored hit left out scores no higher
      than any kept one. */
  lemma KeptIsTopK(hits: seq<SearchHit>, tolerance: string, k: nat)
    requires ValidHits(hits)
    ensures var all, kept := ScoreAll(hits, tolerance), Kept(hits, tolerance, k);
      && multiset(kept) <= multiset(all)
      && forall x: Scored :: x in multiset(all) - multiset(kept) ==>
           forall i :: 0 <= i < |kept| ==> x.score <= kept[i].score
  {
    var sorted := SortDesc(ScoreAll(hits, tolerance));
    assert Kept(hits, tolerance, k) == TopK(sorted, k);
    TopKIsBest(sorted, k);
  }

  /** The first `k` of a descending list are drawn from it without repetition,
      and nothing left out scores above any of them. */
  lemma TopKIsBest(sorted: seq<Scored>, k: nat)
    requires SortedDesc(sorted)
    ensures var kept := TopK(sorted, k);
      && multiset(kept) <= multiset(sorted)
      && forall x: Scored :: x in multiset(sorted) - multiset(kept) ==>
           forall i :: 0 <= i < |kept| ==> x.score <= kept[i].score
  {
    var kept := TopK(sorted, k);
    var m := |kept|;
    var rest := sorted[m..];
    assert sorted == kept + rest;
    assert multiset(sorted) - multiset(kept) == multiset(rest);
    forall x: Scored | x in multiset(rest)
      ensures forall i :: 0 <= i < m ==> x.score <= kept[i].score
    {
      var j :| 0 <= j < |rest| && rest[j] == x;
      assert x == sorted[m + j];
    }
  }

  /** A permutation of the scored hits only holds documents from the hits. */
  lemma KeptFromHits(scored: seq<Scored>, sorted: seq<Scored>, hits: seq<SearchHit>)
    requires |scored| == |hits| && forall i :: 0 <= i < |scored| ==> scored[i].doc == hits[i].doc
    requires multiset(sorted) == multiset(scored)
    ensures forall i :: 0 <= i < |sorted| ==> FromHits(sorted[i].doc, hits)
  {
    forall i | 0 <= i < |sorted| ensures FromHits(sorted[i].doc, hits) {
      assert sorted[i] in multiset(scored);
      var w :| 0 <= w < |scored| && scored[w] == sorted[i];
      assert 0 <= w < |hits| && hits[w].doc == sorted[i].doc;
    }
  }

  /** The relevances of the kept results: in [0, 1] and descending; the
      last is exactly 0; the first is exactly 1 unless all kept scores are
      equal, in which case every relevance is 0; otherwise each relevance is
      the min-max position of its score. */
  predicate Ranked(r: seq<Recommendation>, kept: seq<Scored>)
  {
    && (forall i :: 0 <= i < |r| ==> 0.0 <= r[i].relevanceScore <= 1.0)
    && (forall i, j :: 0 <= i < j < |r| ==> r[i].relevanceScore >= r[j].relevanceScore)
    && (|r| > 0 ==> r[|r| - 1].relevanceScore == 0.0)
    && (|r| > 0 ==> (r[0].relevanceScore == 1.0 <==> !AllEqual(kept)))
    && (AllEqual(kept) ==> forall i :: 0 <= i < |r| ==> r[i].relevanceScore == 0.0)
    && MinMax(r, kept)
  }

  /** `r` describes the kept results one by one, in order. */
  predicate Describes(r: seq<Recommendation>, kept: seq<Scored>)
  {
    |r| == |kept| && forall i :: 0 <= i < |r| ==> r[i].description == kept[i].doc.pageContent
  }

  /** Normalising a descending list gives descending relevance from 1 (or
      all 0 when the scores are equal) down to exactly 0. */
  lemma NormaliseSorted(kept: seq<Scored>)
    requires SortedDesc(kept)
    ensures Ranked(Normalise(kept), kept)
    ensures Describes(Normalise(kept), kept)
  {
    if |kept| > 0 {
      assert IsBottom(kept, |kept| - 1);
      assert IsTop(kept, 0);
    }
  }

  /** Score, sort, keep the top `k`, normalise. */
  function Recommend(hits: seq<SearchHit>, tolerance: string, k: nat): (r: seq<Recommendation>)
    requires ValidHits(hits)
    ensures |r| == if k < |hits| then k else |hits|
    ensures Describes(r, Kept(hits, tolerance, k))
    ensures forall i :: 0 <= i < |r| ==> DescribesHit(r[i].description, hits)
    ensures Ranked(r, Kept(hits, tolerance, k))
  {
    var kept := Kept(hits, tolerance, k);
    var r := Normalise(kept);
    KeptDocsFromHits(hits, tolerance, k);
    NormaliseSorted(kept);
    NormaliseFromHits(kept, hits);
    r
  }

  /** The number of recommendations the endpoint returns. */
  const TopCount: nat := 2

  /** `investment_recommendations` after the search: the ranking with K = 2. */
  function InvestmentRecommendations(hits: seq<SearchHit>, tolerance: string): (r: seq<Recommendation>)
    requires ValidHits(hits)
    ensures |hits| >= 2 ==> |r| == 2
    ensures |hits| < 2 ==> |r| == |hits|
    ensures Describes(r, Kept(hits, tolerance, TopCount))
    ensures forall i :: 0 <= i < |r| ==> DescribesHit(r[i].description, hits)
    ensures Ranked(r, Kept(hits, tolerance, TopCount))
  {
    Recommend(hits, tolerance, TopCount)
  }

  /** Sorting two results puts the strictly higher score first and keeps
      the input order otherwise. */
  lemma SortTwo(x: Scored, y: Scored)
    ensures x.score >= y.score ==> SortDesc([x, y]) == [x, y]
    ensures x.score < y.score ==> SortDesc([x, y]) == [y, x]
  {
    assert [x, y][1..] == [y] && [y][1..] == [];
    assert SortDesc([y]) == Insert(y, []) == [y];
  }

  /** Two results with different scores normalise to relevance 1 and 0. */
  lemma NormaliseTwo(x: Scored, y: Scored)
    requires x.score > y.score
    ensures Normalise([x, y]) == [Recommendation(x.doc.pageContent, 1.0), Recommendation(y.doc.pageContent, 0.0)]
  {
    var kept := [x, y];
    assert IsTop(kept, 0) && IsBottom(kept, 1) && !AllEqual(kept);
    var r := Normalise(kept);
    assert r[0] == Recommendation(x.doc.pageContent, 1.0);
    assert r[1] == Recommendation(y.doc.pageContent, 0.0);
  }

  /** A score between the extremes gets its min-max position: scores 3, 2.9
      and 1 normalise to 1, 0.95 and 0. */
  lemma NormaliseThree(x: Scored, y: Scored, z: Scored)
    requires x.score == 3.0 && y.score == 2.9 && z.score == 1.0
    ensures var r := Normalise([x, y, z]);
      |r| == 3 && r[0].relevanceScore == 1.0 && r[1].relevanceScore == 0.95 && r[2].relevanceScore == 0.0
  {
    var kept := [x, y, z];
    assert !AllEqual(kept) by { assert kept[0].score != kept[2].score; }
    assert IsTop(kept, 0) && IsBottom(kept, 2);
    var r := Normalise(kept);
    assert MaxScore(kept) == 3.0 && MinScore(kept) == 1.0;
    assert r[1].relevanceScore * 2.0 == 1.9;
  }

  /** An Aggressive user shown a Conservative and an Aggressive document at
      the same distance gets the Aggressive one first with relevance 1 and
      the Conservative one second with relevance 0, although the search
      listed the Conservative one first. */
  lemma AggressiveUserRanksAggressiveFirst(a: Document, c: Document, d: real)
    requires a.risk == Some("Aggressive") && c.risk == Some("Conservative")
    requires d >= 0.0
    ensures InvestmentRecommendations([SearchHit(c, d), SearchHit(a, d)], "Aggressive")
         == [Recommendation(a.pageContent, 1.0), Recommendation(c.pageContent, 0.0)]
  {
    RiskPreference(a, c, d);
    var hits := [SearchHit(c, d), SearchHit(a, d)];
    var sa, sc := ScoreHit(SearchHit(a, d), "Aggressive"), ScoreHit(SearchHit(c, d), "Aggressive");
    assert ScoreAll(hits, "Aggressive") == [sc, sa];
    SortTwo(sc, sa);
    assert Kept(hits, "Aggressive", TopCount) == [sa, sc];
    NormaliseTwo(sa, sc);
  }

  /** A Conservative user in the same situation gets the Conservative
      document first, although the search listed the Aggressive one first. */
  lemma ConservativeUserRanksConservativeFirst(a: Document, c: Document, d: real)
    requires a.risk == Some("Aggressive") && c.risk == Some("Conservative")
    requires d >= 0.0
    ensures InvestmentRecommendations([SearchHit(a, d), SearchHit(c, d)], "Conservative")
         == [Recommendation(c.pageContent, 1.0), Recommendation(a.pageContent, 0.0)]
  {
    RiskPreference(a, c, d);
    var hits := [SearchHit(a, d), SearchHit(c, d)];
    var sa, sc := ScoreHit(SearchHit(a, d), "Conservative"), ScoreHit(SearchHit(c, d), "Conservative");
    assert ScoreAll(hits, "Conservative") == [sa, sc];
    SortTwo(sa, sc);
    assert Kept(hits, "Conservative", TopCount) == [sc, sa];
    NormaliseTwo(sc, sa);
  }

  // ---------------------------------------------------------------------------
  // The fallback corpus
  // ---------------------------------------------------------------------------

  /** The three documents `load_market_data` falls back to when the market
      data API is rate-limited, errors, returns nothing or fails. */
  const MockMarketDocuments: seq<Document> := [
    Document("Tech sector ETF (TQQQ) - High risk, high reward, suitable for aggressive investors, 15% growth last year.", Some("Aggressive")),
    Document("Bond fund (BND) - Low risk, stable returns, ideal for conservative investors, 3% growth last year.", Some("Conservative")),
    Document("Real estate investment trust (REIT) - Moderate risk, good for balanced portfolios, 8% growth last year.", Some("Moderate"))
  ]

  /** Recommendations over hits drawn from a corpus describe documents of that corpus. */
  lemma RecommendationsFromCorpus(hits: seq<SearchHit>, tolerance: string, corpus: seq<Document>)
    requires ValidHits(hits)
    requires forall i :: 0 <= i < |hits| ==> hits[i].doc in corpus
    ensures forall rec :: rec in InvestmentRecommendations(hits, tolerance)
              ==> exists m :: m in corpus && rec.description == m.pageContent
  {
    var r := InvestmentRecommendations(hits, tolerance);
    forall rec | rec in r ensures exists m :: m in corpus && rec.description == m.pageContent {
      var i :| 0 <= i < |r| && r[i] == rec;
      assert DescribesHit(r[i].description, hits);
      var j :| 0 <= j < |hits| && hits[j].doc.pageContent == rec.description;
      var m := hits[j].doc;
      assert m in corpus && rec.description == m.pageContent;
    }
  }

  /** A search over the fallback corpus (`k=3` returns all three documents)
      still yields exactly two recommendations, each describing a fallback document. */
  lemma MockCorpusYieldsTwo(hits: seq<SearchHit>, tolerance: string)
    requires ValidHits(hits) && |hits| == 3
    requires forall i :: 0 <= i < |hits| ==> hits[i].doc in MockMarketDocuments
    ensures |InvestmentRecommendations(hits, tolerance)| == 2
    ensures forall rec :: rec in InvestmentRecommendations(hits, tolerance)
              ==> exists m :: m in MockMarketDocuments && rec.description == m.pageContent
  {
    RecommendationsFromCorpus(hits, tolerance, MockMarketDocuments);
  }
}
