/** `StockSentimentAnalyzer`: the one-shot trend prediction that averages the
    VADER compound score of each post body and applies the fixed thresholds. */
module StockSentiment {
  import opened Common

  /** A row of the posts frame. */
  datatype Post = Post(title: string, text: string, score: int, createdUtc: int)

  /** `analyze_sentiment`: the compound score of the text, nothing added. */
  function AnalyzeSentiment(compound: string -> Polarity, text: string): (r: real)
    ensures -1.0 <= r <= 1.0
    ensures r == compound(text)
  {
    compound(text)
  }

  /** The `sentiment` column: one score per post, taken on the body only. */
  function Scores(compound: string -> Polarity, posts: seq<Post>): (r: seq<real>)
    ensures |r| == |posts|
    ensures forall i :: 0 <= i < |posts| ==> r[i] == AnalyzeSentiment(compound, posts[i].text)
  {
    seq(|posts|, i requires 0 <= i < |posts| => AnalyzeSentiment(compound, posts[i].text))
  }

  const BullishText := "Bullish (Positive sentiment detected)"
  const BearishText := "Bearish (Negative sentiment detected)"
  const NeutralText := "Neutral (Mixed sentiment)"

  function LabelText(l: Label): string
  {
    match l
    case Bullish => BullishText
    case Bearish => BearishText
    case Neutral => NeutralText
  }

  /** `predict_trend` on the fetched posts. The price history it also fetches
      is never consulted, so it is no input here. With no posts the source
      fails before labelling, hence the precondition. */
  function PredictTrend(compound: string -> Polarity, posts: seq<Post>): (r: string)
    requires |posts| > 0
    ensures r == BullishText <==> Mean(Scores(compound, posts)) > 0.2
    ensures r == BearishText <==> Mean(Scores(compound, posts)) < -0.2
    ensures r == NeutralText <==> -0.2 <= Mean(Scores(compound, posts)) <= 0.2
  {
    LabelText(Classify(Mean(Scores(compound, posts))))
  }

  /** The average the label is decided on lies in [-1, 1]. */
  lemma AverageBounds(compound: string -> Polarity, posts: seq<Post>)
    requires |posts| > 0
    ensures -1.0 <= Mean(Scores(compound, posts)) <= 1.0
  {
    MeanBounds(Scores(compound, posts), -1.0, 1.0);
  }

  /** Titles play no part: posts with the same bodies get the same label. */
  lemma TitlesIgnored(compound: string -> Polarity, a: seq<Post>, b: seq<Post>)
    requires |a| == |b| > 0
    requires forall i :: 0 <= i < |a| ==> a[i].text == b[i].text
    ensures PredictTrend(compound, a) == PredictTrend(compound, b)
  {
    assert Scores(compound, a) == Scores(compound, b);
  }

  /** Removing one post removes exactly its score from the multiset of scores. */
  lemma ScoresRemove(compound: string -> Polarity, b: seq<Post>, j: nat)
    requires j < |b|
    ensures Scores(compound, b[..j] + b[j + 1..]) == Scores(compound, b)[..j] + Scores(compound, b)[j + 1..]
  {
  }

  lemma {:induction false} ScoresPermutation(compound: string -> Polarity, a: seq<Post>, b: seq<Post>)
    requires multiset(a) == multiset(b)
    ensures multiset(Scores(compound, a)) == multiset(Scores(compound, b))
    decreases |a|
  {
    if a == [] {
      assert |b| == |multiset(b)| == 0;
    } else {
      var j := RemoveFirst(a, b);
      ScoresPermutation(compound, a[1..], b[..j] + b[j + 1..]);
      var sb := Scores(compound, b);
      ScoresRemove(compound, b, j);
      MultisetRemove(sb, j);
      assert Scores(compound, a) == [sb[j]] + Scores(compound, a[1..]);
      ConsMultiset(sb[j], Scores(compound, a[1..]), sb, j);
    }
  }

  /** The head of `a` sits somewhere in its permutation `b`; taking it out of
      both leaves permutations of each other. */
  lemma RemoveFirst(a: seq<Post>, b: seq<Post>) returns (j: nat)
    requires |a| > 0 && multiset(a) == multiset(b)
    ensures j < |b| && b[j] == a[0]
    ensures multiset(a[1..]) == multiset(b[..j] + b[j + 1..])
  {
    assert a[0] in multiset(b);
    j :| 0 <= j < |b| && b[j] == a[0];
    MultisetRemove(b, j);
    assert a == [a[0]] + a[1..];
  }

  lemma ConsMultiset<T>(x: T, s: seq<T>, t: seq<T>, j: nat)
    requires j < |t| && t[j] == x && multiset(s) == multiset(t) - multiset{x}
    ensures multiset([x] + s) == multiset(t)
  {
    assert x in multiset(t);
  }

  /** The posts' order does not matter: a reordering gives the same label. */
  lemma OrderIgnored(compound: string -> Polarity, a: seq<Post>, b: seq<Post>)
    requires |a| > 0 && multiset(a) == multiset(b)
    ensures |b| > 0 && PredictTrend(compound, a) == PredictTrend(compound, b)
  {
    ScoresPermutation(compound, a, b);
    MeanPermutation(Scores(compound, a), Scores(compound, b));
  }
}
