/** The quality-weighted scoring and trend engine of `EnhancedSentimentAnalyzer`:
    text preprocessing, the per-post quality score and its filter, the
    composite sentiment formula, and the daily / rolling trend analysis. */
module SentimentAnalyzer {
  import opened Common
  import opened Text

  /** The analyzer's read-only resources: the VADER compound scorer and the
      English stopword set. */
  datatype Analyzer = Analyzer(sia: string -> Polarity, stopWords: set<string>)

  /** `quality_threshold`: a post is kept when its quality exceeds it. */
  const QualityThreshold: real := 0.5

  /** One row of the posts frame. `text` may hold a non-string (a NaN);
      `day` is the calendar day of `created_utc`; `quality` is the
      `quality_score` column, absent until it is written. */
  datatype Row = Row(title: string, text: Cell, score: int, day: int,
                     sentiment: real, quality: Option<real>)

  /** The caller's posts frame, which two operations change in place: they add
      the `quality_score` column and replace the index by the post date. */
  class PostFrame {
    var rows: seq<Row>
    var dateIndexed: bool

    constructor (rows: seq<Row>)
      ensures this.rows == rows && !dateIndexed
    {
      this.rows := rows;
      dateIndexed := false;
    }
  }

  // ---------------------------------------------------------------------
  // preprocess_text

  /** What survives the regex `[^a-zA-Z\s]` removal. */
  predicate KeptByLetterFilter(c: char)
  {
    IsAsciiLetter(c) || IsSpace(c)
  }

  function LettersAndSpace(s: string): (r: string)
    ensures forall i :: 0 <= i < |r| ==> KeptByLetterFilter(r[i]) && r[i] in s
    ensures (forall i :: 0 <= i < |s| ==> KeptByLetterFilter(s[i])) ==> r == s
    decreases |s|
  {
    if s == [] then []
    else
      var rest := LettersAndSpace(s[1..]);
      assert forall i :: 0 <= i < |rest| ==> rest[i] in s;
      if KeptByLetterFilter(s[0]) then [s[0]] + rest else rest
  }

  function RemoveStopwords(ts: seq<string>, stop: set<string>): (r: seq<string>)
    ensures forall k :: 0 <= k < |r| ==> r[k] !in stop && r[k] in ts
    ensures forall k :: 0 <= k < |ts| && ts[k] !in stop ==> ts[k] in r
    decreases |ts|
  {
    if ts == [] then []
    else
      var rest := RemoveStopwords(ts[1..], stop);
      assert forall k :: 1 <= k < |ts| ==> ts[k] == ts[1..][k - 1];
      if ts[0] in stop then rest else [ts[0]] + rest
  }

  /** The tokens the tokenizer sees: whitespace tokens of the lower-cased,
      letters-only text. */
  function CleanTokens(s: string): seq<string>
  {
    Tokens(LettersAndSpace(Lower(s)))
  }

  /** `preprocess_text`: "" for a non-string; otherwise the non-stopword
      tokens, made of lower-case ASCII letters, joined by single spaces. */
  function PreprocessText(a: Analyzer, text: Cell): (r: string)
    ensures text.NonStr? ==> r == ""
    ensures forall i :: 0 <= i < |r| ==> IsAsciiLower(r[i]) || r[i] == ' '
    ensures SingleSpaced(r)
  {
    match text
    case NonStr => ""
    case Str(s) =>
      var ts := RemoveStopwords(CleanTokens(s), a.stopWords);
      CleanTokensAreLower(s);
      JoinSingleSpaced(ts);
      Join(ts)
  }

  /** Every token of the cleaned text is a non-empty run of lower-case letters. */
  lemma CleanTokensAreLower(s: string)
    ensures forall k :: 0 <= k < |CleanTokens(s)| ==> IsToken(CleanTokens(s)[k])
    ensures forall k, i :: 0 <= k < |CleanTokens(s)| && 0 <= i < |CleanTokens(s)[k]| ==>
              IsAsciiLower(CleanTokens(s)[k][i])
  {
    var low := Lower(s);
    var kept := LettersAndSpace(low);
    var ts := Tokens(kept);
    forall k, i | 0 <= k < |ts| && 0 <= i < |ts[k]|
      ensures IsAsciiLower(ts[k][i])
    {
      var c := ts[k][i];
      assert c in kept && !IsSpace(c);
      assert KeptByLetterFilter(c) && c in low;
      var j :| 0 <= j < |low| && low[j] == c;
      assert c == ToLower(s[j]);
    }
  }

  /** The output's tokens are exactly, and in order, the cleaned tokens that
      are not stopwords; in particular no stopword survives. */
  lemma PreprocessTokens(a: Analyzer, s: string)
    ensures Tokens(PreprocessText(a, Str(s))) == RemoveStopwords(CleanTokens(s), a.stopWords)
    ensures forall t :: t in Tokens(PreprocessText(a, Str(s))) ==> t !in a.stopWords
  {
    var ts := RemoveStopwords(CleanTokens(s), a.stopWords);
    CleanTokensAreLower(s);
    forall k | 0 <= k < |ts| ensures IsToken(ts[k]) {
      assert ts[k] in CleanTokens(s);
    }
    TokensOfJoin(ts);
  }

  // ---------------------------------------------------------------------
  // calculate_quality_score, filter_low_quality_posts

  function Abs(x: real): real { if x < 0.0 then -x else x }

  /** `calculate_quality_score`: 0.3 for a text longer than 100 characters,
      0.3 for a score above 10, and 0.4 times the magnitude of the compound
      score of the text (the title is not read). A non-string text makes
      `len` raise a TypeError: `None`. */
  function QualityScore(a: Analyzer, row: Row): (q: Option<real>)
    ensures q.None? <==> row.text.NonStr?
    ensures q.Some? ==> 0.0 <= q.value <= 1.0
    ensures q.Some? && |row.text.value| <= 100 && row.score <= 10 ==> q.value <= 0.4
    ensures q.Some? && |row.text.value| > 100 && row.score > 10 ==> q.value >= 0.6
    ensures q.Some? ==>
              q.value - 0.4 * Abs(a.sia(row.text.value)) ==
              (if |row.text.value| > 100 then 0.3 else 0.0) + (if row.score > 10 then 0.3 else 0.0)
  {
    match row.text
    case NonStr => None
    case Str(text) =>
      var score := 0.0;
      var score := if |text| > 100 then score + 0.3 else score;
      var score := if row.score > 10 then score + 0.3 else score;
      Some(score + Abs(a.sia(text)) * 0.4)
  }

  lemma QualityExample(a: Analyzer, row: Row, text: string)
    requires row.text == Str(text) && |text| == 150 && row.score == 20 && a.sia(text) == 0.5
    ensures QualityScore(a, row) == Some(0.8)
    ensures QualityScore(a, row).value > QualityThreshold
  {
  }

  /** A post with neither bonus never passes the filter; one with both always does. */
  lemma QualityBonusesDecide(a: Analyzer, row: Row, text: string)
    requires row.text == Str(text)
    ensures |text| <= 100 && row.score <= 10 ==> !(QualityScore(a, row).value > QualityThreshold)
    ensures |text| > 100 && row.score > 10 ==> QualityScore(a, row).value > QualityThreshold
  {
  }

  /** Every text of the frame is a string, so the row-wise `apply` does not raise. */
  predicate AllTexts(rows: seq<Row>)
  {
    forall i :: 0 <= i < |rows| ==> rows[i].text.Str?
  }

  /** The frame after the `quality_score` column is written into every row. */
  function WithQuality(a: Analyzer, rows: seq<Row>): (r: seq<Row>)
    ensures |r| == |rows|
    ensures forall i :: 0 <= i < |rows| ==> r[i] == rows[i].(quality := QualityScore(a, rows[i]))
    ensures AllTexts(rows) ==> forall i :: 0 <= i < |rows| ==> r[i].quality.Some?
  {
    seq(|rows|, i requires 0 <= i < |rows| => rows[i].(quality := QualityScore(a, rows[i])))
  }

  predicate PassesQuality(row: Row)
  {
    row.quality.Some? && row.quality.value > QualityThreshold
  }

  /** The boolean-mask selection `posts_df[posts_df['quality_score'] > 0.5]`. */
  function SelectHighQuality(rows: seq<Row>): seq<Row>
    decreases |rows|
  {
    if rows == [] then []
    else (if PassesQuality(rows[0]) then [rows[0]] else []) + SelectHighQuality(rows[1..])
  }

  /** `idx` lists, in increasing order, exactly the positions of `rows` that
      the selection keeps, and the selection is those rows in that order. */
  predicate SelectedPositions(rows: seq<Row>, idx: seq<nat>)
  {
    && |idx| == |SelectHighQuality(rows)|
    && (forall k :: 0 <= k < |idx| ==> idx[k] < |rows| && SelectHighQuality(rows)[k] == rows[idx[k]])
    && (forall k, l :: 0 <= k < l < |idx| ==> idx[k] < idx[l])
    && (forall i :: 0 <= i < |rows| ==> (PassesQuality(rows[i]) <==> i in idx))
  }

  /** The selection keeps exactly the passing rows, in their original order. */
  lemma {:induction false} SelectHighQualityPositions(rows: seq<Row>) returns (idx: seq<nat>)
    ensures SelectedPositions(rows, idx)
    decreases |rows|
  {
    if rows == [] {
      idx := [];
    } else {
      var tail := SelectHighQualityPositions(rows[1..]);
      idx := ConsPositions(rows, tail);
    }
  }

  /** The positions kept from a frame with one more row in front: the tail's
      positions shifted by one, preceded by 0 when the first row passes. */
  function ConsIndex(first: bool, tail: seq<nat>): (idx: seq<nat>)
  {
    (if first then [0] else []) + seq(|tail|, k requires 0 <= k < |tail| => tail[k] + 1)
  }

  lemma ConsPositions(rows: seq<Row>, tail: seq<nat>) returns (idx: seq<nat>)
    requires rows != [] && SelectedPositions(rows[1..], tail)
    ensures SelectedPositions(rows, idx)
  {
    idx := ConsIndex(PassesQuality(rows[0]), tail);
    ConsPicks(rows, tail);
    ConsIncreasing(PassesQuality(rows[0]), tail);
    ConsMembers(rows, tail);
  }

  lemma ConsPicks(rows: seq<Row>, tail: seq<nat>)
    requires rows != [] && |tail| == |SelectHighQuality(rows[1..])|
    requires forall k :: 0 <= k < |tail| ==>
               tail[k] < |rows[1..]| && SelectHighQuality(rows[1..])[k] == rows[1..][tail[k]]
    ensures var idx := ConsIndex(PassesQuality(rows[0]), tail);
      |idx| == |SelectHighQuality(rows)| &&
      forall k :: 0 <= k < |idx| ==> idx[k] < |rows| && SelectHighQuality(rows)[k] == rows[idx[k]]
  {
    var first := PassesQuality(rows[0]);
    var selTail := SelectHighQuality(rows[1..]);
    assert SelectHighQuality(rows) == (if first then [rows[0]] else []) + selTail;
    ShiftedPicks(rows, first, selTail, tail);
  }

  /** Picking positions of `rows[1..]` out of `rows`, after an optional pick of `rows[0]`. */
  lemma ShiftedPicks(rows: seq<Row>, first: bool, picked: seq<Row>, tail: seq<nat>)
    requires rows != [] && |tail| == |picked|
    requires forall k :: 0 <= k < |tail| ==> tail[k] < |rows[1..]| && picked[k] == rows[1..][tail[k]]
    ensures var idx := ConsIndex(first, tail);
      var all := (if first then [rows[0]] else []) + picked;
      |idx| == |all| &&
      forall k :: 0 <= k < |idx| ==> idx[k] < |rows| && all[k] == rows[idx[k]]
  {
    var idx := ConsIndex(first, tail);
    var all := (if first then [rows[0]] else []) + picked;
    var h := if first then 1 else 0;
    forall k | 0 <= k < |idx|
      ensures idx[k] < |rows| && all[k] == rows[idx[k]]
    {
      if k >= h {
        assert idx[k] == tail[k - h] + 1;
        assert all[k] == picked[k - h];
        assert rows[1..][tail[k - h]] == rows[tail[k - h] + 1];
      }
    }
  }

  lemma ConsIncreasing(first: bool, tail: seq<nat>)
    requires forall k, l :: 0 <= k < l < |tail| ==> tail[k] < tail[l]
    ensures var idx := ConsIndex(first, tail);
      forall k, l :: 0 <= k < l < |idx| ==> idx[k] < idx[l]
  {
    var idx := ConsIndex(first, tail);
    var h := if first then 1 else 0;
    forall k, l | 0 <= k < l < |idx| ensures idx[k] < idx[l] {
      assert idx[l] == tail[l - h] + 1;
      if k >= h {
        assert idx[k] == tail[k - h] + 1;
      }
    }
  }

  lemma ConsMembers(rows: seq<Row>, tail: seq<nat>)
    requires rows != []
    requires forall i :: 0 <= i < |rows| - 1 ==> (PassesQuality(rows[1..][i]) <==> i in tail)
    ensures var idx := ConsIndex(PassesQuality(rows[0]), tail);
      forall i :: 0 <= i < |rows| ==> (PassesQuality(rows[i]) <==> i in idx)
  {
    var shifted := seq(|tail|, k requires 0 <= k < |tail| => tail[k] + 1);
    var idx := ConsIndex(PassesQuality(rows[0]), tail);
    assert idx == (if PassesQuality(rows[0]) then [0] else []) + shifted;
    forall i | 1 <= i < |rows| ensures PassesQuality(rows[i]) <==> i in shifted {
      assert rows[i] == rows[1..][i - 1];
      if i - 1 in tail {
        var k :| 0 <= k < |tail| && tail[k] == i - 1;
        assert shifted[k] == i;
      }
      if i in shifted {
        var k :| 0 <= k < |shifted| && shifted[k] == i;
        assert tail[k] == i - 1;
      }
    }
    assert 0 !in shifted;
  }

  /** `filter_low_quality_posts`: writes `quality_score` into every row of the
      caller's frame and returns the rows whose score exceeds the threshold.
      Two cases raise before the column is stored, leaving the frame as it
      was (`None` here): a row whose text is not a string (the TypeError of
      `calculate_quality_score`), and a frame with no rows, where
      `apply(..., axis=1)` yields an empty frame of all the columns that
      cannot be stored into the one new column (a ValueError). */
  method FilterLowQualityPosts(a: Analyzer, frame: PostFrame) returns (kept: Option<seq<Row>>)
    modifies frame
    ensures kept.None? <==> old(frame.rows) == [] || !AllTexts(old(frame.rows))
    ensures kept.None? ==> frame.rows == old(frame.rows)
    ensures kept.Some? ==> frame.rows == WithQuality(a, old(frame.rows))
    ensures kept.Some? ==> kept == Some(SelectHighQuality(frame.rows))
    ensures frame.dateIndexed == old(frame.dateIndexed)
  {
    if frame.rows == [] || !AllTexts(frame.rows) {
      return None;
    }
    frame.rows := WithQuality(a, frame.rows);
    kept := Some(SelectHighQuality(frame.rows));
  }

  /** A filtered row's quality is the score of its own string text and score,
      above the threshold. */
  lemma FilteredRowsPass(a: Analyzer, rows: seq<Row>)
    ensures forall r :: r in SelectHighQuality(WithQuality(a, rows)) ==>
              r.text.Str? && r.quality == QualityScore(a, r) && QualityScore(a, r).value > QualityThreshold
  {
    var w := WithQuality(a, rows);
    var idx := SelectHighQualityPositions(w);
    assert SelectedPositions(w, idx);
    forall r | r in SelectHighQuality(w)
      ensures r.text.Str? && r.quality == QualityScore(a, r) && QualityScore(a, r).value > QualityThreshold
    {
      var k :| 0 <= k < |SelectHighQuality(w)| && SelectHighQuality(w)[k] == r;
      assert r == w[idx[k]];
      assert PassesQuality(w[idx[k]]) by { assert idx[k] in idx; }
    }
  }

  // ---------------------------------------------------------------------
  // analyze_sentiment (composite)

  /** Presence flags: only whether a character occurs matters. */
  function Flag(present: bool): real { if present then 1.0 else 0.0 }

  /** `analyze_sentiment`: 0.7 of the compound score, plus 0.1 per thousand
      characters, minus 0.1 if a '?' occurs, plus 0.1 if a '!' occurs. The word
      count the source computes is never used. */
  function CompositeSentiment(a: Analyzer, text: string): (r: real)
    ensures -0.8 <= r - |text| as real / 10000.0 <= 0.8
    ensures ('?' in text <==> '!' in text) ==> -0.7 <= r - |text| as real / 10000.0 <= 0.7
  {
    a.sia(text) * 0.7 + (|text| as real / 1000.0) * 0.1
    + Flag('?' in text) * -0.1 + Flag('!' in text) * 0.1
  }

  /** The score is a function of the compound score, the length and the two
      presence flags alone: repeating '?' or '!' changes nothing. */
  lemma CompositeFeatures(a: Analyzer, t1: string, t2: string)
    requires a.sia(t1) == a.sia(t2) && |t1| == |t2|
    requires ('?' in t1 <==> '?' in t2) && ('!' in t1 <==> '!' in t2)
    ensures CompositeSentiment(a, t1) == CompositeSentiment(a, t2)
  {
  }

  /** The length term is not normalised: a long enough text scores above 1
      whatever its compound score. */
  lemma {:induction false} CompositeUnbounded(a: Analyzer)
    ensures exists t :: CompositeSentiment(a, t) > 1.0
  {
    var t := seq(20000, i => 'a');
    assert '?' !in t && '!' !in t;
    assert CompositeSentiment(a, t) >= -0.7 + 2.0;
  }

  // ---------------------------------------------------------------------
  // analyze_trend

  /** A (date, value) pair of a daily pandas series; `None` is NaN. */
  datatype Entry = Entry(day: int, value: Option<real>)

  datatype TrendResult = TrendResult(trend: Label, daily: seq<Entry>,
                                     movingAvg: seq<Entry>, current: Option<real>)

  /** The earliest post day. */
  function MinDay(rows: seq<Row>): int
    requires |rows| > 0
    decreases |rows|
  {
    if |rows| == 1 then rows[0].day
    else
      var m := MinDay(rows[1..]);
      if rows[0].day <= m then rows[0].day else m
  }

  /** The latest post day. */
  function MaxDay(rows: seq<Row>): int
    requires |rows| > 0
    decreases |rows|
  {
    if |rows| == 1 then rows[0].day
    else
      var m := MaxDay(rows[1..]);
      if rows[0].day >= m then rows[0].day else m
  }

  /** `MinDay` is the day of some post, and no post is earlier. */
  lemma {:induction false} MinDayIsMin(rows: seq<Row>)
    requires |rows| > 0
    ensures exists i :: 0 <= i < |rows| && rows[i].day == MinDay(rows)
    ensures forall i :: 0 <= i < |rows| ==> MinDay(rows) <= rows[i].day
    decreases |rows|
  {
    if |rows| == 1 {
      assert rows[0].day == MinDay(rows);
    } else {
      MinDayIsMin(rows[1..]);
      assert forall i :: 1 <= i < |rows| ==> rows[i] == rows[1..][i - 1];
      if rows[0].day > MinDay(rows[1..]) {
        var i :| 0 <= i < |rows[1..]| && rows[1..][i].day == MinDay(rows[1..]);
        assert rows[i + 1].day == MinDay(rows);
      } else {
        assert rows[0].day == MinDay(rows);
      }
    }
  }

  /** `MaxDay` is the day of some post, and no post is later. */
  lemma {:induction false} MaxDayIsMax(rows: seq<Row>)
    requires |rows| > 0
    ensures exists i :: 0 <= i < |rows| && rows[i].day == MaxDay(rows)
    ensures forall i :: 0 <= i < |rows| ==> rows[i].day <= MaxDay(rows)
    decreases |rows|
  {
    if |rows| == 1 {
      assert rows[0].day == MaxDay(rows);
    } else {
      MaxDayIsMax(rows[1..]);
      assert forall i :: 1 <= i < |rows| ==> rows[i] == rows[1..][i - 1];
      if rows[0].day < MaxDay(rows[1..]) {
        var i :| 0 <= i < |rows[1..]| && rows[1..][i].day == MaxDay(rows[1..]);
        assert rows[i + 1].day == MaxDay(rows);
      } else {
        assert rows[0].day == MaxDay(rows);
      }
    }
  }

  lemma MinDayNotAfterMaxDay(rows: seq<Row>)
    requires |rows| > 0
    ensures MinDay(rows) <= MaxDay(rows)
  {
    MinDayIsMin(rows);
    MaxDayIsMax(rows);
  }

  /** The sentiments of the posts dated `d`, in frame order. */
  function DaySentiments(rows: seq<Row>, d: int): seq<real>
    decreases |rows|
  {
    if rows == [] then []
    else (if rows[0].day == d then [rows[0].sentiment] else []) + DaySentiments(rows[1..], d)
  }

  /** One bin of `resample('D').mean()`: the mean of that day's sentiments,
      NaN when no post falls on the day. */
  function DailyMean(rows: seq<Row>, d: int): Option<real>
  {
    var s := DaySentiments(rows, d);
    if |s| == 0 then None else Some(Mean(s))
  }

  /** `resample('D').mean()`: one entry per calendar day from the earliest to
      the latest post. */
  function DailySeries(rows: seq<Row>): (r: seq<Entry>)
    requires |rows| > 0
    ensures |r| == MaxDay(rows) - MinDay(rows) + 1 && |r| > 0
  {
    MinDayNotAfterMaxDay(rows);
    DaySpan(rows, MinDay(rows), MaxDay(rows) - MinDay(rows) + 1)
  }

  /** The daily entries of the `n` consecutive days starting at `lo`. */
  function DaySpan(rows: seq<Row>, lo: int, n: nat): (r: seq<Entry>)
    ensures |r| == n
  {
    seq(n, i requires 0 <= i => Entry(lo + i, DailyMean(rows, lo + i)))
  }

  predicate AllPresent(w: seq<Entry>)
  {
    forall j :: 0 <= j < |w| ==> w[j].value.Some?
  }

  function Values(w: seq<Entry>): (r: seq<real>)
    requires AllPresent(w)
    ensures |r| == |w| && forall j :: 0 <= j < |w| ==> r[j] == w[j].value.value
  {
    seq(|w|, j requires 0 <= j < |w| => w[j].value.value)
  }

  /** `rolling(window=w).mean()` at position `i`: with the default
      `min_periods = w`, defined only when `w` entries end at `i` and none of
      them is NaN. A window of 0 holds no observation, so its mean is NaN. */
  function WindowMean(daily: seq<Entry>, i: nat, w: nat): Option<real>
    requires i < |daily|
  {
    if w == 0 || i + 1 < w then None
    else
      var window := daily[i + 1 - w..i + 1];
      if AllPresent(window) then Some(Mean(Values(window))) else None
  }

  function MovingAverage(daily: seq<Entry>, w: nat): (r: seq<Entry>)
    ensures |r| == |daily|
    ensures forall i :: 0 <= i < |daily| ==> r[i].day == daily[i].day
  {
    seq(|daily|, i requires 0 <= i < |daily| => Entry(daily[i].day, WindowMean(daily, i, w)))
  }

  /** The trend decision on the last moving-average entry: a NaN is Neutral. */
  function TrendLabel(last: Option<real>): Label
  {
    match last
    case None => Neutral
    case Some(v) => Classify(v)
  }

  /** `analyze_trend` as a function of the frame's rows. */
  function Trend(rows: seq<Row>, w: nat): TrendResult
  {
    if |rows| == 0 then TrendResult(Neutral, [], [], Some(0.0))
    else
      var daily := DailySeries(rows);
      var ma := MovingAverage(daily, w);
      var last := ma[|ma| - 1].value;
      TrendResult(TrendLabel(last), daily, ma, last)
  }

  /** `analyze_trend`: on a non-empty frame it replaces the frame's index by
      the post dates (the caller sees this), then resamples, smooths and labels. */
  method AnalyzeTrend(frame: PostFrame, windowSize: nat) returns (r: TrendResult)
    modifies frame
    ensures r == Trend(old(frame.rows), windowSize)
    ensures frame.rows == old(frame.rows)
    ensures frame.dateIndexed == (old(frame.dateIndexed) || |frame.rows| > 0)
  {
    if |frame.rows| == 0 {
      return TrendResult(Neutral, [], [], Some(0.0));
    }
    frame.dateIndexed := true;
    var daily := DailySeries(frame.rows);
    var movingAvg := MovingAverage(daily, windowSize);
    var trend := Neutral;
    if |movingAvg| > 0 {
      var last := movingAvg[|movingAvg| - 1].value;
      if last.Some? && last.value > 0.2 {
        trend := Bullish;
      } else if last.Some? && last.value < -0.2 {
        trend := Bearish;
      }
    }
    var current := if |movingAvg| > 0 then movingAvg[|movingAvg| - 1].value else Some(0.0);
    r := TrendResult(trend, daily, movingAvg, current);
  }

  /** An empty frame is Neutral with empty series and current sentiment 0. */
  lemma TrendEmpty(w: nat)
    ensures Trend([], w) == TrendResult(Neutral, [], [], Some(0.0))
  {
  }

  /** A window of 0 leaves every moving-average entry NaN, so a non-empty
      frame is Neutral with a NaN current sentiment. */
  lemma TrendWindowZero(rows: seq<Row>)
    requires |rows| > 0
    ensures Trend(rows, 0).trend == Neutral && Trend(rows, 0).current == None
  {
  }

  lemma {:induction false} DaySentimentsEmpty(rows: seq<Row>, d: int)
    ensures |DaySentiments(rows, d)| > 0 <==> exists i :: 0 <= i < |rows| && rows[i].day == d
    decreases |rows|
  {
    if rows != [] {
      DaySentimentsEmpty(rows[1..], d);
      assert forall i :: 1 <= i < |rows| ==> rows[i] == rows[1..][i - 1];
      if |DaySentiments(rows[1..], d)| > 0 {
        var i :| 0 <= i < |rows[1..]| && rows[1..][i].day == d;
        assert rows[i + 1].day == d;
      }
    }
  }

  /** The values of `DaySentiments` are exactly the sentiments of the posts on
      that day. */
  lemma {:induction false} DaySentimentsMembers(rows: seq<Row>, d: int, x: real)
    ensures x in DaySentiments(rows, d) <==>
              exists i :: 0 <= i < |rows| && rows[i].day == d && rows[i].sentiment == x
    decreases |rows|
  {
    if rows != [] {
      DaySentimentsMembers(rows[1..], d, x);
      assert forall i :: 1 <= i < |rows| ==> rows[i] == rows[1..][i - 1];
      if x in DaySentiments(rows[1..], d) {
        var i :| 0 <= i < |rows[1..]| && rows[1..][i].day == d && rows[1..][i].sentiment == x;
        assert rows[i + 1].day == d && rows[i + 1].sentiment == x;
      }
    }
  }

  /** `e` is the daily-series entry for day `d`: it carries that day, it is
      present exactly when some post falls on `d`, and then it is the mean of
      exactly that day's sentiments. */
  predicate DescribesDay(rows: seq<Row>, d: int, e: Entry)
  {
    && e.day == d
    && (e.value.Some? <==> exists j :: 0 <= j < |rows| && rows[j].day == d)
    && (e.value.Some? ==> |DaySentiments(rows, d)| > 0 && e.value.value == Mean(DaySentiments(rows, d)))
  }

  /** The daily series runs from the first post's day to the last, one entry
      per calendar day, each describing its day. */
  lemma DailySeriesEntries(rows: seq<Row>)
    requires |rows| > 0
    ensures DailySeries(rows)[0].day == MinDay(rows)
    ensures DailySeries(rows)[|DailySeries(rows)| - 1].day == MaxDay(rows)
    ensures forall i :: 0 <= i < |DailySeries(rows)| ==>
              DescribesDay(rows, MinDay(rows) + i, DailySeries(rows)[i])
  {
    var lo, n := MinDay(rows), MaxDay(rows) - MinDay(rows) + 1;
    var ds := DailySeries(rows);
    assert ds == DaySpan(rows, lo, n);
    DaySpanEntries(rows, lo, n);
    forall i | 0 <= i < n ensures DescribesDay(rows, lo + i, ds[i]) {
    }
  }

  lemma DaySpanEntries(rows: seq<Row>, lo: int, n: nat)
    requires n > 0
    ensures DaySpan(rows, lo, n)[0].day == lo
    ensures DaySpan(rows, lo, n)[n - 1].day == lo + n - 1
    ensures forall i :: 0 <= i < n ==> DescribesDay(rows, lo + i, DaySpan(rows, lo, n)[i])
  {
    var ds := DaySpan(rows, lo, n);
    forall i | 0 <= i < n ensures DescribesDay(rows, lo + i, ds[i]) {
      DailyMeanDescribes(rows, lo + i);
    }
  }

  lemma DailyMeanDescribes(rows: seq<Row>, d: int)
    ensures DescribesDay(rows, d, Entry(d, DailyMean(rows, d)))
  {
    DaySentimentsEmpty(rows, d);
  }

  /** Moving-average entry `i` is present iff `w >= 1`, `i >= w - 1` and the `w` daily
      entries ending at `i` are all present; it is then their mean. */
  lemma MovingAverageEntries(daily: seq<Entry>, w: nat)
    ensures forall i :: 0 <= i < |daily| ==>
              && (MovingAverage(daily, w)[i].value.Some? <==>
                    w >= 1 && i >= w - 1 && forall j :: i - w < j <= i ==> daily[j].value.Some?)
              && (MovingAverage(daily, w)[i].value.Some? ==>
                    MovingAverage(daily, w)[i].value.value == Mean(Values(daily[i + 1 - w..i + 1])))
  {
    forall i | 0 <= i < |daily|
      ensures MovingAverage(daily, w)[i].value.Some? <==>
                w >= 1 && i >= w - 1 && forall j :: i - w < j <= i ==> daily[j].value.Some?
    {
      if w >= 1 && i >= w - 1 {
        var window := daily[i + 1 - w..i + 1];
        assert forall j :: i - w < j <= i ==> daily[j] == window[j - (i + 1 - w)];
        assert forall k :: 0 <= k < |window| ==> window[k] == daily[k + (i + 1 - w)];
      }
    }
  }

  /** The label reads the last moving-average entry: Bullish iff it is above
      0.2, Bearish iff below -0.2, Neutral otherwise, NaN included; the reported
      current sentiment is that entry. */
  lemma TrendDecision(rows: seq<Row>, w: nat)
    requires |rows| > 0
    ensures |Trend(rows, w).movingAvg| == |Trend(rows, w).daily| > 0
    ensures Trend(rows, w).current == Trend(rows, w).movingAvg[|Trend(rows, w).movingAvg| - 1].value
    ensures Trend(rows, w).trend == Bullish <==>
              Trend(rows, w).current.Some? && Trend(rows, w).current.value > 0.2
    ensures Trend(rows, w).trend == Bearish <==>
              Trend(rows, w).current.Some? && Trend(rows, w).current.value < -0.2
    ensures Trend(rows, w).trend == Neutral <==>
              (Trend(rows, w).current.None? || -0.2 <= Trend(rows, w).current.value <= 0.2)
  {
  }

  lemma {:induction false} DaySentimentsAppend(a: seq<Row>, b: seq<Row>, d: int)
    ensures DaySentiments(a + b, d) == DaySentiments(a, d) + DaySentiments(b, d)
    decreases |a|
  {
    if a == [] {
      assert a + b == b;
    } else {
      var ab := a + b;
      assert ab[0] == a[0] && ab[1..] == a[1..] + b;
      var head := if a[0].day == d then [a[0].sentiment] else [];
      assert DaySentiments(ab, d) == head + DaySentiments(a[1..] + b, d);
      assert DaySentiments(a, d) == head + DaySentiments(a[1..], d);
      DaySentimentsAppend(a[1..], b, d);
    }
  }

  /** Taking one row out of the middle of a frame takes its contribution out. */
  lemma DaySentimentsRemove(b: seq<Row>, j: nat, d: int)
    requires j < |b|
    ensures multiset(DaySentiments(b, d)) ==
              multiset(DaySentiments([b[j]], d)) + multiset(DaySentiments(b[..j] + b[j + 1..], d))
  {
    assert b == b[..j] + ([b[j]] + b[j + 1..]);
    DaySentimentsAppend(b[..j], [b[j]] + b[j + 1..], d);
    DaySentimentsAppend([b[j]], b[j + 1..], d);
    DaySentimentsAppend(b[..j], b[j + 1..], d);
  }

  lemma {:induction false} DaySentimentsPermutation(a: seq<Row>, b: seq<Row>, d: int)
    requires multiset(a) == multiset(b)
    ensures multiset(DaySentiments(a, d)) == multiset(DaySentiments(b, d))
    decreases |a|
  {
    if a == [] {
      assert |b| == |multiset(b)| == 0;
    } else {
      var x := a[0];
      assert x in multiset(b);
      var j :| 0 <= j < |b| && b[j] == x;
      var rest := b[..j] + b[j + 1..];
      MultisetRemove(b, j);
      assert a == [x] + a[1..];
      assert multiset(a[1..]) == multiset(a) - multiset{x};
      DaySentimentsPermutation(a[1..], rest, d);
      DaySentimentsAppend([x], a[1..], d);
      DaySentimentsRemove(b, j, d);
    }
  }

  lemma MinMaxBelow(a: seq<Row>, b: seq<Row>)
    requires |a| > 0 && |b| > 0 && multiset(b) <= multiset(a)
    ensures MinDay(a) <= MinDay(b) && MaxDay(b) <= MaxDay(a)
  {
    MinDayIsMin(a);
    MinDayIsMin(b);
    MaxDayIsMax(a);
    MaxDayIsMax(b);
    var j :| 0 <= j < |b| && b[j].day == MinDay(b);
    assert b[j] in multiset(a);
    var i :| 0 <= i < |a| && a[i] == b[j];
    var j' :| 0 <= j' < |b| && b[j'].day == MaxDay(b);
    assert b[j'] in multiset(a);
    var i' :| 0 <= i' < |a| && a[i'] == b[j'];
  }

  lemma SameMinMax(a: seq<Row>, b: seq<Row>)
    requires |a| > 0 && multiset(a) == multiset(b)
    ensures |b| > 0 && MinDay(a) == MinDay(b) && MaxDay(a) == MaxDay(b)
  {
    assert |a| == |multiset(a)| == |multiset(b)| == |b|;
    MinMaxBelow(a, b);
    MinMaxBelow(b, a);
  }

  /** The result does not depend on the order of the posts in the frame
      (idempotence follows too: `Trend` is a function of its inputs). */
  lemma TrendOrderIndependent(a: seq<Row>, b: seq<Row>, w: nat)
    requires multiset(a) == multiset(b)
    ensures Trend(a, w) == Trend(b, w)
  {
    if |a| == 0 {
      assert |b| == |multiset(b)| == 0;
    } else {
      SameMinMax(a, b);
      forall d | true ensures DailyMean(a, d) == DailyMean(b, d) {
        DailyMeanPermutation(a, b, d);
      }
      SameDailySeries(a, b);
    }
  }

  lemma DailyMeanPermutation(a: seq<Row>, b: seq<Row>, d: int)
    requires multiset(a) == multiset(b)
    ensures DailyMean(a, d) == DailyMean(b, d)
  {
    DaySentimentsPermutation(a, b, d);
    var sa, sb := DaySentiments(a, d), DaySentiments(b, d);
    assert |sa| == |multiset(sa)| == |multiset(sb)| == |sb|;
    if |sa| > 0 {
      MeanPermutation(sa, sb);
    }
  }

  lemma SameDailySeries(a: seq<Row>, b: seq<Row>)
    requires |a| > 0 && |b| > 0
    requires MinDay(a) == MinDay(b) && MaxDay(a) == MaxDay(b)
    requires forall d :: DailyMean(a, d) == DailyMean(b, d)
    ensures DailySeries(a) == DailySeries(b)
  {
    var lo, n := MinDay(a), MaxDay(a) - MinDay(a) + 1;
    var da, db := DaySpan(a, lo, n), DaySpan(b, lo, n);
    assert forall i :: 0 <= i < n ==> da[i] == db[i];
  }
}
