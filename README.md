# Stock sentiment engine — a Dafny model

This project models the deterministic core of a Reddit-driven stock
sentiment tool. The tool fetches posts about a ticker, scores their text
with a lexicon scorer (VADER's compound score or TextBlob's polarity) and
turns the scores into a Bullish / Bearish / Neutral signal. It also fetches
the current price through a small retry loop. The model covers four pieces.

- `EnhancedSentimentAnalyzer` (module `SentimentAnalyzer`, `sentiment_analyzer.dfy`):
  - text preprocessing;
  - the per-post quality score and the filter that writes it into the caller's frame;
  - the composite sentiment formula;
  - the trend analysis: daily resampled means, a rolling mean, and the label taken from its last entry.
- `StockDataFetcher.get_stock_data` (module `StockData`, `stock_data.dfy`).
  - It is the bounded retry loop as a `while` loop, proved equal to a recursive specification of the run.
  - The provider is a script of per-attempt outcomes.
  - Sleeping is a trace of the delays passed to `time.sleep`.
- `RedditSentimentAnalyzer` (module `RedditSentiment`, `reddit_sentiment.dfy`):
  - `clean_text`: URL removal, Markdown-link rewrite, the `[^\w\s]` filter and `strip`;
  - `get_sentiment_score`;
  - the record built for each submission;
  - the aggregation in `analyze_sentiment`: mean, sign categories, value counts and the top five posts by score.
- `StockSentimentAnalyzer.predict_trend` (module `StockSentiment`, `stock_sentiment.dfy`): the mean of the compound scores of the post bodies, with the ±0.2 thresholds.

There are two shared modules:
- `Common` (`common.dfy`): the `Option`, `Polarity` and `Label` types, the threshold rule and exact means;
- `Text` (`text.dfy`): Python's character classes, `str.split`, `' '.join` and decimal rendering.

Modelling choices:
- The lexicon scorers are function parameters of type `string -> Polarity`, with `Polarity` the reals in [-1, 1].
- The stopword list is a parameter set.
- Scores are exact `real`s.
- A pandas NaN is `None`.
- A post's timestamp is its integer calendar-day number.
- The rolling mean is pandas' `rolling(window=w).mean()` with its default `min_periods = w`. An entry has a value only when all w days ending there have one, so one day without posts inside a window makes that entry NaN.

## Model

| member | source | states |
|---|---|---|
| Common.Classify | stock_sentiment.py:65-70 | Bullish iff the value is above 0.2, Bearish iff below -0.2, Neutral iff in the closed interval [-0.2, 0.2] |
| Common.MeanBounds | src/reddit_sentiment.py:70 | a mean of values in [lo, hi] lies in [lo, hi] |
| Common.MeanPermutation | src/reddit_sentiment.py:70 | the mean depends only on the multiset of values, not their order |
| Common.SumPermutation | src/reddit_sentiment.py:70 | sums of two permutations of each other are equal |
| Text.TokensOfJoin | src/models/sentiment_analyzer.py:25-27 | splitting a space-join of whitespace-free tokens on whitespace gives the tokens back |
| Text.JoinSingleSpaced | src/models/sentiment_analyzer.py:27 | a space-join of tokens has single plain spaces, no space at either end, and only characters of the tokens |
| Text.NatToStringRoundTrip | src/stock_data.py:40 | the decimal rendering of the attempt count parses back to that count |
| SentimentAnalyzer.PreprocessText | src/models/sentiment_analyzer.py:19-27 | "" for a non-string; otherwise only lower-case ASCII letters and single spaces, with no space at either end |
| SentimentAnalyzer.PreprocessTokens | src/models/sentiment_analyzer.py:23-27 | the output's tokens are, in order, the whitespace tokens of the lower-cased letters-only text that are not stopwords; no stopword survives |
| SentimentAnalyzer.CleanTokensAreLower | src/models/sentiment_analyzer.py:23-25 | every token after lower-casing and the `[^a-zA-Z\s]` removal is a non-empty run of lower-case ASCII letters |
| SentimentAnalyzer.QualityScore | src/models/sentiment_analyzer.py:29-41 | absent (the TypeError of `len`) iff the text is not a string; otherwise the score lies in [0, 1]; minus 0.4 times the magnitude of the compound score of the text it is 0.3 per strict bonus (text over 100 characters, score over 10); at most 0.4 with no bonus, at least 0.6 with both |
| SentimentAnalyzer.QualityExample | src/models/sentiment_analyzer.py:31-41 | a 150-character string text with score 20 and compound 0.5 scores 0.8 and passes |
| SentimentAnalyzer.QualityBonusesDecide | src/models/sentiment_analyzer.py:17-46 | a post with a string text and neither bonus is always filtered out; one with both always passes the 0.5 threshold |
| SentimentAnalyzer.WithQuality | src/models/sentiment_analyzer.py:45 | every row gets its own quality score in the `quality_score` column, and the number of rows is unchanged; when every text is a string, every row has a score |
| SentimentAnalyzer.SelectHighQualityPositions | src/models/sentiment_analyzer.py:46 | the selection is exactly the rows whose quality exceeds the threshold, in their original order, given by strictly increasing positions |
| SentimentAnalyzer.FilterLowQualityPosts | src/models/sentiment_analyzer.py:43-46 | fails (`None`) iff the frame has no rows (the ValueError of the column assignment) or some text is not a string (the TypeError of the score), and then leaves the frame unchanged; otherwise writes the quality column into the caller's frame in place and returns the rows of the updated frame that pass |
| SentimentAnalyzer.FilteredRowsPass | src/models/sentiment_analyzer.py:45-46 | every returned row has a string text and carries its own quality score, and that score is above the threshold |
| SentimentAnalyzer.PostFrame.constructor | src/models/sentiment_analyzer.py:43 | a frame holds the caller's rows and is not yet indexed by date |
| SentimentAnalyzer.CompositeSentiment | src/models/sentiment_analyzer.py:48-67 | apart from the length term `len/10000`, the score lies within 0.8 of zero, and within 0.7 when '?' and '!' occur together or not at all |
| SentimentAnalyzer.CompositeFeatures | src/models/sentiment_analyzer.py:54-65 | the score depends only on the compound score, the length and whether '?' and '!' occur; repeats and the word count change nothing |
| SentimentAnalyzer.CompositeUnbounded | src/models/sentiment_analyzer.py:60-65 | the length term is unnormalised: some text scores above 1 |
| SentimentAnalyzer.AnalyzeTrend | src/models/sentiment_analyzer.py:69-101 | for every window size, the result is the trend specification of the frame's rows; a non-empty frame becomes date-indexed in place, and its rows are unchanged |
| SentimentAnalyzer.TrendWindowZero | src/models/sentiment_analyzer.py:86-100 | with a window of 0 every moving-average entry is NaN, so a non-empty frame is Neutral with a NaN current sentiment |
| SentimentAnalyzer.TrendEmpty | src/models/sentiment_analyzer.py:71-77 | an empty frame gives Neutral, empty series and current sentiment 0 |
| SentimentAnalyzer.MinDayIsMin | src/models/sentiment_analyzer.py:83 | the first day of the series is the day of some post, and no post is earlier |
| SentimentAnalyzer.MaxDayIsMax | src/models/sentiment_analyzer.py:83 | the last day of the series is the day of some post, and no post is later |
| SentimentAnalyzer.DailySeries | src/models/sentiment_analyzer.py:83 | one entry per calendar day from the earliest post day to the latest |
| SentimentAnalyzer.DailySeriesEntries | src/models/sentiment_analyzer.py:79-83 | the series starts on the first post day and ends on the last; entry i is for day first+i; it is present iff some post falls on that day, and it is then the mean of exactly that day's sentiments |
| SentimentAnalyzer.DaySentimentsEmpty | src/models/sentiment_analyzer.py:83 | a day has sentiments iff some post falls on it |
| SentimentAnalyzer.DaySentimentsMembers | src/models/sentiment_analyzer.py:83 | the values binned into a day are exactly the sentiments of that day's posts |
| SentimentAnalyzer.MovingAverage | src/models/sentiment_analyzer.py:86 | the moving average has the same length and the same days as the daily series |
| SentimentAnalyzer.MovingAverageEntries | src/models/sentiment_analyzer.py:86 | entry i is present iff w >= 1, i >= w-1 and the w daily entries ending at i are all present, and it is then their mean |
| SentimentAnalyzer.TrendDecision | src/models/sentiment_analyzer.py:86-100 | both series are non-empty and of equal length; the current sentiment is the last moving-average entry; Bullish iff it is above 0.2, Bearish iff below -0.2, Neutral otherwise, including NaN |
| SentimentAnalyzer.TrendOrderIndependent | src/models/sentiment_analyzer.py:79-100 | two frames holding the same rows in any order give the same trend result |
| SentimentAnalyzer.DaySentimentsPermutation | src/models/sentiment_analyzer.py:83 | reordering the rows permutes each day's sentiments |
| StockData.GetStockData | src/stock_data.py:6-42 | the loop returns what the recursive run specification returns, after the same number of attempts; it sleeps once, for `retry_delay`, before every attempt but the first |
| StockData.FailureMessage | src/stock_data.py:40 | the error names the symbol and the number of attempts, and ends with the last error's text |
| StockData.RunFromReturns | src/stock_data.py:7-42 | from any allowed attempt the loop returns a value within the remaining attempts |
| StockData.FetchRunBounds | src/stock_data.py:7-42 | with `max_retries` >= 1 a dictionary is always returned after 1 to `max_retries` attempts; with `max_retries` <= 0 nothing is attempted and None is returned |
| StockData.RunFromFirstSuccess | src/stock_data.py:15-25 | the first attempt that yields a price returns success with that price and currency (default "USD"), and no attempt follows it |
| StockData.RunFromAllFail | src/stock_data.py:16-42 | when no attempt yields a price, exactly `max_retries` attempts are made and the failure carries the last attempt's error |
| StockData.FetchSucceedsIff | src/stock_data.py:6-42 | the call succeeds iff some allowed attempt yields a price |
| StockData.FirstFetch | src/stock_data.py:7-25 | when some attempt yields a price there is a first such attempt |
| StockData.RateLimitOnLastAttempt | src/stock_data.py:28-41 | a 429 on the final attempt, after no success, fails with "Rate limit exceeded" inside the error text |
| StockData.RateLimitSkipsAhead | src/stock_data.py:28-32 | a 429 on an earlier attempt goes straight to the next attempt |
| StockData.FailFailSucceed | src/stock_data.py:7-25 | an error, a 429 and then a price, with three attempts allowed, give success after three attempts and two sleeps of 5 |
| StockData.AlwaysFail | src/stock_data.py:35-41 | an always-failing provider gives a failure after exactly three attempts and two sleeps, naming the last error |
| RedditSentiment.StripUrlsLeavesNoUrl | src/reddit_sentiment.py:23 | after URL removal, no position starts "http" or "www" followed by a non-whitespace character |
| RedditSentiment.StripUrlsKeepsCleanText | src/reddit_sentiment.py:23 | text without such a URL is left unchanged |
| RedditSentiment.UrlsBeforeLinks | src/reddit_sentiment.py:23-25 | in a link whose target is a URL, the URL removal also takes the closing parenthesis, leaving "[caption](" before the rest of the text |
| RedditSentiment.UrlLinkNotRewritten | src/reddit_sentiment.py:25 | for any caption without ']' ('[' included), when no ')' follows, the remains "[caption](" of such a link are left as they are by the link rewrite |
| RedditSentiment.UrlLinkLaterParen | src/reddit_sentiment.py:23-25 | when a ')' does follow, the link rewrite matches up to it: "[c](http://x) (y)" becomes "[c]( (y)" and then "c" |
| RedditSentiment.RewriteLinksCopyPrefix | src/reddit_sentiment.py:25 | text before the first '[' is copied by the link rewrite |
| RedditSentiment.RewriteLinksAtLink | src/reddit_sentiment.py:25 | a link `[caption](target)` with non-empty parts becomes its caption, and rewriting continues after it |
| RedditSentiment.RewriteLinksWithoutBracket | src/reddit_sentiment.py:25 | text without '[' is left unchanged |
| RedditSentiment.IndexOf | src/reddit_sentiment.py:25 | the position of the first occurrence of the character, or the length when it is absent |
| RedditSentiment.KeepWordAndSpace | src/reddit_sentiment.py:27 | only word characters and whitespace remain, and text made only of those is unchanged |
| RedditSentiment.KeepWordAndSpaceAppend | src/reddit_sentiment.py:27 | the filter distributes over concatenation |
| RedditSentiment.KeepWordAndSpaceChar | src/reddit_sentiment.py:27 | one character is kept exactly when it is a word character or whitespace |
| RedditSentiment.KeepWordAndSpaceCounts | src/reddit_sentiment.py:26-27 | every word character (digits included) and every whitespace character keeps its number of occurrences; every other character is gone |
| RedditSentiment.Strip | src/reddit_sentiment.py:28 | the result is a slice of the input with only whitespace cut off on either side, and no whitespace at either end; non-empty when the input has a non-space, and an already stripped input is unchanged |
| RedditSentiment.StripKeepsNonSpace | src/reddit_sentiment.py:28 | every character that is not whitespace keeps its number of occurrences |
| RedditSentiment.CleanText | src/reddit_sentiment.py:19-28 | "" for a non-string; otherwise only word characters and whitespace, with no whitespace at either end |
| RedditSentiment.CleanTextKeepsWords | src/reddit_sentiment.py:23-28 | every word character (digits included) left after the URL and link rewrites is in the cleaned text, as often as it occurs there |
| RedditSentiment.SentimentScore | src/reddit_sentiment.py:30-36 | 0 when the cleaned text is empty (a non-string included); otherwise the polarity of the cleaned text |
| RedditSentiment.ToRecord | src/reddit_sentiment.py:45-56 | the post is scored on the title and the body joined by one space; title, text and score are copied |
| RedditSentiment.CategoryOf | src/reddit_sentiment.py:73-75 | positive iff the sentiment is above 0, negative iff below 0, neutral iff equal to 0 |
| RedditSentiment.Categorize | src/reddit_sentiment.py:73-75 | every row keeps its post and gets the category of its sentiment |
| RedditSentiment.CountsAddUp | src/reddit_sentiment.py:77-85 | the three category counts sum to the number of posts |
| RedditSentiment.CountPositive | src/reddit_sentiment.py:77 | a category's count is positive iff some post has that category |
| RedditSentiment.DistributionSpec | src/reddit_sentiment.py:73-77 | the keys are category names ('positive', 'negative', 'neutral'); a category's name is a key iff the category occurs, it maps to that category's count, and the counts sum to the number of posts |
| RedditSentiment.DistributionAt | src/reddit_sentiment.py:77 | a category's key is present iff its count is positive, and then holds that count |
| RedditSentiment.CategoryNameInjective | src/reddit_sentiment.py:74 | distinct categories are counted under distinct names |
| RedditSentiment.InsertKeepsSorted | src/reddit_sentiment.py:80 | inserting a post into a list sorted by descending score keeps it sorted |
| RedditSentiment.SortByScore | src/reddit_sentiment.py:80 | the result is sorted by descending score and is a permutation of the input |
| RedditSentiment.TopPostsSpec | src/reddit_sentiment.py:80 | min(5, n) posts taken from the input, by descending score; no omitted post scores higher than a kept one |
| RedditSentiment.AnalyzeSentiment | src/reddit_sentiment.py:61-88 | fails iff there are no posts, and the error names the symbol; otherwise the post count is the number of posts and the average lies in [-1, 1] |
| RedditSentiment.AnalyzeSentimentMean | src/reddit_sentiment.py:70-84 | the average is the arithmetic mean of the post sentiments |
| RedditSentiment.AnalyzeSentimentSpec | src/reddit_sentiment.py:73-87 | the distribution holds exactly the categories that occur and its counts sum to the post count; the top posts are the top five of the categorised posts |
| StockSentiment.AnalyzeSentiment | stock_sentiment.py:41-43 | the compound score of the text, in [-1, 1] |
| StockSentiment.Scores | stock_sentiment.py:58 | one score per post, taken on the body |
| StockSentiment.PredictTrend | stock_sentiment.py:52-70 | Bullish text iff the mean body score is above 0.2, Bearish text iff below -0.2, Neutral text iff in [-0.2, 0.2] |
| StockSentiment.AverageBounds | stock_sentiment.py:59 | the average the label is decided on lies in [-1, 1] |
| StockSentiment.TitlesIgnored | stock_sentiment.py:58-59 | posts with the same bodies get the same label, whatever their titles |
| StockSentiment.OrderIgnored | stock_sentiment.py:58-70 | a reordering of the posts gives the same label |
| StockSentiment.ScoresPermutation | stock_sentiment.py:58 | reordering the posts permutes their scores |

## Left out

- Network access is not modelled: the Reddit client, the price provider's HTTP calls and the process entry point (`main`, `input`). Posts arrive as a sequence, and the price lookup is a script of per-attempt outcomes.
- `get_reddit_posts` in both analyzers is not modelled, because it is a fetch loop. This includes its catch-all handler that returns the posts collected so far. Only the record it builds for each submission is modelled (`RedditSentiment.ToRecord`).
- VADER, TextBlob and NLTK's stopword list are parameters. Scores are assumed to lie in [-1, 1].
- `word_tokenize` is modelled as a whitespace split. On letters-only text the tokenizer still splits a few fixed words in two: "cannot", "gonna", "gotta", "wanna", "gimme" and "lemme". The model keeps them whole.
- `str.lower` is modelled on ASCII letters only. Non-ASCII characters that lower-case to an ASCII letter, such as the Kelvin sign or U+0130, are dropped here but survive in the source.
- `\w` is modelled on ASCII letters, digits and the underscore. Python's Unicode `\w` also keeps non-ASCII letters and digits.
- Floating-point rounding and NaN arithmetic are not modelled. Scores are exact reals, and a NaN is `None`.
- The unused `TfidfVectorizer` and `RandomForestClassifier` fields, and the unused `word_count`, are not modelled.
- Printing and logging are not modelled, and neither is real sleeping: the delays are recorded as a trace.
- Timestamp parsing and formatting are not modelled: `created_utc` is an integer day number, and `strftime` is not modelled.
- `SentimentAnalyzer.AnalyzeTrend`: the window size is a natural number, so the ValueError pandas raises for a negative window is not modelled. A window of 0 is modelled: every entry of its rolling mean is NaN.
- The price history fetched at stock_sentiment.py:62 is not modelled, because the label never reads it.
- The `sentiment` and `sentiment_category` columns written at stock_sentiment.py:58 and src/reddit_sentiment.py:73 are modelled as values. They go into frames local to the call, so no caller sees the change.
- `StockSentiment.PredictTrend` requires at least one post. With none, the source raises at line 58 instead of producing a label.
- `RedditSentiment.TopPostsSpec` states that omitted posts score no higher than any kept post in terms of set membership, not multiplicities. It also does not prove that ties keep frame order (`keep='first'`), although `SortByScore` models that order.
- `RedditSentiment.UrlsBeforeLinks` is proved only for captions without 'h' or 'w', so that no URL starts inside the caption.
- `RedditSentiment.AnalyzeSentiment` returns the top posts as categorised rows keyed by field, not as pandas record dictionaries.
