/** `RedditSentimentAnalyzer`: cleaning post text, scoring it with a lexicon
    polarity, and aggregating a batch of fetched posts for one symbol. */
module RedditSentiment {
  import opened Common
  import opened Text

  // ---------------------------------------------------------------------
  // clean_text, step 1: `re.sub(r'http\S+|www\S+|https\S+', '', text)`

  /** One of the URL alternatives matches at the start of `s`: "http" or "www"
      followed by at least one non-whitespace character ("https" is covered
      by "http"). */
  predicate UrlStartsAt(s: string)
  {
    || (|s| > 4 && s[0] == 'h' && s[1] == 't' && s[2] == 't' && s[3] == 'p' && !IsSpace(s[4]))
    || (|s| > 3 && s[0] == 'w' && s[1] == 'w' && s[2] == 'w' && !IsSpace(s[3]))
  }

  /** Scanning left to right, every URL match is deleted up to (not including)
      the next whitespace character. */
  function StripUrls(s: string): string
    decreases |s|
  {
    if s == [] then []
    else if UrlStartsAt(s) then
      var run := LeadingRun(s);
      assert |run| > 0 by {
        assert !IsSpace(s[0]);
      }
      StripUrls(s[|run|..])
    else [s[0]] + StripUrls(s[1..])
  }

  /** After a URL has been deleted the text goes on with whitespace, so a
      string that starts with whitespace keeps it in front. */
  lemma StripUrlsSpaceFirst(s: string)
    requires s != [] && IsSpace(s[0])
    ensures StripUrls(s) != [] && StripUrls(s)[0] == s[0]
  {
    assert !UrlStartsAt(s);
  }

  /** The output begins with the input's own characters up to the first
      whitespace character of the output. */
  lemma {:induction false} StripUrlsPrefix(s: string, n: nat)
    requires n <= |StripUrls(s)|
    requires forall i :: 0 <= i < n ==> !IsSpace(StripUrls(s)[i])
    ensures n <= |s| && StripUrls(s)[..n] == s[..n]
    decreases |s|
  {
    if n > 0 && s != [] {
      if UrlStartsAt(s) {
        var run := LeadingRun(s);
        var rest := s[|run|..];
        assert StripUrls(s) == StripUrls(rest);
        if rest != [] {
          assert IsSpace(rest[0]);
          StripUrlsSpaceFirst(rest);
        }
        assert false;
      } else {
        var o := StripUrls(s);
        var tail := StripUrls(s[1..]);
        assert o == [s[0]] + tail;
        assert forall i :: 0 <= i < n - 1 ==> tail[i] == o[i + 1];
        StripUrlsPrefix(s[1..], n - 1);
        assert o[..n] == [s[0]] + tail[..n - 1];
        assert s[..n] == [s[0]] + s[1..][..n - 1];
      }
    }
  }

  /** A character kept in front of the rest's output does not start a URL. */
  lemma NoUrlAtFront(s: string)
    requires s != [] && !UrlStartsAt(s)
    ensures !UrlStartsAt([s[0]] + StripUrls(s[1..]))
  {
    var tail := StripUrls(s[1..]);
    if UrlStartsAt([s[0]] + tail) {
      var n := if s[0] == 'h' then 4 else 3;
      FrontOfTail(s[0], tail, n);
      StripUrlsPrefix(s[1..], n);
      assert false;
    }
  }

  /** The `n` characters after the first one of a URL match are not whitespace. */
  lemma FrontOfTail(c: char, tail: string, n: nat)
    requires UrlStartsAt([c] + tail) && n == (if c == 'h' then 4 else 3)
    ensures n <= |tail| && forall j :: 0 <= j < n ==> !IsSpace(tail[j]) && tail[j] == ([c] + tail)[j + 1]
  {
  }

  /** No URL is left anywhere in the output. */
  lemma {:induction false} StripUrlsLeavesNoUrl(s: string)
    ensures forall i :: 0 <= i < |StripUrls(s)| ==> !UrlStartsAt(StripUrls(s)[i..])
    decreases |s|
  {
    if s != [] {
      if UrlStartsAt(s) {
        var run := LeadingRun(s);
        StripUrlsLeavesNoUrl(s[|run|..]);
      } else {
        var o := StripUrls(s);
        var tail := StripUrls(s[1..]);
        StripUrlsLeavesNoUrl(s[1..]);
        assert o == [s[0]] + tail;
        NoUrlAtFront(s);
        forall i | 0 <= i < |o| ensures !UrlStartsAt(o[i..]) {
          if i > 0 {
            assert o[i..] == tail[i - 1..];
          } else {
            assert o[0..] == o;
          }
        }
      }
    }
  }

  /** Text without any URL match is left as it is. */
  lemma {:induction false} StripUrlsKeepsCleanText(s: string)
    requires forall i :: 0 <= i < |s| ==> !UrlStartsAt(s[i..])
    ensures StripUrls(s) == s
    decreases |s|
  {
    if s != [] {
      assert !UrlStartsAt(s[0..]);
      assert s[0..] == s;
      forall i | 0 <= i < |s[1..]| ensures !UrlStartsAt(s[1..][i..]) {
        assert s[1..][i..] == s[i + 1..];
      }
      StripUrlsKeepsCleanText(s[1..]);
    }
  }

  // ---------------------------------------------------------------------
  // clean_text, step 2: `re.sub(r'\[([^\]]+)\]\([^\)]+\)', r'\1', text)`

  /** The index of the first `c` in `s`, or `|s|` when there is none. */
  function IndexOf(s: string, c: char): (k: nat)
    ensures k <= |s| && (k < |s| ==> s[k] == c)
    ensures forall i :: 0 <= i < k ==> s[i] != c
  {
    if s == [] then 0 else if s[0] == c then 0 else 1 + IndexOf(s[1..], c)
  }

  /** A Markdown link `[label](target)` at the start of `s`, with non-empty
      label and target: the label ends at the first ']' and the target at the
      first ')'. Returns the label's end and the length of the whole link. */
  function LinkAt(s: string): Option<(nat, nat)>
  {
    if s == [] || s[0] != '[' then None
    else
      var close := 1 + IndexOf(s[1..], ']');
      if close == 1 || close + 1 >= |s| || s[close + 1] != '(' then None
      else
        var end := close + 2 + IndexOf(s[close + 2..], ')');
        if end == close + 2 || end >= |s| then None
        else Some((close, end + 1))
  }

  /** Every link is replaced by its label. */
  function RewriteLinks(s: string): string
    decreases |s|
  {
    if s == [] then []
    else
      match LinkAt(s)
      case Some((close, len)) => s[1..close] + RewriteLinks(s[len..])
      case None => [s[0]] + RewriteLinks(s[1..])
  }

  /** A well-formed link becomes its caption, and rewriting goes on after it. */
  lemma RewriteLinksAtLink(caption: string, target: string, rest: string)
    requires |caption| > 0 && ']' !in caption
    requires |target| > 0 && ')' !in target
    ensures RewriteLinks("[" + caption + "](" + target + ")" + rest) == caption + RewriteLinks(rest)
  {
    var s := "[" + caption + "](" + target + ")" + rest;
    assert s[1..] == caption + ("](" + target + ")" + rest);
    IndexOfAfter(caption, "](" + target + ")" + rest, ']');
    var close := 1 + |caption|;
    assert s[close + 2..] == target + (")" + rest);
    IndexOfAfter(target, ")" + rest, ')');
    assert LinkAt(s) == Some((close, close + 3 + |target|));
    assert s[1..close] == caption;
    assert s[close + 3 + |target|..] == rest;
  }

  lemma IndexOfAfter(u: string, v: string, c: char)
    requires c !in u && v != [] && v[0] == c
    ensures IndexOf(u + v, c) == |u|
  {
    if u != [] {
      assert (u + v)[1..] == u[1..] + v;
      IndexOfAfter(u[1..], v, c);
    }
  }

  /** Text without '[' is left as it is. */
  lemma RewriteLinksWithoutBracket(s: string)
    requires '[' !in s
    ensures RewriteLinks(s) == s
  {
    if s != [] {
      assert '[' !in s[1..];
      RewriteLinksWithoutBracket(s[1..]);
    }
  }

  // ---------------------------------------------------------------------
  // clean_text, steps 3 and 4: `re.sub(r'[^\w\s]', '', text)` and `strip()`

  predicate WordOrSpace(c: char) { IsWordChar(c) || IsSpace(c) }

  function KeepWordAndSpace(s: string): (r: string)
    ensures forall i :: 0 <= i < |r| ==> WordOrSpace(r[i])
    ensures (forall i :: 0 <= i < |s| ==> WordOrSpace(s[i])) ==> r == s
    decreases |s|
  {
    if s == [] then []
    else (if WordOrSpace(s[0]) then [s[0]] else []) + KeepWordAndSpace(s[1..])
  }

  /** The filter works character by character: it distributes over
      concatenation, and on one character keeps it exactly when it is a word
      character or whitespace. */
  lemma {:induction false} KeepWordAndSpaceAppend(a: string, b: string)
    ensures KeepWordAndSpace(a + b) == KeepWordAndSpace(a) + KeepWordAndSpace(b)
    decreases |a|
  {
    if a == [] {
      assert a + b == b;
    } else {
      assert (a + b)[0] == a[0] && (a + b)[1..] == a[1..] + b;
      KeepWordAndSpaceAppend(a[1..], b);
    }
  }

  lemma KeepWordAndSpaceChar(c: char)
    ensures KeepWordAndSpace([c]) == if WordOrSpace(c) then [c] else []
  {
    assert [c][1..] == [];
  }

  /** Every word character and every whitespace character of the input
      survives, as often as it occurs; nothing else does. */
  lemma {:induction false} KeepWordAndSpaceCounts(s: string)
    ensures forall c :: multiset(KeepWordAndSpace(s))[c] == if WordOrSpace(c) then multiset(s)[c] else 0
    decreases |s|
  {
    if s != [] {
      KeepWordAndSpaceCounts(s[1..]);
      assert s == [s[0]] + s[1..];
      var head := if WordOrSpace(s[0]) then [s[0]] else [];
      assert KeepWordAndSpace(s) == head + KeepWordAndSpace(s[1..]);
      assert multiset(KeepWordAndSpace(s)) == multiset(head) + multiset(KeepWordAndSpace(s[1..]));
      assert multiset(s) == multiset{s[0]} + multiset(s[1..]);
    }
  }

  /** The number of whitespace characters `s` starts with. */
  function LeadingSpaces(s: string): (k: nat)
    ensures k <= |s| && (forall i :: 0 <= i < k ==> IsSpace(s[i]))
    ensures k < |s| ==> !IsSpace(s[k])
  {
    if s == [] || !IsSpace(s[0]) then 0 else 1 + LeadingSpaces(s[1..])
  }

  /** The number of whitespace characters `s` ends with. */
  function TrailingSpaces(s: string): (k: nat)
    ensures k <= |s| && (forall i :: |s| - k <= i < |s| ==> IsSpace(s[i]))
    ensures k < |s| ==> !IsSpace(s[|s| - 1 - k])
  {
    if s == [] || !IsSpace(s[|s| - 1]) then 0 else 1 + TrailingSpaces(s[..|s| - 1])
  }

  /** `str.strip()`: drops leading and trailing whitespace and nothing else. */
  function Strip(s: string): (r: string)
    ensures |r| > 0 ==> !IsSpace(r[0]) && !IsSpace(r[|r| - 1])
    ensures forall k :: 0 <= k < |r| ==> r[k] in s
    ensures (exists i :: 0 <= i < |s| && !IsSpace(s[i])) ==> |r| > 0
    ensures |s| > 0 && !IsSpace(s[0]) && !IsSpace(s[|s| - 1]) ==> r == s
    ensures exists a, b :: 0 <= a <= b <= |s| && r == s[a..b]
              && (forall i :: 0 <= i < a ==> IsSpace(s[i]))
              && (forall i :: b <= i < |s| ==> IsSpace(s[i]))
  {
    var a := LeadingSpaces(s);
    if a == |s| then
      assert s[a..a] == [];
      []
    else
      var b := |s| - TrailingSpaces(s);
      assert a < b;
      StripSlice(s, a, b);
      s[a..b]
  }

  /** The slice between the whitespace flanks keeps its non-space ends and
      only characters of `s`. */
  lemma StripSlice(s: string, a: nat, b: nat)
    requires a < b <= |s| && !IsSpace(s[a]) && !IsSpace(s[b - 1])
    ensures var r := s[a..b];
      !IsSpace(r[0]) && !IsSpace(r[|r| - 1]) && (forall k :: 0 <= k < |r| ==> r[k] in s)
  {
    var r := s[a..b];
    forall k | 0 <= k < |r| ensures r[k] in s {
      assert r[k] == s[a + k];
    }
  }

  /** Only whitespace is removed: every other character keeps its count. */
  lemma StripKeepsNonSpace(s: string)
    ensures forall c :: !IsSpace(c) ==> multiset(Strip(s))[c] == multiset(s)[c]
  {
    var a, b :| 0 <= a <= b <= |s| && Strip(s) == s[a..b]
              && (forall i :: 0 <= i < a ==> IsSpace(s[i]))
              && (forall i :: b <= i < |s| ==> IsSpace(s[i]));
    assert s == s[..a] + s[a..b] + s[b..];
    forall c | !IsSpace(c) ensures multiset(Strip(s))[c] == multiset(s)[c] {
      NotAmongSpaces(s[..a], c);
      NotAmongSpaces(s[b..], c);
    }
  }

  lemma NotAmongSpaces(t: string, c: char)
    requires !IsSpace(c) && forall i :: 0 <= i < |t| ==> IsSpace(t[i])
    ensures multiset(t)[c] == 0
  {
    assert c !in t;
  }

  /** `clean_text`: "" for a non-string; otherwise URLs removed, then links
      replaced by their captions, then every character that is not a word
      character or whitespace removed (digits stay), then stripped. */
  function CleanText(text: Cell): (r: string)
    ensures text.NonStr? ==> r == ""
    ensures forall i :: 0 <= i < |r| ==> IsWordChar(r[i]) || IsSpace(r[i])
    ensures |r| > 0 ==> !IsSpace(r[0]) && !IsSpace(r[|r| - 1])
  {
    match text
    case NonStr => ""
    case Str(s) =>
      var kept := KeepWordAndSpace(RewriteLinks(StripUrls(s)));
      StripKeepsClass(kept);
      Strip(kept)
  }

  /** Nothing but URLs, link syntax and characters outside `\w` and `\s` is
      lost: every word character (digits included) that survives the two
      rewrites is in the cleaned text, as often as it occurs there. */
  lemma CleanTextKeepsWords(s: string)
    ensures forall c :: IsWordChar(c) ==>
              multiset(CleanText(Str(s)))[c] == multiset(RewriteLinks(StripUrls(s)))[c]
  {
    var kept := KeepWordAndSpace(RewriteLinks(StripUrls(s)));
    KeepWordAndSpaceCounts(RewriteLinks(StripUrls(s)));
    StripKeepsNonSpace(kept);
    forall c | IsWordChar(c)
      ensures multiset(CleanText(Str(s)))[c] == multiset(RewriteLinks(StripUrls(s)))[c]
    {
      assert !IsSpace(c) && WordOrSpace(c);
    }
  }

  lemma StripKeepsClass(s: string)
    requires forall i :: 0 <= i < |s| ==> WordOrSpace(s[i])
    ensures forall k :: 0 <= k < |Strip(s)| ==> WordOrSpace(Strip(s)[k])
  {
    var r := Strip(s);
    forall k | 0 <= k < |r| ensures WordOrSpace(r[k]) {
      var i :| 0 <= i < |s| && s[i] == r[k];
    }
  }

  /** URLs go first: in a link whose target is a URL, the URL is deleted up
      to the next whitespace together with the closing parenthesis. What is
      left is "[caption](" followed by the rest of the text (see
      `UrlLinkNotRewritten` and `UrlLinkLaterParen` for what the link
      rewrite then makes of it). */
  lemma UrlsBeforeLinks(caption: string, url: string, rest: string)
    requires forall i :: 0 <= i < |caption| ==> caption[i] != 'h' && caption[i] != 'w'
    requires UrlStartsAt(url) && forall i :: 0 <= i < |url| ==> !IsSpace(url[i])
    requires rest == [] || IsSpace(rest[0])
    ensures StripUrls("[" + caption + "](" + url + ")" + rest) == "[" + caption + "](" + StripUrls(rest)
  {
    var front := "[" + caption + "](";
    CaptionFront(caption);
    UrlRunDeleted(url + ")", rest);
    StripUrlsCopyPrefix(front, url + ")" + rest);
    Regroup(front, url, ")", rest);
  }

  /** When no ')' follows, the remains of such a link are no link: the link
      rewrite leaves "[caption](" as it is and goes on with the rest. The
      caption may hold '[' (the label pattern `[^\]]+` allows it): a link
      starting there would also need a ')' after the "](". */
  lemma UrlLinkNotRewritten(caption: string, rest: string)
    requires ']' !in caption && ')' !in rest
    ensures RewriteLinks("[" + caption + "](" + rest) == "[" + caption + "](" + RewriteLinks(rest)
  {
    NoCloseParenCopied("[" + caption, rest);
    Regroup3("[" + caption, "](", rest);
    Regroup3("[" + caption, "](", RewriteLinks(rest));
  }

  lemma Regroup3(a: string, b: string, c: string)
    ensures a + b + c == a + (b + c)
  {
  }

  /** Text without ']' before a "](" with no ')' after it holds no link, and
      is copied as it is. */
  lemma {:induction false} NoCloseParenCopied(u: string, rest: string)
    requires ']' !in u && ')' !in rest
    ensures RewriteLinks(u + ("](" + rest)) == u + ("](" + RewriteLinks(rest))
    decreases |u|
  {
    if u == [] {
      assert u + ("](" + rest) == "](" + rest;
      assert u + ("](" + RewriteLinks(rest)) == "](" + RewriteLinks(rest);
      CloseParenCopied(rest);
    } else {
      var s := u + ("](" + rest);
      NoLinkBeforeClose(u, rest);
      CopyWithoutLink(s);
      assert s[0] == u[0] && s[1..] == u[1..] + ("](" + rest);
      NoCloseParenCopied(u[1..], rest);
      assert u + ("](" + RewriteLinks(rest)) == [u[0]] + (u[1..] + ("](" + RewriteLinks(rest)));
    }
  }

  lemma NoLinkBeforeClose(u: string, rest: string)
    requires u != [] && ']' !in u && ')' !in rest
    ensures LinkAt(u + ("](" + rest)) == None
  {
    if u[0] == '[' {
      assert u + ("](" + rest) == "[" + (u[1..] + "](" + rest);
      OpenLinkIsNoLink(u[1..], rest);
    }
  }

  /** "](" is copied: no link starts at either character. */
  lemma CloseParenCopied(rest: string)
    ensures RewriteLinks("](" + rest) == "](" + RewriteLinks(rest)
  {
    var t := "](" + rest;
    CopyWithoutLink(t);
    assert t[1..] == "(" + rest;
    CopyWithoutLink("(" + rest);
    assert ("(" + rest)[1..] == rest;
  }

  /** Where no link starts, the link rewrite copies one character. */
  lemma CopyWithoutLink(s: string)
    requires s != [] && LinkAt(s) == None
    ensures RewriteLinks(s) == [s[0]] + RewriteLinks(s[1..])
  {
  }

  lemma OpenLinkIsNoLink(caption: string, rest: string)
    requires ']' !in caption && ')' !in rest
    ensures LinkAt("[" + (caption + "](" + rest)) == None
  {
    var s := "[" + (caption + "](" + rest);
    assert s[1..] == caption + ("](" + rest);
    IndexOfAfter(caption, "](" + rest, ']');
    var close := 1 + |caption|;
    if close > 1 {
      assert s[close + 1] == '(';
      assert s[close + 2..] == rest;
      assert IndexOf(rest, ')') == |rest|;
    }
  }

  /** A prefix without '[' is copied by the link rewrite. */
  lemma {:induction false} RewriteLinksCopyPrefix(p: string, t: string)
    requires '[' !in p
    ensures RewriteLinks(p + t) == p + RewriteLinks(t)
    decreases |p|
  {
    if p == [] {
      assert p + t == t;
    } else {
      assert (p + t)[0] == p[0] && (p + t)[1..] == p[1..] + t;
      assert '[' !in p[1..];
      RewriteLinksCopyPrefix(p[1..], t);
    }
  }

  /** When a ')' does follow, the link rewrite matches from the caption up to
      that ')', as the source's regex does: the caption is kept and the text
      between the deleted URL and the ')' is swallowed. */
  lemma UrlLinkLaterParen()
    ensures StripUrls("[c](http://x) (y)") == "[c]( (y)"
    ensures RewriteLinks("[c]( (y)") == "c"
  {
    UrlsBeforeLinks("c", "http://x", " (y)");
    FreeOfUrls(" (y)");
    StripUrlsKeepsCleanText(" (y)");
    ExampleSpelling();
    LinkToLaterParen();
  }

  lemma ExampleSpelling()
    ensures "[" + "c" + "](" + "http://x" + ")" + " (y)" == "[c](http://x) (y)"
    ensures "[" + "c" + "](" + " (y)" == "[c]( (y)"
  {
  }

  lemma FreeOfUrls(t: string)
    requires t == " (y)"
    ensures forall i :: 0 <= i < |t| ==> !UrlStartsAt(t[i..])
  {
    forall i | 0 <= i < |t| ensures !UrlStartsAt(t[i..]) {
      assert t[i..][0] == t[i];
    }
  }

  lemma LinkToLaterParen()
    ensures RewriteLinks("[c]( (y)") == "c"
  {
    var s := "[c]( (y)";
    assert s[1..] == "c]( (y)";
    assert IndexOf(s[1..], ']') == 1;
    assert s[4..] == " (y)";
    assert IndexOf(" (y)", ')') == 3;
    assert LinkAt(s) == Some((2, 8));
    assert s[1..2] == "c" && s[8..] == [];
  }

  lemma Regroup(a: string, b: string, c: string, d: string)
    ensures a + b + c + d == a + (b + c + d)
  {
  }

  lemma CaptionFront(caption: string)
    requires forall i :: 0 <= i < |caption| ==> caption[i] != 'h' && caption[i] != 'w'
    ensures var front := "[" + caption + "](";
      forall i :: 0 <= i < |front| ==> front[i] != 'h' && front[i] != 'w'
  {
    var front := "[" + caption + "](";
    forall i | 0 <= i < |front| ensures front[i] != 'h' && front[i] != 'w' {
      if 0 < i <= |caption| {
        assert front[i] == caption[i - 1];
      }
    }
  }

  /** A URL match followed by whitespace or the end is deleted entirely. */
  lemma UrlRunDeleted(run: string, rest: string)
    requires UrlStartsAt(run) && forall i :: 0 <= i < |run| ==> !IsSpace(run[i])
    requires rest == [] || IsSpace(rest[0])
    ensures StripUrls(run + rest) == StripUrls(rest)
  {
    var u := run + rest;
    assert u[..|run|] == run;
    assert UrlStartsAt(u);
    LeadingRunOfToken(run, rest);
    assert u[|run|..] == rest;
  }

  /** A prefix in which no URL can start is copied unchanged. */
  lemma {:induction false} StripUrlsCopyPrefix(p: string, t: string)
    requires forall i :: 0 <= i < |p| ==> p[i] != 'h' && p[i] != 'w'
    ensures StripUrls(p + t) == p + StripUrls(t)
    decreases |p|
  {
    if p != [] {
      assert (p + t)[1..] == p[1..] + t;
      StripUrlsCopyPrefix(p[1..], t);
      assert (p + t)[0] == p[0];
    } else {
      assert p + t == t;
    }
  }

  // ---------------------------------------------------------------------
  // get_sentiment_score and the post record

  /** `get_sentiment_score`: 0 when the cleaned text is empty, otherwise the
      lexicon polarity of the cleaned text. */
  function SentimentScore(polarity: string -> Polarity, text: Cell): (r: Polarity)
    ensures text.NonStr? ==> r == 0.0
    ensures CleanText(text) == "" ==> r == 0.0
    ensures CleanText(text) != "" ==> r == polarity(CleanText(text))
  {
    var cleaned := CleanText(text);
    if |cleaned| == 0 then 0.0 else polarity(cleaned)
  }

  /** A submission as the Reddit client returns it. */
  datatype Submission = Submission(title: string, selftext: string, score: int,
                                   createdUtc: int, permalink: string, subreddit: string)

  /** One row of the posts frame. */
  datatype PostRecord = PostRecord(title: string, text: string, score: int, sentiment: Polarity,
                                   createdUtc: int, url: string, subreddit: string)

  /** The row built for a submission: the sentiment is taken on the title and
      the body joined by one space, and the URL is the permalink on reddit.com. */
  function ToRecord(polarity: string -> Polarity, p: Submission): (r: PostRecord)
    ensures r.sentiment == SentimentScore(polarity, Str(p.title + " " + p.selftext))
    ensures r.title == p.title && r.text == p.selftext && r.score == p.score
  {
    var fullText := p.title + " " + p.selftext;
    PostRecord(p.title, p.selftext, p.score, SentimentScore(polarity, Str(fullText)),
               p.createdUtc, "https://reddit.com" + p.permalink, p.subreddit)
  }

  // ---------------------------------------------------------------------
  // analyze_sentiment: mean, categories and their counts, top five by score

  datatype Category = PositiveCategory | NegativeCategory | NeutralCategory

  /** The key under which a category is counted. */
  function CategoryName(c: Category): string
  {
    match c
    case PositiveCategory => "positive"
    case NegativeCategory => "negative"
    case NeutralCategory => "neutral"
  }

  /** Distinct categories are counted under distinct keys. */
  lemma CategoryNameInjective(c: Category, d: Category)
    requires CategoryName(c) == CategoryName(d)
    ensures c == d
  {
    assert CategoryName(c)[0] == CategoryName(d)[0] && CategoryName(c)[2] == CategoryName(d)[2];
  }

  function CategoryOf(x: real): (c: Category)
    ensures c == PositiveCategory <==> x > 0.0
    ensures c == NegativeCategory <==> x < 0.0
    ensures c == NeutralCategory <==> x == 0.0
  {
    if x > 0.0 then PositiveCategory else if x < 0.0 then NegativeCategory else NeutralCategory
  }

  /** A row once the `sentiment_category` column has been added. */
  datatype CategorizedPost = CategorizedPost(post: PostRecord, category: Category)

  function Categorize(posts: seq<PostRecord>): (r: seq<CategorizedPost>)
    ensures |r| == |posts|
    ensures forall i :: 0 <= i < |posts| ==> r[i].post == posts[i]
    ensures forall i :: 0 <= i < |posts| ==> r[i].category == CategoryOf(posts[i].sentiment)
  {
    seq(|posts|, i requires 0 <= i < |posts| => CategorizedPost(posts[i], CategoryOf(posts[i].sentiment)))
  }

  function Sentiments(posts: seq<PostRecord>): (r: seq<real>)
    ensures |r| == |posts| && forall i :: 0 <= i < |posts| ==> r[i] == posts[i].sentiment
  {
    seq(|posts|, i requires 0 <= i < |posts| => posts[i].sentiment as real)
  }

  function CountCategory(posts: seq<PostRecord>, c: Category): nat
    decreases |posts|
  {
    if posts == [] then 0
    else (if CategoryOf(posts[0].sentiment) == c then 1 else 0) + CountCategory(posts[1..], c)
  }

  /** `value_counts().to_dict()`: only the categories that occur, with their counts. */
  function Distribution(posts: seq<PostRecord>): map<string, nat>
  {
    WithCount(WithCount(WithCount(map[], posts, PositiveCategory), posts, NegativeCategory),
              posts, NeutralCategory)
  }

  /** Adds a category's count under its key when the category occurs. */
  function WithCount(m: map<string, nat>, posts: seq<PostRecord>, c: Category): map<string, nat>
  {
    if CountCategory(posts, c) > 0 then m[CategoryName(c) := CountCategory(posts, c)] else m
  }

  /** The count stored under a category's key, 0 when the key is absent. */
  function CountOr0(d: map<string, nat>, c: Category): nat
  {
    if CategoryName(c) in d then d[CategoryName(c)] else 0
  }

  lemma {:induction false} CountsAddUp(posts: seq<PostRecord>)
    ensures CountCategory(posts, PositiveCategory) + CountCategory(posts, NegativeCategory)
            + CountCategory(posts, NeutralCategory) == |posts|
    decreases |posts|
  {
    if posts != [] {
      CountsAddUp(posts[1..]);
    }
  }

  lemma {:induction false} CountPositive(posts: seq<PostRecord>, c: Category)
    ensures CountCategory(posts, c) > 0 <==>
              exists i :: 0 <= i < |posts| && CategoryOf(posts[i].sentiment) == c
    decreases |posts|
  {
    if posts != [] {
      CountPositive(posts[1..], c);
      assert forall i :: 1 <= i < |posts| ==> posts[i] == posts[1..][i - 1];
      if CountCategory(posts[1..], c) > 0 {
        var i :| 0 <= i < |posts[1..]| && CategoryOf(posts[1..][i].sentiment) == c;
        assert CategoryOf(posts[i + 1].sentiment) == c;
      }
    }
  }

  /** The distribution holds exactly the categories that occur, and its counts
      add up to the number of posts. */
  lemma DistributionSpec(posts: seq<PostRecord>)
    ensures forall k :: k in Distribution(posts) ==> exists c :: k == CategoryName(c)
    ensures forall c :: CategoryName(c) in Distribution(posts) <==>
              exists i :: 0 <= i < |posts| && CategoryOf(posts[i].sentiment) == c
    ensures forall c :: CategoryName(c) in Distribution(posts) ==>
              Distribution(posts)[CategoryName(c)] == CountCategory(posts, c)
    ensures CountOr0(Distribution(posts), PositiveCategory) + CountOr0(Distribution(posts), NegativeCategory)
            + CountOr0(Distribution(posts), NeutralCategory) == |posts|
  {
    CountsAddUp(posts);
    forall c ensures && (CategoryName(c) in Distribution(posts) <==>
                          exists i :: 0 <= i < |posts| && CategoryOf(posts[i].sentiment) == c)
                     && (CategoryName(c) in Distribution(posts) ==>
                          Distribution(posts)[CategoryName(c)] == CountCategory(posts, c))
                     && CountOr0(Distribution(posts), c) == CountCategory(posts, c)
    {
      DistributionAt(posts, c);
      CountPositive(posts, c);
    }
  }

  /** The entry stored under one category's key. */
  lemma DistributionAt(posts: seq<PostRecord>, c: Category)
    ensures CategoryName(c) in Distribution(posts) <==> CountCategory(posts, c) > 0
    ensures CategoryName(c) in Distribution(posts) ==>
              Distribution(posts)[CategoryName(c)] == CountCategory(posts, c)
    ensures CountOr0(Distribution(posts), c) == CountCategory(posts, c)
  {
    forall c' | c' != c ensures CategoryName(c') != CategoryName(c) {
      if CategoryName(c') == CategoryName(c) {
        CategoryNameInjective(c, c');
      }
    }
  }

  /** Inserts `x` before the first entry whose score is not above its own,
      so earlier posts stay ahead of later ones with the same score. */
  function InsertByScore(x: CategorizedPost, s: seq<CategorizedPost>): (r: seq<CategorizedPost>)
    ensures |r| == |s| + 1 && multiset(r) == multiset(s) + multiset{x}
    decreases |s|
  {
    if s == [] || s[0].post.score <= x.post.score then [x] + s
    else
      assert s == [s[0]] + s[1..];
      [s[0]] + InsertByScore(x, s[1..])
  }

  ghost predicate SortedByScore(s: seq<CategorizedPost>)
  {
    forall i, j :: 0 <= i < j < |s| ==> s[i].post.score >= s[j].post.score
  }

  lemma {:induction false} InsertKeepsSorted(x: CategorizedPost, s: seq<CategorizedPost>)
    requires SortedByScore(s)
    ensures SortedByScore(InsertByScore(x, s))
    decreases |s|
  {
    if s != [] && s[0].post.score > x.post.score {
      var rest := InsertByScore(x, s[1..]);
      InsertKeepsSorted(x, s[1..]);
      InsertBelow(x, s[1..], s[0].post.score);
      assert InsertByScore(x, s) == [s[0]] + rest;
    }
  }

  /** Inserting below a bound keeps every score below it. */
  lemma {:induction false} InsertBelow(x: CategorizedPost, s: seq<CategorizedPost>, bound: int)
    requires x.post.score <= bound && forall i :: 0 <= i < |s| ==> s[i].post.score <= bound
    ensures forall i :: 0 <= i < |InsertByScore(x, s)| ==> InsertByScore(x, s)[i].post.score <= bound
    decreases |s|
  {
    if s != [] && s[0].post.score > x.post.score {
      InsertBelow(x, s[1..], bound);
      assert InsertByScore(x, s) == [s[0]] + InsertByScore(x, s[1..]);
    }
  }

  /** A stable sort by score, highest first. */
  function SortByScore(s: seq<CategorizedPost>): (r: seq<CategorizedPost>)
    ensures SortedByScore(r) && multiset(r) == multiset(s) && |r| == |s|
    decreases |s|
  {
    if s == [] then []
    else
      assert s == [s[0]] + s[1..];
      var rest := SortByScore(s[1..]);
      InsertKeepsSorted(s[0], rest);
      InsertByScore(s[0], rest)
  }

  /** `nlargest(5, 'score')`. */
  function TopPosts(s: seq<CategorizedPost>): seq<CategorizedPost>
  {
    var sorted := SortByScore(s);
    sorted[..if |sorted| < 5 then |sorted| else 5]
  }

  lemma SortedTail(sorted: seq<CategorizedPost>, n: nat)
    requires SortedByScore(sorted) && n <= |sorted|
    ensures SortedByScore(sorted[..n])
    ensures multiset(sorted[..n]) <= multiset(sorted)
    ensures multiset(sorted) - multiset(sorted[..n]) == multiset(sorted[n..])
    ensures forall p, i :: p in multiset(sorted[n..]) && 0 <= i < n ==>
              p.post.score <= sorted[i].post.score
  {
    assert sorted == sorted[..n] + sorted[n..];
    forall p, i | p in multiset(sorted[n..]) && 0 <= i < n
      ensures p.post.score <= sorted[i].post.score
    {
      var k :| 0 <= k < |sorted[n..]| && sorted[n..][k] == p;
      assert sorted[n + k] == p;
    }
  }

  lemma OmittedInTail(s: seq<CategorizedPost>, sorted: seq<CategorizedPost>, n: nat, p: CategorizedPost)
    requires multiset(sorted) == multiset(s) && n <= |sorted|
    requires p in s && p !in sorted[..n]
    ensures p in multiset(sorted[n..])
  {
    assert p in multiset(s);
    assert sorted == sorted[..n] + sorted[n..];
  }

  /** The top posts are min(5, n) of the posts, highest score first, and no
      post left out scores higher than any post kept. */
  lemma TopPostsSpec(s: seq<CategorizedPost>)
    ensures |TopPosts(s)| == if |s| < 5 then |s| else 5
    ensures SortedByScore(TopPosts(s))
    ensures multiset(TopPosts(s)) <= multiset(s)
    ensures forall p, i :: p in s && p !in TopPosts(s) && 0 <= i < |TopPosts(s)| ==>
              p.post.score <= TopPosts(s)[i].post.score
  {
    var sorted := SortByScore(s);
    var n := if |sorted| < 5 then |sorted| else 5;
    var top := sorted[..n];
    assert TopPosts(s) == top;
    SortedTail(sorted, n);
    forall p, i | p in s && p !in top && 0 <= i < |top|
      ensures p.post.score <= top[i].post.score
    {
      OmittedInTail(s, sorted, n, p);
    }
  }

  /** What `analyze_sentiment` returns. */
  datatype Analysis =
    | Failed(error: string)
    | Analysis(averageSentiment: real, postCount: nat,
               distribution: map<string, nat>, topPosts: seq<CategorizedPost>)

  /** `analyze_sentiment` on the posts already fetched for `symbol`. */
  function AnalyzeSentiment(symbol: string, posts: seq<PostRecord>): (r: Analysis)
    ensures |posts| == 0 <==> r.Failed?
    ensures r.Failed? ==> Contains(r.error, symbol)
    ensures r.Analysis? ==> r.postCount == |posts| && -1.0 <= r.averageSentiment <= 1.0
  {
    if |posts| == 0 then
      var e := "No Reddit posts found for " + symbol;
      assert OccursAt(e, symbol, 26) by { assert e[26..26 + |symbol|] == symbol; }
      Failed(e)
    else
      var avg := Mean(Sentiments(posts));
      MeanBounds(Sentiments(posts), -1.0, 1.0);
      Analysis(avg, |posts|, Distribution(posts), TopPosts(Categorize(posts)))
  }

  /** On a non-empty batch the average is the arithmetic mean of the post
      sentiments, in the order the posts arrived. */
  lemma AnalyzeSentimentMean(symbol: string, posts: seq<PostRecord>)
    requires |posts| > 0
    ensures AnalyzeSentiment(symbol, posts).averageSentiment == Mean(Sentiments(posts))
    ensures forall i :: 0 <= i < |posts| ==> Sentiments(posts)[i] == posts[i].sentiment
  {
  }

  /** On a non-empty batch the distribution holds exactly the categories that
      occur and adds up to the post count, and the top posts are the best
      five by score. */
  lemma AnalyzeSentimentSpec(symbol: string, posts: seq<PostRecord>)
    requires |posts| > 0
    ensures forall c :: CategoryName(c) in AnalyzeSentiment(symbol, posts).distribution <==>
              exists i :: 0 <= i < |posts| && CategoryOf(posts[i].sentiment) == c
    ensures var d := AnalyzeSentiment(symbol, posts).distribution;
      CountOr0(d, PositiveCategory) + CountOr0(d, NegativeCategory) + CountOr0(d, NeutralCategory) == |posts|
    ensures AnalyzeSentiment(symbol, posts).topPosts == TopPosts(Categorize(posts))
  {
    DistributionSpec(posts);
  }
}
