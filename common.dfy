/** Shared vocabulary of the sentiment engine: optional values (pandas NaN),
    the polarity range of the lexicon scorers, the trend label and its
    fixed thresholds, and exact arithmetic means over reals. */
module Common {

  /** A value that may be missing; `None` stands for a pandas NaN. */
  datatype Option<T> = None | Some(value: T)

  /** What the lexicon scorers (VADER compound, TextBlob polarity) return. */
  type Polarity = r: real | -1.0 <= r <= 1.0

  /** The coarse directional label. */
  datatype Label = Bullish | Bearish | Neutral

  /** The fixed decision rule: above 0.2 is Bullish, below -0.2 Bearish,
      and the closed interval [-0.2, 0.2] Neutral. */
  function Classify(v: real): (l: Label)
    ensures l == Bullish <==> v > 0.2
    ensures l == Bearish <==> v < -0.2
    ensures l == Neutral <==> -0.2 <= v <= 0.2
  {
    if v > 0.2 then Bullish
    else if v < -0.2 then Bearish
    else Neutral
  }

  lemma ClassifyExamples()
    ensures Classify(0.25) == Bullish
    ensures Classify(-0.3) == Bearish
    ensures Classify(0.0) == Neutral
    ensures Classify(0.2) == Neutral && Classify(-0.2) == Neutral
  {
  }

  function Sum(s: seq<real>): real
  {
    if s == [] then 0.0 else s[0] + Sum(s[1..])
  }

  /** Arithmetic mean, as pandas' `mean()` computes it on exact reals. */
  function Mean(s: seq<real>): real
    requires |s| > 0
  {
    Sum(s) / |s| as real
  }

  lemma {:induction false} SumAppend(a: seq<real>, b: seq<real>)
    ensures Sum(a + b) == Sum(a) + Sum(b)
    decreases |a|
  {
    if a == [] {
      assert a + b == b;
    } else {
      assert (a + b)[1..] == a[1..] + b;
      SumAppend(a[1..], b);
    }
  }

  /** Removing one entry from a sequence takes exactly that entry off its sum. */
  lemma {:induction false} SumRemove(b: seq<real>, j: nat)
    requires j < |b|
    ensures Sum(b) == b[j] + Sum(b[..j] + b[j + 1..])
    decreases j
  {
    if j == 0 {
      assert b[..0] + b[1..] == b[1..];
    } else {
      var tail := b[1..];
      SumRemove(tail, j - 1);
      var rest := tail[..j - 1] + tail[j..];
      assert b[..j] + b[j + 1..] == [b[0]] + rest;
      assert Sum([b[0]] + rest) == b[0] + Sum(rest);
    }
  }

  /** The sum, and so the mean, depends only on the multiset of values:
      the order in which items arrive does not matter. */
  lemma {:induction false} SumPermutation(a: seq<real>, b: seq<real>)
    requires multiset(a) == multiset(b)
    ensures Sum(a) == Sum(b)
    decreases |a|
  {
    if a == [] {
      assert |b| == |multiset(b)| == 0;
    } else {
      var x := a[0];
      assert x in multiset(b);
      var j :| 0 <= j < |b| && b[j] == x;
      var rest := b[..j] + b[j + 1..];
      MultisetRemove(b, j);
      assert a == [x] + a[1..];
      assert multiset(a[1..]) == multiset(a) - multiset{x};
      SumPermutation(a[1..], rest);
      SumRemove(b, j);
    }
  }

  lemma MultisetRemove<T>(b: seq<T>, j: nat)
    requires j < |b|
    ensures multiset(b[..j] + b[j + 1..]) == multiset(b) - multiset{b[j]}
  {
    assert b == b[..j] + [b[j]] + b[j + 1..];
  }

  lemma MeanPermutation(a: seq<real>, b: seq<real>)
    requires |a| > 0 && multiset(a) == multiset(b)
    ensures |b| > 0 && Mean(a) == Mean(b)
  {
    assert |a| == |multiset(a)| == |multiset(b)| == |b|;
    SumPermutation(a, b);
  }

  lemma {:induction false} SumBounds(s: seq<real>, lo: real, hi: real)
    requires forall i :: 0 <= i < |s| ==> lo <= s[i] <= hi
    ensures |s| as real * lo <= Sum(s) <= |s| as real * hi
    decreases |s|
  {
    if s != [] {
      SumBounds(s[1..], lo, hi);
    }
  }

  /** A mean of values in [lo, hi] lies in [lo, hi]. */
  lemma MeanBounds(s: seq<real>, lo: real, hi: real)
    requires |s| > 0
    requires forall i :: 0 <= i < |s| ==> lo <= s[i] <= hi
    ensures lo <= Mean(s) <= hi
  {
    SumBounds(s, lo, hi);
    var n := |s| as real;
    assert n * lo <= Sum(s) <= n * hi;
    assert Sum(s) / n >= lo by {
      assert Sum(s) >= lo * n;
    }
    assert Sum(s) / n <= hi by {
      assert Sum(s) <= hi * n;
    }
  }
}
