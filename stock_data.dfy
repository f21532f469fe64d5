/** `StockDataFetcher.get_stock_data`: a bounded retry loop around one price
    lookup. The provider is a script of per-attempt outcomes; sleeping is
    recorded as a trace of the delays passed to `time.sleep`. */
module StockData {
  import opened Common
  import opened Text

  /** What the price lookup of one attempt produced. */
  datatype InfoOutcome =
    | Price(price: real, currency: Option<string>)  // `currentPrice` present
    | NoPrice                                       // `currentPrice` missing or None
    | HttpError(status: int, message: string)       // an HTTP error with its status code
    | OtherError(message: string)                   // any other exception

  /** The dictionary the fetcher returns when it returns one. */
  datatype FetchResult = Success(currentPrice: real, currency: string) | Failure(error: string)

  /** How a single attempt ends. */
  datatype Step = Fetched(price: real, currency: string) | RateLimitRetry | Raised(message: string)

  /** The observable outcome of a call: the returned value (`None` when the
      function falls off the end of its loop) and how many attempts began. */
  datatype Run = Run(result: Option<FetchResult>, attempts: nat)

  const DefaultCurrency: string := "USD"
  const RateLimitExceeded: string := "Rate limit exceeded"
  const RateLimitMessage: string := RateLimitExceeded + ". Please try again later."
  /** What `time.sleep` raises for a negative delay. */
  const NegativeSleepMessage: string := "sleep length must be non-negative"

  function MissingPriceMessage(symbol: string): string
  {
    "Could not get current price for " + symbol
  }

  /** The error text of the failure result. */
  function FailureMessage(symbol: string, maxRetries: nat, last: string): (m: string)
    ensures Contains(m, symbol) && Contains(m, NatToString(maxRetries))
    ensures |m| >= |last| && m[|m| - |last|..] == last
  {
    var pre := "Failed to fetch stock data for ";
    var mid := " after " + NatToString(maxRetries) + " attempts: ";
    var m := pre + symbol + mid + last;
    assert OccursAt(m, symbol, |pre|) by {
      assert m[|pre|..|pre| + |symbol|] == symbol;
    }
    assert OccursAt(m, NatToString(maxRetries), |pre| + |symbol| + 7) by {
      assert m[|pre| + |symbol| + 7..|pre| + |symbol| + 7 + |NatToString(maxRetries)|]
          == NatToString(maxRetries);
    }
    assert m[|m| - |last|..] == last;
    m
  }

  /** Attempt number `attempt`: a sleep first unless it is the first attempt
      (a negative delay makes the sleep raise), then the lookup. A 429 skips
      to the next attempt, except on the last one where it becomes an error. */
  function AttemptStep(symbol: string, maxRetries: int, retryDelay: int,
                       outcome: InfoOutcome, attempt: nat): Step
  {
    if attempt > 0 && retryDelay < 0 then Raised(NegativeSleepMessage)
    else
      match outcome
      case Price(p, c) => Fetched(p, if c.Some? then c.value else DefaultCurrency)
      case NoPrice => Raised(MissingPriceMessage(symbol))
      case HttpError(status, m) =>
        if status == 429 then
          if attempt == maxRetries - 1 then Raised(RateLimitMessage) else RateLimitRetry
        else Raised(m)
      case OtherError(m) => Raised(m)
  }

  /** The loop from attempt `attempt` on. */
  function RunFrom(symbol: string, maxRetries: int, retryDelay: int,
                   provider: nat -> InfoOutcome, attempt: nat): Run
    decreases maxRetries - attempt
  {
    if attempt >= maxRetries then Run(None, attempt)
    else
      match AttemptStep(symbol, maxRetries, retryDelay, provider(attempt), attempt)
      case Fetched(p, c) => Run(Some(Success(p, c)), attempt + 1)
      case RateLimitRetry => RunFrom(symbol, maxRetries, retryDelay, provider, attempt + 1)
      case Raised(m) =>
        if attempt == maxRetries - 1 then
          Run(Some(Failure(FailureMessage(symbol, maxRetries, m))), attempt + 1)
        else RunFrom(symbol, maxRetries, retryDelay, provider, attempt + 1)
  }

  function FetchRun(symbol: string, maxRetries: int, retryDelay: int,
                    provider: nat -> InfoOutcome): Run
  {
    RunFrom(symbol, maxRetries, retryDelay, provider, 0)
  }

  /** `get_stock_data`. `provider(k)` is what the lookup yields on attempt k;
      `sleeps` lists the delays passed to `time.sleep`, in order. */
  method GetStockData(symbol: string, maxRetries: int, retryDelay: int,
                      provider: nat -> InfoOutcome)
    returns (result: Option<FetchResult>, attempts: nat, sleeps: seq<int>)
    ensures Run(result, attempts) == FetchRun(symbol, maxRetries, retryDelay, provider)
    ensures |sleeps| == if attempts == 0 then 0 else attempts - 1
    ensures forall k :: 0 <= k < |sleeps| ==> sleeps[k] == retryDelay
  {
    result, attempts, sleeps := None, 0, [];
    var attempt: nat := 0;
    while attempt < maxRetries
      invariant attempts == attempt
      invariant |sleeps| == if attempt == 0 then 0 else attempt - 1
      invariant forall k :: 0 <= k < |sleeps| ==> sleeps[k] == retryDelay
      invariant RunFrom(symbol, maxRetries, retryDelay, provider, attempt)
                == FetchRun(symbol, maxRetries, retryDelay, provider)
      decreases maxRetries - attempt
    {
      attempts := attempts + 1;
      var error := "";
      var raised := false;
      if attempt > 0 {
        sleeps := sleeps + [retryDelay];
        if retryDelay < 0 {
          raised, error := true, NegativeSleepMessage;
        }
      }
      if !raised {
        match provider(attempt)
        case Price(p, c) =>
          result := Some(Success(p, if c.Some? then c.value else DefaultCurrency));
          return;
        case NoPrice =>
          raised, error := true, MissingPriceMessage(symbol);
        case HttpError(status, m) =>
          if status == 429 {
            if attempt == maxRetries - 1 {
              raised, error := true, RateLimitMessage;
            } else {
              attempt := attempt + 1;
              continue;
            }
          } else {
            raised, error := true, m;
          }
        case OtherError(m) =>
          raised, error := true, m;
      }
      // the outer handler: give up on the last attempt, otherwise go round
      if attempt == maxRetries - 1 {
        result := Some(Failure(FailureMessage(symbol, maxRetries, error)));
        return;
      }
      attempt := attempt + 1;
    }
  }

  predicate Fetches(symbol: string, maxRetries: int, retryDelay: int,
                    provider: nat -> InfoOutcome, k: nat)
  {
    AttemptStep(symbol, maxRetries, retryDelay, provider(k), k).Fetched?
  }

  /** From any attempt before the last bound, the loop returns a value, after
      at least one more and at most `maxRetries` attempts in all. */
  lemma {:induction false} RunFromReturns(symbol: string, maxRetries: int, retryDelay: int,
                                          provider: nat -> InfoOutcome, k: nat)
    requires k < maxRetries
    ensures RunFrom(symbol, maxRetries, retryDelay, provider, k).result.Some?
    ensures k < RunFrom(symbol, maxRetries, retryDelay, provider, k).attempts <= maxRetries
    decreases maxRetries - k
  {
    var step := AttemptStep(symbol, maxRetries, retryDelay, provider(k), k);
    if !step.Fetched? && k < maxRetries - 1 {
      RunFromReturns(symbol, maxRetries, retryDelay, provider, k + 1);
    }
  }

  /** With at least one attempt allowed a dictionary is always returned and
      at most `maxRetries` attempts are made; with none, nothing is attempted
      and the function returns None. */
  lemma FetchRunBounds(symbol: string, maxRetries: int, retryDelay: int,
                       provider: nat -> InfoOutcome)
    ensures maxRetries <= 0 ==> FetchRun(symbol, maxRetries, retryDelay, provider) == Run(None, 0)
    ensures maxRetries >= 1 ==>
              FetchRun(symbol, maxRetries, retryDelay, provider).result.Some? &&
              1 <= FetchRun(symbol, maxRetries, retryDelay, provider).attempts <= maxRetries
  {
    if maxRetries >= 1 {
      RunFromReturns(symbol, maxRetries, retryDelay, provider, 0);
    }
  }

  /** The first attempt that fetches a price decides the result, and no
      attempt follows it. */
  lemma {:induction false} RunFromFirstSuccess(symbol: string, maxRetries: int, retryDelay: int,
                                               provider: nat -> InfoOutcome, from: nat, k: nat)
    requires from <= k < maxRetries
    requires Fetches(symbol, maxRetries, retryDelay, provider, k)
    requires forall j :: from <= j < k ==> !Fetches(symbol, maxRetries, retryDelay, provider, j)
    ensures var step := AttemptStep(symbol, maxRetries, retryDelay, provider(k), k);
      RunFrom(symbol, maxRetries, retryDelay, provider, from)
        == Run(Some(Success(step.price, step.currency)), k + 1)
    decreases k - from
  {
    if from < k {
      assert !Fetches(symbol, maxRetries, retryDelay, provider, from);
      RunFromFirstSuccess(symbol, maxRetries, retryDelay, provider, from + 1, k);
    }
  }

  /** When no attempt fetches a price, exactly `maxRetries` attempts are made
      and the failure names the symbol, `maxRetries` and the last error. */
  lemma {:induction false} RunFromAllFail(symbol: string, maxRetries: int, retryDelay: int,
                                          provider: nat -> InfoOutcome, from: nat)
    requires from < maxRetries
    requires forall j :: from <= j < maxRetries ==> !Fetches(symbol, maxRetries, retryDelay, provider, j)
    ensures AttemptStep(symbol, maxRetries, retryDelay, provider(maxRetries - 1), maxRetries - 1).Raised?
    ensures RunFrom(symbol, maxRetries, retryDelay, provider, from) ==
              Run(Some(Failure(FailureMessage(symbol, maxRetries,
                AttemptStep(symbol, maxRetries, retryDelay, provider(maxRetries - 1), maxRetries - 1).message))),
                maxRetries)
    decreases maxRetries - from
  {
    assert !Fetches(symbol, maxRetries, retryDelay, provider, maxRetries - 1);
    if from < maxRetries - 1 {
      assert !Fetches(symbol, maxRetries, retryDelay, provider, from);
      RunFromAllFail(symbol, maxRetries, retryDelay, provider, from + 1);
    }
  }

  /** The call succeeds exactly when some allowed attempt fetches a price. */
  lemma FetchSucceedsIff(symbol: string, maxRetries: int, retryDelay: int,
                         provider: nat -> InfoOutcome)
    ensures (exists k :: 0 <= k < maxRetries && Fetches(symbol, maxRetries, retryDelay, provider, k))
        <==> (FetchRun(symbol, maxRetries, retryDelay, provider).result.Some? &&
              FetchRun(symbol, maxRetries, retryDelay, provider).result.value.Success?)
  {
    if exists k :: 0 <= k < maxRetries && Fetches(symbol, maxRetries, retryDelay, provider, k) {
      var k := FirstFetch(symbol, maxRetries, retryDelay, provider);
      RunFromFirstSuccess(symbol, maxRetries, retryDelay, provider, 0, k);
    } else if maxRetries >= 1 {
      RunFromAllFail(symbol, maxRetries, retryDelay, provider, 0);
    }
  }

  /** The earliest attempt that fetches a price, when there is one. */
  lemma FirstFetch(symbol: string, maxRetries: int, retryDelay: int,
                   provider: nat -> InfoOutcome) returns (k: nat)
    requires exists k :: 0 <= k < maxRetries && Fetches(symbol, maxRetries, retryDelay, provider, k)
    ensures k < maxRetries && Fetches(symbol, maxRetries, retryDelay, provider, k)
    ensures forall j :: 0 <= j < k ==> !Fetches(symbol, maxRetries, retryDelay, provider, j)
  {
    var n :| 0 <= n < maxRetries && Fetches(symbol, maxRetries, retryDelay, provider, n);
    k := n;
    while exists j :: 0 <= j < k && Fetches(symbol, maxRetries, retryDelay, provider, j)
      invariant k < maxRetries && Fetches(symbol, maxRetries, retryDelay, provider, k)
      decreases k
    {
      var j :| 0 <= j < k && Fetches(symbol, maxRetries, retryDelay, provider, j);
      k := j;
    }
  }

  /** A 429 on the final attempt, after no success, fails with the rate-limit
      text inside the error. */
  lemma RateLimitOnLastAttempt(symbol: string, maxRetries: int, retryDelay: int,
                               provider: nat -> InfoOutcome, m: string)
    requires maxRetries >= 1 && (maxRetries == 1 || retryDelay >= 0)
    requires provider(maxRetries - 1) == HttpError(429, m)
    requires forall j :: 0 <= j < maxRetries - 1 ==> !Fetches(symbol, maxRetries, retryDelay, provider, j)
    ensures FetchRun(symbol, maxRetries, retryDelay, provider) ==
              Run(Some(Failure(FailureMessage(symbol, maxRetries, RateLimitMessage))), maxRetries)
    ensures Contains(FetchRun(symbol, maxRetries, retryDelay, provider).result.value.error,
                     RateLimitExceeded)
  {
    RunFromAllFail(symbol, maxRetries, retryDelay, provider, 0);
    var e := FailureMessage(symbol, maxRetries, RateLimitMessage);
    var i := |e| - |RateLimitMessage|;
    assert e[i..] == RateLimitMessage;
    assert RateLimitMessage[..|RateLimitExceeded|] == RateLimitExceeded;
    assert e[i..i + |RateLimitExceeded|] == e[i..][..|RateLimitExceeded|];
    assert OccursAt(e, RateLimitExceeded, i);
  }

  /** A 429 on an earlier attempt goes straight to the next attempt: the call
      behaves as if it had started there. */
  lemma RateLimitSkipsAhead(symbol: string, maxRetries: int, retryDelay: int,
                            provider: nat -> InfoOutcome, k: nat, m: string)
    requires k < maxRetries - 1 && (k == 0 || retryDelay >= 0)
    requires provider(k) == HttpError(429, m)
    ensures RunFrom(symbol, maxRetries, retryDelay, provider, k) ==
              RunFrom(symbol, maxRetries, retryDelay, provider, k + 1)
  {
  }

  /** Two failures and then a price, with three attempts allowed: success on
      the third attempt, after two sleeps. */
  method FailFailSucceed() returns (result: Option<FetchResult>, attempts: nat, sleeps: seq<int>)
    ensures result == Some(Success(187.5, "USD")) && attempts == 3 && sleeps == [5, 5]
  {
    var provider := (k: nat) =>
      if k == 0 then OtherError("timeout")
      else if k == 1 then HttpError(429, "Too Many Requests")
      else Price(187.5, None);
    result, attempts, sleeps := GetStockData("AAPL", 3, 5, provider);
    assert AttemptStep("AAPL", 3, 5, provider(1), 1) == RateLimitRetry;
  }

  /** An always-failing provider with three attempts allowed: a failure after
      exactly three attempts, naming the last error. */
  method AlwaysFail() returns (result: Option<FetchResult>, attempts: nat, sleeps: seq<int>)
    ensures result == Some(Failure(FailureMessage("AAPL", 3, "boom"))) && attempts == 3
    ensures |sleeps| == 2
  {
    var provider := (k: nat) => OtherError("boom");
    result, attempts, sleeps := GetStockData("AAPL", 3, 5, provider);
  }
}
