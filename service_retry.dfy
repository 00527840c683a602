/**
 * How the application builds its retrier (app/internal/app/utils.go): the
 * configured attempt count, the service's error classifier, and the
 * exponential schedule when the configuration asks for it.
 */
module ServiceRetry {
  import opened Wrappers
  import opened Errors
  import opened Backoff
  import opened Retry

  /** config.Retry. */
  datatype RetryConfig = RetryConfig(backoff: string, maxAttempts: int, jitter: real)

  /** The errors the service never retries, in the order utils.go lists them
      (ErrNotFound appears twice). */
  const Unretryable: seq<Error> := [Duplicate, ErrNotFound, InvalidID, ForeignKeyViolation, ErrNotFound]

  /** An error is worth retrying unless it is, or wraps, a duplicate, a missing
      row, an invalid id or a foreign-key violation. */
  predicate Retryable(err: Option<Error>)
  {
    !(Is(err, Duplicate) || Is(err, ErrNotFound) || Is(err, InvalidID) || Is(err, ForeignKeyViolation))
  }

  /** isRetryableFunc: scans the list with errors.Is. */
  method IsRetryableFunc(err: Option<Error>) returns (retryable: bool)
    ensures retryable == Retryable(err)
  {
    var i := 0;
    while i < |Unretryable|
      invariant i <= |Unretryable|
      invariant forall j :: 0 <= j < i ==> !Is(err, Unretryable[j])
    {
      if Is(err, Unretryable[i]) {
        return false;
      }
      i := i + 1;
    }
    assert !Is(err, Unretryable[0]) && !Is(err, Unretryable[1]);
    assert !Is(err, Unretryable[2]) && !Is(err, Unretryable[3]);
    return true;
  }

  /** The classifier the application installs. */
  const ServiceClassifier: Classifier := (e: Option<Error>) => Retryable(e)

  /** The exponential schedule the configuration can select. */
  function ServiceExponential(jitter: real): Strategy
  {
    Exponential(Second, 2.0, 10 * Second, jitter)
  }

  /** The options newServiceRetrier passes to New, in order. */
  function ServiceOptions(cfg: RetryConfig, classifier: Option<Classifier>): (opts: seq<RetryOption>)
    ensures 1 <= |opts| <= 3 && opts[0] == WithMaxAttempts(cfg.maxAttempts)
  {
    [WithMaxAttempts(cfg.maxAttempts)]
    + (if classifier.Some? then [WithIsRetryableFunc(classifier)] else [])
    + (if cfg.backoff == "exponential" then [WithBackoff(ServiceExponential(cfg.jitter))] else [])
  }

  /** The resulting settings: the configured attempt count; the exponential
      schedule exactly when configured, else the default linear one; the given
      classifier, else the default one. */
  lemma {:induction false} ServiceSettings(cfg: RetryConfig, classifier: Option<Classifier>)
    ensures var s := Configure(Defaults(), ServiceOptions(cfg, classifier));
            s.maxAttempts == cfg.maxAttempts &&
            s.backoff == (if cfg.backoff == "exponential" then ServiceExponential(cfg.jitter) else DefaultBackoff) &&
            s.isRetryable == (if classifier.Some? then classifier else Some(DefaultIsRetryable))
  {
    var opts := ServiceOptions(cfg, classifier);
    LastMaxAttemptsWins(Defaults(), opts, 0);
    UnnamedFieldsKept(Defaults(), opts);
    if classifier.Some? && cfg.backoff == "exponential" {
      assert opts == [WithMaxAttempts(cfg.maxAttempts), WithIsRetryableFunc(classifier), WithBackoff(ServiceExponential(cfg.jitter))];
      assert opts[..2][..1] == [WithMaxAttempts(cfg.maxAttempts)];
    } else if classifier.Some? {
      assert opts == [WithMaxAttempts(cfg.maxAttempts), WithIsRetryableFunc(classifier)];
    } else if cfg.backoff == "exponential" {
      assert opts == [WithMaxAttempts(cfg.maxAttempts), WithBackoff(ServiceExponential(cfg.jitter))];
    }
  }

  /** newServiceRetrier. */
  method NewServiceRetrier(cfg: RetryConfig, classifier: Option<Classifier>) returns (r: Retrier)
    ensures fresh(r)
    ensures r.Config() == Configure(Defaults(), ServiceOptions(cfg, classifier))
  {
    r := new Retrier.New(ServiceOptions(cfg, classifier));
  }

  /** Store errors that wrapDBError maps to sentinels are terminal, also
      under a further %w wrapper. */
  lemma StoreErrorsTerminal(msg: string, m: string)
    ensures !Retryable(WrapDBError(Some(NoRows)))
    ensures !Retryable(WrapDBError(Some(PgError(UniqueViolation, m))))
    ensures !Retryable(WrapDBError(Some(PgError(ForeignKeyViolationCode, m))))
    ensures !Retryable(Some(Wrapped(msg, WrapDBError(Some(NoRows)))))
  {
    assert ChainHas(ErrNotFound, ErrNotFound);
  }

  /** nil, transient failures, ErrNilValue and ErrNoRowsAffected are retried. */
  lemma OtherErrorsRetried(d: string)
    ensures Retryable(None)
    ensures Retryable(Some(Transient(d)))
    ensures Retryable(Some(NilValue))
    ensures Retryable(Some(NoRowsAffected))
  {
  }

  /** With the service's classifier, the retrier as written calls an attempt
      that always succeeds maxAttempts times and then reports
      "all attempts failed: <nil>": the classifier sees the nil error of the
      successful attempt and deems it retryable. */
  lemma {:induction false} AsWrittenRepeatsSuccess(s: Settings, f: AttemptFunc, u: Draws, attempt: nat)
    requires s.isRetryable == Some(ServiceClassifier)
    requires forall j :: f(j).None?
    requires attempt <= s.maxAttempts
    ensures var o := Attempts(AsWritten, s, Background, f, u, attempt, None);
            o.result == Some(Wrapped("all attempts failed", None)) && o.calls == s.maxAttempts
    decreases s.maxAttempts - attempt
  {
    if attempt < s.maxAttempts {
      assert ServiceClassifier(f(attempt));
      AsWrittenRepeatsSuccess(s, f, u, attempt + 1);
    }
  }
}
