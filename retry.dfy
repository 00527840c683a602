/**
 * The retrier of app/internal/retry/retry.go.
 *
 * Time is abstracted into ticks of a cancellation oracle: attempt `a` checks
 * `ctx.Err()` at tick 2a and, if it goes on to wait, the wait ends at tick
 * 2a + 1; the context is done from tick `doneAt` on, with error `cause`.
 * The attempt function is a pure oracle from the attempt number to its error,
 * and the jitter draws are an oracle from the attempt number to a Draw.
 */
module Retry {
  import opened Wrappers
  import opened Errors
  import opened Backoff

  /** IsRetryableFunc. */
  type Classifier = Option<Error> -> bool
  /** AttemptFunc: attempt number to its (nil-able) error. */
  type AttemptFunc = nat -> Option<Error>
  type Draws = nat -> Draw

  /** A context.Context as seen by the loop: done from tick `doneAt` on. */
  datatype Context = Context(doneAt: Option<nat>, cause: Error)

  predicate Done(ctx: Context, tick: nat)
  {
    ctx.doneAt.Some? && ctx.doneAt.value <= tick
  }

  /** The context that is never done (context.Background()). */
  const Background: Context := Context(None, Canceled)

  /** The retrier's three fields. */
  datatype Settings = Settings(backoff: Strategy, maxAttempts: int, isRetryable: Option<Classifier>)

  /** A RetryOption sets one field. */
  datatype RetryOption =
    | WithMaxAttempts(n: int)
    | WithBackoff(b: Strategy)
    | WithIsRetryableFunc(f: Option<Classifier>)

  const DefaultAttempts: int := 3
  const DefaultBackoff: Strategy := Linear(Second, Second, 10 * Second, 0.1)
  /** The default classifier retries every non-nil error. */
  const DefaultIsRetryable: Classifier := (e: Option<Error>) => e.Some?

  function Defaults(): Settings
  {
    Settings(DefaultBackoff, DefaultAttempts, Some(DefaultIsRetryable))
  }

  function Apply(s: Settings, opt: RetryOption): Settings
  {
    match opt
    case WithMaxAttempts(n) => s.(maxAttempts := n)
    case WithBackoff(b) => s.(backoff := b)
    case WithIsRetryableFunc(f) => s.(isRetryable := f)
  }

  /** The settings after applying `opts` in order to `s`. */
  function Configure(s: Settings, opts: seq<RetryOption>): Settings
  {
    if |opts| == 0 then s else Apply(Configure(s, opts[..|opts| - 1]), opts[|opts| - 1])
  }

  /** The last option of a kind decides its field. */
  lemma {:induction false} LastMaxAttemptsWins(s: Settings, opts: seq<RetryOption>, i: nat)
    requires i < |opts| && opts[i].WithMaxAttempts?
    requires forall j :: i < j < |opts| ==> !opts[j].WithMaxAttempts?
    ensures Configure(s, opts).maxAttempts == opts[i].n
  {
    if i < |opts| - 1 {
      LastMaxAttemptsWins(s, opts[..|opts| - 1], i);
    }
  }

  /** A field that no option names keeps its value. */
  lemma {:induction false} UnnamedFieldsKept(s: Settings, opts: seq<RetryOption>)
    ensures (forall j :: 0 <= j < |opts| ==> !opts[j].WithMaxAttempts?) ==>
              Configure(s, opts).maxAttempts == s.maxAttempts
    ensures (forall j :: 0 <= j < |opts| ==> !opts[j].WithBackoff?) ==>
              Configure(s, opts).backoff == s.backoff
    ensures (forall j :: 0 <= j < |opts| ==> !opts[j].WithIsRetryableFunc?) ==>
              Configure(s, opts).isRetryable == s.isRetryable
  {
    if |opts| > 0 {
      UnnamedFieldsKept(s, opts[..|opts| - 1]);
    }
  }

  /** Which attempt result ends the loop with nil. As written, line 46 returns
      nil when the attempt FAILED; as intended, when it succeeded. */
  datatype Variant = AsWritten | AsIntended

  predicate Stops(v: Variant, e: Option<Error>)
  {
    if v == AsWritten then e.Some? else e.None?
  }

  /** What one Do call produces: its error, how many times it called f, and
      the backoff delays it started to wait for, in order. */
  datatype Outcome = Outcome(result: Option<Error>, calls: nat, waits: seq<int>)

  function Prepend(w: seq<int>, o: Outcome): Outcome
  {
    Outcome(o.result, o.calls, w + o.waits)
  }

  /** The loop of Retrier.Do from attempt `attempt` on, `err` being the error
      of the previous attempt. */
  function Attempts(v: Variant, s: Settings, ctx: Context, f: AttemptFunc, u: Draws,
                    attempt: nat, err: Option<Error>): Outcome
    decreases if attempt < s.maxAttempts then s.maxAttempts - attempt else 0
  {
    if attempt >= s.maxAttempts then Outcome(Some(Wrapped("all attempts failed", err)), attempt, [])
    else if Done(ctx, 2 * attempt) then Outcome(Some(ctx.cause), attempt, [])
    else
      var e := f(attempt);
      if Stops(v, e) then Outcome(None, attempt + 1, [])
      else if s.isRetryable.Some? && !s.isRetryable.value(e) then
        Outcome(Some(Wrapped("unretryable error", e)), attempt + 1, [])
      else
        var d := Next(s.backoff, attempt, u(attempt));
        if Done(ctx, 2 * attempt + 1) then Outcome(Some(ctx.cause), attempt + 1, [d])
        else Prepend([d], Attempts(v, s, ctx, f, u, attempt + 1, e))
  }

  /** The whole Do call. */
  function Run(v: Variant, s: Settings, ctx: Context, f: AttemptFunc, u: Draws): Outcome
  {
    Attempts(v, s, ctx, f, u, 0, None)
  }

  class Retrier {
    var backoff: Strategy
    var maxAttempts: int
    var isRetryable: Option<Classifier>

    function Config(): Settings
      reads this
    {
      Settings(backoff, maxAttempts, isRetryable)
    }

    /** New: the defaults, then every option in order. */
    constructor New(opts: seq<RetryOption>)
      ensures Config() == Configure(Defaults(), opts)
    {
      backoff := DefaultBackoff;
      maxAttempts := DefaultAttempts;
      isRetryable := Some(DefaultIsRetryable);
      new;
      var i := 0;
      while i < |opts|
        invariant i <= |opts|
        invariant Config() == Configure(Defaults(), opts[..i])
      {
        assert opts[..i + 1][..i] == opts[..i];
        match opts[i] {
          case WithMaxAttempts(n) => maxAttempts := n;
          case WithBackoff(b) => backoff := b;
          case WithIsRetryableFunc(g) => isRetryable := g;
        }
        i := i + 1;
      }
      assert opts[..|opts|] == opts;
    }

    /** Do, as written: a failed attempt ends the loop with nil. */
    method Do(ctx: Context, f: AttemptFunc, u: Draws) returns (result: Option<Error>, calls: nat, waits: seq<int>)
      ensures Outcome(result, calls, waits) == Run(AsWritten, Config(), ctx, f, u)
    {
      var err: Option<Error> := None;
      var attempt: nat := 0;
      waits := [];
      while attempt < maxAttempts
        invariant Run(AsWritten, Config(), ctx, f, u) == Prepend(waits, Attempts(AsWritten, Config(), ctx, f, u, attempt, err))
        decreases maxAttempts - attempt
      {
        if Done(ctx, 2 * attempt) {
          return Some(ctx.cause), attempt, waits;
        }
        err := f(attempt);
        if err.Some? {
          return None, attempt + 1, waits;
        }
        if isRetryable.Some? && !isRetryable.value(err) {
          return Some(Wrapped("unretryable error", err)), attempt + 1, waits;
        }
        var d := Next(backoff, attempt, u(attempt));
        assert (waits + [d]) + Attempts(AsWritten, Config(), ctx, f, u, attempt + 1, err).waits
            == waits + ([d] + Attempts(AsWritten, Config(), ctx, f, u, attempt + 1, err).waits);
        waits := waits + [d];
        if Done(ctx, 2 * attempt + 1) {
          return Some(ctx.cause), attempt + 1, waits;
        }
        attempt := attempt + 1;
      }
      return Some(Wrapped("all attempts failed", err)), attempt, waits;
    }

    /** Do with line 46 corrected: a successful attempt ends the loop with nil. */
    method DoAsIntended(ctx: Context, f: AttemptFunc, u: Draws) returns (result: Option<Error>, calls: nat, waits: seq<int>)
      ensures Outcome(result, calls, waits) == Run(AsIntended, Config(), ctx, f, u)
    {
      var err: Option<Error> := None;
      var attempt: nat := 0;
      waits := [];
      while attempt < maxAttempts
        invariant Run(AsIntended, Config(), ctx, f, u) == Prepend(waits, Attempts(AsIntended, Config(), ctx, f, u, attempt, err))
        decreases maxAttempts - attempt
      {
        if Done(ctx, 2 * attempt) {
          return Some(ctx.cause), attempt, waits;
        }
        err := f(attempt);
        if err.None? {
          return None, attempt + 1, waits;
        }
        if isRetryable.Some? && !isRetryable.value(err) {
          return Some(Wrapped("unretryable error", err)), attempt + 1, waits;
        }
        var d := Next(backoff, attempt, u(attempt));
        assert (waits + [d]) + Attempts(AsIntended, Config(), ctx, f, u, attempt + 1, err).waits
            == waits + ([d] + Attempts(AsIntended, Config(), ctx, f, u, attempt + 1, err).waits);
        waits := waits + [d];
        if Done(ctx, 2 * attempt + 1) {
          return Some(ctx.cause), attempt + 1, waits;
        }
        attempt := attempt + 1;
      }
      return Some(Wrapped("all attempts failed", err)), attempt, waits;
    }
  }

  // ---------------------------------------------------------------------
  // Properties of both variants

  /** f is called at most maxAttempts times, and only after `attempt`. */
  lemma {:induction false} CallsBounded(v: Variant, s: Settings, ctx: Context, f: AttemptFunc, u: Draws,
                                        attempt: nat, err: Option<Error>)
    ensures var o := Attempts(v, s, ctx, f, u, attempt, err);
            attempt <= o.calls && (attempt <= s.maxAttempts ==> o.calls <= s.maxAttempts)
    decreases if attempt < s.maxAttempts then s.maxAttempts - attempt else 0
  {
    if attempt < s.maxAttempts && !Done(ctx, 2 * attempt) {
      var e := f(attempt);
      if !Stops(v, e) && !(s.isRetryable.Some? && !s.isRetryable.value(e)) && !Done(ctx, 2 * attempt + 1) {
        CallsBounded(v, s, ctx, f, u, attempt + 1, e);
      }
    }
  }

  /** The i-th wait is the backoff schedule for attempt i, with draw u(i);
      there is at most one wait per call. */
  lemma {:induction false} WaitsFollowSchedule(v: Variant, s: Settings, ctx: Context, f: AttemptFunc, u: Draws,
                                               attempt: nat, err: Option<Error>)
    ensures var o := Attempts(v, s, ctx, f, u, attempt, err);
            attempt + |o.waits| <= o.calls &&
            forall i :: 0 <= i < |o.waits| ==> o.waits[i] == Next(s.backoff, attempt + i, u(attempt + i))
    decreases if attempt < s.maxAttempts then s.maxAttempts - attempt else 0
  {
    if attempt < s.maxAttempts && !Done(ctx, 2 * attempt) {
      var e := f(attempt);
      if !Stops(v, e) && !(s.isRetryable.Some? && !s.isRetryable.value(e)) && !Done(ctx, 2 * attempt + 1) {
        WaitsFollowSchedule(v, s, ctx, f, u, attempt + 1, e);
        var rest := Attempts(v, s, ctx, f, u, attempt + 1, e);
        var o := Attempts(v, s, ctx, f, u, attempt, err);
        assert o.waits == [Next(s.backoff, attempt, u(attempt))] + rest.waits;
        forall i | 0 < i < |o.waits|
          ensures o.waits[i] == Next(s.backoff, attempt + i, u(attempt + i))
        {
          assert o.waits[i] == rest.waits[i - 1];
        }
      }
    }
  }

  /** A context that is already done stops the loop before the first call. */
  lemma CancelledBeforeStart(v: Variant, s: Settings, ctx: Context, f: AttemptFunc, u: Draws)
    requires s.maxAttempts > 0 && Done(ctx, 0)
    ensures Run(v, s, ctx, f, u) == Outcome(Some(ctx.cause), 0, [])
  {
  }

  /** WithMaxAttempts(0) (or less) makes no call at all. */
  lemma NoAttemptsNoCall(v: Variant, s: Settings, ctx: Context, f: AttemptFunc, u: Draws)
    requires s.maxAttempts <= 0
    ensures Run(v, s, ctx, f, u) == Outcome(Some(Wrapped("all attempts failed", None)), 0, [])
  {
  }

  // ---------------------------------------------------------------------
  // The code as written

  /** An attempt that fails is reported as success. */
  lemma FailureReportedAsSuccess(s: Settings, f: AttemptFunc, u: Draws)
    requires s.maxAttempts > 0 && f(0).Some?
    ensures Run(AsWritten, s, Background, f, u) == Outcome(None, 1, [])
  {
  }

  /** As written, nil is returned exactly when the last call failed. */
  lemma {:induction false} AsWrittenNilMeansLastCallFailed(s: Settings, ctx: Context, f: AttemptFunc, u: Draws,
                                                           attempt: nat, err: Option<Error>)
    ensures var o := Attempts(AsWritten, s, ctx, f, u, attempt, err);
            o.result.None? <==> (o.calls > attempt && f(o.calls - 1).Some?)
    decreases if attempt < s.maxAttempts then s.maxAttempts - attempt else 0
  {
    if attempt < s.maxAttempts && !Done(ctx, 2 * attempt) {
      var e := f(attempt);
      if !Stops(AsWritten, e) && !(s.isRetryable.Some? && !s.isRetryable.value(e)) && !Done(ctx, 2 * attempt + 1) {
        AsWrittenNilMeansLastCallFailed(s, ctx, f, u, attempt + 1, e);
      }
    }
  }

  /** As written, the two wrappers of lines 51 and 61 only ever wrap nil: an
      attempt that is classified or retried has succeeded, so every error Do
      returns that is not the context's own is "<message>: <nil>". */
  lemma {:induction false} AsWrittenWrapsOnlyNil(s: Settings, ctx: Context, f: AttemptFunc, u: Draws,
                                                 attempt: nat, err: Option<Error>)
    requires err.None?
    ensures var r := Attempts(AsWritten, s, ctx, f, u, attempt, err).result;
            r != Some(ctx.cause) && r.Some? && r.value.Wrapped? ==> r.value.inner.None?
    decreases if attempt < s.maxAttempts then s.maxAttempts - attempt else 0
  {
    if attempt < s.maxAttempts && !Done(ctx, 2 * attempt) {
      var e := f(attempt);
      if !Stops(AsWritten, e) && !(s.isRetryable.Some? && !s.isRetryable.value(e)) && !Done(ctx, 2 * attempt + 1) {
        AsWrittenWrapsOnlyNil(s, ctx, f, u, attempt + 1, e);
      }
    }
  }

  /** As written, the default classifier turns a first successful attempt into
      the error "unretryable error: <nil>". */
  lemma AsWrittenDefaultSuccessIsError(f: AttemptFunc, u: Draws)
    requires f(0).None?
    ensures Run(AsWritten, Defaults(), Background, f, u) == Outcome(Some(Wrapped("unretryable error", None)), 1, [])
  {
  }

  // ---------------------------------------------------------------------
  // The code as intended

  /** As intended, nil is returned exactly when the last call succeeded. */
  lemma {:induction false} NilIffLastCallSucceeded(s: Settings, ctx: Context, f: AttemptFunc, u: Draws,
                                                   attempt: nat, err: Option<Error>)
    ensures var o := Attempts(AsIntended, s, ctx, f, u, attempt, err);
            o.result.None? <==> (o.calls > attempt && f(o.calls - 1).None?)
    decreases if attempt < s.maxAttempts then s.maxAttempts - attempt else 0
  {
    if attempt < s.maxAttempts && !Done(ctx, 2 * attempt) {
      var e := f(attempt);
      if !Stops(AsIntended, e) && !(s.isRetryable.Some? && !s.isRetryable.value(e)) && !Done(ctx, 2 * attempt + 1) {
        NilIffLastCallSucceeded(s, ctx, f, u, attempt + 1, e);
      }
    }
  }

  /** The classifier lets error `e` be retried. */
  predicate Retries(s: Settings, e: Option<Error>)
  {
    s.isRetryable.None? || s.isRetryable.value(e)
  }

  /** Attempts before k fail with retryable errors and attempt k succeeds:
      Do returns nil after exactly k + 1 calls. */
  lemma {:induction false} SucceedsAfterRetries(s: Settings, f: AttemptFunc, u: Draws, k: nat,
                                                attempt: nat, err: Option<Error>)
    requires attempt <= k < s.maxAttempts
    requires forall j :: attempt <= j < k ==> f(j).Some? && Retries(s, f(j))
    requires f(k).None?
    ensures var o := Attempts(AsIntended, s, Background, f, u, attempt, err);
            o.result.None? && o.calls == k + 1
    decreases k - attempt
  {
    if attempt < k {
      SucceedsAfterRetries(s, f, u, k, attempt + 1, f(attempt));
    }
  }

  /** An error the classifier rejects ends Do after one call, wrapped. */
  lemma UnretryableStopsAtOnce(s: Settings, f: AttemptFunc, u: Draws)
    requires s.maxAttempts > 0 && f(0).Some? && !Retries(s, f(0))
    ensures Run(AsIntended, s, Background, f, u) == Outcome(Some(Wrapped("unretryable error", f(0))), 1, [])
  {
  }

  /** Every attempt fails with a retryable error: Do makes maxAttempts calls
      and wraps the last error. */
  lemma {:induction false} ExhaustedWrapsLastError(s: Settings, f: AttemptFunc, u: Draws,
                                                   attempt: nat, err: Option<Error>)
    requires 0 < s.maxAttempts && attempt <= s.maxAttempts
    requires attempt == s.maxAttempts ==> attempt > 0 && err == f(attempt - 1)
    requires forall j :: attempt <= j < s.maxAttempts ==> f(j).Some? && Retries(s, f(j))
    ensures Attempts(AsIntended, s, Background, f, u, attempt, err).result
            == Some(Wrapped("all attempts failed", f(s.maxAttempts - 1)))
    ensures Attempts(AsIntended, s, Background, f, u, attempt, err).calls == s.maxAttempts
    decreases s.maxAttempts - attempt
  {
    if attempt < s.maxAttempts {
      ExhaustedWrapsLastError(s, f, u, attempt + 1, f(attempt));
    }
  }
}
