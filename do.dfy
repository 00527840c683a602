/**
 * The stand-alone retry loop of app/internal/retry/do.go: no backoff strategy
 * and no classifier; attempt `a` waits `a` nanoseconds, and maxAttempts == 0
 * means no bound on the number of attempts.
 */
module RetryDo {
  import opened Wrappers
  import opened Errors
  import opened Retry

  /** The loop ends: it is bounded, or the context is eventually done, or some
      attempt eventually ends it. Without this the Go loop never returns. */
  ghost predicate Halts(v: Variant, ctx: Context, maxAttempts: int, f: AttemptFunc)
  {
    maxAttempts != 0 || ctx.doneAt.Some? || exists k: nat :: Stops(v, f(k))
  }

  /** An attempt count past which the loop has certainly ended. */
  ghost function Horizon(v: Variant, ctx: Context, maxAttempts: int, f: AttemptFunc): nat
    requires Halts(v, ctx, maxAttempts, f)
  {
    if maxAttempts > 0 then maxAttempts
    else if maxAttempts < 0 then 0
    else if ctx.doneAt.Some? then ctx.doneAt.value
    else var k: nat :| Stops(v, f(k)); k + 1
  }

  /** The loop condition of line 14. */
  predicate InLoop(maxAttempts: int, attempt: nat)
  {
    maxAttempts == 0 || attempt < maxAttempts
  }

  /** The loop from attempt `attempt` on; no earlier attempt ended it. */
  function DoAttempts(v: Variant, ctx: Context, maxAttempts: int, f: AttemptFunc,
                      attempt: nat, err: Option<Error>): Outcome
    requires Halts(v, ctx, maxAttempts, f)
    requires attempt <= Horizon(v, ctx, maxAttempts, f)
    requires forall j :: 0 <= j < attempt ==> !Stops(v, f(j))
    decreases Horizon(v, ctx, maxAttempts, f) - attempt
  {
    if !InLoop(maxAttempts, attempt) then Outcome(err, attempt, [])
    else if Done(ctx, 2 * attempt) then Outcome(Some(ctx.cause), attempt, [])
    else
      var e := f(attempt);
      if Stops(v, e) then Outcome(None, attempt + 1, [])
      else if Done(ctx, 2 * attempt + 1) then Outcome(Some(ctx.cause), attempt + 1, [attempt])
      else Prepend([attempt], DoAttempts(v, ctx, maxAttempts, f, attempt + 1, e))
  }

  function DoRun(v: Variant, ctx: Context, maxAttempts: int, f: AttemptFunc): Outcome
    requires Halts(v, ctx, maxAttempts, f)
  {
    DoAttempts(v, ctx, maxAttempts, f, 0, None)
  }

  /** One attempt that neither ends the loop nor is cut short by the context:
      its wait joins the waits already made, and the loop goes on from the
      next attempt with this attempt's error. */
  lemma DoStep(v: Variant, ctx: Context, maxAttempts: int, f: AttemptFunc,
               attempt: nat, err: Option<Error>, waits: seq<int>)
    requires Halts(v, ctx, maxAttempts, f)
    requires attempt <= Horizon(v, ctx, maxAttempts, f)
    requires forall j :: 0 <= j < attempt ==> !Stops(v, f(j))
    requires InLoop(maxAttempts, attempt) && !Done(ctx, 2 * attempt) && !Stops(v, f(attempt)) && !Done(ctx, 2 * attempt + 1)
    ensures attempt + 1 <= Horizon(v, ctx, maxAttempts, f)
    ensures forall j :: 0 <= j < attempt + 1 ==> !Stops(v, f(j))
    ensures Prepend(waits, DoAttempts(v, ctx, maxAttempts, f, attempt, err))
            == Prepend(waits + [attempt], DoAttempts(v, ctx, maxAttempts, f, attempt + 1, f(attempt)))
  {
    var rest := DoAttempts(v, ctx, maxAttempts, f, attempt + 1, f(attempt));
    assert (waits + [attempt]) + rest.waits == waits + ([attempt] + rest.waits);
  }

  /** Do, as written: a failed attempt ends the loop with nil. */
  method Do(ctx: Context, maxAttempts: int, f: AttemptFunc) returns (result: Option<Error>, calls: nat, waits: seq<int>)
    requires Halts(AsWritten, ctx, maxAttempts, f)
    ensures Outcome(result, calls, waits) == DoRun(AsWritten, ctx, maxAttempts, f)
  {
    ghost var horizon := Horizon(AsWritten, ctx, maxAttempts, f);
    var err: Option<Error> := None;
    var attempt: nat := 0;
    waits := [];
    while maxAttempts == 0 || attempt < maxAttempts
      invariant attempt <= horizon
      invariant forall j :: 0 <= j < attempt ==> !Stops(AsWritten, f(j))
      invariant DoRun(AsWritten, ctx, maxAttempts, f)
                == Prepend(waits, DoAttempts(AsWritten, ctx, maxAttempts, f, attempt, err))
      decreases horizon - attempt
    {
      if Done(ctx, 2 * attempt) {
        return Some(ctx.cause), attempt, waits;
      }
      if f(attempt).Some? {
        return None, attempt + 1, waits;
      }
      if Done(ctx, 2 * attempt + 1) {
        return Some(ctx.cause), attempt + 1, waits + [attempt];
      }
      DoStep(AsWritten, ctx, maxAttempts, f, attempt, err, waits);
      err := f(attempt);
      waits := waits + [attempt];
      attempt := attempt + 1;
    }
    return err, attempt, waits;
  }

  /** Do with line 19 corrected: a successful attempt ends the loop with nil. */
  method DoAsIntended(ctx: Context, maxAttempts: int, f: AttemptFunc) returns (result: Option<Error>, calls: nat, waits: seq<int>)
    requires Halts(AsIntended, ctx, maxAttempts, f)
    ensures Outcome(result, calls, waits) == DoRun(AsIntended, ctx, maxAttempts, f)
  {
    ghost var horizon := Horizon(AsIntended, ctx, maxAttempts, f);
    var err: Option<Error> := None;
    var attempt: nat := 0;
    waits := [];
    while maxAttempts == 0 || attempt < maxAttempts
      invariant attempt <= horizon
      invariant forall j :: 0 <= j < attempt ==> !Stops(AsIntended, f(j))
      invariant DoRun(AsIntended, ctx, maxAttempts, f)
                == Prepend(waits, DoAttempts(AsIntended, ctx, maxAttempts, f, attempt, err))
      decreases horizon - attempt
    {
      if Done(ctx, 2 * attempt) {
        return Some(ctx.cause), attempt, waits;
      }
      if f(attempt).None? {
        return None, attempt + 1, waits;
      }
      if Done(ctx, 2 * attempt + 1) {
        return Some(ctx.cause), attempt + 1, waits + [attempt];
      }
      DoStep(AsIntended, ctx, maxAttempts, f, attempt, err, waits);
      err := f(attempt);
      waits := waits + [attempt];
      attempt := attempt + 1;
    }
    return err, attempt, waits;
  }

  /** As written, Do never reports a failure of f: its result is nil or the
      context's error, and nil whenever the context is never done. */
  lemma {:induction false} AsWrittenNeverFails(ctx: Context, maxAttempts: int, f: AttemptFunc,
                                               attempt: nat, err: Option<Error>)
    requires Halts(AsWritten, ctx, maxAttempts, f)
    requires attempt <= Horizon(AsWritten, ctx, maxAttempts, f)
    requires forall j :: 0 <= j < attempt ==> !Stops(AsWritten, f(j))
    requires err.None?
    ensures var r := DoAttempts(AsWritten, ctx, maxAttempts, f, attempt, err).result;
            r.None? || r == Some(ctx.cause)
    ensures ctx.doneAt.None? ==> DoAttempts(AsWritten, ctx, maxAttempts, f, attempt, err).result.None?
    decreases Horizon(AsWritten, ctx, maxAttempts, f) - attempt
  {
    if InLoop(maxAttempts, attempt) && !Done(ctx, 2 * attempt) {
      var e := f(attempt);
      if !Stops(AsWritten, e) && !Done(ctx, 2 * attempt + 1) {
        AsWrittenNeverFails(ctx, maxAttempts, f, attempt + 1, e);
      }
    }
  }

  /** As intended, the unbounded loop (maxAttempts == 0) on a context that is
      never done calls f until its first success k and returns nil. */
  lemma {:induction false} UnboundedRunsToFirstSuccess(f: AttemptFunc, k: nat, attempt: nat, err: Option<Error>)
    requires f(k).None? && forall j :: 0 <= j < k ==> f(j).Some?
    requires Halts(AsIntended, Background, 0, f)
    requires attempt <= k
    requires attempt <= Horizon(AsIntended, Background, 0, f)
    requires forall j :: 0 <= j < attempt ==> !Stops(AsIntended, f(j))
    ensures var o := DoAttempts(AsIntended, Background, 0, f, attempt, err);
            o.result.None? && o.calls == k + 1 && o.waits == SeqRange(attempt, k)
    decreases k - attempt
  {
    if attempt < k {
      UnboundedRunsToFirstSuccess(f, k, attempt + 1, f(attempt));
    }
  }

  /** [lo, lo + 1, ..., hi - 1]: the waits of do.go are the attempt numbers. */
  function SeqRange(lo: nat, hi: nat): seq<int>
    decreases hi - lo
  {
    if lo >= hi then [] else [lo] + SeqRange(lo + 1, hi)
  }

  /** As intended, a bounded loop whose attempts all fail on a context that is
      never done makes maxAttempts calls and returns the last error itself. */
  lemma {:induction false} BoundedReturnsLastError(maxAttempts: nat, f: AttemptFunc, attempt: nat, err: Option<Error>)
    requires 0 < maxAttempts && attempt <= maxAttempts
    requires attempt == maxAttempts ==> attempt > 0 && err == f(attempt - 1)
    requires forall j :: 0 <= j < maxAttempts ==> f(j).Some?
    ensures Halts(AsIntended, Background, maxAttempts, f)
    ensures DoAttempts(AsIntended, Background, maxAttempts, f, attempt, err)
            == Outcome(f(maxAttempts - 1), maxAttempts, SeqRange(attempt, maxAttempts))
    decreases maxAttempts - attempt
  {
    if attempt < maxAttempts {
      BoundedReturnsLastError(maxAttempts, f, attempt + 1, f(attempt));
    }
  }
}
