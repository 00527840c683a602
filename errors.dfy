/** The Option type used for Go's nil-able values. */
module Wrappers {
  datatype Option<+T> = None | Some(value: T)
}

/**
 * The repository's error values (app/internal/repository/errors.go) and Go's
 * error-chain semantics: `errors.Is` and `errors.As` walk the `Unwrap` chain.
 * A Go `error` that may be nil is an `Option<Error>`.
 */
module Errors {
  import opened Wrappers

  datatype Error =
    | NoRows                                  // pgx.ErrNoRows
    | PgError(code: string, message: string)  // *pgconn.PgError, with its SQLSTATE code
    | InvalidID                               // ErrInvalidID
    | NilValue                                // ErrNilValue
    | Duplicate                               // ErrDuplicate
    | ForeignKeyViolation                     // ErrForeignKeyViolation
    | NoRowsAffected                          // ErrNoRowsAffected
    | Proxy(msg: string, background: Error)   // repository.proxyError
    | Wrapped(msg: string, inner: Option<Error>)  // fmt.Errorf("...: %w", inner)
    | Canceled                                // context.Canceled
    | DeadlineExceeded                        // context.DeadlineExceeded
    | Transient(description: string)          // any other store or network failure
    | ScanNonPointer                          // rows.Scan given a destination that is not a pointer
    | ScanArity(columns: nat, destinations: nat)  // rows.Scan given fewer destinations than columns

  /** A (value, error) pair whose value is meaningful only when the error is nil. */
  datatype Result<+T> = Ok(value: T) | Err(error: Error)

  /** ErrNotFound is a proxy that unwraps to pgx.ErrNoRows. */
  const ErrNotFound: Error := Proxy("not found", NoRows)

  /** SQLSTATE codes, from Appendix A of the PostgreSQL documentation. */
  const UniqueViolation: string := "23505"
  const ForeignKeyViolationCode: string := "23503"

  function Unwrap(e: Error): Option<Error>
  {
    match e
    case Proxy(_, b) => Some(b)
    case Wrapped(_, i) => i
    case _ => None
  }

  /** `target` occurs on the unwrap chain that starts at `e`. */
  predicate ChainHas(e: Error, target: Error)
    decreases e
  {
    e == target ||
    match e
    case Proxy(_, b) => ChainHas(b, target)
    case Wrapped(_, Some(i)) => ChainHas(i, target)
    case _ => false
  }

  /** errors.Is: a nil error is never any target. */
  predicate Is(err: Option<Error>, target: Error)
  {
    err.Some? && ChainHas(err.value, target)
  }

  /** errors.As(err, &pgErr): the code of the first *PgError on the chain. */
  function PgCode(e: Error): (code: Option<string>)
    decreases e
  {
    match e
    case PgError(c, _) => Some(c)
    case Proxy(_, b) => PgCode(b)
    case Wrapped(_, Some(i)) => PgCode(i)
    case _ => None
  }

  /** wrapDBError: maps store errors to the repository's sentinels. */
  function WrapDBError(err: Option<Error>): (r: Option<Error>)
    ensures err.None? <==> r.None?
  {
    match err
    case None => None
    case Some(e) =>
      if ChainHas(e, NoRows) then Some(ErrNotFound)
      else match PgCode(e)
        case Some(c) =>
          if c == UniqueViolation then Some(Duplicate)
          else if c == ForeignKeyViolationCode then Some(ForeignKeyViolation)
          else Some(Wrapped("postgres error [" + c + "]", err))
        case None => err
  }

  /** Which sentinel wrapDBError maps each kind of store error to: no rows
      becomes ErrNotFound, the unique and foreign-key codes their sentinels,
      another postgres code the generic wrapper, and anything else is
      returned unchanged. */
  lemma WrapDBErrorMaps(err: Option<Error>)
    ensures Is(err, NoRows) ==> WrapDBError(err) == Some(ErrNotFound)
    ensures err.Some? && !Is(err, NoRows) && PgCode(err.value) == Some(UniqueViolation) ==>
              WrapDBError(err) == Some(Duplicate)
    ensures err.Some? && !Is(err, NoRows) && PgCode(err.value) == Some(ForeignKeyViolationCode) ==>
              WrapDBError(err) == Some(ForeignKeyViolation)
    ensures err.Some? && !Is(err, NoRows) && PgCode(err.value).None? ==> WrapDBError(err) == err
    ensures err.Some? && !Is(err, NoRows) && PgCode(err.value).Some?
            && PgCode(err.value).value != UniqueViolation && PgCode(err.value).value != ForeignKeyViolationCode
            ==> WrapDBError(err) == Some(Wrapped("postgres error [" + PgCode(err.value).value + "]", err))
  {
  }

  /** Every error on the chain of `e` is still on the chain of the wrapper. */
  lemma {:induction false} WrappedKeepsChain(msg: string, e: Error, target: Error)
    requires ChainHas(e, target)
    ensures Is(Some(Wrapped(msg, Some(e))), target)
  {
  }

  /** ErrNotFound unwraps to pgx.ErrNoRows, so wrapping it again is a no-op. */
  lemma NotFoundIsNoRows()
    ensures Is(Some(ErrNotFound), NoRows)
    ensures WrapDBError(Some(ErrNotFound)) == Some(ErrNotFound)
  {
  }

  /** A second wrapDBError changes nothing unless the first produced the
      generic "postgres error [code]" wrapper (which nests one level deeper). */
  lemma {:induction false} WrapDBErrorIdempotent(err: Option<Error>)
    requires err.None? || Is(err, NoRows) || PgCode(err.value).None?
             || PgCode(err.value) == Some(UniqueViolation)
             || PgCode(err.value) == Some(ForeignKeyViolationCode)
    ensures WrapDBError(WrapDBError(err)) == WrapDBError(err)
  {
    if err.Some? && !Is(err, NoRows) && PgCode(err.value).None? {
      assert WrapDBError(err) == err;
    }
  }

  /** The generic postgres wrapper is not idempotent: a store error that passes
      through two repository layers is wrapped twice. */
  lemma DoubleWrapOfOtherPgError()
    ensures var e := Some(PgError("40001", "serialization failure"));
            WrapDBError(WrapDBError(e)) == Some(Wrapped("postgres error [40001]", WrapDBError(e)))
  {
    var e := Some(PgError("40001", "serialization failure"));
    assert !ChainHas(e.value, NoRows);
    assert "40001"[0] != UniqueViolation[0] && "40001"[0] != ForeignKeyViolationCode[0];
    assert "postgres error [" + "40001" + "]" == "postgres error [40001]";
    assert WrapDBError(e) == Some(Wrapped("postgres error [40001]", e));
    assert !ChainHas(WrapDBError(e).value, NoRows);
  }
}
